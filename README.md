# Jadhr core, modelled in Dafny

Jadhr is a vocabulary trainer for Arabic roots. A user uploads a dictionary of roots as a JSON or a CSV file. They answer ten-question flash-card sessions, browse and search the dictionary, and follow their progress on a dashboard. This project models the logic behind those pages and proves properties of it.

The modules follow the program's structure:

- `Types` (types.dfy): the records and the identity of a root. An id is a JavaScript number or string; a CSV row without an `id` column gives `undefined`. The key under which a plain object stores a root's progress is the id converted to a string. So the number 1 and the string `"1"` are two roots in the root list, but they share one progress entry.
- `Progress` (progress.dfy): the answer rule.
  - The first answer to a root starts from an untouched record.
  - Each answer raises one counter and stamps the review time.
  - The status becomes *learning*, or *mastered* once more than three answers were correct.
  - Only that root's entry of the mapping changes.
- `RootMerge` (merge.dfy): the local-mode upload merge, which removes duplicate ids with a JavaScript `Map` keyed by the tagged id. The Map's insertion order gives the order of the result.
  - An id keeps the position where it first occurred.
  - The value is the last root given with that id.
  - Numbers and strings never collide.
- `DataContext` (data_context.dfy): the shared provider state as a class.
  - The state is the root list, the progress mapping, the loading flag and the browser's local store.
  - Its operations are the session effect, upload, answer recording and clearing.
  - The remote progress rows are read into the mapping by a loop.
  - In local mode, uploading and recording an answer keep the store in step with the in-memory state when it was in step before. Clearing puts it in step whatever the state was before. Loading puts it in step when both stored documents are readable.
  - Signing out empties the in-memory state but leaves the store as it was, so the two may differ afterwards. A load whose roots document is unreadable keeps both the roots and the progress; one whose roots document is readable but whose progress document is not installs the stored roots and keeps the progress.
- `Quiz` (quiz.dfy): the quiz page as a class holding the question, the reveal flag, the finished flag and the score. It keeps the invariant that the session is over exactly when ten answers have been counted.
- `Upload` (upload.dfy): how a file is turned into roots.
  - The file name chooses the format.
  - For JSON, the document's shape decides where the roots are: a bare array, `roots`, or `data`, in that order.
  - For CSV, each row is mapped to a root: quotes are rewritten in the list cells, and difficulty and frequency rank get their defaults. Rows with no Arabic form are dropped.
  - Every failure has its own error message.
  - The page's messages after an upload are modelled too.
- `Dashboard` (dashboard.dfy): the status counts and the three chart bars. The "new" figure is the number of roots minus the mastered and learning counts, and it can be negative. It is negative only when progress entries outlive their roots; otherwise it is never below zero.
- `Dictionary` (dictionary.dfy): the search filter.
  - The Arabic form is matched as typed; the transliteration and the meaning are matched without regard to case.
  - Each card shows at most three words and a "+ n more words" line.
  - The "No roots found" message shows when no root matches.
- `Sequences` and `Wrappers`: the subsequence relation and the `Option`/`Result`/`Outcome` types.

Foreign code appears only through its results:

- the remote table store: its query replies and the outcome of each write are parameters;
- `JSON.parse`, the CSV parser and `parseInt`: the parsed document, the CSV records, and a `Parsers` value of arrow functions;
- `toLowerCase`: an uninterpreted string function;
- `Math.random`: a nondeterministic choice of a valid index;
- `new Date().toISOString()`: a time-stamp parameter.

## Model

| member | source | states |
|---|---|---|
| Types.NatToString | src/context/DataContext.tsx:105 | The decimal form of a number used as an object key is a non-empty string of digits, with no leading zero. |
| Types.NatToStringRoundTrip | src/context/DataContext.tsx:105 | Reading the decimal key back gives the number, so the key conversion loses nothing. |
| Types.IntToStringInjective | src/context/DataContext.tsx:105 | Distinct integers have distinct string keys. |
| Types.NumKeysInjective | src/context/DataContext.tsx:89 | Two numeric root ids share a progress entry only when they are equal. |
| Types.NumberAndStringAlias | src/types.ts:19 | The ids 1 and "1" are different values that name the same progress entry. |
| Types.KeyAliases | src/context/DataContext.tsx:105 | `Key` turns an id into its property name. Two different ids share a name only as a number and its decimal string, or as `undefined` and "undefined". |
| Progress.Untouched | src/context/DataContext.tsx:89-95 | A root with no record starts with this record: its own id, both counters at 0, never reviewed, status new. |
| Progress.StatusAfterAnswer | src/context/DataContext.tsx:102 | After an answer the status is never new; it is mastered exactly when the correct count exceeds 3. |
| Progress.NextProgress | src/context/DataContext.tsx:89-103 | The record after an answer starts from the stored record, or the untouched one. The counter for the answer goes up by one and the other stays the same. The review time is `now`. The status is mastered exactly when more than 3 answers were correct. Every other field is kept. |
| Progress.RecordAnswer | src/context/DataContext.tsx:105 | The mapping gains the answered root's key and that entry becomes the next record; every other entry is unchanged. |
| Progress.Lookup | src/context/DataContext.tsx:89 | Reading `progress[key]` finds an entry exactly when the key is present, and then gives that entry. |
| Progress.NextProgressConsistent | src/context/DataContext.tsx:89-103 | Invariant: every record an answer produces has the status its counters call for, and so does the untouched record. |
| Progress.MasteryIsSticky | src/context/DataContext.tsx:99-102 | Once a consistent record is mastered, any later answer, right or wrong, leaves it mastered. |
| Progress.Replay | src/context/DataContext.tsx:88-106 | A non-empty run of answers always leaves a record; an empty run leaves the stored one. |
| Progress.ReplayCounts | src/context/DataContext.tsx:88-106 | Starting from no record, a run of answers leaves a record that counts exactly the correct and the incorrect answers. It is mastered exactly when more than 3 of them were correct, and it is never new. |
| Progress.FourCorrectAnswers | src/context/DataContext.tsx:102 | Correct answers to a new root give learning three times, then mastered at the fourth. |
| Progress.AliasedAnswersShareEntry | src/context/DataContext.tsx:105 | One answer under id 1 and one under id "1" add up on one entry. That entry keeps the id it was created with. |
| RootMerge.MergeSpec | src/context/DataContext.tsx:73-75 | The merged list (`Merge`: old + new set one by one into a `Map`) has no duplicate ids and holds exactly the ids of old + new. Each element is the last root given with its id. The elements are in the order in which their ids first appear. |
| RootMerge.MergeIdempotent | src/context/DataContext.tsx:71-77 | Uploading the same roots again leaves the merged list unchanged. |
| RootMerge.MergeDisjoint | src/context/DataContext.tsx:73-75 | When no id repeats, the merge is plain concatenation and the length is the sum. |
| RootMerge.MergeOverlapping | src/context/DataContext.tsx:73-75 | Re-uploading only ids that already exist keeps the length, the ids and their order. Each re-uploaded root is replaced by its last uploaded version. |
| RootMerge.MergeExample | src/context/DataContext.tsx:73-75 | Merging {1:old} with {1:new, 2:x} gives [{1:new}, {2:x}]. |
| RootMerge.MergeKeepsNumberAndStringApart | src/context/DataContext.tsx:75 | A root with id 1 and a root with id "1" both survive the merge. |
| RootMerge.Find | src/context/DataContext.tsx:75 | Looking up an id finds a root with that id, or nothing exactly when the id is absent. |
| RootMerge.FindIsFirst | src/context/DataContext.tsx:75 | The root found is the first one with that id: no earlier root has it. |
| RootMerge.PutIds | src/context/DataContext.tsx:75 | `Map.set` on a list with distinct ids (`Put`) keeps the ids distinct. The id sequence is unchanged when the id was present and gains it at the end otherwise. |
| RootMerge.PutFind | src/context/DataContext.tsx:75 | After `Put`, the set id finds the new root and every other id finds what it found before. |
| RootMerge.PutAllFind | src/context/DataContext.tsx:75 | After setting a run of roots (`PutAll`), an id of the run finds the last root given with it; any other id finds what it found before. |
| RootMerge.PutAllDistinct | src/context/DataContext.tsx:75 | `PutAll` keeps ids distinct and holds exactly the ids of the start and of the run. |
| DataContext.RowsOrEmpty | src/context/DataContext.tsx:46 | A `null` row set reads as an empty list; otherwise the rows themselves. |
| DataContext.ProgressIndexKeys | src/context/DataContext.tsx:55-58 | The mapping built from progress rows has an entry for exactly the keys of the rows' root ids. |
| DataContext.ProgressIndexLastWins | src/context/DataContext.tsx:55-58 | Each entry is the last row with that key. |
| DataContext.BuildProgressMap | src/context/DataContext.tsx:55-59 | The forEach loop builds exactly that mapping, keyed by the rows' root ids. |
| DataContext.Context.constructor | src/context/DataContext.tsx:19-21 | A new provider has no roots and no progress, and is loading. |
| DataContext.Context.SessionEnded | src/context/DataContext.tsx:24-28 | With no user signed in, roots and progress are emptied, loading ends, and no store is touched. |
| DataContext.Context.LoadData | src/context/DataContext.tsx:31-66 | Local mode installs the stored roots and the stored progress; an unreadable roots document stops the load before progress. Remote mode installs the fetched roots (`null` reads as none) and then the mapping of the progress rows. A failed query keeps the earlier state. Loading is false at the end, and a readable store leaves the state in step with it. |
| DataContext.Context.UploadRoots | src/context/DataContext.tsx:71-86 | Local mode: the roots become the merge of old and new, the store holds the result, and the state stays in step with the store. Remote mode: the upsert's outcome is the result, and only a successful upsert followed by a reload that returned rows replaces the roots. Progress and loading do not change. |
| DataContext.Context.UpdateProgress | src/context/DataContext.tsx:88-117 | The mapping becomes RecordAnswer of the old one, in both modes and before any write. Local mode persists it and stays in step; remote mode returns the write's outcome. Roots do not change. |
| DataContext.Context.ClearData | src/context/DataContext.tsx:119-129 | Local mode removes both store keys and empties roots and progress, which leaves the state in step. Remote mode changes nothing. |
| Quiz.QuizSession.constructor | src/pages/Quiz.tsx:11-14 | A session starts with no question, the answer hidden, not finished, and a 0/0 score; the invariant holds. |
| Quiz.QuizSession.NextQuestion | src/pages/Quiz.tsx:22-27 | With roots, the question is one of them and its answer is hidden; with none, nothing changes. The score never changes. |
| Quiz.QuizSession.RootsChanged | src/pages/Quiz.tsx:16-20 | A question is drawn exactly when there are roots, no current question, and the session is not finished. |
| Quiz.QuizSession.RevealAnswer | src/pages/Quiz.tsx:100 | The answer is shown; nothing else changes. |
| Quiz.QuizSession.HandleAnswer | src/pages/Quiz.tsx:29-39 | With no question, nothing happens. Otherwise the answer is recorded in the context, and in local mode the store holds the new mapping; in remote mode the store is untouched. A failed remote write leaves the score and the question as they were. On success the score counts the answer, and the session ends when 9 answers had already been counted; if not, a new question is drawn. The invariant "finished exactly after 10 answers" is kept, and so is an in-step store. |
| Quiz.QuizSession.RestartQuiz | src/pages/Quiz.tsx:41-45 | The score goes back to 0/0, the session reopens, and a fresh question is drawn when there are roots. |
| Upload.SelectRoots | src/pages/Upload.tsx:29 | A bare array is used as is. For an object, `roots` wins even when it is empty, then `data`, then nothing. A scalar gives no roots. Only `null` makes it throw. |
| Upload.ReplaceQuotes | src/pages/Upload.tsx:43 | Every `'` becomes `"` and every other character is kept, so no `'` remains. |
| Upload.IntOr | src/pages/Upload.tsx:46-47 | The parsed integer is used unless it is NaN or 0, in which case the default is used. The result is never 0 when the default is not 0. |
| Upload.ListCell | src/pages/Upload.tsx:43-45 | A missing or empty list cell gives []; otherwise the cell is parsed after the quote rewrite. |
| Upload.EndsWithAppend | src/pages/Upload.tsx:25 | A name ends with a suffix exactly when it is some text followed by that suffix. |
| Upload.RowToRootFields | src/pages/Upload.tsx:39-47 | A row (`RowToRoot`) fails exactly when one of its list cells fails, with that cell's error, the letters first. Otherwise: the id is the `id` cell as a string, or `undefined`, never a number. The three text cells are kept, and the lists are the parsed cells. Difficulty and rank are the parsed integers unless these are NaN or 0, in which case they fall back to 1 and 999. |
| Upload.MapRows | src/pages/Upload.tsx:39-47 | Every row is mapped in order, or the result is the error of the first row that throws. |
| Upload.KeepNamed | src/pages/Upload.tsx:48 | The result keeps, in order and with their multiplicities, exactly the roots whose Arabic form is not empty. |
| Upload.CsvRoots | src/pages/Upload.tsx:39-48 | A CSV file fails exactly when a row throws, with the first such row's error. Otherwise the result is `KeepNamed` of the mapped rows: each named row's root once, in row order. It holds only rows' roots with a non-empty Arabic form, each with a string or `undefined` id, and every such row's root is in it. |
| Upload.SuccessMessageSpec | src/pages/Upload.tsx:33 | The success message determines the count it reports, and it never equals an error message (`ErrorPrefix` plus a text). |
| Upload.PlanUpload | src/pages/Upload.tsx:24-64 | A `.json` name whose document selects a non-empty list submits that list; a `.csv` name (not `.json`) whose rows give a non-empty list submits that list. Nothing else is submitted. Each failure gives its message: "Error: " plus the parse or `null` error; "CSV Parse Error: " plus the parser's error; "Error parsing CSV data: " plus the row error; the two "No valid roots" messages; and the unsupported-format message exactly when the name has neither suffix. |
| Upload.EmptyRootsArrayWins | src/pages/Upload.tsx:29-30 | An object with an empty `roots` array is refused even when `data` holds roots. |
| Upload.UploadPage.constructor | src/pages/Upload.tsx:12-14 | The page starts not loading, with no message and no success. |
| Upload.UploadPage.HandleFileUpload | src/pages/Upload.tsx:16-70 | No file: nothing happens. A refused file shows its message and leaves the context alone. A submitted file goes through UploadRoots. In local mode the roots become the merge and the store holds them; in remote mode the roots are reloaded and the store is untouched. The page shows the success count or the prefixed error, and loading ends false. An in-step store stays in step. |
| Dashboard.CountStatus | src/pages/Dashboard.tsx:10-11 | The number of progress entries with a given status is at most the number of entries. |
| Dashboard.Summarize | src/pages/Dashboard.tsx:9-12 | The total is the number of roots, and mastered and learning count the entries with those statuses. The new figure is what is left of the total. |
| Dashboard.ChartData | src/pages/Dashboard.tsx:14-18 | There are three bars, Mastered, Learning and New, in that order. Each carries its own figure and its colour (#000000, #666666, #cccccc). |
| Dashboard.StatusCountsPartition | src/pages/Dashboard.tsx:10-11 | The entries with each status (`KeysWithStatus`) are disjoint and together are all the progress entries, so the three counts add up to the number of entries. |
| Dashboard.ChartAddsUpToRoots | src/pages/Dashboard.tsx:9-18 | The chart's bars add up to the number of roots. |
| Dashboard.NewRootsNonNegative | src/pages/Dashboard.tsx:12 | When every progress entry belongs to a root in the list, the new figure is at least 0. |
| Dashboard.OrphanedProgressGivesNegativeNew | src/pages/Dashboard.tsx:12 | A mastered entry with no roots shows -1 new roots. |
| Dictionary.Includes | src/pages/Dictionary.tsx:14-16 | `s.includes(t)` holds exactly when `t` occurs at some position of `s`. |
| Dictionary.FilterRoots | src/pages/Dictionary.tsx:12-17 | The result is an ordered subsequence of the roots. It keeps, with their multiplicities, exactly the roots that `Matches` the search. |
| Dictionary.EmptySearchKeepsAll | src/pages/Dictionary.tsx:10-17 | With the initial empty search, every root is shown. |
| Dictionary.NoRootsFound | src/pages/Dictionary.tsx:83-87 | "No roots found" shows exactly when no root matches. |
| Dictionary.SearchCaseFolding | src/pages/Dictionary.tsx:13-16 | The `Matches` predicate ignores case on the transliteration and the meaning only. Two searches that lowercase alike and find the same Arabic forms show the same roots. |
| Dictionary.VisibleWords | src/pages/Dictionary.tsx:67 | A card lists the first min(3, n) common words, in order. |
| Dictionary.MoreWords | src/pages/Dictionary.tsx:73-77 | The "+ n more words" line appears exactly when there are more than 3 words. The listed words plus n make up all the words; with no line, all the words are listed. |

## Left out

- The remote table store is modelled only through its replies: query rows, errors and write outcomes. Whether an upsert of roots that collide under the database's key merges them is the backend's business and is not modelled.
- The session effect's brief `loading = true` while remote queries are awaited is not modelled as a separate state. Only the final `loading = false` is.
- Concurrency between asynchronous handlers is not modelled: overlapping awaits and stale closures over `roots` and `progress` in particular. Each operation runs to completion on the state it starts from.
- The CSV parser calls its `complete` callback after the handler's `finally` has already cleared `loading`. The model runs the callback inline and clears `loading` at the end; the final state is the same.
- The local store holds parsed documents, not JSON text. A stored document of the wrong shape is treated like one that fails to parse, whereas JavaScript would install it as it is. An empty stored string is treated as absent, like JavaScript's falsy check.
- `JSON.parse`, the CSV parser, `parseInt` and `toLowerCase` are passed in as parameters. Their own behaviour, Unicode case mapping included, is not modelled.
- Root ids are integer-valued numbers or strings. Fractional and special floating-point numbers, and their string forms, are not modelled. Integers are unbounded. JavaScript writes numbers from 10^21 up in exponent form (`"1e+21"`) and cannot tell apart integers above 2^53. The model writes every integer in plain decimal, so for those ids its keys differ from JavaScript's.
- Lookup: a progress entry is an own property of the model's mapping. JavaScript's `progress[rootId]` also finds inherited members of a plain object: ids such as "constructor", "toString", "valueOf" or "__proto__" with no entry of their own. For such an id the source starts from that inherited value: the counters become NaN, the status stays learning, and no `root_id` is carried. The model starts from the untouched record instead.
- A CSV row missing a text column reads that column as the empty string, where JavaScript would store `undefined`. For `root_arabic` both are dropped by the filter. For a missing transliteration or meaning the consequence differs: JavaScript's dictionary search throws a TypeError on `undefined.toLowerCase()` whenever the Arabic form does not match. `FilterRoots` instead treats such a root as one that does not match.
- A JSON object whose `roots` or `data` is truthy but not an array is not modelled. Neither is the page's later failure on the `length` of such a value.
- The exact wording of the error thrown when reading a property of `null` is the V8 engine's. It is a constant here.
- The remote progress write uses `user.id`. A missing user at that point, which would throw, is not modelled.
- The sign-in flow, routing, navigation and all rendering are outside this model. So are animations and the chart library.
