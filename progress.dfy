/**
 * The answer rule of the progress tracker: how one answer to a quiz question turns the
 * stored progress record of a root into the next one, and how the progress mapping,
 * a plain object keyed by the stringified root id, changes with it.
 */
module Progress {
  import opened Wrappers
  import opened Types

  /** A root is mastered once more than this many answers to it were correct. */
  const MASTERY_THRESHOLD: nat := 3

  /** The progress mapping exposed by the data context: property name to record. */
  type ProgressMap = map<string, UserProgress>

  /** The record used when a root has never been answered. */
  function Untouched(rootId: RootId): (p: UserProgress)
    ensures p.root_id == rootId && p.status == New && p.last_reviewed == None
    ensures p.correct_count == 0 && p.incorrect_count == 0
  {
    UserProgress(rootId, 0, 0, None, New)
  }

  /** Status derived after an answer from the lifetime number of correct answers. */
  function StatusAfterAnswer(correctCount: nat): (st: Status)
    ensures st != New
    ensures st == Mastered <==> correctCount > MASTERY_THRESHOLD
  {
    if correctCount > MASTERY_THRESHOLD then Mastered else Learning
  }

  /**
   * The record after one answer: the existing one, or the untouched record when there is
   * none, with one counter raised, the review time stamped and the status re-derived.
   */
  function NextProgress(current: Option<UserProgress>, rootId: RootId, correct: bool, now: string): (r: UserProgress)
    ensures var base := if current.Some? then current.value else Untouched(rootId);
      && r.root_id == base.root_id
      && (correct ==> r.correct_count == base.correct_count + 1 && r.incorrect_count == base.incorrect_count)
      && (!correct ==> r.incorrect_count == base.incorrect_count + 1 && r.correct_count == base.correct_count)
    ensures r.last_reviewed == Some(now)
    ensures r.status != New
    ensures r.status == Mastered <==> r.correct_count > MASTERY_THRESHOLD
  {
    var base := if current.Some? then current.value else Untouched(rootId);
    var c := base.correct_count + (if correct then 1 else 0);
    base.(correct_count := c,
          incorrect_count := base.incorrect_count + (if correct then 0 else 1),
          last_reviewed := Some(now),
          status := StatusAfterAnswer(c))
  }

  /** The entry stored under a property name, if any. */
  function Lookup(progress: ProgressMap, key: string): (r: Option<UserProgress>)
    ensures r.Some? <==> key in progress
    ensures r.Some? ==> r.value == progress[key]
  {
    if key in progress then Some(progress[key]) else None
  }

  /** The progress mapping after answering the root `rootId`: only its entry changes. */
  function RecordAnswer(progress: ProgressMap, rootId: RootId, correct: bool, now: string): (m: ProgressMap)
    ensures m.Keys == progress.Keys + {Key(rootId)}
    ensures m[Key(rootId)] == NextProgress(Lookup(progress, Key(rootId)), rootId, correct, now)
    ensures forall k :: k in progress && k != Key(rootId) ==> m[k] == progress[k]
  {
    progress[Key(rootId) := NextProgress(Lookup(progress, Key(rootId)), rootId, correct, now)]
  }

  /** A record is consistent when its status is the one its counters call for. */
  predicate Consistent(p: UserProgress) {
    p.status == (if p.correct_count + p.incorrect_count == 0 then New
                 else StatusAfterAnswer(p.correct_count))
  }

  /** Every record an answer produces is consistent, whatever record it started from. */
  lemma NextProgressConsistent(current: Option<UserProgress>, rootId: RootId, correct: bool, now: string)
    ensures Consistent(Untouched(rootId))
    ensures Consistent(NextProgress(current, rootId, correct, now))
  {
  }

  /** Counters never decrease, so mastery, once reached, survives every later answer. */
  lemma MasteryIsSticky(p: UserProgress, correct: bool, now: string)
    requires Consistent(p) && p.status == Mastered
    ensures NextProgress(Some(p), p.root_id, correct, now).status == Mastered
  {
  }

  /** The record of a root after a run of answers, starting from the stored one. */
  function Replay(current: Option<UserProgress>, rootId: RootId, answers: seq<bool>, now: string): (r: Option<UserProgress>)
    ensures answers != [] ==> r.Some?
    ensures answers == [] ==> r == current
  {
    if answers == [] then current
    else Some(NextProgress(Replay(current, rootId, answers[..|answers| - 1], now), rootId, answers[|answers| - 1], now))
  }

  /** How many entries of `answers` equal `b`. */
  function Occurrences(answers: seq<bool>, b: bool): nat {
    if answers == [] then 0
    else Occurrences(answers[..|answers| - 1], b) + (if answers[|answers| - 1] == b then 1 else 0)
  }

  /**
   * Starting from no record, a run of answers leaves one record counting exactly the
   * correct and the incorrect answers of the run, mastered exactly when more than three
   * of them were correct.
   */
  lemma {:induction false} ReplayCounts(rootId: RootId, answers: seq<bool>, now: string)
    requires answers != []
    ensures var r := Replay(None, rootId, answers, now).value;
      && r.root_id == rootId
      && r.correct_count == Occurrences(answers, true)
      && r.incorrect_count == Occurrences(answers, false)
      && (r.status == Mastered <==> Occurrences(answers, true) > MASTERY_THRESHOLD)
      && r.status != New
  {
    var init := answers[..|answers| - 1];
    if init != [] {
      ReplayCounts(rootId, init, now);
    }
  }

  /** Four correct answers to a new root: learning, learning, learning, then mastered. */
  lemma FourCorrectAnswers(rootId: RootId, now: string)
    ensures Replay(None, rootId, [true], now).value.status == Learning
    ensures Replay(None, rootId, [true, true], now).value.status == Learning
    ensures Replay(None, rootId, [true, true, true], now).value.status == Learning
    ensures Replay(None, rootId, [true, true, true, true], now).value.status == Mastered
  {
    ReplayCounts(rootId, [true], now);
    ReplayCounts(rootId, [true, true], now);
    ReplayCounts(rootId, [true, true, true], now);
    ReplayCounts(rootId, [true, true, true, true], now);
    assert [true, true][..1] == [true];
    assert [true, true, true][..2] == [true, true];
    assert [true, true, true, true][..3] == [true, true, true];
  }

  /**
   * The number 1 and the string "1" share one progress entry: two correct answers, one
   * under each id, count twice on that entry, which keeps the id it was created with.
   */
  lemma AliasedAnswersShareEntry(now: string)
    ensures var m := RecordAnswer(RecordAnswer(map[], NumId(1), true, now), StrId("1"), true, now);
      && m.Keys == {"1"}
      && m["1"].correct_count == 2
      && m["1"].root_id == NumId(1)
  {
    NumberAndStringAlias();
  }
}
