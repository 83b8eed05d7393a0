/**
 * The data context: the state shared by every page (the root collection, the progress
 * mapping and the loading flag) and the operations that change it, in local ("mock")
 * mode over the browser's key-value store and in remote mode over an opaque table store
 * whose replies are passed in as parameters.
 */
module DataContext {
  import opened Wrappers
  import opened Types
  import opened Progress
  import opened RootMerge

  /** Local-store key of the serialised root collection. */
  const MOCK_ROOTS_KEY := "mockRoots"
  /** Local-store key of the serialised progress mapping. */
  const MOCK_PROGRESS_KEY := "mockProgress"

  /** What parsing a stored text yields; `Unreadable` stands for a parse that throws. */
  datatype Doc = RootsDoc(roots: seq<ArabicRoot>) | ProgressDoc(progress: ProgressMap) | Unreadable

  /** The reply of a remote `select` query: its rows (possibly `null`) or an error. */
  datatype Fetch<T> = Rows(data: Option<T>) | FetchError(message: string)

  /** The rows of a reply, with `null` read as no rows. */
  function RowsOrEmpty<T>(data: Option<seq<T>>): (r: seq<T>)
    ensures data.Some? ==> r == data.value
    ensures data.None? ==> r == []
  {
    if data.Some? then data.value else []
  }

  /** The progress mapping built from remote rows: each row stored under its root's key. */
  function ProgressIndex(rows: seq<UserProgress>): ProgressMap {
    if rows == [] then map[]
    else ProgressIndex(rows[..|rows| - 1])[Key(rows[|rows| - 1].root_id) := rows[|rows| - 1]]
  }

  /** The mapping holds an entry for exactly the keys of the rows' root ids. */
  lemma {:induction false} ProgressIndexKeys(rows: seq<UserProgress>)
    ensures forall k :: k in ProgressIndex(rows) <==> exists i :: 0 <= i < |rows| && Key(rows[i].root_id) == k
  {
    if rows != [] {
      var init := rows[..|rows| - 1];
      ProgressIndexKeys(init);
      forall k | k in ProgressIndex(rows) ensures exists i :: 0 <= i < |rows| && Key(rows[i].root_id) == k {
        if k != Key(rows[|rows| - 1].root_id) {
          assert ProgressIndex(rows) == ProgressIndex(init)[Key(rows[|rows| - 1].root_id) := rows[|rows| - 1]];
          assert k in ProgressIndex(init);
          var i :| 0 <= i < |init| && Key(init[i].root_id) == k;
          assert rows[i] == init[i];
        }
      }
      forall i | 0 <= i < |rows| ensures Key(rows[i].root_id) in ProgressIndex(rows) {
        if i < |rows| - 1 {
          assert rows[i] == init[i];
        }
      }
    }
  }

  /** Each entry is the last row with that key: later rows overwrite earlier ones. */
  lemma {:induction false} ProgressIndexLastWins(rows: seq<UserProgress>, i: nat)
    requires i < |rows|
    requires forall j :: i < j < |rows| ==> Key(rows[j].root_id) != Key(rows[i].root_id)
    ensures Key(rows[i].root_id) in ProgressIndex(rows)
    ensures ProgressIndex(rows)[Key(rows[i].root_id)] == rows[i]
  {
    if i < |rows| - 1 {
      var init := rows[..|rows| - 1];
      assert init[i] == rows[i];
      ProgressIndexLastWins(init, i);
    }
  }

  /** `progressData?.forEach(p => { progressMap[p.root_id] = p; })` */
  method BuildProgressMap(rows: seq<UserProgress>) returns (m: ProgressMap)
    ensures m == ProgressIndex(rows)
    ensures forall k :: k in m <==> exists i :: 0 <= i < |rows| && Key(rows[i].root_id) == k
  {
    m := map[];
    var n := 0;
    while n < |rows|
      invariant 0 <= n <= |rows|
      invariant m == ProgressIndex(rows[..n])
    {
      assert rows[..n + 1][..n] == rows[..n];
      m := m[Key(rows[n].root_id) := rows[n]];
      n := n + 1;
    }
    assert rows[..n] == rows;
    ProgressIndexKeys(rows);
  }

  /** The provider's state, with the local key-value store it writes through to in mock mode. */
  class Context {
    /** Whether the local store is the backend (no remote store configured). */
    const isMock: bool
    var roots: seq<ArabicRoot>
    var progress: ProgressMap
    var loading: bool
    /** The browser's local store: key to parsed document. */
    var store: map<string, Doc>

    /** Mock-mode consistency: whatever the local store holds is the in-memory state. */
    ghost predicate Synced()
      reads this
    {
      && (MOCK_ROOTS_KEY in store ==> store[MOCK_ROOTS_KEY] == RootsDoc(roots))
      && (MOCK_PROGRESS_KEY in store ==> store[MOCK_PROGRESS_KEY] == ProgressDoc(progress))
    }

    /** A fresh provider: empty collections, and loading until the session is known. */
    constructor (isMock: bool, store: map<string, Doc>)
      ensures this.isMock == isMock && this.store == store
      ensures roots == [] && progress == map[] && loading
    {
      this.isMock := isMock;
      this.store := store;
      roots := [];
      progress := map[];
      loading := true;
    }

    /** The session effect with no signed-in user: reset, without touching any store. */
    method SessionEnded()
      modifies this
      ensures roots == [] && progress == map[] && !loading
      ensures store == old(store)
    {
      roots := [];
      progress := map[];
      loading := false;
    }

    /**
     * The session effect with a signed-in user. Mock mode reads both local documents;
     * remote mode uses the replies of the roots query and the user's progress query.
     * A failing read stops the load and keeps what was there; `loading` ends false.
     */
    method LoadData(rootsReply: Fetch<seq<ArabicRoot>>, progressReply: Fetch<seq<UserProgress>>)
      modifies this
      ensures !loading && store == old(store)
      ensures isMock ==>
        var rootsDoc := if MOCK_ROOTS_KEY in store then Some(store[MOCK_ROOTS_KEY]) else None;
        var progressDoc := if MOCK_PROGRESS_KEY in store then Some(store[MOCK_PROGRESS_KEY]) else None;
        var rootsRead := rootsDoc.None? || rootsDoc.value.RootsDoc?;
        && roots == (if rootsDoc.Some? && rootsRead then rootsDoc.value.roots else old(roots))
        && progress == (if rootsRead && progressDoc.Some? && progressDoc.value.ProgressDoc?
                        then progressDoc.value.progress else old(progress))
      ensures (isMock && MOCK_ROOTS_KEY in store && MOCK_PROGRESS_KEY in store
               && store[MOCK_ROOTS_KEY].RootsDoc? && store[MOCK_PROGRESS_KEY].ProgressDoc?) ==> Synced()
      ensures !isMock && rootsReply.FetchError? ==> roots == old(roots) && progress == old(progress)
      ensures !isMock && rootsReply.Rows? ==>
        && roots == RowsOrEmpty(rootsReply.data)
        && progress == (if progressReply.Rows? then ProgressIndex(RowsOrEmpty(progressReply.data))
                        else old(progress))
    {
      loading := true;
      if isMock {
        var failed := false;
        if MOCK_ROOTS_KEY in store {
          match store[MOCK_ROOTS_KEY]
          case RootsDoc(r) => roots := r;
          case _ => failed := true;
        }
        if !failed && MOCK_PROGRESS_KEY in store {
          match store[MOCK_PROGRESS_KEY]
          case ProgressDoc(p) => progress := p;
          case _ => failed := true;
        }
      } else {
        if rootsReply.Rows? {
          roots := RowsOrEmpty(rootsReply.data);
          if progressReply.Rows? {
            var m := BuildProgressMap(RowsOrEmpty(progressReply.data));
            progress := m;
          }
        }
      }
      loading := false;
    }

    /**
     * Add uploaded roots. Mock mode merges them into the collection and persists the
     * result; remote mode upserts them (reply `upsert`) and, on success, replaces the
     * collection by the re-fetched one when that query returned rows (`reloaded`).
     */
    method UploadRoots(newRoots: seq<ArabicRoot>, upsert: Outcome, reloaded: Option<seq<ArabicRoot>>)
      returns (result: Outcome)
      modifies this
      ensures progress == old(progress) && loading == old(loading)
      ensures isMock ==>
        && result == Pass
        && roots == Merge(old(roots), newRoots)
        && store == old(store)[MOCK_ROOTS_KEY := RootsDoc(roots)]
      ensures isMock && old(Synced()) ==> Synced()
      ensures !isMock ==>
        && store == old(store)
        && result == upsert
        && roots == (if upsert.Pass? && reloaded.Some? then reloaded.value else old(roots))
    {
      if isMock {
        roots := Merge(roots, newRoots);
        store := store[MOCK_ROOTS_KEY := RootsDoc(roots)];
        result := Pass;
      } else {
        result := upsert;
        if upsert.Pass? && reloaded.Some? {
          roots := reloaded.value;
        }
      }
    }

    /**
     * Record one answer to root `rootId` at time `now`. The in-memory mapping is updated
     * first in both modes; mock mode persists it, remote mode reports the reply `write`
     * of the single-record upsert, and a failure does not undo the in-memory update.
     */
    method UpdateProgress(rootId: RootId, correct: bool, now: string, write: Outcome)
      returns (result: Outcome)
      modifies this
      ensures roots == old(roots) && loading == old(loading)
      ensures progress == RecordAnswer(old(progress), rootId, correct, now)
      ensures isMock ==> result == Pass && store == old(store)[MOCK_PROGRESS_KEY := ProgressDoc(progress)]
      ensures isMock && old(Synced()) ==> Synced()
      ensures !isMock ==> result == write && store == old(store)
    {
      progress := RecordAnswer(progress, rootId, correct, now);
      if isMock {
        store := store[MOCK_PROGRESS_KEY := ProgressDoc(progress)];
        result := Pass;
      } else {
        result := write;
      }
    }

    /** Mock mode forgets both collections, in memory and in the store; remote mode does nothing. */
    method ClearData()
      modifies this
      ensures loading == old(loading)
      ensures isMock ==>
        && roots == [] && progress == map[]
        && store == old(store) - {MOCK_ROOTS_KEY, MOCK_PROGRESS_KEY}
        && Synced()
      ensures !isMock ==> roots == old(roots) && progress == old(progress) && store == old(store)
    {
      if isMock {
        store := store - {MOCK_ROOTS_KEY, MOCK_PROGRESS_KEY};
        roots := [];
        progress := map[];
      }
    }
  }
}
