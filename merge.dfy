/**
 * The local-mode upload merge: the existing roots followed by the uploaded ones are
 * deduplicated by id the way a JavaScript `Map` built from `[id, root]` pairs does it.
 * Setting an id that is already present overwrites the value in place, so every id keeps
 * the position of its first occurrence and carries the value of its last one.
 * Ids are compared as tagged values: the number 1 and the string "1" stay distinct.
 */
module RootMerge {
  import opened Wrappers
  import opened Types

  /** The ids of a sequence of roots, in order. */
  function Ids(s: seq<ArabicRoot>): (r: seq<RootId>)
    ensures |r| == |s|
    ensures forall i :: 0 <= i < |s| ==> r[i] == s[i].id
  {
    if s == [] then [] else [s[0].id] + Ids(s[1..])
  }

  /** No id occurs twice. */
  predicate DistinctIds(s: seq<ArabicRoot>) {
    forall i, j :: 0 <= i < j < |s| ==> s[i].id != s[j].id
  }

  /** `Map.prototype.set`: overwrite the entry with the same id in place, or append. */
  function Put(acc: seq<ArabicRoot>, x: ArabicRoot): seq<ArabicRoot> {
    if acc == [] then [x]
    else if acc[0].id == x.id then [x] + acc[1..]
    else [acc[0]] + Put(acc[1..], x)
  }

  /** Set every root of `xs`, in order, into `acc`. */
  function PutAll(acc: seq<ArabicRoot>, xs: seq<ArabicRoot>): seq<ArabicRoot>
    decreases |xs|
  {
    if xs == [] then acc else PutAll(Put(acc, xs[0]), xs[1..])
  }

  /** `Array.from(new Map([...roots, ...newRoots].map(r => [r.id, r])).values())`. */
  function Merge(roots: seq<ArabicRoot>, newRoots: seq<ArabicRoot>): seq<ArabicRoot> {
    PutAll([], roots + newRoots)
  }

  /** `Map.prototype.get`: the first entry with id `k`. */
  function Find(s: seq<ArabicRoot>, k: RootId): (r: Option<ArabicRoot>)
    ensures r.Some? ==> r.value in s && r.value.id == k
    ensures r.None? <==> k !in Ids(s)
  {
    if s == [] then None else if s[0].id == k then Some(s[0]) else Find(s[1..], k)
  }

  /** The root `Find` returns stands before every other root with the same id. */
  lemma {:induction false} FindIsFirst(s: seq<ArabicRoot>, k: RootId)
    requires Find(s, k).Some?
    ensures exists i :: 0 <= i < |s| && s[i] == Find(s, k).value && forall j :: 0 <= j < i ==> s[j].id != k
  {
    if s[0].id != k {
      FindIsFirst(s[1..], k);
      var i :| 0 <= i < |s[1..]| && s[1..][i] == Find(s[1..], k).value
               && forall j :: 0 <= j < i ==> s[1..][j].id != k;
      assert s[i + 1] == Find(s, k).value;
    }
  }

  /** The last root in `xs` with id `k`. */
  function LastWith(xs: seq<ArabicRoot>, k: RootId): (r: ArabicRoot)
    requires k in Ids(xs)
    ensures exists j :: 0 <= j < |xs| && xs[j] == r && r.id == k
                        && forall j' :: j < j' < |xs| ==> xs[j'].id != k
  {
    if k in Ids(xs[1..]) then
      var r := LastWith(xs[1..], k);
      var j :| 0 <= j < |xs[1..]| && xs[1..][j] == r && r.id == k
               && forall j' :: j < j' < |xs[1..]| ==> xs[1..][j'].id != k;
      assert xs[j + 1] == r;
      r
    else
      assert xs[0].id == k;
      xs[0]
  }

  /** The position of the first occurrence of `k` in `s`. */
  function FirstIndex(s: seq<RootId>, k: RootId): (i: nat)
    requires k in s
    ensures i < |s| && s[i] == k
    ensures forall j :: 0 <= j < i ==> s[j] != k
  {
    if s[0] == k then 0 else 1 + FirstIndex(s[1..], k)
  }

  // ----- Put, one root at a time -----

  lemma {:induction false} PutIds(acc: seq<ArabicRoot>, x: ArabicRoot)
    requires DistinctIds(acc)
    ensures DistinctIds(Put(acc, x))
    ensures Ids(Put(acc, x)) == if x.id in Ids(acc) then Ids(acc) else Ids(acc) + [x.id]
  {
    if acc != [] && acc[0].id != x.id {
      PutIds(acc[1..], x);
      assert Ids(acc) == [acc[0].id] + Ids(acc[1..]);
    }
  }

  lemma {:induction false} PutFind(acc: seq<ArabicRoot>, x: ArabicRoot, k: RootId)
    ensures Find(Put(acc, x), k) == if k == x.id then Some(x) else Find(acc, k)
  {
    if acc != [] && acc[0].id != x.id {
      PutFind(acc[1..], x, k);
    }
  }

  lemma {:induction false} PutFresh(acc: seq<ArabicRoot>, x: ArabicRoot)
    requires x.id !in Ids(acc)
    ensures Put(acc, x) == acc + [x]
  {
    if acc != [] {
      assert Ids(acc)[0] == acc[0].id;
      assert Ids(acc[1..]) == Ids(acc)[1..];
      PutFresh(acc[1..], x);
      assert acc == [acc[0]] + acc[1..];
    }
  }

  // ----- PutAll, a run of roots -----

  lemma {:induction false} PutAllAppend(acc: seq<ArabicRoot>, xs: seq<ArabicRoot>, ys: seq<ArabicRoot>)
    ensures PutAll(acc, xs + ys) == PutAll(PutAll(acc, xs), ys)
    decreases |xs|
  {
    if xs == [] {
      assert xs + ys == ys;
    } else {
      assert (xs + ys)[0] == xs[0] && (xs + ys)[1..] == xs[1..] + ys;
      PutAllAppend(Put(acc, xs[0]), xs[1..], ys);
    }
  }

  lemma {:induction false} PutAllDistinct(acc: seq<ArabicRoot>, xs: seq<ArabicRoot>)
    requires DistinctIds(acc)
    ensures DistinctIds(PutAll(acc, xs))
    ensures forall k :: k in Ids(PutAll(acc, xs)) <==> k in Ids(acc) || k in Ids(xs)
    decreases |xs|
  {
    if xs != [] {
      PutIds(acc, xs[0]);
      PutAllDistinct(Put(acc, xs[0]), xs[1..]);
      assert Ids(xs) == [xs[0].id] + Ids(xs[1..]);
    }
  }

  lemma {:induction false} PutAllFind(acc: seq<ArabicRoot>, xs: seq<ArabicRoot>, k: RootId)
    ensures Find(PutAll(acc, xs), k) == if k in Ids(xs) then Some(LastWith(xs, k)) else Find(acc, k)
    decreases |xs|
  {
    if xs != [] {
      PutAllFind(Put(acc, xs[0]), xs[1..], k);
      PutFind(acc, xs[0], k);
      assert Ids(xs) == [xs[0].id] + Ids(xs[1..]);
    }
  }

  /** Setting only ids that are already present keeps the id sequence. */
  lemma {:induction false} PutAllKnownIds(acc: seq<ArabicRoot>, xs: seq<ArabicRoot>)
    requires DistinctIds(acc)
    requires forall k :: k in Ids(xs) ==> k in Ids(acc)
    ensures Ids(PutAll(acc, xs)) == Ids(acc)
    decreases |xs|
  {
    if xs != [] {
      assert Ids(xs) == [xs[0].id] + Ids(xs[1..]);
      PutIds(acc, xs[0]);
      PutAllKnownIds(Put(acc, xs[0]), xs[1..]);
    }
  }

  /** Setting roots whose ids are all new appends them. */
  lemma {:induction false} PutAllFresh(acc: seq<ArabicRoot>, xs: seq<ArabicRoot>)
    requires DistinctIds(acc + xs)
    ensures PutAll(acc, xs) == acc + xs
    decreases |xs|
  {
    if xs != [] {
      forall i | 0 <= i < |acc| ensures Ids(acc)[i] != xs[0].id {
        assert (acc + xs)[i] == acc[i] && (acc + xs)[|acc|] == xs[0];
      }
      PutFresh(acc, xs[0]);
      assert acc + xs == (acc + [xs[0]]) + xs[1..];
      PutAllFresh(acc + [xs[0]], xs[1..]);
    }
  }

  // ----- Sequences with distinct ids are determined by their ids and lookups -----

  lemma {:induction false} FindAt(s: seq<ArabicRoot>, i: nat)
    requires DistinctIds(s) && i < |s|
    ensures Find(s, s[i].id) == Some(s[i])
  {
    if i > 0 {
      assert s[0].id != s[i].id;
      assert s[1..][i - 1] == s[i];
      FindAt(s[1..], i - 1);
    }
  }

  lemma {:induction false} SameIdsSameLookups(s: seq<ArabicRoot>, t: seq<ArabicRoot>)
    requires DistinctIds(s) && DistinctIds(t)
    requires Ids(s) == Ids(t)
    requires forall k :: Find(s, k) == Find(t, k)
    ensures s == t
  {
    forall i | 0 <= i < |s| ensures s[i] == t[i] {
      FindAt(s, i);
      FindAt(t, i);
    }
  }

  // ----- First-occurrence order -----

  lemma {:induction false} FirstIndexIs(s: seq<RootId>, k: RootId, i: nat)
    requires i < |s| && s[i] == k
    requires forall j :: 0 <= j < i ==> s[j] != k
    ensures FirstIndex(s, k) == i
  {
  }

  lemma {:induction false} FirstIndexAppend(a: seq<RootId>, b: seq<RootId>, k: RootId)
    requires k in a + b
    ensures k in a ==> FirstIndex(a + b, k) == FirstIndex(a, k)
    ensures k !in a ==> k in b && FirstIndex(a + b, k) == |a| + FirstIndex(b, k)
  {
    if k in a {
      FirstIndexIs(a + b, k, FirstIndex(a, k));
    } else {
      assert k in b;
      FirstIndexIs(a + b, k, |a| + FirstIndex(b, k));
    }
  }

  /** Inserting an id that already occurred earlier shifts the later first positions by one. */
  lemma {:induction false} ShiftedIndex(a: seq<RootId>, c: RootId, b: seq<RootId>, k: RootId)
    requires c in a && k in a + b
    ensures k in a + [c] + b
    ensures FirstIndex(a + [c] + b, k) == FirstIndex(a + b, k) + (if FirstIndex(a + b, k) < |a| then 0 else 1)
  {
    assert a + [c] + b == a + ([c] + b);
    FirstIndexAppend(a, b, k);
    FirstIndexAppend(a, [c] + b, k);
    if k !in a {
      FirstIndexAppend([c], b, k);
    }
  }

  lemma {:induction false} FirstIndexDistinct(s: seq<ArabicRoot>, i: nat)
    requires DistinctIds(s) && i < |s|
    ensures FirstIndex(Ids(s), s[i].id) == i
  {
    FirstIndexIs(Ids(s), s[i].id, i);
  }

  /** The roots of `r` stand in the order in which their ids first occur in `m`. */
  predicate OrderedBy(r: seq<ArabicRoot>, m: seq<RootId>) {
    && (forall i :: 0 <= i < |r| ==> r[i].id in m)
    && (forall i :: 0 < i < |r| ==> FirstIndex(m, r[i - 1].id) < FirstIndex(m, r[i].id))
  }

  lemma {:induction false} DistinctOrderedByOwnIds(s: seq<ArabicRoot>)
    requires DistinctIds(s)
    ensures OrderedBy(s, Ids(s))
  {
    forall i | 0 <= i < |s| ensures FirstIndex(Ids(s), s[i].id) == i {
      FirstIndexDistinct(s, i);
    }
  }

  /** Inserting an id that occurred earlier does not change the first-occurrence order. */
  lemma {:induction false} OrderedByShift(r: seq<ArabicRoot>, a: seq<RootId>, c: RootId, b: seq<RootId>)
    requires c in a && OrderedBy(r, a + b)
    ensures OrderedBy(r, a + [c] + b)
  {
    forall i | 0 <= i < |r| ensures r[i].id in a + [c] + b {
      ShiftedIndex(a, c, b, r[i].id);
    }
    forall i | 0 < i < |r| ensures FirstIndex(a + [c] + b, r[i - 1].id) < FirstIndex(a + [c] + b, r[i].id) {
      ShiftedIndex(a, c, b, r[i - 1].id);
      ShiftedIndex(a, c, b, r[i].id);
    }
  }

  /**
   * In `PutAll(acc, xs)` the roots stand in the order in which their ids first occur in
   * the ids of `acc` followed by those of `xs`.
   */
  lemma {:induction false} PutAllOrder(acc: seq<ArabicRoot>, xs: seq<ArabicRoot>)
    requires DistinctIds(acc)
    ensures OrderedBy(PutAll(acc, xs), Ids(acc) + Ids(xs))
    decreases |xs|
  {
    if xs == [] {
      assert Ids(acc) + Ids(xs) == Ids(acc);
      DistinctOrderedByOwnIds(acc);
    } else {
      PutIds(acc, xs[0]);
      PutAllOrder(Put(acc, xs[0]), xs[1..]);
      PutAllOrderStep(acc, xs);
    }
  }

  /** One step of `PutAllOrder`: from the order after setting `xs[0]` to the order before. */
  lemma {:induction false} PutAllOrderStep(acc: seq<ArabicRoot>, xs: seq<ArabicRoot>)
    requires xs != [] && DistinctIds(acc)
    requires OrderedBy(PutAll(Put(acc, xs[0]), xs[1..]), Ids(Put(acc, xs[0])) + Ids(xs[1..]))
    ensures OrderedBy(PutAll(acc, xs), Ids(acc) + Ids(xs))
  {
    PutIds(acc, xs[0]);
    IdsCons(acc, xs);
    OrderTransfer(PutAll(acc, xs), Ids(acc), xs[0].id, Ids(xs[1..]),
                  Ids(Put(acc, xs[0])) + Ids(xs[1..]), Ids(acc) + Ids(xs));
  }

  lemma {:induction false} IdsCons(acc: seq<ArabicRoot>, xs: seq<ArabicRoot>)
    requires xs != []
    ensures PutAll(acc, xs) == PutAll(Put(acc, xs[0]), xs[1..])
    ensures Ids(acc) + Ids(xs) == Ids(acc) + [xs[0].id] + Ids(xs[1..])
  {
    assert Ids(xs) == [xs[0].id] + Ids(xs[1..]);
  }

  lemma {:induction false} OrderTransfer(r: seq<ArabicRoot>, a: seq<RootId>, c: RootId, b: seq<RootId>,
                                         m: seq<RootId>, full: seq<RootId>)
    requires m == (if c in a then a else a + [c]) + b
    requires full == a + [c] + b
    requires OrderedBy(r, m)
    ensures OrderedBy(r, full)
  {
    if c in a {
      OrderedByShift(r, a, c, b);
    } else {
      assert m == a + [c] + b;
    }
  }

  // ----- Properties of the merge -----

  /**
   * The merge holds one root per distinct id of `roots ++ newRoots`; each is the last
   * root given with its id, and they stand in the order of their ids' first occurrence.
   */
  lemma {:induction false} MergeSpec(roots: seq<ArabicRoot>, newRoots: seq<ArabicRoot>)
    ensures var r, merged := Merge(roots, newRoots), roots + newRoots;
      && DistinctIds(r)
      && (forall k :: k in Ids(r) <==> k in Ids(merged))
      && (forall i :: 0 <= i < |r| ==> r[i].id in Ids(merged) && r[i] == LastWith(merged, r[i].id))
      && OrderedBy(r, Ids(merged))
  {
    var r, merged := Merge(roots, newRoots), roots + newRoots;
    PutAllDistinct([], merged);
    assert Ids([]) + Ids(merged) == Ids(merged);
    PutAllOrder([], merged);
    forall i | 0 <= i < |r| ensures r[i].id in Ids(merged) && r[i] == LastWith(merged, r[i].id) {
      FindAt(r, i);
      PutAllFind([], merged, r[i].id);
    }
  }

  /** Uploading the same roots a second time changes nothing. */
  lemma {:induction false} MergeIdempotent(roots: seq<ArabicRoot>, newRoots: seq<ArabicRoot>)
    ensures Merge(Merge(roots, newRoots), newRoots) == Merge(roots, newRoots)
  {
    var once := Merge(roots, newRoots);
    var base := PutAll([], roots);
    PutAllAppend([], roots, newRoots);
    assert once == PutAll(base, newRoots);
    PutAllDistinct([], roots);
    PutAllDistinct(base, newRoots);
    // Merging into the result starts from the result itself: its ids are distinct.
    PutAllAppend([], once, newRoots);
    PutAllFresh([], once);
    assert [] + once == once;
    // Its ids already include every uploaded id, so only the values are set again.
    PutAllKnownIds(once, newRoots);
    PutAllDistinct(once, newRoots);
    forall k ensures Find(PutAll(once, newRoots), k) == Find(once, k) {
      PutAllFind(once, newRoots, k);
      PutAllFind(base, newRoots, k);
    }
    SameIdsSameLookups(PutAll(once, newRoots), once);
  }

  /** Uploading roots whose ids are all new appends them after the existing ones. */
  lemma {:induction false} MergeDisjoint(roots: seq<ArabicRoot>, newRoots: seq<ArabicRoot>)
    requires DistinctIds(roots + newRoots)
    ensures Merge(roots, newRoots) == roots + newRoots
    ensures |Merge(roots, newRoots)| == |roots| + |newRoots|
  {
    PutAllFresh([], roots + newRoots);
    assert [] + (roots + newRoots) == roots + newRoots;
  }

  /**
   * Uploading only ids that already exist keeps the collection's ids and order and
   * replaces each re-uploaded root by its last uploaded version.
   */
  lemma {:induction false} MergeOverlapping(roots: seq<ArabicRoot>, newRoots: seq<ArabicRoot>)
    requires DistinctIds(roots)
    requires forall k :: k in Ids(newRoots) ==> k in Ids(roots)
    ensures var r := Merge(roots, newRoots);
      && |r| == |roots|
      && Ids(r) == Ids(roots)
      && forall i :: 0 <= i < |r| ==>
           r[i] == if roots[i].id in Ids(newRoots) then LastWith(newRoots, roots[i].id) else roots[i]
  {
    var r := Merge(roots, newRoots);
    PutAllAppend([], roots, newRoots);
    PutAllFresh([], roots);
    assert [] + roots == roots;
    PutAllKnownIds(roots, newRoots);
    PutAllDistinct(roots, newRoots);
    forall i | 0 <= i < |r|
      ensures r[i] == if roots[i].id in Ids(newRoots) then LastWith(newRoots, roots[i].id) else roots[i]
    {
      FindAt(r, i);
      FindAt(roots, i);
      PutAllFind(roots, newRoots, roots[i].id);
    }
  }

  /** A root with the given id and meaning and otherwise empty fields. */
  function Sample(id: RootId, meaning: string): ArabicRoot {
    ArabicRoot(id, "", "", [], meaning, [], 1, 999)
  }

  /** Root 1 re-uploaded with a new meaning next to a new root 2. */
  lemma {:induction false} MergeExample()
    ensures Merge([Sample(NumId(1), "old")], [Sample(NumId(1), "new"), Sample(NumId(2), "x")])
         == [Sample(NumId(1), "new"), Sample(NumId(2), "x")]
  {
    var old1, new1, two := Sample(NumId(1), "old"), Sample(NumId(1), "new"), Sample(NumId(2), "x");
    var merged := [old1] + [new1, two];
    assert merged == [old1, new1, two];
    assert merged[1..] == [new1, two] && merged[1..][1..] == [two];
    assert Put([], old1) == [old1];
    assert Put([old1], new1) == [new1];
    assert Put([new1], two) == [new1, two];
    assert PutAll([], merged) == PutAll([old1], [new1, two]);
    assert PutAll([old1], [new1, two]) == PutAll([new1], [two]);
    assert PutAll([new1], [two]) == PutAll([new1, two], []);
  }

  /** The number 1 and the string "1" are two different roots in the collection. */
  lemma {:induction false} MergeKeepsNumberAndStringApart(a: ArabicRoot, b: ArabicRoot)
    requires a.id == NumId(1) && b.id == StrId("1")
    ensures Merge([a], [b]) == [a, b]
  {
    MergeDisjoint([a], [b]);
  }
}
