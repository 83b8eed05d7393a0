/** The dashboard's figures: how many roots are mastered, learning and new, and its bar chart. */
module Dashboard {
  import opened Types
  import opened Progress

  /** Property names of the progress entries whose status is `st`. */
  function KeysWithStatus(progress: ProgressMap, st: Status): set<string> {
    set k | k in progress && progress[k].status == st
  }

  /** `Object.values(progress).filter(p => p.status === st).length`. */
  function CountStatus(progress: ProgressMap, st: Status): (n: nat)
    ensures n <= |progress|
  {
    assert KeysWithStatus(progress, st) <= progress.Keys;
    SubsetCard(KeysWithStatus(progress, st), progress.Keys);
    |KeysWithStatus(progress, st)|
  }

  lemma SubsetCard(a: set<string>, b: set<string>)
    requires a <= b
    ensures |a| <= |b|
  {
    assert b == a + (b - a);
  }

  /** The figures the page shows. `newRoots` is not clamped at zero. */
  datatype Overview = Overview(totalRoots: nat, mastered: nat, learning: nat, newRoots: int)

  function Summarize(roots: seq<ArabicRoot>, progress: ProgressMap): (o: Overview)
    ensures o.totalRoots == |roots|
    ensures o.mastered == |KeysWithStatus(progress, Mastered)|
    ensures o.learning == |KeysWithStatus(progress, Learning)|
    ensures o.mastered + o.learning + o.newRoots == |roots|
  {
    var mastered := CountStatus(progress, Mastered);
    var learning := CountStatus(progress, Learning);
    Overview(|roots|, mastered, learning, |roots| - mastered - learning)
  }

  /** One bar of the chart. */
  datatype Bar = Bar(name: string, value: int, fill: string)

  /** `chartData`: the three bars, in the order Mastered, Learning, New. */
  function ChartData(o: Overview): (bars: seq<Bar>)
    ensures |bars| == 3
    ensures bars[0].name == "Mastered" && bars[1].name == "Learning" && bars[2].name == "New"
    ensures bars[0].value == o.mastered && bars[1].value == o.learning && bars[2].value == o.newRoots
    ensures bars[0].fill == "#000000" && bars[1].fill == "#666666" && bars[2].fill == "#cccccc"
    ensures bars[0].value + bars[1].value + bars[2].value == o.mastered + o.learning + o.newRoots
  {
    [Bar("Mastered", o.mastered, "#000000"),
     Bar("Learning", o.learning, "#666666"),
     Bar("New", o.newRoots, "#cccccc")]
  }

  /**
   * The entries split by status: mastered, learning and new together are all the entries,
   * so entries still marked new are counted in neither of the first two figures.
   */
  lemma StatusCountsPartition(progress: ProgressMap)
    ensures progress.Keys == KeysWithStatus(progress, Mastered) + KeysWithStatus(progress, Learning)
                             + KeysWithStatus(progress, New)
    ensures KeysWithStatus(progress, Mastered) !! KeysWithStatus(progress, Learning)
    ensures KeysWithStatus(progress, Mastered) !! KeysWithStatus(progress, New)
    ensures KeysWithStatus(progress, Learning) !! KeysWithStatus(progress, New)
    ensures CountStatus(progress, Mastered) + CountStatus(progress, Learning) + CountStatus(progress, New)
         == |progress|
  {
    var m, l, n := KeysWithStatus(progress, Mastered), KeysWithStatus(progress, Learning),
                   KeysWithStatus(progress, New);
    assert progress.Keys == m + l + n;
    assert m !! l && (m + l) !! n;
    assert |m + l| == |m| + |l|;
    assert |m + l + n| == |m + l| + |n|;
  }

  /** The chart's bars add up to the number of roots. */
  lemma ChartAddsUpToRoots(roots: seq<ArabicRoot>, progress: ProgressMap)
    ensures var bars := ChartData(Summarize(roots, progress));
      bars[0].value + bars[1].value + bars[2].value == |roots|
  {
  }

  /** The progress keys of a root list. */
  function RootKeys(roots: seq<ArabicRoot>): (ks: set<string>)
    ensures forall i :: 0 <= i < |roots| ==> Key(roots[i].id) in ks
    ensures forall k :: k in ks ==> exists i :: 0 <= i < |roots| && Key(roots[i].id) == k
  {
    set i | 0 <= i < |roots| :: Key(roots[i].id)
  }

  /** A list of `n` roots has at most `n` progress keys. */
  lemma {:induction false} RootKeysBound(roots: seq<ArabicRoot>)
    ensures |RootKeys(roots)| <= |roots|
  {
    if roots != [] {
      var init := roots[..|roots| - 1];
      RootKeysBound(init);
      assert RootKeys(roots) == RootKeys(init) + {Key(roots[|roots| - 1].id)} by {
        forall k | k in RootKeys(roots) ensures k in RootKeys(init) + {Key(roots[|roots| - 1].id)} {
          var i :| 0 <= i < |roots| && Key(roots[i].id) == k;
          if i < |roots| - 1 {
            assert init[i] == roots[i];
          }
        }
        forall k | k in RootKeys(init) ensures k in RootKeys(roots) {
          var i :| 0 <= i < |init| && Key(init[i].id) == k;
          assert roots[i] == init[i];
        }
      }
    }
  }

  /**
   * When every progress entry belongs to a root of the list, the "new" figure is not
   * negative; it goes negative only through entries of roots the list no longer has.
   */
  lemma NewRootsNonNegative(roots: seq<ArabicRoot>, progress: ProgressMap)
    requires forall k :: k in progress ==> exists i :: 0 <= i < |roots| && Key(roots[i].id) == k
    ensures Summarize(roots, progress).newRoots >= 0
  {
    StatusCountsPartition(progress);
    RootKeysBound(roots);
    assert progress.Keys <= RootKeys(roots);
    SubsetCard(progress.Keys, RootKeys(roots));
  }

  /** An orphaned mastered entry with an empty root list shows -1 new roots. */
  lemma OrphanedProgressGivesNegativeNew(p: UserProgress)
    requires p.status == Mastered
    ensures Summarize([], map["1" := p]).newRoots == -1
  {
    assert KeysWithStatus(map["1" := p], Mastered) == {"1"};
    assert KeysWithStatus(map["1" := p], Learning) == {};
  }
}
