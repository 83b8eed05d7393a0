/**
 * The dictionary page: the search filter over the root list and what each card shows.
 * `toLowerCase` is an uninterpreted function `lower` on strings.
 */
module Dictionary {
  import opened Wrappers
  import opened Types
  import opened Sequences

  /** How many common words a card lists. */
  const CARD_WORDS: nat := 3

  /** `t` occurs in `s` starting at position `i`. */
  predicate OccursAt(s: string, t: string, i: int) {
    0 <= i && i + |t| <= |s| && s[i..i + |t|] == t
  }

  /** Occurrences in `s[1..]` are the occurrences in `s` past position 0, shifted by one. */
  lemma OccursShift(s: string, t: string)
    requires |s| > 0
    ensures forall i :: OccursAt(s[1..], t, i) ==> OccursAt(s, t, i + 1)
    ensures forall j :: OccursAt(s, t, j) && j != 0 ==> OccursAt(s[1..], t, j - 1)
  {
    forall i | OccursAt(s[1..], t, i) ensures OccursAt(s, t, i + 1) {
      assert s[1..][i..i + |t|] == s[i + 1..i + 1 + |t|];
    }
    forall j | OccursAt(s, t, j) && j != 0 ensures OccursAt(s[1..], t, j - 1) {
      assert s[1..][j - 1..j - 1 + |t|] == s[j..j + |t|];
    }
  }

  /** `s.includes(t)`: `t` occurs in `s` as a contiguous piece. */
  function Includes(s: string, t: string): (r: bool)
    ensures r <==> exists i :: OccursAt(s, t, i)
    decreases |s|
  {
    if OccursAt(s, t, 0) then true
    else if |s| == 0 then false
    else
      OccursShift(s, t);
      Includes(s[1..], t)
  }

  /**
   * The search predicate: the Arabic form matched as typed, the transliteration and the
   * meaning matched after lowercasing both sides.
   */
  predicate Matches(root: ArabicRoot, search: string, lower: string -> string) {
    || Includes(root.root_arabic, search)
    || Includes(lower(root.root_transliterated), lower(search))
    || Includes(lower(root.core_meaning), lower(search))
  }

  /** `filteredRoots`: the matching roots, in list order. */
  function FilterRoots(roots: seq<ArabicRoot>, search: string, lower: string -> string): (r: seq<ArabicRoot>)
    ensures IsSubsequence(r, roots)
    ensures forall x :: x in r ==> x in roots && Matches(x, search, lower)
    ensures forall i :: 0 <= i < |roots| && Matches(roots[i], search, lower) ==> roots[i] in r
    ensures forall x :: multiset(r)[x] == if Matches(x, search, lower) then multiset(roots)[x] else 0
  {
    if roots == [] then []
    else
      var rest := FilterRoots(roots[1..], search, lower);
      assert roots == [roots[0]] + roots[1..];
      assert forall i :: 0 < i < |roots| ==> roots[i] == roots[1..][i - 1];
      if Matches(roots[0], search, lower) then
        SubsequenceKeep(roots[0], rest, roots[1..]);
        [roots[0]] + rest
      else
        SubsequenceSkip(roots[0], rest, roots[1..]);
        rest
  }

  /** An empty search keeps every root: every string includes the empty one. */
  lemma {:induction false} EmptySearchKeepsAll(roots: seq<ArabicRoot>, lower: string -> string)
    ensures FilterRoots(roots, "", lower) == roots
  {
    if roots != [] {
      assert OccursAt(roots[0].root_arabic, "", 0);
      EmptySearchKeepsAll(roots[1..], lower);
    }
  }

  /**
   * Two searches that lowercase alike and find the same Arabic forms show the same roots:
   * case matters only for the Arabic form, which is matched as typed.
   */
  lemma {:induction false} SearchCaseFolding(roots: seq<ArabicRoot>, s1: string, s2: string, lower: string -> string)
    requires lower(s1) == lower(s2)
    requires forall i :: 0 <= i < |roots| ==> Includes(roots[i].root_arabic, s1) == Includes(roots[i].root_arabic, s2)
    ensures FilterRoots(roots, s1, lower) == FilterRoots(roots, s2, lower)
  {
    if roots != [] {
      assert forall i :: 0 <= i < |roots[1..]| ==> roots[1..][i] == roots[i + 1];
      SearchCaseFolding(roots[1..], s1, s2, lower);
    }
  }

  /** Whether the "No roots found" message shows: exactly when no root matches. */
  function NoRootsFound(roots: seq<ArabicRoot>, search: string, lower: string -> string): (r: bool)
    ensures r <==> forall i :: 0 <= i < |roots| ==> !Matches(roots[i], search, lower)
  {
    var shown := FilterRoots(roots, search, lower);
    assert shown != [] ==> shown[0] in shown;
    |shown| == 0
  }

  /** `common_words.slice(0, 3)`: the words a card lists. */
  function VisibleWords(words: seq<CommonWord>): (r: seq<CommonWord>)
    ensures |r| == if |words| <= CARD_WORDS then |words| else CARD_WORDS
    ensures r == words[..|r|]
  {
    if |words| <= CARD_WORDS then words else words[..CARD_WORDS]
  }

  /** The "+ n more words" line: present exactly when a card has more than three words. */
  function MoreWords(words: seq<CommonWord>): (n: Option<nat>)
    ensures n.Some? <==> |words| > CARD_WORDS
    ensures n.Some? ==> |VisibleWords(words)| + n.value == |words|
    ensures n.None? ==> VisibleWords(words) == words
  {
    if |words| > CARD_WORDS then Some(|words| - CARD_WORDS) else None
  }
}
