/**
 * The record shapes of the vocabulary trainer: Arabic roots, their common words and
 * the per-root learning progress, together with the identity of a root.
 */
module Types {
  import opened Wrappers

  /**
   * A root's `id` is a JavaScript number or string. A CSV row without an `id` column
   * carries `undefined` instead. Integer-valued numbers only are modelled.
   */
  datatype RootId = NumId(n: int) | StrId(s: string) | UndefinedId

  /** One word built on a root. */
  datatype CommonWord = CommonWord(word: string, transliteration: string, meaning: string)

  /** A dictionary entry. */
  datatype ArabicRoot = ArabicRoot(
    id: RootId,
    root_arabic: string,
    root_transliterated: string,
    root_letters: seq<string>,
    core_meaning: string,
    common_words: seq<CommonWord>,
    difficulty: int,
    frequency_rank: int)

  /** Learning status of one root. */
  datatype Status = New | Learning | Mastered

  /** Progress of the signed-in user on one root; `last_reviewed` is `null` until the first answer. */
  datatype UserProgress = UserProgress(
    root_id: RootId,
    correct_count: nat,
    incorrect_count: nat,
    last_reviewed: Option<string>,
    status: Status)

  /** The character of one decimal digit. */
  function DigitChar(d: nat): (c: char)
    requires d < 10
    ensures '0' <= c <= '9' && c as int - '0' as int == d
  {
    ['0', '1', '2', '3', '4', '5', '6', '7', '8', '9'][d]
  }

  /**
   * Decimal notation of a natural number, as JavaScript's `String(n)` writes it for
   * integers below 10^21 (larger ones are written in exponent form).
   */
  function NatToString(n: nat): (s: string)
    ensures |s| > 0
    ensures forall i :: 0 <= i < |s| ==> '0' <= s[i] <= '9'
    ensures n > 0 ==> s[0] != '0'
  {
    if n < 10 then [DigitChar(n)] else NatToString(n / 10) + [DigitChar(n % 10)]
  }

  /** Decimal notation of an integer, with a leading `-` for negatives. */
  function IntToString(i: int): string {
    if i < 0 then "-" + NatToString(-i) else NatToString(i)
  }

  /** The value of a string of decimal digits. */
  function DigitsValue(s: string): nat
    requires forall i :: 0 <= i < |s| ==> '0' <= s[i] <= '9'
  {
    if s == [] then 0
    else DigitsValue(s[..|s| - 1]) * 10 + (s[|s| - 1] as int - '0' as int)
  }

  /** Reading back the decimal notation of `n` gives `n`. */
  lemma {:induction false} NatToStringRoundTrip(n: nat)
    ensures DigitsValue(NatToString(n)) == n
  {
    if n >= 10 {
      var s := NatToString(n / 10);
      assert (s + [DigitChar(n % 10)])[..|s|] == s;
      NatToStringRoundTrip(n / 10);
    }
  }

  /** Distinct integers have distinct decimal notations. */
  lemma {:induction false} IntToStringInjective(a: int, b: int)
    requires IntToString(a) == IntToString(b)
    ensures a == b
  {
    IntToStringSign(a);
    IntToStringSign(b);
    if a < 0 {
      NatToStringInjective(-a, -b);
    } else {
      NatToStringInjective(a, b);
    }
  }

  /** Distinct naturals have distinct decimal notations. */
  lemma NatToStringInjective(a: nat, b: nat)
    requires NatToString(a) == NatToString(b)
    ensures a == b
  {
    NatToStringRoundTrip(a);
    NatToStringRoundTrip(b);
  }

  /** The notation of an integer starts with `-` exactly when it is negative. */
  lemma IntToStringSign(i: int)
    ensures |IntToString(i)| > 0
    ensures (IntToString(i)[0] == '-') == (i < 0)
    ensures i < 0 ==> IntToString(i)[1..] == NatToString(-i)
    ensures i >= 0 ==> IntToString(i) == NatToString(i)
  {
  }

  /**
   * The property name under which a plain JavaScript object stores the entry for `id`:
   * object keys are strings, so the number 1 and the string "1" name the same entry.
   */
  function Key(id: RootId): string {
    match id
    case NumId(n) => IntToString(n)
    case StrId(s) => s
    case UndefinedId => "undefined"
  }

  /**
   * Two different ids share a progress entry only as a number and the string of its
   * decimal notation, or as `undefined` and the string "undefined".
   */
  lemma KeyAliases(a: RootId, b: RootId)
    requires a != b && Key(a) == Key(b)
    ensures || (a.NumId? && b == StrId(IntToString(a.n)))
            || (b.NumId? && a == StrId(IntToString(b.n)))
            || (a.UndefinedId? && b == StrId("undefined"))
            || (b.UndefinedId? && a == StrId("undefined"))
  {
    if a.NumId? && b.NumId? {
      IntToStringInjective(a.n, b.n);
    } else if a.NumId? && b.UndefinedId? {
      IntToStringSign(a.n);
    } else if b.NumId? && a.UndefinedId? {
      IntToStringSign(b.n);
    }
  }

  /** Two numeric ids share a progress entry only if they are equal. */
  lemma NumKeysInjective(a: int, b: int)
    requires Key(NumId(a)) == Key(NumId(b))
    ensures a == b
  {
    IntToStringInjective(a, b);
  }

  /** The number 1 and the string "1" are different root ids that name one progress entry. */
  lemma NumberAndStringAlias()
    ensures NumId(1) != StrId("1")
    ensures Key(NumId(1)) == Key(StrId("1"))
  {
    assert NatToString(1) == "1";
  }
}
