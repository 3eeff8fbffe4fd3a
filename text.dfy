/** The few string operations of JavaScript that the components rely on:
    template-literal rendering of a number, `startsWith`, `substring(1)`,
    `indexOf` and the string-pattern form of `replace`. */
module Text {
  import opened Options

  predicate IsDigit(c: char) {
    '0' <= c <= '9'
  }

  /** The decimal digit character for `d`. */
  function Digit(d: nat): (c: char)
    requires d < 10
    ensures IsDigit(c)
    ensures DigitValue(c) == d
  {
    ('0' as int + d) as char
  }

  /** The value of a digit character. */
  function DigitValue(c: char): int {
    c as int - '0' as int
  }

  /** The number a string of digits spells, most significant digit first. */
  function DigitsValue(s: string): int
    decreases |s|
  {
    if s == [] then 0 else 10 * DigitsValue(s[..|s| - 1]) + DigitValue(s[|s| - 1])
  }

  /** `${n}`: the decimal rendering of a natural number, without sign or
      leading zeros. */
  function DecimalString(n: nat): (s: string)
    ensures 1 <= |s|
    ensures forall i :: 0 <= i < |s| ==> IsDigit(s[i])
    ensures n < 10 <==> |s| == 1
  {
    if n < 10 then [Digit(n)] else DecimalString(n / 10) + [Digit(n % 10)]
  }

  /** The rendering reads back as the number it renders, and it has no
      leading zero: its first digit is '0' only for the number 0. */
  lemma {:induction false} DecimalStringValue(n: nat)
    ensures DigitsValue(DecimalString(n)) == n
    ensures DecimalString(n)[0] == '0' <==> n == 0
    decreases n
  {
    if n >= 10 {
      var s := DecimalString(n);
      DecimalStringValue(n / 10);
      assert s[..|s| - 1] == DecimalString(n / 10);
      assert s[0] == DecimalString(n / 10)[0];
    }
  }

  lemma DigitInjective(a: nat, b: nat)
    requires a < 10 && b < 10 && Digit(a) == Digit(b)
    ensures a == b
  {
  }

  /** Two different numbers never render to the same text. */
  lemma {:induction false} DecimalStringInjective(m: nat, n: nat)
    requires DecimalString(m) == DecimalString(n)
    ensures m == n
  {
    var s := DecimalString(m);
    if m < 10 || n < 10 {
      if m < 10 && n < 10 {
        DigitInjective(m, n);
      }
    } else {
      assert s == DecimalString(m / 10) + [Digit(m % 10)];
      assert s == DecimalString(n / 10) + [Digit(n % 10)];
      assert DecimalString(m / 10) == s[..|s| - 1] == DecimalString(n / 10);
      DigitInjective(m % 10, n % 10);
      DecimalStringInjective(m / 10, n / 10);
    }
  }

  /** `s.startsWith(prefix)`. */
  predicate StartsWith(s: string, prefix: string) {
    |prefix| <= |s| && s[..|prefix|] == prefix
  }

  /** `s.substring(1)`: everything after the first character; the empty
      string stays empty. */
  function DropFirst(s: string): (r: string)
    ensures s == [] ==> r == []
    ensures s != [] ==> [s[0]] + r == s
  {
    if s == [] then [] else s[1..]
  }

  /** `pat` occurs in `s` starting at index `j`. */
  predicate OccursAt(s: string, pat: string, j: int) {
    0 <= j && j + |pat| <= |s| && s[j..j + |pat|] == pat
  }

  /** `s.indexOf(pat)`: the least index at which `pat` occurs, or None
      (JavaScript's -1) when it occurs nowhere. */
  function IndexOf(s: string, pat: string): (r: Option<nat>)
    ensures r.Some? ==> OccursAt(s, pat, r.value)
    ensures r.Some? ==> forall j :: 0 <= j < r.value ==> !OccursAt(s, pat, j)
    ensures r.None? ==> forall j :: !OccursAt(s, pat, j)
    decreases |s|
  {
    if |pat| > |s| then None
    else if s[..|pat|] == pat then Some(0)
    else
      var rest := IndexOf(s[1..], pat);
      ShiftedOccurrence(s, pat);
      assert forall j :: 0 < j ==> (OccursAt(s, pat, j) <==> OccursAt(s[1..], pat, j - 1));
      match rest
      case None => None
      case Some(k) => Some(k + 1)
  }

  /** An occurrence in `s[1..]` at `j` is an occurrence in `s` at `j + 1`. */
  lemma ShiftedOccurrence(s: string, pat: string)
    requires s != []
    ensures forall j :: 0 <= j ==> (OccursAt(s[1..], pat, j) <==> OccursAt(s, pat, j + 1))
  {
    forall j | 0 <= j
      ensures OccursAt(s[1..], pat, j) <==> OccursAt(s, pat, j + 1)
    {
      if 0 <= j && j + 1 + |pat| <= |s| {
        assert s[1..][j..j + |pat|] == s[j + 1..j + 1 + |pat|];
      }
    }
  }

  /** `s.replace(pat, rep)` with a string pattern: only the first occurrence
      of `pat` is replaced (a replacement without `$` patterns). */
  function ReplaceFirst(s: string, pat: string, rep: string): (r: string)
    ensures IndexOf(s, pat).None? ==> r == s
    ensures IndexOf(s, pat).Some? ==>
      var i := IndexOf(s, pat).value;
      && |r| == |s| - |pat| + |rep|
      && r[..i] == s[..i]
      && r[i..i + |rep|] == rep
      && r[i + |rep|..] == s[i + |pat|..]
  {
    match IndexOf(s, pat)
    case None => s
    case Some(i) => s[..i] + rep + s[i + |pat|..]
  }

  /** `s.lastIndexOf(ch)`: the greatest index holding `ch`, if any. */
  function LastIndexOf(s: string, ch: char): (r: Option<nat>)
    ensures r.Some? ==> r.value < |s| && s[r.value] == ch
  {
    if s == [] then None
    else if s[|s| - 1] == ch then Some(|s| - 1)
    else LastIndexOf(s[..|s| - 1], ch)
  }

  /** In `a`, then `sep`, then a text free of `sep`, the last `sep` is the
      one after `a`. */
  lemma {:induction false} LastIndexOfAfterSeparator(a: string, sep: char, s: string)
    requires sep !in s
    ensures LastIndexOf(a + [sep] + s, sep) == Some(|a|)
    decreases |s|
  {
    var x := a + [sep] + s;
    if s != [] {
      var init := s[..|s| - 1];
      assert x[..|x| - 1] == a + [sep] + init;
      assert sep !in init by {
        forall c | c in init ensures c != sep {
          var k :| 0 <= k < |init| && init[k] == c;
          assert s[k] == c;
        }
      }
      LastIndexOfAfterSeparator(a, sep, init);
    }
  }
}
