/**
 * Strings as the modelled code handles them: decimal rendering of integers
 * (Python's `str(int)`), its inverse, Python's code-point ordering of strings,
 * `sorted()` over a set of strings, and display truncation.
 */
module Text {
  import opened Wrappers

  predicate IsDigit(c: char) {
    '0' <= c <= '9'
  }

  predicate AllDigits(s: string) {
    forall i :: 0 <= i < |s| ==> IsDigit(s[i])
  }

  function DigitChar(d: int): (c: char)
    requires 0 <= d <= 9
    ensures IsDigit(c)
  {
    ('0' as int + d) as char
  }

  function DigitValue(c: char): (d: int)
    requires IsDigit(c)
    ensures 0 <= d <= 9
  {
    c as int - '0' as int
  }

  /** Python's `str(n)` for a non-negative integer. */
  function NatText(n: nat): (s: string)
    ensures 1 <= |s| && AllDigits(s)
    ensures |s| > 1 ==> s[0] != '0'
    decreases n
  {
    if n < 10 then [DigitChar(n)] else NatText(n / 10) + [DigitChar(n % 10)]
  }

  /** The value of a string of decimal digits, most significant first. */
  function DigitsValue(s: string): nat
    requires AllDigits(s)
    decreases |s|
  {
    if s == [] then 0 else DigitsValue(s[..|s| - 1]) * 10 + DigitValue(s[|s| - 1])
  }

  lemma {:induction false} NatTextRoundTrip(n: nat)
    ensures DigitsValue(NatText(n)) == n
    decreases n
  {
    var s := NatText(n);
    if n >= 10 {
      NatTextRoundTrip(n / 10);
      assert s[..|s| - 1] == NatText(n / 10);
    } else {
      assert s[..|s| - 1] == [];
    }
  }

  /** Python's `str(i)` for any integer. */
  function IntText(i: int): (s: string)
    ensures 1 <= |s|
  {
    if i < 0 then "-" + NatText(-i) else NatText(i)
  }

  /** Reads back a decimal integer with an optional leading minus sign. */
  function ParseInt(s: string): (r: Option<int>)
    ensures r.Some? ==> 1 <= |s|
  {
    if |s| >= 2 && s[0] == '-' && AllDigits(s[1..]) then Some(0 - DigitsValue(s[1..]))
    else if |s| >= 1 && AllDigits(s) then Some(DigitsValue(s))
    else None
  }

  lemma IntTextRoundTrip(i: int)
    ensures ParseInt(IntText(i)) == Some(i)
  {
    var s := IntText(i);
    if i < 0 {
      var t := NatText(-i);
      assert s == "-" + t;
      assert s[1..] == t;
      NatTextRoundTrip(-i);
      assert |s| >= 2 && s[0] == '-' && AllDigits(s[1..]);
    } else {
      NatTextRoundTrip(i);
      assert IsDigit(s[0]);
      assert !(|s| >= 2 && s[0] == '-');
    }
  }

  /** Python's `a < b` on strings: code-point lexicographic order. */
  predicate Below(a: string, b: string)
    decreases |a|
  {
    if a == [] then b != []
    else if b == [] then false
    else if a[0] != b[0] then a[0] < b[0]
    else Below(a[1..], b[1..])
  }

  lemma {:induction false} BelowIrreflexive(a: string)
    ensures !Below(a, a)
    decreases |a|
  {
    if a != [] {
      BelowIrreflexive(a[1..]);
    }
  }

  lemma {:induction false} BelowAsymmetric(a: string, b: string)
    requires Below(a, b)
    ensures !Below(b, a)
    decreases |a|
  {
    if a != [] && b != [] && a[0] == b[0] {
      BelowAsymmetric(a[1..], b[1..]);
    }
  }

  lemma {:induction false} BelowTransitive(a: string, b: string, c: string)
    requires Below(a, b) && Below(b, c)
    ensures Below(a, c)
    decreases |a|
  {
    if a != [] && b != [] && c != [] && a[0] == b[0] && b[0] == c[0] {
      BelowTransitive(a[1..], b[1..], c[1..]);
    }
  }

  lemma {:induction false} BelowTotal(a: string, b: string)
    requires a != b
    ensures Below(a, b) || Below(b, a)
    decreases |a|
  {
    if a != [] && b != [] && a[0] == b[0] {
      assert a == [a[0]] + a[1..] && b == [b[0]] + b[1..];
      BelowTotal(a[1..], b[1..]);
    }
  }

  predicate IsLeastOf(m: string, s: set<string>) {
    m in s && forall x :: x in s && x != m ==> Below(m, x)
  }

  /** Every non-empty finite set of strings has a least element. */
  lemma {:induction false} LeastExists(s: set<string>)
    requires s != {}
    ensures exists m :: IsLeastOf(m, s)
    decreases |s|
  {
    var y :| y in s;
    if s == {y} {
      assert IsLeastOf(y, s);
    } else {
      var rest := s - {y};
      LeastExists(rest);
      var m :| IsLeastOf(m, rest);
      if Below(m, y) {
        assert IsLeastOf(m, s);
      } else {
        BelowTotal(m, y);
        forall x | x in s && x != y
          ensures Below(y, x)
        {
          if x != m {
            BelowTransitive(y, m, x);
          }
        }
        assert IsLeastOf(y, s);
      }
    }
  }

  /**
   * The least string of a non-empty set in code-point order: what
   * `ORDER BY name` puts first under a binary (code-point) collation.
   */
  function Least(s: set<string>): (m: string)
    requires s != {}
    ensures m in s
    ensures forall x :: x in s && x != m ==> Below(m, x)
  {
    LeastExists(s);
    AsymmetryFacts();
    var m :| IsLeastOf(m, s);
    m
  }

  lemma AsymmetryFacts()
    ensures forall a, b :: Below(a, b) ==> !Below(b, a)
  {
    forall a, b | Below(a, b)
      ensures !Below(b, a)
    {
      BelowAsymmetric(a, b);
    }
  }

  /** Strictly increasing under `Below`: sorted and without repeats. */
  predicate StrictlyAscending(r: seq<string>) {
    forall i, j :: 0 <= i < j < |r| ==> Below(r[i], r[j])
  }

  /** A strictly ascending sequence has no repeated element. */
  lemma AscendingDistinct(r: seq<string>)
    requires StrictlyAscending(r)
    ensures forall i, j :: 0 <= i < j < |r| ==> r[i] != r[j]
  {
    forall i, j | 0 <= i < j < |r|
      ensures r[i] != r[j]
    {
      AscendingIndex(r, i, j);
    }
  }

  /** In a strictly ascending sequence, order of positions is order of values, and no value repeats. */
  lemma AscendingIndex(r: seq<string>, i: int, j: int)
    requires StrictlyAscending(r) && 0 <= i < |r| && 0 <= j < |r|
    ensures Below(r[i], r[j]) <==> i < j
    ensures r[i] == r[j] <==> i == j
  {
    BelowIrreflexive(r[i]);
    if j < i {
      BelowAsymmetric(r[j], r[i]);
    }
  }

  /** Python's `sorted(s)` for a set of strings. */
  function SortedNames(s: set<string>): (r: seq<string>)
    ensures |r| == |s|
    ensures forall x :: x in r <==> x in s
    ensures StrictlyAscending(r)
    decreases |s|
  {
    if s == {} then []
    else
      var m := Least(s);
      [m] + SortedNames(s - {m})
  }

  /** Cuts a display string to at most 100 characters, marking the cut with "...". */
  function Truncate(s: string): (r: string)
    ensures |r| <= 100
    ensures |s| <= 100 ==> r == s
    ensures |s| > 100 ==> |r| == 100 && r[..97] == s[..97] && r[97..] == "..."
  {
    if |s| > 100 then s[..97] + "..." else s
  }
}
