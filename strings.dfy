/** Text helpers: Python's decimal formatting of an int, splitting at the first
    occurrence of a separator, and Python's ordering of str values. */
module Strings {
  import opened Outcomes

  predicate IsDigit(c: char) { '0' <= c <= '9' }

  predicate AllDigits(s: string) { forall i | 0 <= i < |s| :: IsDigit(s[i]) }

  function DigitChar(d: nat): (c: char)
    requires d < 10
    ensures IsDigit(c)
  {
    (48 + d) as char
  }

  function DigitValue(c: char): nat
    requires IsDigit(c)
  {
    c as int - 48
  }

  /** Decimal text of a natural number, as Python's `str` writes it: digits only,
      and no leading zero except for 0 itself. */
  function NatToString(n: nat): (s: string)
    ensures |s| > 0 && AllDigits(s)
    ensures s[0] == '0' ==> n == 0 && |s| == 1
    decreases n
  {
    if n < 10 then [DigitChar(n)] else NatToString(n / 10) + [DigitChar(n % 10)]
  }

  /** The value of a string of decimal digits. */
  function ParseNat(s: string): nat
    requires AllDigits(s)
  {
    if s == [] then 0 else ParseNat(s[..|s| - 1]) * 10 + DigitValue(s[|s| - 1])
  }

  lemma {:induction false} ParseNatToString(n: nat)
    ensures ParseNat(NatToString(n)) == n
    decreases n
  {
    if n >= 10 {
      ParseNatToString(n / 10);
      var s := NatToString(n);
      assert s[..|s| - 1] == NatToString(n / 10);
    }
  }

  /** Python's `str(i)` (and `f"{i}"`) for an int: a minus sign, then the digits, when negative. */
  function IntToString(i: int): (s: string)
    ensures i >= 0 ==> |s| > 0 && AllDigits(s) && ParseNat(s) == i
    ensures i >= 0 ==> (s[0] == '0' ==> i == 0 && |s| == 1)
    ensures i < 0 ==> |s| > 1 && s[0] == '-' && s[1] != '0'
    ensures i < 0 ==> AllDigits(s[1..]) && ParseNat(s[1..]) == -i
  {
    ParseNatToString(if i < 0 then -i else i);
    if i < 0 then
      var s := "-" + NatToString(-i);
      assert s[1..] == NatToString(-i);
      s
    else NatToString(i)
  }

  /** Reads back what IntToString writes; None for any other text. */
  function ParseInt(s: string): Option<int>
  {
    if |s| > 1 && s[0] == '-' && AllDigits(s[1..]) then Some(-(ParseNat(s[1..]) as int))
    else if |s| > 0 && AllDigits(s) then Some(ParseNat(s))
    else None
  }

  lemma ParseIntToString(i: int)
    ensures ParseInt(IntToString(i)) == Some(i)
  {
    var s := IntToString(i);
    if i < 0 {
      assert s[1..] == NatToString(-i);
      ParseNatToString(-i);
    } else {
      assert s == NatToString(i);
      assert |s| > 0 && IsDigit(s[0]);
      assert !(|s| > 1 && s[0] == '-');
    }
  }

  /** Splits `s` at the first occurrence of `c` (Python's `s.split(c, 1)` when `c` occurs). */
  function SplitAt(s: string, c: char): (r: Option<(string, string)>)
    ensures r.None? <==> c !in s
    ensures r.Some? ==> c !in r.value.0 && s == r.value.0 + [c] + r.value.1
  {
    if s == [] then None
    else if s[0] == c then Some(([], s[1..]))
    else
      match SplitAt(s[1..], c)
      case None => None
      case Some(rest) => Some(([s[0]] + rest.0, rest.1))
  }

  /** Joining two parts with a separator the first part lacks, then splitting, gives the parts back. */
  lemma {:induction false} SplitAtJoin(p: string, c: char, q: string)
    requires c !in p
    ensures SplitAt(p + [c] + q, c) == Some((p, q))
  {
    if p != [] {
      var s := p + [c] + q;
      assert s[0] == p[0] && s[0] != c;
      assert s[1..] == p[1..] + [c] + q;
      SplitAtJoin(p[1..], c, q);
      assert [p[0]] + p[1..] == p;
    } else {
      assert p + [c] + q == [c] + q;
    }
  }

  /** Python's `<` on str: lexicographic on code points, a proper prefix first. */
  predicate LexLess(a: string, b: string)
  {
    if |a| == 0 then |b| > 0
    else if |b| == 0 then false
    else if a[0] != b[0] then a[0] < b[0]
    else LexLess(a[1..], b[1..])
  }

  lemma {:induction false} LexLessIrreflexive(a: string)
    ensures !LexLess(a, a)
  {
    if |a| > 0 { LexLessIrreflexive(a[1..]); }
  }

  lemma {:induction false} LexLessTotal(a: string, b: string)
    ensures a == b || LexLess(a, b) || LexLess(b, a)
  {
    if |a| > 0 && |b| > 0 && a[0] == b[0] {
      LexLessTotal(a[1..], b[1..]);
      if a[1..] == b[1..] {
        assert a == [a[0]] + a[1..] && b == [b[0]] + b[1..];
      }
    }
  }

  lemma {:induction false} LexLessTransitive(a: string, b: string, c: string)
    requires LexLess(a, b) && LexLess(b, c)
    ensures LexLess(a, c)
  {
    if |a| > 0 && |b| > 0 && |c| > 0 && a[0] == b[0] && b[0] == c[0] {
      LexLessTransitive(a[1..], b[1..], c[1..]);
    }
  }

  predicate StrictlySorted(s: seq<string>)
  {
    forall i, j | 0 <= i < j < |s| :: LexLess(s[i], s[j])
  }

  /** Inserts `x` into a strictly sorted sequence, keeping it strictly sorted and duplicate-free. */
  function InsertSorted(s: seq<string>, x: string): (r: seq<string>)
    requires StrictlySorted(s)
    ensures StrictlySorted(r)
    ensures forall y :: y in r <==> y in s || y == x
  {
    if s == [] then [x]
    else if x == s[0] then s
    else if LexLess(x, s[0]) then
      assert forall j | 0 < j < |s| :: LexLess(x, s[j]) by {
        forall j | 0 < j < |s| ensures LexLess(x, s[j]) { LexLessTransitive(x, s[0], s[j]); }
      }
      [x] + s
    else
      LexLessTotal(x, s[0]);
      var t := InsertSorted(s[1..], x);
      assert forall y | y in t :: LexLess(s[0], y);
      [s[0]] + t
  }

  /** The distinct values of `col`, in Python's sorted order (what a sorted group index holds). */
  function SortedDistinct(col: seq<string>): (r: seq<string>)
    ensures StrictlySorted(r)
    ensures forall y :: y in r <==> y in col
  {
    if col == [] then []
    else
      var r := InsertSorted(SortedDistinct(col[..|col| - 1]), col[|col| - 1]);
      assert forall y :: y in col <==> y in col[..|col| - 1] || y == col[|col| - 1] by {
        assert col == col[..|col| - 1] + [col[|col| - 1]];
      }
      r
  }

  /** A strictly sorted sequence has no repeated element. */
  lemma StrictlySortedDistinct(s: seq<string>, i: nat, j: nat)
    requires StrictlySorted(s) && i < j < |s|
    ensures s[i] != s[j]
  {
    LexLessIrreflexive(s[i]);
  }
}
