/** Strings as the C code sees them: `strcmp` order and NUL termination. */
module Text {

  /** `strcmp(a, b) < 0`: byte by byte, a proper prefix comes first. */
  predicate Less(a: string, b: string) {
    b != [] && (a == [] || a[0] < b[0] || (a[0] == b[0] && Less(a[1..], b[1..])))
  }

  /** `strcmp(a, b) <= 0` */
  predicate AtMost(a: string, b: string) {
    !Less(b, a)
  }

  lemma {:induction false} LessIrreflexive(a: string)
    ensures !Less(a, a)
  {
    if a != [] {
      LessIrreflexive(a[1..]);
    }
  }

  lemma {:induction false} LessTransitive(a: string, b: string, c: string)
    requires Less(a, b) && Less(b, c)
    ensures Less(a, c)
  {
    if a != [] && a[0] == b[0] && b[0] == c[0] {
      LessTransitive(a[1..], b[1..], c[1..]);
    }
  }

  lemma {:induction false} LessTotal(a: string, b: string)
    ensures Less(a, b) || a == b || Less(b, a)
  {
    if a != [] && b != [] && a[0] == b[0] {
      LessTotal(a[1..], b[1..]);
      assert a == [a[0]] + a[1..] && b == [b[0]] + b[1..];
    }
  }

  /** `strcmp` is a total order: two strings that are each at most the other are equal. */
  lemma AtMostTotalOrder(a: string, b: string, c: string)
    ensures AtMost(a, b) || AtMost(b, a)
    ensures AtMost(a, b) && AtMost(b, a) ==> a == b
    ensures AtMost(a, b) && AtMost(b, c) ==> AtMost(a, c)
  {
    LessTotal(a, b);
    LessIrreflexive(a);
    if Less(a, b) && Less(b, a) {
      LessTransitive(a, b, a);
    }
    if AtMost(a, b) && AtMost(b, c) && Less(c, a) {
      LessTotal(b, c);
      if Less(b, c) {
        LessTransitive(b, c, a);
      }
    }
  }

  /** `n` is where the strings first differ, and there `a` ends or has the smaller byte. */
  predicate SmallerAt(a: string, b: string, n: nat) {
    n <= |a| && n < |b| && a[..n] == b[..n] && (n == |a| || a[n] < b[n])
  }

  /** The order without recursion: `strcmp` decides at the first difference. */
  lemma {:induction false} LessIsAtFirstDifference(a: string, b: string)
    ensures Less(a, b) <==> exists n: nat :: SmallerAt(a, b, n)
  {
    if a != [] && b != [] && a[0] == b[0] {
      LessIsAtFirstDifference(a[1..], b[1..]);
      if Less(a, b) {
        var n: nat :| SmallerAt(a[1..], b[1..], n);
        assert a[..n + 1] == [a[0]] + a[1..][..n] && b[..n + 1] == [b[0]] + b[1..][..n];
        assert SmallerAt(a, b, n + 1);
      }
      if n: nat :| SmallerAt(a, b, n) {
        assert a[1..][..n - 1] == a[..n][1..] && b[1..][..n - 1] == b[..n][1..];
        assert SmallerAt(a[1..], b[1..], n - 1);
      }
    } else {
      assert Less(a, b) ==> SmallerAt(a, b, 0);
      assert forall n: nat :: SmallerAt(a, b, n) && n > 0 ==> a[0] == a[..n][0] == b[..n][0] == b[0];
    }
  }

  /** A proper prefix comes first. */
  lemma PrefixIsLess(a: string, b: string)
    requires a < b
    ensures Less(a, b)
  {
    LessIsAtFirstDifference(a, b);
    assert SmallerAt(a, b, |a|);
  }

  /** What `strcpy` keeps of a buffer: the bytes before the first NUL. */
  function CStr(s: string): (r: string)
    ensures '\0' !in r
    ensures '\0' !in s <==> |r| == |s|
    ensures r <= s && (|r| < |s| ==> s[|r|] == '\0')
  {
    if s == [] || s[0] == '\0' then [] else [s[0]] + CStr(s[1..])
  }

  lemma Assoc<T>(a: seq<T>, b: seq<T>, c: seq<T>)
    ensures a + (b + c) == (a + b) + c
  {
  }

  function Concat(texts: seq<string>): string {
    if texts == [] then "" else texts[0] + Concat(texts[1..])
  }

  function Digit(d: nat): char
    requires d < 10
  {
    '0' + d as char
  }

  predicate IsDigit(c: char) {
    '0' <= c <= '9'
  }

  /** `%d` of a non-negative number. */
  function Decimal(n: nat): (r: string)
    ensures r != [] && forall i :: 0 <= i < |r| ==> IsDigit(r[i])
  {
    if n < 10 then [Digit(n)] else Decimal(n / 10) + [Digit(n % 10)]
  }

  /** `strtoul` of a string of digits. */
  function Number(s: string): nat
    requires forall i :: 0 <= i < |s| ==> IsDigit(s[i])
  {
    if s == [] then 0
    else
      assert IsDigit(s[|s| - 1]);
      10 * Number(s[..|s| - 1]) + (s[|s| - 1] - '0') as nat
  }

  lemma {:induction false} DecimalReadsBack(n: nat)
    ensures Number(Decimal(n)) == n
  {
    if n < 10 {
      assert Decimal(n)[..0] == [];
    } else {
      DecimalReadsBack(n / 10);
      assert Decimal(n)[..|Decimal(n)| - 1] == Decimal(n / 10);
    }
  }

  /** A number is printed without leading zeros, and there is one such text. */
  lemma {:induction false} DecimalIsCanonical(s: string)
    requires s != [] && forall i :: 0 <= i < |s| ==> IsDigit(s[i])
    ensures (|s| == 1 || s[0] != '0') <==> s == Decimal(Number(s))
  {
    var init, last := s[..|s| - 1], s[|s| - 1];
    assert s == init + [last];
    if |s| == 1 {
      assert Number(init) == 0;
    } else {
      DecimalIsCanonical(init);
      assert init[0] == s[0];
      assert Number(s) / 10 == Number(init);
      assert Decimal(0) == "0";
    }
  }

  lemma DecimalInjective(m: nat, n: nat)
    requires Decimal(m) == Decimal(n)
    ensures m == n
  {
    DecimalReadsBack(m);
    DecimalReadsBack(n);
  }

  /** A text is split at most one way around the last `c`. */
  lemma SplitAtLast(a: string, x: string, b: string, y: string, c: char)
    requires a + [c] + x == b + [c] + y
    requires c !in x && c !in y
    ensures a == b && x == y
  {
    var s := a + [c] + x;
    assert s[|a|] == c && s[|b|] == c;
    assert forall i :: |a| < i < |s| ==> s[i] == x[i - |a| - 1];
    assert forall i :: |b| < i < |s| ==> s[i] == y[i - |b| - 1];
    assert a == s[..|a|] && b == s[..|b|] && x == s[|a| + 1..] && y == s[|b| + 1..];
  }
}
