/**
 Text as the database and the Rust code see it: the byte order of TEXT columns
 (which for well-formed UTF-8 is the order of the code points) and zero-padded
 decimal numbers.
 */
module Text {

  /** SQLite's BINARY collation and Rust's `Ord` on `String`. */
  predicate Less(a: string, b: string) {
    if b == "" then false
    else if a == "" then true
    else a[0] < b[0] || (a[0] == b[0] && Less(a[1..], b[1..]))
  }

  lemma {:induction false} LessIrreflexive(a: string)
    ensures !Less(a, a)
  {
    if a != "" {
      LessIrreflexive(a[1..]);
    }
  }

  lemma {:induction false} LessTransitive(a: string, b: string, c: string)
    requires Less(a, b) && Less(b, c)
    ensures Less(a, c)
  {
    if a != "" && a[0] == b[0] == c[0] {
      LessTransitive(a[1..], b[1..], c[1..]);
    }
  }

  lemma {:induction false} LessTotal(a: string, b: string)
    ensures Less(a, b) || a == b || Less(b, a)
  {
    if a != "" && b != "" && a[0] == b[0] {
      LessTotal(a[1..], b[1..]);
      assert a == [a[0]] + a[1..] && b == [b[0]] + b[1..];
    }
  }

  lemma LessAsymmetric(a: string, b: string)
    requires Less(a, b)
    ensures !Less(b, a) && a != b
  {
    LessIrreflexive(a);
    if Less(b, a) {
      LessTransitive(a, b, a);
    }
  }

  /** Texts whose leading parts have equal length compare part by part. */
  lemma {:induction false} LessConcat(a: string, b: string, x: string, y: string)
    requires |a| == |b|
    ensures Less(a + x, b + y) <==> Less(a, b) || (a == b && Less(x, y))
  {
    if a == "" {
      assert a + x == x && b + y == y;
    } else {
      assert (a + x)[1..] == a[1..] + x && (b + y)[1..] == b[1..] + y;
      LessConcat(a[1..], b[1..], x, y);
      assert a == [a[0]] + a[1..] && b == [b[0]] + b[1..];
    }
  }

  function Digit(d: nat): (c: char)
    requires d < 10
    ensures '0' <= c <= '9' && c as int == '0' as int + d
  {
    ('0' as int + d) as char
  }

  /** `format!("{n:0width$}")` for a non-negative number. */
  function Padded(n: nat, width: nat): (s: string)
    ensures |s| >= 1 && |s| >= width
    ensures forall c | c in s :: '0' <= c <= '9'
    decreases n, width
  {
    if n < 10 && width <= 1 then [Digit(n)]
    else Padded(n / 10, if width == 0 then 0 else width - 1) + [Digit(n % 10)]
  }

  /** `format!("{n:0width$}")`: the sign of a negative number counts towards the width. */
  function PaddedInt(n: int, width: nat): string {
    if n < 0 then "-" + Padded(-n, if width == 0 then 0 else width - 1) else Padded(n, width)
  }

  /** Reads back a run of digits. */
  function Value(s: string): int {
    if s == "" then 0 else 10 * Value(s[..|s| - 1]) + (s[|s| - 1] as int - '0' as int)
  }

  lemma {:induction false} ValueOfPadded(n: nat, width: nat)
    ensures Value(Padded(n, width)) == n
    decreases n, width
  {
    var s := Padded(n, width);
    if n < 10 && width <= 1 {
      assert s[..|s| - 1] == "";
    } else {
      var w := if width == 0 then 0 else width - 1;
      ValueOfPadded(n / 10, w);
      assert s[..|s| - 1] == Padded(n / 10, w);
    }
  }

  lemma PaddedInjective(n: nat, m: nat, width: nat)
    requires Padded(n, width) == Padded(m, width)
    ensures n == m
  {
    ValueOfPadded(n, width);
    ValueOfPadded(m, width);
  }

  lemma PaddedIntInjective(n: int, m: int, width: nat)
    requires PaddedInt(n, width) == PaddedInt(m, width)
    ensures n == m
  {
    var a, b := PaddedInt(n, width), PaddedInt(m, width);
    assert a[0] in a && b[0] in b;
    if n < 0 {
      assert a[1..] == Padded(-n, if width == 0 then 0 else width - 1);
      assert b[1..] == Padded(-m, if width == 0 then 0 else width - 1);
      PaddedInjective(-n, -m, if width == 0 then 0 else width - 1);
    } else {
      PaddedInjective(n, m, width);
    }
  }

  lemma TwoDigits(n: nat)
    requires n < 100
    ensures |Padded(n, 2)| == 2
  {
    assert |Padded(n / 10, 1)| == 1;
  }

  lemma FourDigits(n: nat)
    requires n < 10000
    ensures |Padded(n, 4)| == 4
  {
    assert |Padded(n / 1000, 1)| == 1;
    assert n / 10 / 10 / 10 == n / 1000;
    assert |Padded(n / 10 / 10, 2)| == 2;
    assert |Padded(n / 10, 3)| == 3;
  }

  /** Numbers written with equally many digits sort as text exactly as they sort as numbers. */
  lemma {:induction false} PaddedOrder(n: nat, m: nat, width: nat)
    requires |Padded(n, width)| == |Padded(m, width)|
    ensures Less(Padded(n, width), Padded(m, width)) <==> n < m
    decreases n, width
  {
    var a, b := Padded(n, width), Padded(m, width);
    var w := if width == 0 then 0 else width - 1;
    if n < 10 && width <= 1 {
      assert a[1..] == "" && b[1..] == "";
    } else {
      assert |Padded(n / 10, w)| >= 1;
      var x, y := [Digit(n % 10)], [Digit(m % 10)];
      assert x[1..] == "" && y[1..] == "";
      PaddedOrder(n / 10, m / 10, w);
      LessConcat(Padded(n / 10, w), Padded(m / 10, w), x, y);
      if Padded(n / 10, w) == Padded(m / 10, w) {
        PaddedInjective(n / 10, m / 10, w);
      }
    }
  }
}
