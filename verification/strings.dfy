/** The few string operations of Python's `str` that the account engine uses. */
module Strings {

  /** `s.startswith(prefix)`. */
  predicate StartsWith(s: string, prefix: string) {
    |prefix| <= |s| && s[..|prefix|] == prefix
  }

  /** `sep.join(parts)`. */
  function Join(sep: string, parts: seq<string>): string
    decreases |parts|
  {
    if |parts| == 0 then ""
    else if |parts| == 1 then parts[0]
    else parts[0] + sep + Join(sep, parts[1..])
  }

  /** `s.count(c)` for a single character. */
  function Count(c: char, s: string): nat
    decreases |s|
  {
    if |s| == 0 then 0
    else (if s[0] == c then 1 else 0) + Count(c, s[1..])
  }

  /** `s.split(sep)` for a one-character separator: the pieces between the
      separators, always one more than there are separators. */
  function Split(s: string, sep: char): (parts: seq<string>)
    ensures |parts| == Count(sep, s) + 1
    decreases |s|
  {
    if |s| == 0 then [""]
    else
      var rest := Split(s[1..], sep);
      if s[0] == sep then [""] + rest
      else [[s[0]] + rest[0]] + rest[1..]
  }

  lemma {:induction false} CountAppend(c: char, a: string, b: string)
    ensures Count(c, a + b) == Count(c, a) + Count(c, b)
    decreases |a|
  {
    if |a| == 0 {
      assert a + b == b;
    } else {
      assert (a + b)[1..] == a[1..] + b;
      CountAppend(c, a[1..], b);
    }
  }

  lemma {:induction false} CountAbsent(c: char, s: string)
    requires c !in s
    ensures Count(c, s) == 0
    decreases |s|
  {
    if |s| > 0 {
      assert s[0] != c;
      assert forall i :: 0 <= i < |s[1..]| ==> s[1..][i] == s[i + 1];
      CountAbsent(c, s[1..]);
    }
  }

  /** Joining pieces that hold `c` once each, with a separator free of `c`,
      gives a string holding `c` exactly once per piece. */
  lemma {:induction false} CountJoin(c: char, sep: string, parts: seq<string>)
    requires Count(c, sep) == 0
    requires forall i :: 0 <= i < |parts| ==> Count(c, parts[i]) == 1
    ensures Count(c, Join(sep, parts)) == |parts|
    decreases |parts|
  {
    if |parts| > 1 {
      CountJoin(c, sep, parts[1..]);
      CountAppend(c, parts[0] + sep, Join(sep, parts[1..]));
      CountAppend(c, parts[0], sep);
    }
  }

  /** A string without the separator splits into itself. */
  lemma {:induction false} SplitWithoutSeparator(w: string, sep: char)
    requires sep !in w
    ensures Split(w, sep) == [w]
    decreases |w|
  {
    if |w| > 0 {
      assert sep !in w[1..] by {
        forall i | 0 <= i < |w[1..]| ensures w[1..][i] != sep {
          assert w[1..][i] == w[i + 1];
        }
      }
      SplitWithoutSeparator(w[1..], sep);
      assert [w[0]] + w[1..] == w;
    }
  }

  /** Splitting at the first separator peels off the text before it. */
  lemma {:induction false} SplitAtFirst(w: string, sep: char, t: string)
    requires sep !in w
    ensures Split(w + [sep] + t, sep) == [w] + Split(t, sep)
    decreases |w|
  {
    var s := w + [sep] + t;
    if |w| == 0 {
      assert s == [sep] + t;
      assert s[1..] == t;
    } else {
      assert s[1..] == w[1..] + [sep] + t;
      assert sep !in w[1..] by {
        forall i | 0 <= i < |w[1..]| ensures w[1..][i] != sep {
          assert w[1..][i] == w[i + 1];
        }
      }
      SplitAtFirst(w[1..], sep, t);
      assert [w[0]] + w[1..] == w;
    }
  }

  /** Round trip: splitting lines that were joined with a separator none of
      them contains gives the lines back. */
  lemma {:induction false} SplitJoin(parts: seq<string>, sep: char)
    requires |parts| >= 1
    requires forall i :: 0 <= i < |parts| ==> sep !in parts[i]
    ensures Split(Join([sep], parts), sep) == parts
    decreases |parts|
  {
    if |parts| == 1 {
      SplitWithoutSeparator(parts[0], sep);
    } else {
      SplitJoin(parts[1..], sep);
      SplitAtFirst(parts[0], sep, Join([sep], parts[1..]));
      assert [parts[0]] + parts[1..] == parts;
    }
  }

  // ---------------------------------------------------------------------
  // Zero-padded decimal numerals, as printed by strftime's %Y, %m, %f, ...

  function Pow10(k: nat): (p: nat)
    ensures p > 0
  {
    if k == 0 then 1 else 10 * Pow10(k - 1)
  }

  predicate IsDigit(ch: char) {
    48 <= ch as int <= 57
  }

  function DigitChar(d: nat): (ch: char)
    requires d < 10
    ensures IsDigit(ch)
  {
    (48 + d) as char
  }

  /** The last `width` decimal digits of `n`, zero-padded on the left. */
  function Digits(n: nat, width: nat): (s: string)
    ensures |s| == width
    ensures forall i :: 0 <= i < |s| ==> IsDigit(s[i])
  {
    if width == 0 then "" else Digits(n / 10, width - 1) + [DigitChar(n % 10)]
  }

  function DigitValue(ch: char): nat
    requires IsDigit(ch)
  {
    ch as int - 48
  }

  /** The number a string of decimal digits denotes. */
  function DecimalValue(s: string): nat
    requires forall i :: 0 <= i < |s| ==> IsDigit(s[i])
  {
    if |s| == 0 then 0
    else 10 * DecimalValue(s[..|s| - 1]) + DigitValue(s[|s| - 1])
  }

  /** Reading a padded numeral back gives the number, when it fits. */
  lemma {:induction false} DigitsValue(n: nat, width: nat)
    requires n < Pow10(width)
    ensures DecimalValue(Digits(n, width)) == n
  {
    if width > 0 {
      var s := Digits(n, width);
      assert s[..|s| - 1] == Digits(n / 10, width - 1);
      assert n / 10 < Pow10(width - 1);
      DigitsValue(n / 10, width - 1);
    }
  }

  lemma MulMonotone(d: nat, x: nat, y: nat)
    requires x <= y
    ensures d * x <= d * y
  {
    assert d * y == d * x + d * (y - x);
  }

  lemma MulDistributes(a: nat, b: nat, q: nat, r: nat)
    ensures a * (b * q + r) == (a * b) * q + a * r
  {
  }

  /** Euclidean division has one quotient. */
  lemma DivUnique(n: nat, d: nat, q: nat, r: nat)
    requires d > 0 && n == d * q + r && r < d
    ensures n / d == q
  {
    var q' := n / d;
    var r' := n % d;
    assert n == d * q' + r';
    if q' < q {
      MulMonotone(d, q' + 1, q);
      MulDistributes(d, 1, q', 1);
    } else if q' > q {
      MulMonotone(d, q + 1, q');
      MulDistributes(d, 1, q, 1);
    }
  }

  lemma DivDiv(n: nat, a: nat, b: nat)
    requires a > 0 && b > 0
    ensures n / a / b == n / (a * b)
  {
    var q := n / a;
    var r := n % a;
    var q2 := q / b;
    var r2 := q % b;
    assert n == a * q + r;
    assert q == b * q2 + r2;
    MulDistributes(a, b, q2, r2);
    MulMonotone(a, r2 + 1, b);
    MulDistributes(a, 1, r2, 1);
    DivUnique(n, a * b, q2, a * r2 + r);
  }

  /** Dropping the last `k` digits of a padded numeral gives the numeral of
      the number divided by 10^k: the truncation strftime's `[:-3]` relies on. */
  lemma {:induction false} DigitsPrefix(n: nat, width: nat, k: nat)
    ensures Digits(n, width + k)[..width] == Digits(n / Pow10(k), width)
    decreases k
  {
    if k == 0 {
      assert Digits(n, width)[..width] == Digits(n, width);
    } else {
      var shorter := Digits(n / 10, width + (k - 1));
      assert Digits(n, width + k) == shorter + [DigitChar(n % 10)];
      assert Digits(n, width + k)[..width] == shorter[..width];
      DigitsPrefix(n / 10, width, k - 1);
      assert Pow10(k) == 10 * Pow10(k - 1);
      DivDiv(n, 10, Pow10(k - 1));
    }
  }
}
