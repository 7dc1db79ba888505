/** The string handling the stores rely on: decimal identifiers, the byte order Redis uses to break ties
    between members of equal score, and splitting on a separator. */
module Text {
  datatype Option<+T> = None | Some(value: T)

  /** MySQL's and Go's 64-bit identifiers. */
  const UINT64_LIMIT := 0x1_0000_0000_0000_0000
  type Id = n: nat | n < UINT64_LIMIT

  // ---------------------------------------------------------------- decimals

  predicate IsDigit(c: char) { '0' <= c <= '9' }

  predicate AllDigits(s: string) { forall i :: 0 <= i < |s| ==> IsDigit(s[i]) }

  function DigitOf(d: nat): (c: char)
    requires d < 10
    ensures IsDigit(c) && c as int - '0' as int == d
  {
    ('0' as int + d) as char
  }

  /** strconv.FormatUint(n, 10) */
  function Format(n: nat): (s: string)
    ensures s != "" && AllDigits(s)
  {
    if n < 10 then [DigitOf(n)] else Format(n / 10) + [DigitOf(n % 10)]
  }

  /** The number a string of digits denotes. */
  function Value(s: string): nat
    requires AllDigits(s)
  {
    if s == "" then 0 else 10 * Value(s[..|s| - 1]) + (s[|s| - 1] as int - '0' as int)
  }

  /** strconv.ParseUint(s, 10, 64): digits only, at least one, below 2^64. */
  function ParseUint(s: string): Option<Id> {
    if s != "" && AllDigits(s) && Value(s) < UINT64_LIMIT then Some(Value(s)) else None
  }

  lemma {:induction false} ValueOfFormat(n: nat)
    ensures Value(Format(n)) == n
  {
    if n >= 10 {
      ValueOfFormat(n / 10);
      assert Format(n)[..|Format(n)| - 1] == Format(n / 10);
    }
  }

  lemma ParseFormat(id: Id)
    ensures ParseUint(Format(id)) == Some(id)
  {
    ValueOfFormat(id);
  }

  function Pow10(k: nat): (r: nat)
    ensures r > 0
  {
    if k == 0 then 1 else 10 * Pow10(k - 1)
  }

  lemma {:induction false} FormatLength(n: nat, k: nat)
    requires k > 0 && n < Pow10(k)
    ensures |Format(n)| <= k
  {
    if n >= 10 {
      assert k > 1 by { assert Pow10(1) == 10 * Pow10(0); }
      FormatLength(n / 10, k - 1);
    }
  }

  lemma IdLength(id: Id)
    ensures |Format(id)| <= 20
  {
    assert Pow10(5) == 100000;
    assert Pow10(10) == 100000 * Pow10(5);
    assert Pow10(15) == 100000 * Pow10(10);
    assert Pow10(20) == 100000 * Pow10(15);
    FormatLength(id, 20);
  }

  // ---------------------------------------------------------------- byte order

  /** The order of strings by their bytes; a proper prefix comes first. */
  predicate Before(a: string, b: string) {
    b != "" && (a == "" || a[0] < b[0] || (a[0] == b[0] && Before(a[1..], b[1..])))
  }

  lemma {:induction false} BeforeTotal(a: string, b: string)
    ensures !(Before(a, b) && Before(b, a))
    ensures a != b <==> Before(a, b) || Before(b, a)
  {
    if a != "" && b != "" {
      BeforeTotal(a[1..], b[1..]);
      assert a == [a[0]] + a[1..] && b == [b[0]] + b[1..];
    }
  }

  lemma {:induction false} BeforeTransitive(a: string, b: string, c: string)
    requires Before(a, b) && Before(b, c)
    ensures Before(a, c)
  {
    if a != "" && a[0] == b[0] == c[0] {
      BeforeTransitive(a[1..], b[1..], c[1..]);
    }
  }

  lemma {:induction false} BeforeSnoc(a: string, b: string, x: char, y: char)
    requires |a| == |b|
    ensures Before(a + [x], b + [y]) <==> Before(a, b) || (a == b && x < y)
  {
    if a != "" {
      BeforeSnoc(a[1..], b[1..], x, y);
      assert (a + [x])[1..] == a[1..] + [x] && (b + [y])[1..] == b[1..] + [y];
      assert a == [a[0]] + a[1..] && b == [b[0]] + b[1..];
    }
  }

  /** Digit strings of one length are ordered as the numbers they denote. */
  lemma {:induction false} SameLengthOrder(a: string, b: string)
    requires AllDigits(a) && AllDigits(b) && |a| == |b|
    ensures Before(a, b) <==> Value(a) < Value(b)
    ensures a == b <==> Value(a) == Value(b)
  {
    if a != "" {
      var n := |a| - 1;
      SameLengthOrder(a[..n], b[..n]);
      BeforeSnoc(a[..n], b[..n], a[n], b[n]);
      assert a == a[..n] + [a[n]] && b == b[..n] + [b[n]];
    }
  }

  /** What follows a pair of different strings of equal length does not change their order. */
  lemma {:induction false} BeforeExtend(a: string, b: string, x: string, y: string)
    requires |a| == |b| && a != b
    ensures Before(a + x, b + y) <==> Before(a, b)
  {
    assert (a + x)[1..] == a[1..] + x && (b + y)[1..] == b[1..] + y;
    if a[0] == b[0] {
      assert a == [a[0]] + a[1..] && b == [b[0]] + b[1..];
      BeforeExtend(a[1..], b[1..], x, y);
    }
  }

  // ---------------------------------------------------------------- separators

  /** strings.Split(s, sep) for a one-character separator. */
  function Split(s: string, sep: char): (parts: seq<string>)
    ensures |parts| >= 1
  {
    if s == "" then [""]
    else if s[0] == sep then [""] + Split(s[1..], sep)
    else
      var rest := Split(s[1..], sep);
      [[s[0]] + rest[0]] + rest[1..]
  }

  /** The text before the first separator and the text after it, when there is one. */
  function Cut(s: string, sep: char): Option<(string, string)> {
    if s == "" then None
    else if s[0] == sep then Some(("", s[1..]))
    else match Cut(s[1..], sep)
      case None => None
      case Some((a, b)) => Some(([s[0]] + a, b))
  }

  lemma {:induction false} CutAt(a: string, sep: char, b: string)
    requires sep !in a
    ensures Cut(a + [sep] + b, sep) == Some((a, b))
  {
    var s := a + [sep] + b;
    if a == "" {
      assert s[1..] == b;
    } else {
      CutAt(a[1..], sep, b);
      assert a[0] in a && s[0] == a[0] && a == [a[0]] + a[1..];
      assert s[1..] == a[1..] + [sep] + b;
    }
  }

  lemma {:induction false} SplitAt(a: string, sep: char, b: string)
    requires sep !in a
    ensures Split(a + [sep] + b, sep) == [a] + Split(b, sep)
  {
    var s := a + [sep] + b;
    if a == "" {
      assert s[1..] == b;
    } else {
      SplitAt(a[1..], sep, b);
      assert a[0] in a && s[0] == a[0] && a == [a[0]] + a[1..];
      assert s[1..] == a[1..] + [sep] + b;
    }
  }

  lemma {:induction false} SplitNone(a: string, sep: char)
    requires sep !in a
    ensures Split(a, sep) == [a]
  {
    if a != "" {
      SplitNone(a[1..], sep);
      assert a[0] in a && a == [a[0]] + a[1..];
    }
  }
}
