/** String helpers the renderers and parsers share: joining, splitting on a
    single character (Rust's `str::split` with a one-character pattern) and
    decimal formatting of integers (Rust's `Display` for `usize` and `i64`). */
module Strings {

  import opened Results

  /** Number of occurrences of `c` in `s`. */
  function Count(s: string, c: char): nat
  {
    if |s| == 0 then 0 else (if s[0] == c then 1 else 0) + Count(s[1..], c)
  }

  lemma {:induction false} CountZero(s: string, c: char)
    ensures Count(s, c) == 0 <==> c !in s
  {
    if |s| > 0 {
      CountZero(s[1..], c);
      assert s == [s[0]] + s[1..];
    }
  }

  lemma {:induction false} CountConcat(a: string, b: string, c: char)
    ensures Count(a + b, c) == Count(a, c) + Count(b, c)
  {
    if |a| == 0 {
      assert a + b == b;
    } else {
      assert (a + b)[1..] == a[1..] + b;
      CountConcat(a[1..], b, c);
    }
  }

  /** `parts` glued together with `sep` between neighbours. */
  function Join(parts: seq<string>, sep: string): string
  {
    if |parts| == 0 then ""
    else if |parts| == 1 then parts[0]
    else parts[0] + sep + Join(parts[1..], sep)
  }

  /** The pieces of `s` between occurrences of `c`; empty pieces are kept,
      so there is always one more piece than there are separators. */
  function Split(s: string, c: char): (parts: seq<string>)
    ensures |parts| == Count(s, c) + 1
    ensures forall i :: 0 <= i < |parts| ==> c !in parts[i]
  {
    if |s| == 0 then [""]
    else
      var rest := Split(s[1..], c);
      if s[0] == c then [""] + rest
      else [[s[0]] + rest[0]] + rest[1..]
  }

  /** Joining the pieces with the separator gives the string back. */
  lemma {:induction false} SplitJoin(s: string, c: char)
    ensures Join(Split(s, c), [c]) == s
  {
    if |s| > 0 {
      var rest := Split(s[1..], c);
      SplitJoin(s[1..], c);
      var parts := Split(s, c);
      if s[0] == c {
        assert parts[1..] == rest;
      } else {
        if |rest| > 1 {
          assert parts[1..] == rest[1..];
          ConcatAssoc([s[0]], rest[0], [c] + Join(rest[1..], [c]));
        }
      }
      assert s == [s[0]] + s[1..];
    }
  }

  /** A string without the separator is a single piece. */
  lemma {:induction false} SplitNone(a: string, c: char)
    requires c !in a
    ensures Split(a, c) == [a]
  {
    if |a| > 0 {
      assert a[0] != c && forall x :: x in a[1..] ==> x in a;
      SplitNone(a[1..], c);
      assert a == [a[0]] + a[1..];
    }
  }

  /** The first separator closes the first piece; the rest splits on its
      own. */
  lemma {:induction false} SplitAt(a: string, b: string, c: char)
    requires c !in a
    ensures Split(a + [c] + b, c) == [a] + Split(b, c)
  {
    var s := a + [c] + b;
    if |a| == 0 {
      assert s == [c] + b;
      assert s[1..] == b;
    } else {
      assert s[0] == a[0] && a[0] != c;
      assert forall x :: x in a[1..] ==> x in a;
      assert s[1..] == a[1..] + [c] + b;
      SplitAt(a[1..], b, c);
      assert a == [a[0]] + a[1..];
    }
  }

  /** The first piece of a split is the longest prefix free of the separator. */
  lemma {:induction false} SplitFirst(s: string, c: char)
    ensures var p := Split(s, c)[0];
      && p <= s
      && c !in p
      && (|p| < |s| ==> s[|p|] == c)
  {
    if |s| > 0 {
      SplitFirst(s[1..], c);
    }
  }

  /** A decimal digit character. */
  predicate IsDigit(ch: char)
  {
    '0' <= ch <= '9'
  }

  function DigitChar(d: nat): (ch: char)
    requires d < 10
    ensures IsDigit(ch)
  {
    "0123456789"[d]
  }

  /** Decimal rendering of a natural number, most significant digit first,
      without leading zeros. */
  function NatToString(n: nat): (s: string)
    ensures |s| > 0
    ensures forall i :: 0 <= i < |s| ==> IsDigit(s[i])
    decreases n
  {
    if n < 10 then [DigitChar(n)] else NatToString(n / 10) + [DigitChar(n % 10)]
  }

  /** Decimal rendering of a signed integer, with a leading `-` when negative. */
  function IntToString(v: int): string
  {
    if v < 0 then "-" + NatToString(-v) else NatToString(v)
  }

  /** Value of a non-empty string of decimal digits; None for any other
      string. */
  function ParseDigits(s: string): Option<nat>
    decreases |s|
  {
    if |s| == 0 || !IsDigit(s[|s| - 1]) then None
    else
      var d := (s[|s| - 1] as int - '0' as int) as nat;
      if |s| == 1 then Some(d)
      else
        match ParseDigits(s[..|s| - 1])
        case None => None
        case Some(high) => Some(high * 10 + d)
  }

  /** The inverse of `IntToString`: an optional `-` followed by decimal digits. */
  function ParseInt(s: string): Option<int>
  {
    if |s| > 0 && s[0] == '-' then
      match ParseDigits(s[1..])
      case None => None
      case Some(n) => Some(-(n as int))
    else
      match ParseDigits(s)
      case None => None
      case Some(n) => Some(n)
  }

  lemma {:induction false} DigitsOfNat(n: nat)
    ensures ParseDigits(NatToString(n)) == Some(n)
    decreases n
  {
    var s := NatToString(n);
    if n >= 10 {
      DigitsOfNat(n / 10);
      assert s[..|s| - 1] == NatToString(n / 10);
    }
  }

  lemma ParseNegative(n: nat)
    requires n > 0
    ensures ParseInt("-" + NatToString(n)) == Some(-(n as int))
  {
    var digits := NatToString(n);
    assert ("-" + digits)[1..] == digits;
    DigitsOfNat(n);
  }

  lemma ParseNonNegative(n: nat)
    ensures ParseInt(NatToString(n)) == Some(n as int)
  {
    var digits := NatToString(n);
    assert IsDigit(digits[0]);
    DigitsOfNat(n);
  }

  /** Formatting then parsing gives the integer back. */
  lemma IntRoundTrip(v: int)
    ensures ParseInt(IntToString(v)) == Some(v)
  {
    if v < 0 {
      assert IntToString(v) == "-" + NatToString(-v);
      ParseNegative(-v);
    } else {
      assert IntToString(v) == NatToString(v);
      ParseNonNegative(v);
    }
  }

  /** Renders each element of `xs` with its running number, counting from
      `k`; `first` tells the renderer that the element opens the text. */
  function Numbered<T>(xs: seq<T>, k: nat, first: bool, piece: (T, nat, bool) -> string): string
    decreases |xs|
  {
    if |xs| == 0 then "" else piece(xs[0], k, first) + Numbered(xs[1..], k + 1, false, piece)
  }

  lemma ConcatAssoc(a: string, b: string, c: string)
    ensures a + (b + c) == (a + b) + c
  {
  }

  /** Rendering a concatenation continues the numbering of the first part
      into the second. */
  lemma {:induction false} NumberedAppend<T>(xs: seq<T>, ys: seq<T>, k: nat, first: bool, piece: (T, nat, bool) -> string)
    requires |xs| > 0 || !first
    ensures Numbered(xs + ys, k, first, piece) == Numbered(xs, k, first, piece) + Numbered(ys, k + |xs|, false, piece)
    decreases |xs|
  {
    if |xs| == 0 {
      assert xs + ys == ys;
    } else {
      assert (xs + ys)[1..] == xs[1..] + ys;
      assert (xs + ys)[0] == xs[0];
      NumberedAppend(xs[1..], ys, k + 1, false, piece);
      ConcatAssoc(piece(xs[0], k, first), Numbered(xs[1..], k + 1, false, piece), Numbered(ys, k + |xs|, false, piece));
    }
  }

  /** When every piece holds exactly one `c`, the rendering holds one per
      element. */
  lemma {:induction false} NumberedCount<T>(xs: seq<T>, k: nat, first: bool, piece: (T, nat, bool) -> string, c: char)
    requires forall x, n: nat, f :: x in xs ==> Count(piece(x, n, f), c) == 1
    ensures Count(Numbered(xs, k, first, piece), c) == |xs|
    decreases |xs|
  {
    if |xs| > 0 {
      assert xs[0] in xs;
      assert forall x :: x in xs[1..] ==> x in xs;
      NumberedCount(xs[1..], k + 1, false, piece, c);
      CountConcat(piece(xs[0], k, first), Numbered(xs[1..], k + 1, false, piece), c);
    }
  }
}
