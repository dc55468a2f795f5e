/** Percent-decoding of URL text (rwf/src/http/url.rs): `%` followed by hex
    digits becomes the character with that code, `+` becomes a space, any
    other character is copied. The decoder as written takes every hex digit
    after a `%`; the corrected one takes at most two. */
module Url {

  import opened Strings

  /** `char::is_ascii_hexdigit`. */
  predicate IsHex(c: char)
  {
    '0' <= c <= '9' || 'a' <= c <= 'f' || 'A' <= c <= 'F'
  }

  function HexValue(c: char): (v: nat)
    requires IsHex(c)
    ensures v < 16
  {
    if '0' <= c <= '9' then (c as int - '0' as int) as nat
    else if 'a' <= c <= 'f' then (c as int - 'a' as int + 10) as nat
    else (c as int - 'A' as int + 10) as nat
  }

  /** Value of a string of hex digits, most significant first
      (`u8::from_str_radix(_, 16)` before its range check). */
  function HexNumber(d: string): nat
    requires forall i :: 0 <= i < |d| ==> IsHex(d[i])
    decreases |d|
  {
    if |d| == 0 then 0 else HexNumber(d[..|d| - 1]) * 16 + HexValue(d[|d| - 1])
  }

  /** Length of the run of hex digits that opens `s`. */
  function HexRun(s: string): (n: nat)
    ensures n <= |s|
    ensures forall i :: 0 <= i < n ==> IsHex(s[i])
    ensures n < |s| ==> !IsHex(s[n])
  {
    if |s| == 0 || !IsHex(s[0]) then 0 else 1 + HexRun(s[1..])
  }

  /** How many digits an escape consumes: the whole run as written, at most
      two when `bounded`. */
  function EscapeLength(s: string, bounded: bool): (n: nat)
    ensures n <= HexRun(s)
    ensures bounded ==> n <= 2
    ensures !bounded ==> n == HexRun(s)
  {
    if bounded && HexRun(s) > 2 then 2 else HexRun(s)
  }

  /** The decoded text of `s`; `bounded` picks the corrected escape length. */
  function DecodeWith(s: string, bounded: bool): (r: string)
    ensures |r| <= |s|
    ensures '%' !in s && '+' !in s ==> r == s
    decreases |s|
  {
    if |s| == 0 then ""
    else if s[0] == '%' then
      var k := EscapeLength(s[1..], bounded);
      var n := HexNumber(s[1..1 + k]);
      (if k > 0 && n <= 255 then [n as char] else "") + DecodeWith(s[1 + k..], bounded)
    else if s[0] == '+' then " " + DecodeWith(s[1..], bounded)
    else [s[0]] + DecodeWith(s[1..], bounded)
  }

  /** The corrected decoder: escapes of at most two digits. It is the
      round-trip partner of `Encode`. */
  function UrlDecode(s: string): string
  {
    DecodeWith(s, true)
  }

  /** The inner loop of `urldecode`: collects the hex digits after the `%`
      at `start - 1` and their value. */
  method ReadEscape(s: string, start: nat, bounded: bool) returns (j: nat, num: nat)
    requires start <= |s|
    ensures j == start + EscapeLength(s[start..], bounded) && j <= |s|
    ensures forall t :: start <= t < j ==> IsHex(s[t])
    ensures num == HexNumber(s[start..j])
  {
    j := start;
    num := 0;
    ghost var limit := EscapeLength(s[start..], bounded);
    while j < |s| && IsHex(s[j]) && (!bounded || j - start < 2)
      invariant start <= j <= start + limit
      invariant forall t :: start <= t < j ==> IsHex(s[t])
      invariant num == HexNumber(s[start..j])
      decreases |s| - j
    {
      assert s[start..j + 1][..j - start] == s[start..j];
      num := num * 16 + HexValue(s[j]);
      j := j + 1;
    }
    assert j < |s| ==> s[start..][j - start] == s[j];
  }

  /** One step of the decoder at an escape. */
  lemma DecodeAtEscape(s: string, i: nat, j: nat, bounded: bool)
    requires i < |s| && s[i] == '%'
    requires j == i + 1 + EscapeLength(s[i + 1..], bounded)
    ensures j <= |s|
    ensures forall t :: i + 1 <= t < j ==> IsHex(s[t])
    ensures var n := HexNumber(s[i + 1..j]);
      DecodeWith(s[i..], bounded)
      == (if j > i + 1 && n <= 255 then [n as char] else "") + DecodeWith(s[j..], bounded)
  {
    var k := j - i - 1;
    assert s[i..][1..] == s[i + 1..];
    assert s[i..][1..1 + k] == s[i + 1..j];
    assert s[i..][1 + k..] == s[j..];
    assert forall t :: i + 1 <= t < j ==> s[t] == s[i + 1..][t - i - 1];
  }

  /** `urldecode`, with its outer loop over the characters. */
  method Urldecode(s: string, bounded: bool) returns (r: string)
    ensures r == DecodeWith(s, bounded)
  {
    r := "";
    var i := 0;
    while i < |s|
      invariant 0 <= i <= |s|
      invariant r + DecodeWith(s[i..], bounded) == DecodeWith(s, bounded)
      decreases |s| - i
    {
      var c := s[i];
      if c == '%' {
        var j, num := ReadEscape(s, i + 1, bounded);
        DecodeAtEscape(s, i, j, bounded);
        var piece := if j > i + 1 && num <= 255 then [num as char] else "";
        ConcatAssoc(r, piece, DecodeWith(s[j..], bounded));
        r := r + piece;
        i := j;
      } else {
        assert s[i..][1..] == s[i + 1..];
        var piece := if c == '+' then " " else [c];
        ConcatAssoc(r, piece, DecodeWith(s[i + 1..], bounded));
        r := r + piece;
        i := i + 1;
      }
    }
  }

  // ---------------------------------------------------------------------
  // The encoder the decoder inverts.

  /** Characters an encoder leaves alone: the unreserved set of section 2.3
      of RFC 3986, plus everything beyond one byte (the decoder copies
      those). */
  predicate Unreserved(c: char)
  {
    'A' <= c <= 'Z' || 'a' <= c <= 'z' || '0' <= c <= '9' || c == '-' || c == '.' || c == '_' || c == '~'
  }

  function HexDigit(v: nat): (c: char)
    requires v < 16
    ensures IsHex(c) && HexValue(c) == v
  {
    "0123456789ABCDEF"[v]
  }

  function EncodeChar(c: char): (e: string)
    ensures |e| == 1 || |e| == 3
  {
    if Unreserved(c) || c as int >= 256 then [c]
    else ['%', HexDigit(c as nat / 16), HexDigit(c as nat % 16)]
  }

  /** Percent-encoding: every one-byte character outside the unreserved
      set becomes `%` and two upper-case hex digits. */
  function Encode(s: string): (r: string)
    ensures '+' !in r
    decreases |s|
  {
    if |s| == 0 then "" else EncodeChar(s[0]) + Encode(s[1..])
  }

  lemma HexPair(c: char)
    requires c as int < 256
    ensures var d := [HexDigit(c as nat / 16), HexDigit(c as nat % 16)];
      (forall i :: 0 <= i < 2 ==> IsHex(d[i])) && HexNumber(d) == c as int
  {
    var d := [HexDigit(c as nat / 16), HexDigit(c as nat % 16)];
    assert d[..1] == [d[0]];
    assert d[..1][..0] == [];
    assert HexNumber(d[..1]) == c as nat / 16;
    assert HexNumber(d) == (c as nat / 16) * 16 + c as nat % 16;
  }

  /** One encoded character decodes to itself, whatever follows it. */
  lemma DecodeEncodedChar(c: char, rest: string)
    ensures DecodeWith(EncodeChar(c) + rest, true) == [c] + DecodeWith(rest, true)
  {
    var t := EncodeChar(c) + rest;
    if Unreserved(c) || c as int >= 256 {
      assert t[1..] == rest;
    } else {
      HexPair(c);
      assert t[1..][..2] == t[1..3] == EncodeChar(c)[1..];
      assert EscapeLength(t[1..], true) == 2;
      assert t[1..1 + 2] == EncodeChar(c)[1..];
      assert t[3..] == rest;
    }
  }

  /** The corrected decoder inverts the encoder. */
  lemma {:induction false} EncodeRoundTrip(s: string)
    ensures UrlDecode(Encode(s)) == s
    decreases |s|
  {
    if |s| > 0 {
      EncodeRoundTrip(s[1..]);
      DecodeEncodedChar(s[0], Encode(s[1..]));
      assert s == [s[0]] + s[1..];
    }
  }

  lemma EncodeSpaceA()
    ensures Encode(" a") == "%20a"
  {
    assert EncodeChar(' ') == "%20";
    assert Encode(" a") == EncodeChar(' ') + Encode("a");
    assert Encode("a") == "a";
  }

  lemma HexValues()
    ensures HexNumber("20a") == 0x20a
    ensures HexNumber("20") == 0x20
  {
    assert "20a"[..2] == "20" && "20"[..1] == "2" && "2"[..0] == "";
  }

  /** As written, an escape followed by a hex letter swallows it: the
      encoding of `" a"` is `"%20a"`, whose run `20a` overflows a byte, and
      the whole of it decodes to nothing. */
  lemma EscapeSwallowsHexLetter()
    ensures Encode(" a") == "%20a"
    ensures DecodeWith("%20a", false) == ""
    ensures UrlDecode("%20a") == " a"
  {
    EncodeSpaceA();
    HexValues();
    var s := "%20a";
    assert s[1..][3..] == "";
    assert HexRun(s[1..]) == 3;
    assert s[1..4] == "20a" && s[4..] == "";
    assert s[1..3] == "20" && s[3..] == "a";
    assert DecodeWith("a", true) == "a";
  }

  /** Text without escapes or `+` is copied ahead of what follows. */
  lemma {:induction false} DecodePlainPrefix(a: string, b: string, bounded: bool)
    requires '%' !in a && '+' !in a
    ensures DecodeWith(a + b, bounded) == a + DecodeWith(b, bounded)
    decreases |a|
  {
    if |a| > 0 {
      var t := a + b;
      assert t[1..] == a[1..] + b;
      assert t[0] == a[0] && a[0] in a;
      assert '%' !in a[1..] && '+' !in a[1..] by {
        assert forall x :: x in a[1..] ==> x in a;
      }
      assert DecodeWith(t, bounded) == [a[0]] + DecodeWith(a[1..] + b, bounded);
      DecodePlainPrefix(a[1..], b, bounded);
      ConcatAssoc([a[0]], a[1..], DecodeWith(b, bounded));
      assert a == [a[0]] + a[1..];
    } else {
      assert a + b == b;
    }
  }

  /** A two-digit escape not followed by a hex digit decodes to one
      character under either decoder. */
  lemma DecodeTwoDigitEscape(h: string, b: string, bounded: bool)
    requires |h| == 2 && IsHex(h[0]) && IsHex(h[1])
    requires |b| == 0 || !IsHex(b[0])
    requires HexNumber(h) <= 255
    ensures DecodeWith("%" + h + b, bounded) == [HexNumber(h) as char] + DecodeWith(b, bounded)
  {
    var t := "%" + h + b;
    assert t[1..] == h + b;
    assert HexRun(b) == 0;
    assert HexRun((h + b)[1..]) == 1 by {
      assert (h + b)[1..][1..] == b;
    }
    assert t[1..1 + 2] == h;
    assert t[1 + 2..] == b;
  }

  lemma SampleHex()
    ensures HexNumber("20") == 32 && HexNumber("3D") == 61
  {
    assert "20"[..1] == "2" && "3D"[..1] == "3";
  }

  lemma SampleText()
    ensures "?foo=bar&hello=world%20&apples%3Doranges"
      == "?foo=bar&hello=world" + ("%" + "20" + ("&apples" + ("%" + "3D" + "oranges")))
  {
  }

  lemma SampleOutput()
    ensures "?foo=bar&hello=world &apples=oranges"
      == "?foo=bar&hello=world" + ([' '] + ("&apples" + (['='] + "oranges")))
  {
  }

  /** The shape of the source's test string: plain text, a space escape,
      plain text, an `=` escape, plain text. */
  lemma DecodeSampleShape(p: string, q: string, r: string, bounded: bool)
    requires '%' !in p && '+' !in p && '%' !in q && '+' !in q
    requires |q| > 0 && !IsHex(q[0]) && |r| > 0 && !IsHex(r[0])
    requires '%' !in r && '+' !in r
    ensures DecodeWith(p + ("%" + "20" + (q + ("%" + "3D" + r))), bounded)
      == p + ([' '] + (q + (['='] + r)))
  {
    SampleHex();
    var tail := "%" + "3D" + r;
    DecodeTwoDigitEscape("3D", r, bounded);
    assert DecodeWith(tail, bounded) == ['='] + r;
    DecodePlainPrefix(q, tail, bounded);
    assert (q + tail)[0] == q[0];
    DecodeTwoDigitEscape("20", q + tail, bounded);
    DecodePlainPrefix(p, "%" + "20" + (q + tail), bounded);
  }

  /** The source's test: `"?foo=bar&hello=world%20&apples%3Doranges"`
      decodes to `"?foo=bar&hello=world &apples=oranges"`, under either
      decoder. */
  lemma ExampleDecode(bounded: bool)
    ensures DecodeWith("?foo=bar&hello=world%20&apples%3Doranges", bounded)
      == "?foo=bar&hello=world &apples=oranges"
  {
    SampleText();
    SampleOutput();
    DecodeSampleShape("?foo=bar&hello=world", "&apples", "oranges", bounded);
  }

  /** `+` decodes to a space and every character other than `%` and `+`
      to itself, under either decoder. */
  lemma PlusAndPlainCharacters(c: char, s: string, bounded: bool)
    ensures DecodeWith("+" + s, bounded) == " " + DecodeWith(s, bounded)
    ensures c != '%' && c != '+' ==> DecodeWith([c] + s, bounded) == [c] + DecodeWith(s, bounded)
  {
    assert ("+" + s)[1..] == s;
    assert ([c] + s)[1..] == s;
  }

  lemma DocText()
    ensures "?foo=bar&hello=world%20" == "?foo=bar&hello=world" + ("%" + "20" + "")
    ensures "?foo=bar&hello=world " == "?foo=bar&hello=world" + ([' '] + "")
  {
  }

  /** The documentation's example: `"?foo=bar&hello=world%20"` decodes to
      `"?foo=bar&hello=world "`. */
  lemma ExampleDocDecode(bounded: bool)
    ensures DecodeWith("?foo=bar&hello=world%20", bounded) == "?foo=bar&hello=world "
  {
    DocText();
    SampleHex();
    DecodeTwoDigitEscape("20", "", bounded);
    DecodePlainPrefix("?foo=bar&hello=world", "%" + "20" + "", bounded);
  }

  /** Without escapes both decoders agree. */
  lemma DecodersAgreeWithoutEscapes(s: string)
    requires '%' !in s
    ensures DecodeWith(s, false) == DecodeWith(s, true)
    decreases |s|
  {
    if |s| > 0 {
      DecodersAgreeWithoutEscapes(s[1..]);
    }
  }
}
