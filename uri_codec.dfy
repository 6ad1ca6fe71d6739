/**
 * `decodeURIComponent`, which the query parser applies to every key and
 * value, and `encodeURIComponent`, its inverse.
 *
 * Decoding follows the Decode abstract operation of ECMA-262, which
 * `decodeURIComponent` calls with an empty preserveEscapeSet: characters
 * other than `%` are copied, `%XY` gives a byte, a byte of 0x80 or more starts a UTF-8
 * sequence whose remaining bytes must be `%XY` escapes too, and anything
 * malformed is a URIError (`None`). Strings here are sequences of Unicode
 * scalar values, so a decoded supplementary character is one `char`
 * rather than a UTF-16 surrogate pair.
 */
module UriCodec {
  import opened Wrappers

  predicate IsHex(c: char) {
    ('0' <= c <= '9') || ('a' <= c <= 'f') || ('A' <= c <= 'F')
  }

  function HexValue(c: char): (v: nat)
    requires IsHex(c)
    ensures v < 16
  {
    if '0' <= c <= '9' then c as nat - '0' as nat
    else if 'a' <= c <= 'f' then c as nat - 'a' as nat + 10
    else c as nat - 'A' as nat + 10
  }

  /** The upper-case hexadecimal digit `encodeURIComponent` writes for `n`. */
  function HexDigit(n: nat): (c: char)
    requires n < 16
    ensures IsHex(c) && HexValue(c) == n
  {
    if n < 10 then ('0' as nat + n) as char else ('A' as nat + n - 10) as char
  }

  /** The byte written as `%XY` at the start of `s`, if `s` starts with such an escape. */
  function EscapedByte(s: string): (r: Option<nat>)
    ensures r.Some? <==> |s| >= 3 && s[0] == '%' && IsHex(s[1]) && IsHex(s[2])
    ensures r.Some? ==> r.value < 256
  {
    if |s| >= 3 && s[0] == '%' && IsHex(s[1]) && IsHex(s[2]) then Some(16 * HexValue(s[1]) + HexValue(s[2]))
    else None
  }

  /** The `n` bytes escaped at the start of `s`, if it starts with `n` escapes. */
  function EscapedBytes(s: string, n: nat): (r: Option<seq<nat>>)
    ensures r.Some? ==> |r.value| == n && |s| >= 3 * n
    decreases n
  {
    if n == 0 then Some([])
    else
      match EscapedByte(s)
      case None => None
      case Some(b) =>
        match EscapedBytes(s[3..], n - 1)
        case None => None
        case Some(bs) => Some([b] + bs)
  }

  /** The number of leading one bits of a byte, capped at 5: the length of the UTF-8 sequence it starts. */
  function LeadLength(b: nat): nat {
    if b < 0x80 then 0
    else if b < 0xC0 then 1
    else if b < 0xE0 then 2
    else if b < 0xF0 then 3
    else if b < 0xF8 then 4
    else 5
  }

  /** A continuation byte `10xxxxxx`. */
  predicate IsCont(b: nat) {
    0x80 <= b < 0xC0
  }

  predicate IsScalar(v: int) {
    (0 <= v < 0xD800) || (0xE000 <= v < 0x11_0000)
  }

  /**
   * The character a UTF-8 sequence of two to four bytes encodes, or `None`
   * when the sequence is not the shortest encoding of a scalar value.
   */
  function Utf8Decode(bs: seq<nat>): Option<char> {
    if |bs| == 2 && 0xC0 <= bs[0] < 0xE0 && IsCont(bs[1]) then
      var v := (bs[0] - 0xC0) * 0x40 + (bs[1] - 0x80);
      if 0x80 <= v then Some(v as char) else None
    else if |bs| == 3 && 0xE0 <= bs[0] < 0xF0 && IsCont(bs[1]) && IsCont(bs[2]) then
      var v := (bs[0] - 0xE0) * 0x1000 + (bs[1] - 0x80) * 0x40 + (bs[2] - 0x80);
      if 0x800 <= v && IsScalar(v) then Some(v as char) else None
    else if |bs| == 4 && 0xF0 <= bs[0] < 0xF8 && IsCont(bs[1]) && IsCont(bs[2]) && IsCont(bs[3]) then
      var v := (bs[0] - 0xF0) * 0x4_0000 + (bs[1] - 0x80) * 0x1000 + (bs[2] - 0x80) * 0x40 + (bs[3] - 0x80);
      if 0x1_0000 <= v < 0x11_0000 then Some(v as char) else None
    else None
  }

  function Prepend(c: char, r: Option<string>): Option<string> {
    match r
    case None => None
    case Some(t) => Some([c] + t)
  }

  /** `decodeURIComponent(s)`, or `None` where it throws a URIError. */
  function Decode(s: string): Option<string>
    decreases |s|
  {
    if s == [] then Some([])
    else if s[0] != '%' then Prepend(s[0], Decode(s[1..]))
    else
      match EscapedByte(s)
      case None => None
      case Some(b) =>
        var n := LeadLength(b);
        if n == 0 then Prepend(b as char, Decode(s[3..]))
        else if n == 1 || n > 4 then None
        else
          match EscapedBytes(s, n)
          case None => None
          case Some(bs) =>
            match Utf8Decode(bs)
            case None => None
            case Some(c) => Prepend(c, Decode(s[3 * n..]))
  }

  /** The characters `encodeURIComponent` leaves as they are. */
  predicate IsUnreserved(c: char) {
    ('A' <= c <= 'Z') || ('a' <= c <= 'z') || ('0' <= c <= '9') || c in "-_.!~*'()"
  }

  /** The UTF-8 bytes of a character. */
  function Utf8Encode(c: char): seq<nat> {
    var v := c as nat;
    if v < 0x80 then [v]
    else if v < 0x800 then [0xC0 + v / 0x40, 0x80 + v % 0x40]
    else if v < 0x1_0000 then [0xE0 + v / 0x1000, 0x80 + (v / 0x40) % 0x40, 0x80 + v % 0x40]
    else [0xF0 + v / 0x4_0000, 0x80 + (v / 0x1000) % 0x40, 0x80 + (v / 0x40) % 0x40, 0x80 + v % 0x40]
  }

  function EscapeBytes(bs: seq<nat>): string
    requires forall k :: 0 <= k < |bs| ==> bs[k] < 256
  {
    if bs == [] then []
    else ['%', HexDigit(bs[0] / 16), HexDigit(bs[0] % 16)] + EscapeBytes(bs[1..])
  }

  /** `encodeURIComponent` of one character. */
  function EncodeChar(c: char): string {
    if IsUnreserved(c) then [c] else EscapeBytes(Utf8Encode(c))
  }

  /** `encodeURIComponent(s)`. */
  function Encode(s: string): string {
    if s == [] then [] else EncodeChar(s[0]) + Encode(s[1..])
  }

  /** A string without `%` decodes to itself; in particular `+` stays `+`. */
  lemma {:induction false} DecodeWithoutPercent(s: string)
    requires '%' !in s
    ensures Decode(s) == Some(s)
    decreases |s|
  {
    if s != [] {
      assert '%' !in s[1..] by {
        assert forall k :: 0 <= k < |s[1..]| ==> s[1..][k] == s[k + 1];
      }
      DecodeWithoutPercent(s[1..]);
      assert s == [s[0]] + s[1..];
    }
  }

  /** Decoding never lengthens a string. */
  lemma {:induction false} DecodeShrinks(s: string)
    requires Decode(s).Some?
    ensures |Decode(s).value| <= |s|
    decreases |s|
  {
    if s != [] {
      if s[0] != '%' {
        DecodeShrinks(s[1..]);
      } else {
        var b := EscapedByte(s).value;
        var n := LeadLength(b);
        if n == 0 {
          DecodeShrinks(s[3..]);
        } else {
          DecodeShrinks(s[3 * n..]);
        }
      }
    }
  }

  /** A `%` at index `k` of a string that `n` escapes cover is itself the start of an escape. */
  lemma {:induction false} EscapesAreWellFormed(s: string, n: nat, k: nat)
    requires EscapedBytes(s, n).Some? && k < 3 * n && k < |s| && s[k] == '%'
    ensures k + 2 < |s| && IsHex(s[k + 1]) && IsHex(s[k + 2])
    decreases n
  {
    if k >= 3 {
      EscapesAreWellFormed(s[3..], n - 1, k - 3);
    }
  }

  /**
   * A `%` that is not followed by two hexadecimal digits makes decoding
   * fail: `decodeURIComponent` throws a URIError.
   */
  lemma {:induction false} DecodeRejectsBadEscape(s: string, k: nat)
    requires k < |s| && s[k] == '%'
    requires !(k + 2 < |s| && IsHex(s[k + 1]) && IsHex(s[k + 2]))
    ensures Decode(s) == None
    decreases |s|
  {
    if s[0] != '%' {
      DecodeRejectsBadEscape(s[1..], k - 1);
    } else if EscapedByte(s).Some? {
      var n := LeadLength(EscapedByte(s).value);
      if n == 0 {
        DecodeRejectsBadEscape(s[3..], k - 3);
      } else if 2 <= n <= 4 && EscapedBytes(s, n).Some? && Utf8Decode(EscapedBytes(s, n).value).Some? {
        if k < 3 * n {
          EscapesAreWellFormed(s, n, k);
        } else {
          DecodeRejectsBadEscape(s[3 * n..], k - 3 * n);
        }
      }
    }
  }

  lemma EscapedByteOf(b: nat, rest: string)
    requires b < 256
    ensures EscapedByte(['%', HexDigit(b / 16), HexDigit(b % 16)] + rest) == Some(b)
  {
  }

  lemma {:induction false} EscapedBytesOf(bs: seq<nat>, rest: string)
    requires forall k :: 0 <= k < |bs| ==> bs[k] < 256
    ensures |EscapeBytes(bs)| == 3 * |bs|
    ensures EscapedBytes(EscapeBytes(bs) + rest, |bs|) == Some(bs)
    decreases |bs|
  {
    if bs != [] {
      EscapedBytesOf(bs[1..], rest);
      EscapedBytesStep(bs[0], bs[1..], rest);
      assert bs == [bs[0]] + bs[1..];
    }
  }

  /** One escape more: the first byte's `%XY` in front of the escapes of the others. */
  lemma EscapedBytesStep(b: nat, more: seq<nat>, rest: string)
    requires b < 256 && forall k :: 0 <= k < |more| ==> more[k] < 256
    requires |EscapeBytes(more)| == 3 * |more|
    requires EscapedBytes(EscapeBytes(more) + rest, |more|) == Some(more)
    ensures |EscapeBytes([b] + more)| == 3 * (|more| + 1)
    ensures EscapedBytes(EscapeBytes([b] + more) + rest, |more| + 1) == Some([b] + more)
  {
    var head := ['%', HexDigit(b / 16), HexDigit(b % 16)];
    assert ([b] + more)[1..] == more;
    assert EscapeBytes([b] + more) == head + EscapeBytes(more);
    assert EscapeBytes([b] + more) + rest == head + (EscapeBytes(more) + rest);
    EscapedCons(b, EscapeBytes(more) + rest, |more|, more);
  }

  lemma EscapedCons(b: nat, tail: string, n: nat, bs: seq<nat>)
    requires b < 256 && EscapedBytes(tail, n) == Some(bs)
    ensures EscapedBytes(['%', HexDigit(b / 16), HexDigit(b % 16)] + tail, n + 1) == Some([b] + bs)
  {
    var s := ['%', HexDigit(b / 16), HexDigit(b % 16)] + tail;
    EscapedByteOf(b, tail);
    assert s[3..] == tail;
  }

  lemma DivSteps(v: nat)
    ensures v / 0x1000 == (v / 0x40) / 0x40
    ensures v / 0x4_0000 == (v / 0x1000) / 0x40
  {
  }

  /** UTF-8 decoding undoes UTF-8 encoding. */
  lemma Utf8RoundTrip(c: char)
    ensures 1 <= |Utf8Encode(c)| <= 4
    ensures |Utf8Encode(c)| == 1 ==> Utf8Encode(c)[0] == c as nat && c as nat < 0x80
    ensures |Utf8Encode(c)| > 1 ==> LeadLength(Utf8Encode(c)[0]) == |Utf8Encode(c)| && Utf8Decode(Utf8Encode(c)) == Some(c)
  {
    var v := c as nat;
    if 0x80 <= v < 0x800 {
      TwoByteRoundTrip(c);
    } else if 0x800 <= v < 0x1_0000 {
      ThreeByteRoundTrip(c);
    } else if 0x1_0000 <= v {
      FourByteRoundTrip(c);
    }
  }

  lemma TwoByteRoundTrip(c: char)
    requires 0x80 <= c as nat < 0x800
    ensures |Utf8Encode(c)| == 2 && LeadLength(Utf8Encode(c)[0]) == 2 && Utf8Decode(Utf8Encode(c)) == Some(c)
  {
  }

  lemma ThreeByteRoundTrip(c: char)
    requires 0x800 <= c as nat < 0x1_0000
    ensures |Utf8Encode(c)| == 3 && LeadLength(Utf8Encode(c)[0]) == 3 && Utf8Decode(Utf8Encode(c)) == Some(c)
  {
    DivSteps(c as nat);
  }

  lemma FourByteRoundTrip(c: char)
    requires 0x1_0000 <= c as nat
    ensures |Utf8Encode(c)| == 4 && LeadLength(Utf8Encode(c)[0]) == 4 && Utf8Decode(Utf8Encode(c)) == Some(c)
  {
    DivSteps(c as nat);
  }

  /** Decoding the encoding of one character gives that character back and continues after it. */
  lemma DecodeEncodedChar(c: char, rest: string)
    ensures Decode(EncodeChar(c) + rest) == Prepend(c, Decode(rest))
  {
    if IsUnreserved(c) {
      assert ([c] + rest)[1..] == rest;
    } else {
      DecodeEscapedChar(c, rest);
    }
  }

  /** The escaped UTF-8 bytes of a character decode to that character. */
  lemma DecodeEscapedChar(c: char, rest: string)
    ensures Decode(EscapeBytes(Utf8Encode(c)) + rest) == Prepend(c, Decode(rest))
  {
    var bs := Utf8Encode(c);
    var s := EscapeBytes(bs) + rest;
    Utf8RoundTrip(c);
    EscapedBytesOf(bs, rest);
    assert s[3 * |bs|..] == rest;
  }

  /** `decodeURIComponent(encodeURIComponent(s)) === s` for every string. */
  lemma {:induction false} DecodeEncode(s: string)
    ensures Decode(Encode(s)) == Some(s)
    decreases |s|
  {
    if s != [] {
      DecodeEncode(s[1..]);
      DecodeEncodedChar(s[0], Encode(s[1..]));
      assert s == [s[0]] + s[1..];
    }
  }
}
