/** A simple percent-decoder in the sense of section 2.1 of RFC 3986, one
    instance of the segment decoder that `PlayingContent` is given: `%`
    followed by two hexadecimal digits stands for the octet they spell,
    every other character stands for itself, and a `%` that does not start
    such a triplet is an error at its offset. An octet becomes the
    character with that code point (no UTF-8 decoding). With it comes the
    matching encoder, which escapes every octet-sized character outside
    the unreserved set of section 2.3 of RFC 3986. */
module Percent {
  import opened Wrappers
  import opened Foreign

  /** The value of a hexadecimal digit, either case. */
  function HexValue(c: char): (v: Option<nat>)
    ensures v.Some? ==> v.value < 16
  {
    if '0' <= c <= '9' then Some(c as int - '0' as int)
    else if 'a' <= c <= 'f' then Some(c as int - 'a' as int + 10)
    else if 'A' <= c <= 'F' then Some(c as int - 'A' as int + 10)
    else None
  }

  /** The upper-case hexadecimal digit for `n`. */
  function HexDigit(n: nat): (c: char)
    requires n < 16
    ensures HexValue(c) == Some(n)
  {
    if n < 10 then ('0' as int + n) as char else ('A' as int + n - 10) as char
  }

  /** The unreserved characters of section 2.3 of RFC 3986: letters,
      digits, `-._~`. */
  predicate Unreserved(c: char) {
    ('a' <= c <= 'z') || ('A' <= c <= 'Z') || ('0' <= c <= '9') ||
    c == '-' || c == '.' || c == '_' || c == '~'
  }

  /** Decodes `s`, which starts at offset `at` of the whole segment. */
  function DecodeFrom(s: string, at: nat): (r: Result<string, DecodeError>)
    decreases |s|
  {
    if s == [] then Success("")
    else if s[0] == '%' then
      if |s| >= 3 && HexValue(s[1]).Some? && HexValue(s[2]).Some? then
        match DecodeFrom(s[3..], at + 3)
        case Failure(e) => Failure(e)
        case Success(rest) => Success([(16 * HexValue(s[1]).value + HexValue(s[2]).value) as char] + rest)
      else Failure(DecodeError(at))
    else
      match DecodeFrom(s[1..], at + 1)
      case Failure(e) => Failure(e)
      case Success(rest) => Success([s[0]] + rest)
  }

  function PercentDecode(segment: string): (r: Result<string, DecodeError>) {
    DecodeFrom(segment, 0)
  }

  function EncodeChar(c: char): (e: string) {
    if Unreserved(c) || c as int >= 256 then [c]
    else ['%', HexDigit(c as int / 16), HexDigit(c as int % 16)]
  }

  function PercentEncode(s: string): (e: string) {
    if s == [] then "" else EncodeChar(s[0]) + PercentEncode(s[1..])
  }

  /** Decoding undoes encoding, whatever the offset. */
  lemma {:induction false} DecodeFromEncoded(s: string, at: nat)
    ensures DecodeFrom(PercentEncode(s), at) == Success(s)
  {
    if s != [] {
      var c, rest := s[0], PercentEncode(s[1..]);
      var e := EncodeChar(c);
      assert PercentEncode(s) == e + rest;
      if |e| == 1 {
        assert (e + rest)[0] == c && (e + rest)[1..] == rest;
        DecodeFromEncoded(s[1..], at + 1);
      } else {
        var hi, lo := c as int / 16, c as int % 16;
        assert (e + rest)[0] == '%' && (e + rest)[1] == HexDigit(hi) && (e + rest)[2] == HexDigit(lo);
        assert (e + rest)[3..] == rest;
        assert (16 * hi + lo) as char == c;
        DecodeFromEncoded(s[1..], at + 3);
      }
      assert [c] + s[1..] == s;
    }
  }

  /** The round trip: every string survives percent-encoding and decoding. */
  lemma PercentRoundTrip(s: string)
    ensures PercentDecode(PercentEncode(s)) == Success(s)
  {
    DecodeFromEncoded(s, 0);
  }

  /** Text without `%` decodes to itself. */
  lemma {:induction false} DecodeWithoutEscapes(s: string, at: nat)
    requires forall i :: 0 <= i < |s| ==> s[i] != '%'
    ensures DecodeFrom(s, at) == Success(s)
  {
    if s != [] {
      DecodeWithoutEscapes(s[1..], at + 1);
      assert [s[0]] + s[1..] == s;
    }
  }

  /** A `%` not followed by two hexadecimal digits, after a prefix that
      decodes, is reported at its own offset. */
  lemma {:induction false} MalformedEscapeFails(s: string, k: nat, at: nat)
    requires k < |s| && s[k] == '%'
    requires DecodeFrom(s[..k], at).Success?
    requires !(k + 2 < |s| && HexValue(s[k + 1]).Some? && HexValue(s[k + 2]).Some?)
    ensures DecodeFrom(s, at) == Failure(DecodeError(at + k))
  {
    if k > 0 {
      if s[0] == '%' {
        assert s[..k][3..] == s[3..][..k - 3];
        MalformedEscapeFails(s[3..], k - 3, at + 3);
      } else {
        assert s[..k][1..] == s[1..][..k - 1];
        MalformedEscapeFails(s[1..], k - 1, at + 1);
      }
    }
  }
}
