/**
 * JavaScript's `encodeURIComponent` on strings of Unicode scalar values:
 * the unreserved characters stay as they are, every other character becomes
 * the percent-escapes of its UTF-8 bytes, with upper-case hexadecimal digits.
 */
module UriComponent {
  import opened Wrappers

  type Byte = b: int | 0 <= b < 256

  /** The characters `encodeURIComponent` leaves alone: `A-Z a-z 0-9 - _ . ! ~ * ' ( )`. */
  predicate Unreserved(c: char) {
    ('A' <= c <= 'Z') || ('a' <= c <= 'z') || ('0' <= c <= '9') ||
    c == '-' || c == '_' || c == '.' || c == '!' || c == '~' || c == '*' || c == '\'' || c == '(' || c == ')'
  }

  predicate IsUpperHex(c: char) {
    ('0' <= c <= '9') || ('A' <= c <= 'F')
  }

  function HexChar(d: int): (c: char)
    requires 0 <= d < 16
    ensures IsUpperHex(c)
  {
    if d < 10 then ('0' as int + d) as char else ('A' as int + d - 10) as char
  }

  /** The value of a hexadecimal digit of either case, as `decodeURIComponent` reads it. */
  function HexValue(c: char): (v: Option<int>)
    ensures v.Some? ==> 0 <= v.value < 16
  {
    if '0' <= c <= '9' then Some(c as int - '0' as int)
    else if 'A' <= c <= 'F' then Some(c as int - 'A' as int + 10)
    else if 'a' <= c <= 'f' then Some(c as int - 'a' as int + 10)
    else None
  }

  lemma HexValueOfHexChar(d: int)
    requires 0 <= d < 16
    ensures HexValue(HexChar(d)) == Some(d)
  {
  }

  /** The UTF-8 encoding of one scalar value (one to four bytes). */
  function Utf8Char(c: char): (bs: seq<Byte>)
    ensures 1 <= |bs| <= 4
    ensures |bs| == 1 <==> c as int < 0x80
    ensures |bs| == 1 ==> bs[0] == c as int
  {
    var cp := c as int;
    if cp < 0x80 then [cp]
    else if cp < 0x800 then [0xC0 + cp / 0x40, 0x80 + cp % 0x40]
    else if cp < 0x1_0000 then [0xE0 + cp / 0x1000, 0x80 + (cp / 0x40) % 0x40, 0x80 + cp % 0x40]
    else [0xF0 + cp / 0x4_0000, 0x80 + (cp / 0x1000) % 0x40, 0x80 + (cp / 0x40) % 0x40, 0x80 + cp % 0x40]
  }

  function Utf8(s: string): seq<Byte> {
    if s == [] then [] else Utf8Char(s[0]) + Utf8(s[1..])
  }

  /** `%XX` for every byte. */
  function PercentBytes(bs: seq<Byte>): (t: string)
    ensures |t| == 3 * |bs|
    ensures forall i :: 0 <= i < |t| ==> t[i] == '%' || IsUpperHex(t[i])
  {
    if bs == [] then [] else ['%', HexChar(bs[0] / 16), HexChar(bs[0] % 16)] + PercentBytes(bs[1..])
  }

  function EncodeChar(c: char): (t: string)
    ensures forall i :: 0 <= i < |t| ==> Unreserved(t[i]) || t[i] == '%' || IsUpperHex(t[i])
  {
    if Unreserved(c) then [c] else PercentBytes(Utf8Char(c))
  }

  /** `encodeURIComponent(s)`. */
  function Encode(s: string): (t: string)
    ensures forall i :: 0 <= i < |t| ==> Unreserved(t[i]) || t[i] == '%' || IsUpperHex(t[i])
    ensures |s| <= |t|
  {
    if s == [] then []
    else
      var head, rest := EncodeChar(s[0]), Encode(s[1..]);
      assert forall i :: 0 <= i < |head + rest| ==> (head + rest)[i] == if i < |head| then head[i] else rest[i - |head|];
      head + rest
  }

  function Prepend(bs: seq<Byte>, o: Option<seq<Byte>>): Option<seq<Byte>> {
    match o
    case None => None
    case Some(rest) => Some(bs + rest)
  }

  /**
   * Reading a component back into bytes, as `decodeURIComponent` does before
   * its UTF-8 decoding step: `%XX` is one byte, an ASCII character is itself.
   */
  function DecodeBytes(t: string): Option<seq<Byte>> {
    if t == [] then Some([])
    else if t[0] == '%' then
      if |t| >= 3 && HexValue(t[1]).Some? && HexValue(t[2]).Some? then
        Prepend([HexValue(t[1]).value * 16 + HexValue(t[2]).value], DecodeBytes(t[3..]))
      else None
    else if (t[0] as int) < 0x80 then Prepend([t[0] as int], DecodeBytes(t[1..]))
    else None
  }

  /** One `%XX` escape decodes to its byte. */
  lemma DecodePercentByte(b: Byte, tail: string)
    ensures DecodeBytes(['%', HexChar(b / 16), HexChar(b % 16)] + tail) == Prepend([b], DecodeBytes(tail))
  {
    var t := ['%', HexChar(b / 16), HexChar(b % 16)] + tail;
    HexValueOfHexChar(b / 16);
    HexValueOfHexChar(b % 16);
    assert t[3..] == tail;
  }

  lemma {:induction false} DecodePercentBytes(bs: seq<Byte>, rest: string)
    ensures DecodeBytes(PercentBytes(bs) + rest) == Prepend(bs, DecodeBytes(rest))
  {
    if bs == [] {
      assert PercentBytes(bs) + rest == rest;
      match DecodeBytes(rest) {
        case None =>
        case Some(r) => assert bs + r == r;
      }
    } else {
      var b := bs[0];
      var head := ['%', HexChar(b / 16), HexChar(b % 16)];
      var tail := PercentBytes(bs[1..]) + rest;
      assert PercentBytes(bs) + rest == head + tail;
      DecodePercentByte(b, tail);
      DecodePercentBytes(bs[1..], rest);
      match DecodeBytes(rest) {
        case None =>
        case Some(r) =>
          assert bs == [b] + bs[1..];
          assert [b] + (bs[1..] + r) == ([b] + bs[1..]) + r;
      }
    }
  }

  lemma {:induction false} DecodeEncodeChar(c: char, rest: string)
    ensures DecodeBytes(EncodeChar(c) + rest) == Prepend(Utf8Char(c), DecodeBytes(rest))
  {
    if Unreserved(c) {
      assert ([c] + rest)[1..] == rest;
    } else {
      DecodePercentBytes(Utf8Char(c), rest);
    }
  }

  /** Decoding an encoded component gives back the UTF-8 bytes of the original string. */
  lemma {:induction false} DecodeEncode(s: string)
    ensures DecodeBytes(Encode(s)) == Some(Utf8(s))
  {
    if s != [] {
      DecodeEncode(s[1..]);
      DecodeEncodeChar(s[0], Encode(s[1..]));
    }
  }

  /** A component made only of unreserved characters is passed through unchanged. */
  lemma {:induction false} EncodeUnreserved(s: string)
    requires forall i :: 0 <= i < |s| ==> Unreserved(s[i])
    ensures Encode(s) == s
  {
    if s != [] {
      EncodeUnreserved(s[1..]);
      assert s == [s[0]] + s[1..];
    }
  }

  /** The encoded component cannot end the query value early or start another parameter. */
  lemma EncodeHasNoDelimiters(s: string)
    ensures '&' !in Encode(s) && '=' !in Encode(s) && '#' !in Encode(s) && '?' !in Encode(s) && ' ' !in Encode(s)
  {
  }
}
