/**
 * The value encoding `querystring.stringify` applies to a string value
 * (`querystring.escape`): UTF-8 bytes, each byte outside the unreserved set
 * written as `%XX` with upper-case hex digits. `Unescape` is a strict
 * reference decoder used to state that the encoding loses nothing.
 */
module QueryString {
  import opened Wrappers
  import Utf8

  /** ASCII letters, digits and `- _ . ! ~ * ' ( )` are written as they are. */
  predicate Unreserved(b: Utf8.byte) {
    || ('A' as int <= b <= 'Z' as int)
    || ('a' as int <= b <= 'z' as int)
    || ('0' as int <= b <= '9' as int)
    || (b as char) in "-_.!~*'()"
  }

  /** The characters an escaped value is made of. */
  predicate Safe(c: char) {
    c == '%' || (c as int < 0x100 && Unreserved(c as int))
  }

  function Hex(n: int): (c: char)
    requires 0 <= n < 16
    ensures Safe(c)
  {
    if n < 10 then ('0' as int + n) as char else ('A' as int + n - 10) as char
  }

  /** The value of a hex digit of either case, as a percent-decoder reads it. */
  function HexValue(c: char): (r: Option<int>)
    ensures r.Some? ==> 0 <= r.value < 16
  {
    if '0' <= c <= '9' then Some(c as int - '0' as int)
    else if 'A' <= c <= 'F' then Some(c as int - 'A' as int + 10)
    else if 'a' <= c <= 'f' then Some(c as int - 'a' as int + 10)
    else None
  }

  function EscapeByte(b: Utf8.byte): (e: string)
    ensures forall i :: 0 <= i < |e| ==> Safe(e[i])
  {
    if Unreserved(b) then [b as char] else ['%', Hex(b / 16), Hex(b % 16)]
  }

  function EscapeBytes(bs: seq<Utf8.byte>): (e: string)
    ensures forall i :: 0 <= i < |e| ==> Safe(e[i])
  {
    if bs == [] then [] else EscapeByte(bs[0]) + EscapeBytes(bs[1..])
  }

  /** `querystring.escape(s)`: the percent-encoded UTF-8 form of `s`. */
  function Escape(s: string): (e: string)
    ensures forall i :: 0 <= i < |e| ==> Safe(e[i])
  {
    EscapeBytes(Utf8.Encode(s))
  }

  /** Reads `%XX` triples and literal ASCII characters back into bytes. */
  function UnescapeBytes(e: string): Option<seq<Utf8.byte>>
    decreases |e|
  {
    if e == [] then Some([])
    else if e[0] == '%' then
      if |e| >= 3 && HexValue(e[1]).Some? && HexValue(e[2]).Some? then
        match UnescapeBytes(e[3..])
        case None => None
        case Some(rest) => Some([16 * HexValue(e[1]).value + HexValue(e[2]).value] + rest)
      else None
    else if e[0] as int < 0x80 then
      match UnescapeBytes(e[1..])
      case None => None
      case Some(rest) => Some([e[0] as int] + rest)
    else None
  }

  function Unescape(e: string): Option<string>
  {
    match UnescapeBytes(e)
    case None => None
    case Some(bs) => Utf8.Decode(bs)
  }

  lemma HexValueHex(n: int)
    requires 0 <= n < 16
    ensures HexValue(Hex(n)) == Some(n)
  {
  }

  lemma UnescapeEscapeByte(b: Utf8.byte, rest: string)
    ensures UnescapeBytes(EscapeByte(b) + rest) ==
            match UnescapeBytes(rest)
            case None => None
            case Some(bs) => Some([b] + bs)
  {
    var e := EscapeByte(b) + rest;
    if Unreserved(b) {
      assert e[0] == b as char && e[1..] == rest;
    } else {
      HexValueHex(b / 16);
      HexValueHex(b % 16);
      assert e[0] == '%' && e[1] == Hex(b / 16) && e[2] == Hex(b % 16) && e[3..] == rest;
    }
  }

  lemma {:induction false} UnescapeEscapeBytes(bs: seq<Utf8.byte>)
    ensures UnescapeBytes(EscapeBytes(bs)) == Some(bs)
  {
    if bs != [] {
      UnescapeEscapeByte(bs[0], EscapeBytes(bs[1..]));
      UnescapeEscapeBytes(bs[1..]);
      assert [bs[0]] + bs[1..] == bs;
    }
  }

  /** Percent-decoding an escaped value gives the original text back. */
  lemma UnescapeEscape(s: string)
    ensures Unescape(Escape(s)) == Some(s)
  {
    UnescapeEscapeBytes(Utf8.Encode(s));
    Utf8.DecodeEncode(s);
  }
}
