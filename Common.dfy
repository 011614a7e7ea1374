/** Machine integers, failure-carrying wrappers and the byte/text conversions
    that the proxy relies on (`String::as_bytes` and `String::from_utf8_lossy`). */
module Common {

  /** Rust `u8`: a byte, and also the datagram channel id. */
  type u8 = x: int | 0 <= x < 0x100

  /** Rust `u16`: UDP ports and RTSP status codes. */
  type u16 = x: int | 0 <= x < 0x1_0000

  datatype Option<+T> = None | Some(value: T)

  datatype Result<+T, +E> = Ok(value: T) | Err(error: E)

  /** Every byte is 7-bit ASCII. */
  predicate IsAscii(b: seq<u8>)
  {
    forall i :: 0 <= i < |b| ==> b[i] < 0x80
  }

  /** Every character is 7-bit ASCII. */
  predicate AsciiString(s: string)
  {
    forall i :: 0 <= i < |s| ==> (s[i] as int) < 0x80
  }

  /** The UTF-8 encoding of one Unicode scalar value. */
  function EncodeChar(c: char): (r: seq<u8>)
    ensures 1 <= |r| <= 4
    ensures (c as int) < 0x80 <==> r == [c as int]
  {
    var n := c as int;
    if n < 0x80 then [n]
    else if n < 0x800 then [0xC0 + n / 0x40, 0x80 + n % 0x40]
    else if n < 0x1_0000 then [0xE0 + n / 0x1000, 0x80 + (n / 0x40) % 0x40, 0x80 + n % 0x40]
    else [0xF0 + n / 0x4_0000, 0x80 + (n / 0x1000) % 0x40, 0x80 + (n / 0x40) % 0x40, 0x80 + n % 0x40]
  }

  /** `String::as_bytes`: the UTF-8 encoding of a string. */
  function Utf8(s: string): seq<u8>
  {
    if |s| == 0 then [] else EncodeChar(s[0]) + Utf8(s[1..])
  }

  lemma {:induction false} Utf8Append(a: string, b: string)
    ensures Utf8(a + b) == Utf8(a) + Utf8(b)
  {
    if |a| == 0 {
      assert a + b == b;
    } else {
      assert (a + b)[1..] == a[1..] + b;
      Utf8Append(a[1..], b);
    }
  }

  /** On ASCII text the encoding is the identity on code points. */
  lemma {:induction false} Utf8OfAscii(s: string)
    requires AsciiString(s)
    ensures |Utf8(s)| == |s|
    ensures forall i :: 0 <= i < |s| ==> Utf8(s)[i] == s[i] as int
    ensures IsAscii(Utf8(s))
  {
    if |s| > 0 {
      Utf8OfAscii(s[1..]);
      assert Utf8(s) == [s[0] as int] + Utf8(s[1..]);
    }
  }

  /** `String::from_utf8_lossy` on ASCII input: one character per byte. */
  function AsciiDecode(b: seq<u8>): (s: string)
    requires IsAscii(b)
    ensures |s| == |b|
  {
    seq(|b|, i requires 0 <= i < |b| => b[i] as char)
  }

  /** Decoding undoes encoding on ASCII text. */
  lemma AsciiDecodeUtf8(s: string)
    requires AsciiString(s)
    ensures IsAscii(Utf8(s)) && AsciiDecode(Utf8(s)) == s
  {
    Utf8OfAscii(s);
  }
}
