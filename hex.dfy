/** Lower-case hexadecimal rendering of random bytes, as `Buffer.toString('hex')`
    produces it for the room invite token. */
module HexEncoding {
  import opened Common

  type Byte = x: int | 0 <= x < 256

  const Digits: string := "0123456789abcdef"

  function HexByte(b: Byte): string
  {
    [Digits[b / 16], Digits[b % 16]]
  }

  /** Two lower-case hexadecimal digits per byte, high nibble first. */
  function Hex(bytes: seq<Byte>): (r: string)
    ensures |r| == 2 * |bytes|
    ensures forall i :: 0 <= i < |r| ==> r[i] in Digits
  {
    if bytes == [] then [] else HexByte(bytes[0]) + Hex(bytes[1..])
  }

  /** The value of a lower-case hexadecimal digit. */
  function DigitValue(c: char): (r: Option<nat>)
    ensures r.Some? ==> r.value < 16 && Digits[r.value] == c
    ensures r.None? ==> c !in Digits
  {
    if '0' <= c <= '9' then Some(c as int - '0' as int)
    else if 'a' <= c <= 'f' then Some(c as int - 'a' as int + 10)
    else None
  }

  /** Reads back a string of lower-case hexadecimal digit pairs. */
  function Unhex(s: string): Option<seq<Byte>>
    decreases |s|
  {
    if |s| == 0 then Some([])
    else if |s| == 1 then None
    else match (DigitValue(s[0]), DigitValue(s[1]), Unhex(s[2..]))
      case (Some(hi), Some(lo), Some(rest)) => Some([hi * 16 + lo] + rest)
      case _ => None
  }

  lemma DigitValueOf(i: nat)
    requires i < 16
    ensures DigitValue(Digits[i]) == Some(i)
  {
  }

  lemma Nibbles(b: Byte)
    ensures b / 16 < 16 && b % 16 < 16 && b / 16 * 16 + b % 16 == b
  {
  }

  /** Reading back one rendered byte. */
  lemma UnhexByte(b: Byte, rest: string)
    ensures Unhex(HexByte(b) + rest) ==
      match Unhex(rest) case Some(bs) => Some([b] + bs) case None => None
  {
    var hi, lo := b / 16, b % 16;
    Nibbles(b);
    DigitValueOf(hi);
    DigitValueOf(lo);
    var s := HexByte(b) + rest;
    assert s[0] == Digits[hi] && s[1] == Digits[lo] && s[2..] == rest;
  }

  /** The rendering loses nothing: the bytes can be read back from it. */
  lemma {:induction false} HexRoundTrip(bytes: seq<Byte>)
    ensures Unhex(Hex(bytes)) == Some(bytes)
  {
    if bytes != [] {
      HexRoundTrip(bytes[1..]);
      UnhexByte(bytes[0], Hex(bytes[1..]));
      assert [bytes[0]] + bytes[1..] == bytes;
    }
  }
}
