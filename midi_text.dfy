/** The hand-written fallback of the parser's text decoder: a byte-to-char
    map that reads bytes 0x80-0xFF as Cyrillic letters and every other byte
    as itself. */
module MidiText {
  import opened MidiBytes

  /** The character one byte decodes to. */
  function FallbackChar(b: byte): (c: char)
  {
    if b >= 0xC0 then (0x0410 + (b - 0xC0)) as char
    else if b >= 0x80 then (0x0430 + (b - 0x80)) as char
    else b as char
  }

  /** The fallback decoding of a text payload, one character per byte. */
  function DecodeFallback(bytes: seq<byte>): (s: string)
    ensures |s| == |bytes|
  {
    seq(|bytes|, i requires 0 <= i < |bytes| => FallbackChar(bytes[i]))
  }

  /** Where each byte range lands: 0xC0-0xFF on U+0410-U+044F (capital А
      to small я), 0x80-0xBF on U+0430-U+046F, and every other byte on the
      character with the same code. */
  lemma FallbackRanges(bytes: seq<byte>, i: nat)
    requires i < |bytes|
    ensures 0xC0 <= bytes[i] ==> DecodeFallback(bytes)[i] as int == 0x0410 + (bytes[i] as int - 0xC0)
    ensures 0x80 <= bytes[i] < 0xC0 ==> DecodeFallback(bytes)[i] as int == 0x0430 + (bytes[i] as int - 0x80)
    ensures bytes[i] < 0x80 ==> DecodeFallback(bytes)[i] as int == bytes[i]
    ensures 0x80 <= bytes[i] ==> 0x0410 <= DecodeFallback(bytes)[i] as int < 0x0470
  {
  }

  /** The map is not one-to-one: 0x80 and 0xE0 both decode to U+0430. */
  lemma FallbackCollision()
    ensures DecodeFallback([0x80]) == DecodeFallback([0xE0]) == ['а']
  {
  }

  /** A character the map can produce from a byte outside 0x80-0xBF:
      ASCII or one of the 64 letters U+0410-U+044F. */
  predicate Encodable(c: char)
  {
    c as int < 0x80 || 0x0410 <= c as int < 0x0450
  }

  /** The byte a Windows-1251 writer would store for a character, with '?'
      for a character outside the encodable set. */
  function EncodeChar(c: char): (b: byte)
  {
    if c as int < 0x80 then c as int
    else if 0x0410 <= c as int < 0x0450 then c as int - 0x0410 + 0xC0
    else 0x3F
  }

  function EncodeText(s: string): (bytes: seq<byte>)
    ensures |bytes| == |s|
  {
    seq(|s|, i requires 0 <= i < |s| => EncodeChar(s[i]))
  }

  /** Text written with bytes 0x00-0x7F and 0xC0-0xFF decodes back to itself. */
  lemma TextRoundTrip(s: string)
    requires forall i :: 0 <= i < |s| ==> Encodable(s[i])
    ensures DecodeFallback(EncodeText(s)) == s
  {
    var d := DecodeFallback(EncodeText(s));
    forall i | 0 <= i < |s| ensures d[i] == s[i] {
      var b := EncodeText(s)[i];
      assert FallbackChar(b) as int == s[i] as int;
    }
  }

  /** Conversely, bytes outside 0x80-0xBF are recovered from their decoding. */
  lemma BytesRoundTrip(bytes: seq<byte>)
    requires forall i :: 0 <= i < |bytes| ==> !(0x80 <= bytes[i] < 0xC0)
    ensures forall i :: 0 <= i < |bytes| ==> Encodable(DecodeFallback(bytes)[i])
    ensures EncodeText(DecodeFallback(bytes)) == bytes
  {
  }
}
