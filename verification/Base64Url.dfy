/**
 Unpadded base64url (section 5 of RFC 4648), as `Buffer.toString("base64url")` writes it and as
 `Buffer.from(text, "base64url")` reads text over the alphabet: a lone trailing character is dropped and
 unused trailing bits are ignored.
 */
module Base64Url {

  type Byte = b: int | 0 <= b < 256

  type Sextet = v: int | 0 <= v < 64

  predicate InAlphabet(c: char) {
    'A' <= c <= 'Z' || 'a' <= c <= 'z' || '0' <= c <= '9' || c == '-' || c == '_'
  }

  function CharOf(v: Sextet): (c: char)
    ensures InAlphabet(c) && SextetOf(c) == v
  {
    if v < 26 then (v + 65) as char
    else if v < 52 then (v + 71) as char
    else if v < 62 then (v - 4) as char
    else if v == 62 then '-' else '_'
  }

  function SextetOf(c: char): Sextet {
    if 'A' <= c <= 'Z' then c as int - 65
    else if 'a' <= c <= 'z' then c as int - 71
    else if '0' <= c <= '9' then c as int + 4
    else if c == '-' then 62 else 63
  }

  function Encode(bytes: seq<Byte>): (s: string)
    ensures forall i | 0 <= i < |s| :: InAlphabet(s[i])
    ensures bytes != [] ==> s != []
  {
    if bytes == [] then []
    else if |bytes| == 1 then [CharOf(bytes[0] / 4), CharOf(bytes[0] % 4 * 16)]
    else if |bytes| == 2 then
      [CharOf(bytes[0] / 4), CharOf(bytes[0] % 4 * 16 + bytes[1] / 16), CharOf(bytes[1] % 16 * 4)]
    else
      [CharOf(bytes[0] / 4), CharOf(bytes[0] % 4 * 16 + bytes[1] / 16),
       CharOf(bytes[1] % 16 * 4 + bytes[2] / 64), CharOf(bytes[2] % 64)] + Encode(bytes[3..])
  }

  function Decode(s: string): seq<Byte> {
    if |s| < 2 then []
    else
      var a, b := SextetOf(s[0]), SextetOf(s[1]);
      var first := a * 4 + b / 16;
      if |s| == 2 then [first]
      else
        var c := SextetOf(s[2]);
        var second := b % 16 * 16 + c / 4;
        if |s| == 3 then [first, second]
        else [first, second, c % 4 * 64 + SextetOf(s[3])] + Decode(s[4..])
  }

  lemma {:induction false} DecodeEncode(bytes: seq<Byte>)
    ensures Decode(Encode(bytes)) == bytes
  {
    if |bytes| >= 3 {
      DecodeEncode(bytes[3..]);
      FirstBlock(bytes);
      assert bytes == bytes[..3] + bytes[3..];
    } else {
      ShortEnd(bytes);
    }
  }

  /** Three bytes are four sextets. */
  lemma Sextets(x: Byte, y: Byte, z: Byte)
    ensures x / 4 * 4 + (x % 4 * 16 + y / 16) / 16 == x
    ensures (x % 4 * 16 + y / 16) % 16 * 16 + (y % 16 * 4 + z / 64) / 4 == y
    ensures (y % 16 * 4 + z / 64) % 4 * 64 + z % 64 == z
  {
  }

  lemma {:induction false} FirstBlock(bytes: seq<Byte>)
    requires |bytes| >= 3
    ensures Decode(Encode(bytes)) == bytes[..3] + Decode(Encode(bytes[3..]))
  {
    var (x, y, z) := (bytes[0], bytes[1], bytes[2]);
    var s := Encode(bytes);
    Sextets(x, y, z);
    assert s[4..] == Encode(bytes[3..]);
    assert SextetOf(s[0]) == x / 4 && SextetOf(s[1]) == x % 4 * 16 + y / 16;
    assert SextetOf(s[2]) == y % 16 * 4 + z / 64 && SextetOf(s[3]) == z % 64;
    assert Decode(s) == [x, y, z] + Decode(s[4..]);
    assert bytes[..3] == [x, y, z];
  }

  lemma {:induction false} ShortEnd(bytes: seq<Byte>)
    requires |bytes| < 3
    ensures Decode(Encode(bytes)) == bytes
  {
  }
}
