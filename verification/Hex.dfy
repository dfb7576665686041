/** Hexadecimal text of byte strings (section 8 of RFC 4648), in place over output buffers. */
module Hex {
  import opened Wrappers

  type Byte = x: int | 0 <= x < 256

  datatype Error = OddLength | InvalidCharacter

  const DIGITS := "0123456789abcdef"

  function Nibble(c: char): (r: int)
    ensures -1 <= r < 16
  {
    if '0' <= c <= '9' then c as int - '0' as int
    else if 'a' <= c <= 'f' then c as int - 'a' as int + 10
    else if 'A' <= c <= 'F' then c as int - 'A' as int + 10
    else -1
  }

  function Lower(c: char): char {
    if 'A' <= c <= 'F' then (c as int - 'A' as int + 'a' as int) as char else c
  }

  /** `text` is the hexadecimal text of `bytes`, digit by digit, in whichever case. */
  predicate Spells(text: string, bytes: seq<Byte>) {
    && |text| == 2 * |bytes|
    && forall i :: 0 <= i < |text| ==> Nibble(text[i]) == Half(bytes[i / 2], i)
  }

  function Half(b: Byte, i: nat): (r: nat)
    ensures r < 16
  {
    if i % 2 == 0 then b / 16 else b % 16
  }

  predicate IsLower(text: string) {
    forall i :: 0 <= i < |text| ==> Lower(text[i]) == text[i]
  }

  predicate AllHex(text: string) {
    forall i :: 0 <= i < |text| ==> Nibble(text[i]) >= 0
  }

  lemma DigitsAreLower(v: int)
    requires 0 <= v < 16
    ensures Nibble(DIGITS[v]) == v && Lower(DIGITS[v]) == DIGITS[v]
  {
  }

  /** The digits in order, in both cases, and nothing else; a byte is spelled high half first. */
  lemma DigitValues(c: char)
    ensures Nibble(c) ==
      match c
      case '0' => 0 case '1' => 1 case '2' => 2 case '3' => 3 case '4' => 4
      case '5' => 5 case '6' => 6 case '7' => 7 case '8' => 8 case '9' => 9
      case 'a' => 10 case 'b' => 11 case 'c' => 12 case 'd' => 13 case 'e' => 14 case 'f' => 15
      case 'A' => 10 case 'B' => 11 case 'C' => 12 case 'D' => 13 case 'E' => 14 case 'F' => 15
      case _ => -1
    ensures Spells("4a", [0x4a]) && !Spells("a4", [0x4a])
  {
    assert Nibble("a4"[0]) != Half(0x4a, 0);
  }

  method ToHex(bytes: seq<Byte>) returns (text: string)
    ensures Spells(text, bytes) && IsLower(text)
  {
    var out := new char[2 * |bytes|](_ => '0');
    for i := 0 to |bytes|
      invariant forall k :: 0 <= k < 2 * i ==> Nibble(out[k]) == Half(bytes[k / 2], k) && Lower(out[k]) == out[k]
    {
      DigitsAreLower(bytes[i] / 16);
      DigitsAreLower(bytes[i] % 16);
      out[2 * i] := DIGITS[bytes[i] / 16];
      out[2 * i + 1] := DIGITS[bytes[i] % 16];
    }
    text := out[..];
  }

  method FromHex(hex: string) returns (r: Result<seq<Byte>, Error>)
    ensures |hex| % 2 != 0 ==> r == Err(OddLength)
    ensures |hex| % 2 == 0 && !AllHex(hex) ==> r == Err(InvalidCharacter)
    ensures |hex| % 2 == 0 && AllHex(hex) ==> r.Ok? && Spells(hex, r.value)
  {
    if |hex| % 2 != 0 {
      return Err(OddLength);
    }
    var out := new Byte[|hex| / 2](_ => 0);
    for i := 0 to out.Length
      invariant forall k :: 0 <= k < 2 * i ==> Nibble(hex[k]) == Half(out[k / 2], k)
    {
      var hi, lo := Nibble(hex[2 * i]), Nibble(hex[2 * i + 1]);
      if hi < 0 || lo < 0 {
        return Err(InvalidCharacter);
      }
      out[i] := hi * 16 + lo;
    }
    r := Ok(out[..]);
  }

  // ---------------------------------------------------------------- round trips

  function Lowered(text: string): (r: string)
    ensures |r| == |text| && forall i :: 0 <= i < |r| ==> r[i] == Lower(text[i])
  {
    if text == "" then "" else [Lower(text[0])] + Lowered(text[1..])
  }

  lemma NibbleIsLower(c: char, d: char)
    requires Nibble(c) == Nibble(d) >= 0
    ensures Lower(c) == Lower(d)
  {
  }

  /** A text spells at most one byte string. */
  lemma BytesUnique(text: string, a: seq<Byte>, b: seq<Byte>)
    requires Spells(text, a) && Spells(text, b)
    ensures a == b
  {
    forall i | 0 <= i < |a| ensures a[i] == b[i] {
      assert Nibble(text[2 * i]) == a[i] / 16 == b[i] / 16;
      assert Nibble(text[2 * i + 1]) == a[i] % 16 == b[i] % 16;
    }
  }

  /** Two texts of the same bytes differ at most in case. */
  lemma TextUnique(s: string, t: string, bytes: seq<Byte>)
    requires Spells(s, bytes) && Spells(t, bytes)
    ensures Lowered(s) == Lowered(t)
  {
    forall i | 0 <= i < |s| ensures Lower(s[i]) == Lower(t[i]) {
      NibbleIsLower(s[i], t[i]);
    }
  }

  /** Decoding what was encoded gives the bytes back. */
  method EncodeThenDecode(bytes: seq<Byte>) returns (r: Result<seq<Byte>, Error>)
    ensures r == Ok(bytes)
  {
    var text := ToHex(bytes);
    r := FromHex(text);
    BytesUnique(text, bytes, r.value);
  }

  /** Encoding what was decoded gives the text back in lower case. */
  method DecodeThenEncode(hex: string) returns (r: Result<string, Error>)
    ensures r.Ok? ==> r.value == Lowered(hex)
    ensures r.Ok? <==> |hex| % 2 == 0 && AllHex(hex)
  {
    var d := FromHex(hex);
    if d.Err? {
      return Err(d.error);
    }
    var text := ToHex(d.value);
    TextUnique(hex, text, d.value);
    assert Lowered(text) == text;
    r := Ok(text);
  }
}
