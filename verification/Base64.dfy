/**
 Base64url as the native agent and the control worker each do it, over the groups of section 4 of
 RFC 4648 that OpenSSL's block functions and `btoa`/`atob` compute.
 */
module Base64 {
  import opened Wrappers
  import opened Hex

  type Sextet = x: int | 0 <= x < 64

  datatype DecodeError = BadCharacter | BadEncoding

  // ---------------------------------------------------------------- section 4 of RFC 4648, by groups

  function High(x: Byte): Sextet {
    x / 4
  }

  function HighMid(x: Byte, y: Byte): Sextet {
    x as int % 4 * 16 + y as int / 16
  }

  function LowMid(y: Byte, z: Byte): Sextet {
    y as int % 16 * 4 + z as int / 64
  }

  function Low(z: Byte): Sextet {
    z % 64
  }

  function First(p: Sextet, q: Sextet): Byte {
    p as int * 4 + q as int / 16
  }

  function Second(q: Sextet, r: Sextet): Byte {
    q as int % 16 * 16 + r as int / 4
  }

  function Third(r: Sextet, s: Sextet): Byte {
    r as int % 4 * 64 + s as int
  }

  /** The sextets of a byte string, with no padding. */
  function Sextets(b: seq<Byte>): (r: seq<Sextet>)
    ensures |r| == (4 * |b| + 2) / 3 && |r| % 4 != 1
    decreases |b|
  {
    if |b| == 0 then []
    else if |b| == 1 then [High(b[0]), HighMid(b[0], 0)]
    else if |b| == 2 then [High(b[0]), HighMid(b[0], b[1]), LowMid(b[1], 0)]
    else [High(b[0]), HighMid(b[0], b[1]), LowMid(b[1], b[2]), Low(b[2])] + Sextets(b[3..])
  }

  /** Whole groups of four sextets, three bytes each. */
  function Triples(s: seq<Sextet>): (r: seq<Byte>)
    requires |s| % 4 == 0
    ensures |r| == |s| / 4 * 3
    decreases |s|
  {
    if s == [] then []
    else [First(s[0], s[1]), Second(s[1], s[2]), Third(s[2], s[3])] + Triples(s[4..])
  }

  /** Any sextets but a lone last one; bits that fill no byte are dropped. */
  function Bytes(s: seq<Sextet>): seq<Byte>
    requires |s| % 4 != 1
    decreases |s|
  {
    if s == [] then []
    else if |s| == 2 then [First(s[0], s[1])]
    else if |s| == 3 then [First(s[0], s[1]), Second(s[1], s[2])]
    else [First(s[0], s[1]), Second(s[1], s[2]), Third(s[2], s[3])] + Bytes(s[4..])
  }

  function Zeros(n: nat): (r: seq<Sextet>)
    ensures |r| == n && forall i :: 0 <= i < n ==> r[i] == 0
  {
    if n == 0 then [] else Zeros(n - 1) + [0]
  }

  /** How many sextets short of a whole group. */
  function Missing(n: nat): (r: nat)
    ensures r < 4 && (n + r) % 4 == 0
  {
    if n % 4 == 0 then 0 else 4 - n % 4
  }

  lemma GroupReturns(x: Byte, y: Byte, z: Byte)
    ensures First(High(x), HighMid(x, y)) == x
    ensures Second(HighMid(x, y), LowMid(y, z)) == y
    ensures Third(LowMid(y, z), Low(z)) == z
  {
  }

  lemma {:induction false} BytesOfSextets(b: seq<Byte>)
    ensures Bytes(Sextets(b)) == b
    decreases |b|
  {
    hide First, Second, Third, High, HighMid, LowMid, Low;
    if |b| == 1 {
      GroupReturns(b[0], 0, 0);
    } else if |b| == 2 {
      GroupReturns(b[0], b[1], 0);
    } else if |b| > 2 {
      BytesOfSextets(b[3..]);
      GroupReturns(b[0], b[1], b[2]);
      assert Sextets(b)[4..] == Sextets(b[3..]);
      assert b == [b[0], b[1], b[2]] + b[3..];
    }
  }

  /** Zero-padding to whole groups and trimming as many bytes gives the same as dropping the spare bits. */
  lemma {:induction false} TrimmedTriples(s: seq<Sextet>)
    requires |s| % 4 != 1
    ensures Missing(|s|) < 3 && |Triples(s + Zeros(Missing(|s|)))| >= Missing(|s|)
    ensures
      var out := Triples(s + Zeros(Missing(|s|)));
      Bytes(s) == out[..|out| - Missing(|s|)]
    decreases |s|
  {
    hide Triples, Bytes, Zeros, First, Second, Third;
    if |s| < 4 {
      ShortTriples(s);
    } else {
      TrimmedTriples(s[4..]);
      LongTriples(s, Missing(|s|));
      TrimTail(s, Triples(s[4..] + Zeros(Missing(|s|))), Missing(|s|));
    }
  }

  lemma ShortTriples(s: seq<Sextet>)
    requires |s| < 4 && |s| != 1
    ensures Missing(|s|) < 3 && |Triples(s + Zeros(Missing(|s|)))| >= Missing(|s|)
    ensures
      var out := Triples(s + Zeros(Missing(|s|)));
      Bytes(s) == out[..|out| - Missing(|s|)]
  {
    hide First, Second, Third, Triples, Bytes, Zeros;
    if s == [] {
      assert s + Zeros(0) == [];
      NoTriples();
    } else if |s| == 2 {
      assert s == [s[0], s[1]];
      TwoSextets(s[0], s[1], s + Zeros(2));
    } else {
      assert s == [s[0], s[1], s[2]];
      ThreeSextets(s[0], s[1], s[2], s + Zeros(1));
    }
  }

  lemma TwoSextets(p: Sextet, q: Sextet, padded: seq<Sextet>)
    requires padded == [p, q] + Zeros(2)
    ensures |padded| == 4 && |Triples(padded)| == 3 && Bytes([p, q]) == Triples(padded)[..1]
  {
    hide First, Second, Third, Triples, Bytes, Zeros;
    assert padded == [p, q, 0, 0];
    OneTriple(p, q, 0, 0);
  }

  lemma ThreeSextets(p: Sextet, q: Sextet, r: Sextet, padded: seq<Sextet>)
    requires padded == [p, q, r] + Zeros(1)
    ensures |padded| == 4 && |Triples(padded)| == 3 && Bytes([p, q, r]) == Triples(padded)[..2]
  {
    hide First, Second, Third, Triples, Bytes, Zeros;
    assert padded == [p, q, r, 0];
    OneTriple(p, q, r, 0);
  }

  lemma NoTriples()
    ensures Triples([]) == [] == Bytes([])
  {
  }

  lemma OneTriple(p: Sextet, q: Sextet, r: Sextet, t: Sextet)
    ensures Triples([p, q, r, t]) == [First(p, q), Second(q, r), Third(r, t)]
    ensures Bytes([p, q]) == [First(p, q)] && Bytes([p, q, r]) == [First(p, q), Second(q, r)]
  {
    hide First, Second, Third;
    assert [p, q, r, t][4..] == [];
  }

  lemma MissingOfTail(s: seq<Sextet>)
    requires |s| >= 4
    ensures Missing(|s[4..]|) == Missing(|s|) && |s[4..]| % 4 == |s| % 4
  {
  }

  lemma LongTriples(s: seq<Sextet>, n: nat)
    requires |s| >= 4 && |s| % 4 != 1 && (|s| + n) % 4 == 0
    ensures Missing(|s[4..]|) == Missing(|s|) && (|s[4..]| + n) % 4 == 0 && |s[4..]| % 4 != 1
    ensures
      var head := [First(s[0], s[1]), Second(s[1], s[2]), Third(s[2], s[3])];
      Triples(s + Zeros(n)) == head + Triples(s[4..] + Zeros(n)) && Bytes(s) == head + Bytes(s[4..])
  {
    hide First, Second, Third, Zeros, Missing;
    MissingOfTail(s);
    TailOfPadded(s, Zeros(n));
  }

  lemma TailOfPadded(s: seq<Sextet>, zeros: seq<Sextet>)
    requires |s| >= 4
    ensures (s + zeros)[4..] == s[4..] + zeros
    ensures
      (s + zeros)[0] == s[0] && (s + zeros)[1] == s[1] && (s + zeros)[2] == s[2] && (s + zeros)[3] == s[3]
  {
  }

  lemma TrimTail(s: seq<Sextet>, rest: seq<Byte>, n: nat)
    requires |s| >= 4 && n <= |rest|
    ensures
      var head := [First(s[0], s[1]), Second(s[1], s[2]), Third(s[2], s[3])];
      (head + rest)[..|head + rest| - n] == head + rest[..|rest| - n]
  {
  }

  // ---------------------------------------------------------------- characters

  function StdChar(v: Sextet): char {
    if v < 26 then (v + 'A' as int) as char
    else if v < 52 then (v - 26 + 'a' as int) as char
    else if v < 62 then (v - 52 + '0' as int) as char
    else if v == 62 then '+'
    else '/'
  }

  /** The value of a character of the standard alphabet, or -1. */
  function StdValue(c: char): (r: int)
    ensures -1 <= r < 64
    ensures r >= 0 ==> StdChar(r) == c
  {
    if 'A' <= c <= 'Z' then c as int - 'A' as int
    else if 'a' <= c <= 'z' then c as int - 'a' as int + 26
    else if '0' <= c <= '9' then c as int - '0' as int + 52
    else if c == '+' then 62
    else if c == '/' then 63
    else -1
  }

  function ToUrl(c: char): char {
    if c == '+' then '-' else if c == '/' then '_' else c
  }

  function FromUrl(c: char): char {
    if c == '-' then '+' else if c == '_' then '/' else c
  }

  predicate IsBlank(c: char) {
    c == ' ' || c == '\n' || c == '\r' || c == '\t'
  }

  predicate IsUrlChar(c: char) {
    'A' <= c <= 'Z' || 'a' <= c <= 'z' || '0' <= c <= '9' || c == '-' || c == '_'
  }

  function StdChars(s: seq<Sextet>): (r: string)
    ensures |r| == |s| && forall i :: 0 <= i < |r| ==> r[i] == StdChar(s[i])
  {
    if s == [] then "" else [StdChar(s[0])] + StdChars(s[1..])
  }

  predicate AllStd(text: string) {
    forall i :: 0 <= i < |text| ==> StdValue(text[i]) >= 0
  }

  function StdValues(text: string): (r: seq<Sextet>)
    requires AllStd(text)
    ensures |r| == |text| && forall i :: 0 <= i < |r| ==> r[i] == StdValue(text[i])
  {
    if text == "" then [] else [StdValue(text[0])] + StdValues(text[1..])
  }

  predicate AllUrl(text: string) {
    forall i :: 0 <= i < |text| ==> IsUrlChar(text[i])
  }

  /** Url text turned standard, character by character, and back. */
  function Mapped(s: string): (r: string)
    ensures |r| == |s| && forall i :: 0 <= i < |r| ==> r[i] == FromUrl(s[i])
  {
    if s == "" then "" else [FromUrl(s[0])] + Mapped(s[1..])
  }

  function UrlMapped(s: string): (r: string)
    ensures |r| == |s| && forall i :: 0 <= i < |r| ==> r[i] == ToUrl(s[i])
  {
    if s == "" then "" else [ToUrl(s[0])] + UrlMapped(s[1..])
  }

  /** Section 5 text, unpadded. */
  function UrlText(s: seq<Sextet>): string {
    UrlMapped(StdChars(s))
  }

  lemma CharReturns(v: Sextet)
    ensures StdValue(StdChar(v)) == v && IsUrlChar(ToUrl(StdChar(v))) && FromUrl(ToUrl(StdChar(v))) == StdChar(v)
    ensures StdChar(v) != '=' && ToUrl(StdChar(v)) != '=' && !IsBlank(ToUrl(StdChar(v)))
  {
  }

  lemma MappedIsStd(text: string)
    requires AllUrl(text)
    ensures AllStd(Mapped(text))
  {
  }

  lemma TextReturns(s: seq<Sextet>)
    ensures AllUrl(UrlText(s)) && Mapped(UrlText(s)) == StdChars(s)
    ensures AllStd(StdChars(s)) && StdValues(StdChars(s)) == s
  {
    forall i | 0 <= i < |s|
      ensures
        IsUrlChar(UrlText(s)[i]) && FromUrl(UrlText(s)[i]) == StdChars(s)[i] && StdValue(StdChars(s)[i]) == s[i]
    {
      CharReturns(s[i]);
    }
  }

  // ---------------------------------------------------------------- the block functions both sides call

  function Pads(n: nat): (r: string)
    ensures |r| == n && forall i :: 0 <= i < n ==> r[i] == '='
  {
    if n == 0 then "" else Pads(n - 1) + "="
  }

  /** Section 4 text with its padding: OpenSSL's EVP_EncodeBlock, and `btoa`. */
  function StdText(b: seq<Byte>): string {
    StdChars(Sextets(b)) + Pads(Missing(|Sextets(b)|))
  }

  predicate IsStdOrPad(c: char) {
    StdValue(c) >= 0 || c == '='
  }

  predicate AllStdOrPad(text: string) {
    forall i :: 0 <= i < |text| ==> IsStdOrPad(text[i])
  }

  /** The values OpenSSL gives the characters of its alphabet, where '=' is zero. */
  function BlockValues(text: string): (r: seq<Sextet>)
    requires AllStdOrPad(text)
    ensures |r| == |text| && forall i :: 0 <= i < |r| ==> r[i] == if text[i] == '=' then 0 else StdValue(text[i])
  {
    if text == "" then []
    else [if text[0] == '=' then 0 else StdValue(text[0])] + BlockValues(text[1..])
  }

  /** EVP_DecodeBlock: whole groups, with '=' as zero wherever it stands. */
  function DecodeBlock(text: string): (r: seq<Byte>)
    requires |text| % 4 == 0 && AllStdOrPad(text)
    ensures |r| == |text| / 4 * 3
  {
    Triples(BlockValues(text))
  }

  /** How many pads `atob` takes off: at most two, and only from text of whole groups. */
  function Core(text: string): string {
    var n := |text|;
    if n % 4 == 0 && n >= 2 && text[n - 1] == '=' && text[n - 2] == '=' then text[..n - 2]
    else if n % 4 == 0 && n >= 1 && text[n - 1] == '=' then text[..n - 1]
    else text
  }

  /** `atob`, on text without white space. */
  function Atob(text: string): Option<seq<Byte>> {
    var core := Core(text);
    if |core| % 4 == 1 || !AllStd(core) then None else Some(Bytes(StdValues(core)))
  }

  // ---------------------------------------------------------------- the native side

  method NativeBase64Encode(b: seq<Byte>) returns (text: string)
    ensures text == StdText(b)
  {
    if |b| == 0 {
      return "";
    }
    text := StdText(b);
  }

  method NativeUrlEncode(b: seq<Byte>) returns (text: string)
    ensures text == UrlText(Sextets(b))
  {
    ghost var want := UrlText(Sextets(b));
    text := NativeBase64Encode(b);
    for i := 0 to |text|
      invariant |text| == |StdText(b)|
      invariant forall k :: 0 <= k < |text| ==> text[k] == if k < i then ToUrl(StdText(b)[k]) else StdText(b)[k]
    {
      if text[i] == '+' {
        text := text[i := '-'];
      } else if text[i] == '/' {
        text := text[i := '_'];
      }
    }
    while text != "" && text[|text| - 1] == '='
      invariant |want| <= |text| && text[..|want|] == want
      invariant forall k :: |want| <= k < |text| ==> text[k] == '='
      decreases |text|
    {
      if |text| == |want| {
        CharReturns(Sextets(b)[|text| - 1]);
        assert false;
      }
      text := text[..|text| - 1];
    }
    assert text == want;
  }

  /** Without the blanks. */
  function Stripped(s: string): string {
    if s == "" then ""
    else Stripped(s[..|s| - 1]) + if IsBlank(s[|s| - 1]) then "" else [s[|s| - 1]]
  }

  function TrailingPads(s: string): (r: nat)
    ensures r <= 2
  {
    if s != "" && s[|s| - 1] == '=' then if |s| >= 2 && s[|s| - 2] == '=' then 2 else 1 else 0
  }

  /** What the native decoder makes of text already stripped of blanks. */
  function DecodeClean(s: string): Result<seq<Byte>, DecodeError> {
    var padded := s + Pads(Missing(|s|));
    if !AllStdOrPad(padded) then Err(BadCharacter)
    else
      var out := DecodeBlock(padded);
      Ok(if padded == "" then [] else out[..|out| - TrailingPads(padded)])
  }

  lemma StrippedStep(s: string, i: nat)
    requires i < |s|
    ensures Stripped(s[..i + 1]) == Stripped(s[..i]) + if IsBlank(s[i]) then "" else [s[i]]
  {
    assert s[..i + 1][..i] == s[..i];
  }

  method Strip(text: string) returns (cleaned: string)
    ensures cleaned == Stripped(text)
  {
    cleaned := "";
    for i := 0 to |text|
      invariant cleaned == Stripped(text[..i])
    {
      StrippedStep(text, i);
      if !IsBlank(text[i]) {
        cleaned := cleaned + [text[i]];
      }
    }
    assert text[..|text|] == text;
  }

  method PadOut(text: string) returns (padded: string)
    ensures padded == text + Pads(Missing(|text|))
  {
    padded := text;
    ghost var k := 0;
    while |padded| % 4 != 0
      invariant k <= Missing(|text|) && padded == text + Pads(k)
      decreases Missing(|text|) - k
    {
      padded := padded + "=";
      k := k + 1;
    }
  }

  method Check(text: string) returns (ok: bool)
    ensures ok == AllStdOrPad(text)
  {
    for i := 0 to |text|
      invariant forall j :: 0 <= j < i ==> IsStdOrPad(text[j])
    {
      var c := text[i];
      if !('A' <= c <= 'Z' || 'a' <= c <= 'z' || '0' <= c <= '9' || c == '+' || c == '/' || c == '=') {
        return false;
      }
    }
    return true;
  }

  method NativeBase64Decode(b64: string) returns (r: Result<seq<Byte>, DecodeError>)
    ensures r == DecodeClean(Stripped(b64))
  {
    hide Stripped, Pads, AllStdOrPad, BlockValues, DecodeBlock;
    var cleaned := Strip(b64);
    if cleaned == "" {
      EmptyIsClean();
      return Ok([]);
    }
    cleaned := PadOut(cleaned);
    var ok := Check(cleaned);
    if !ok {
      return Err(BadCharacter);
    }
    var out := DecodeBlock(cleaned);
    var pad := 0;
    if cleaned[|cleaned| - 1] == '=' {
      pad := 1;
      if |cleaned| >= 2 && cleaned[|cleaned| - 2] == '=' {
        pad := 2;
      }
    }
    r := Ok(out[..|out| - pad]);
  }

  lemma EmptyIsClean()
    ensures DecodeClean("") == Ok([])
  {
    assert "" + Pads(0) == "";
  }

  lemma MappedStep(text: string, i: nat)
    requires i < |text|
    ensures
      Mapped(Stripped(text[..i + 1])) ==
      Mapped(Stripped(text[..i])) + (if IsBlank(text[i]) then "" else [FromUrl(text[i])])
  {
    hide Mapped, Stripped;
    StrippedStep(text, i);
    var front := Stripped(text[..i]);
    if IsBlank(text[i]) {
      assert front + "" == front && Mapped(front) + "" == Mapped(front);
    } else {
      assert Mapped(front + [text[i]]) == Mapped(front) + [FromUrl(text[i])];
    }
  }

  method Standardise(text: string) returns (std: string)
    ensures std == Mapped(Stripped(text))
  {
    std := "";
    for i := 0 to |text|
      invariant std == Mapped(Stripped(text[..i]))
    {
      hide Mapped, Stripped;
      MappedStep(text, i);
      if text[i] == '-' {
        std := std + ['+'];
      } else if text[i] == '_' {
        std := std + ['/'];
      } else if !IsBlank(text[i]) {
        std := std + [text[i]];
      }
    }
    assert text[..|text|] == text;
  }

  method NativeUrlDecode(text: string) returns (r: Result<seq<Byte>, DecodeError>)
    ensures r == DecodeClean(Mapped(Stripped(text)))
  {
    hide DecodeClean, Stripped, Mapped, AllStdOrPad;
    var std := Standardise(text);
    StrippedHasNoBlank(text);
    var ok := Check(std);
    if !ok {
      BadCharacterStays(std);
      return Err(BadCharacter);
    }
    NoBlankStrips(std);
    r := NativeBase64Decode(std);
  }

  lemma BadCharacterStays(s: string)
    requires !AllStdOrPad(s)
    ensures DecodeClean(s) == Err(BadCharacter)
  {
    var i :| 0 <= i < |s| && !IsStdOrPad(s[i]);
    assert (s + Pads(Missing(|s|)))[i] == s[i];
  }

  lemma {:induction false} StrippedHasNoBlank(s: string)
    ensures forall i :: 0 <= i < |Stripped(s)| ==> !IsBlank(Stripped(s)[i])
    ensures forall i :: 0 <= i < |Stripped(s)| ==> !IsBlank(Mapped(Stripped(s))[i])
    decreases |s|
  {
    if s != "" {
      StrippedHasNoBlank(s[..|s| - 1]);
    }
  }

  lemma {:induction false} NoBlankStrips(s: string)
    requires forall i :: 0 <= i < |s| ==> !IsBlank(s[i])
    ensures Stripped(s) == s
    decreases |s|
  {
    if s != "" {
      NoBlankStrips(s[..|s| - 1]);
    }
  }

  // ---------------------------------------------------------------- the worker's side

  lemma UrlTextStep(s: seq<Sextet>, i: nat)
    requires i < |s|
    ensures UrlText(s)[..i + 1] == UrlText(s)[..i] + [ToUrl(StdChar(s[i]))] && StdChar(s[i]) != '='
  {
    CharReturns(s[i]);
  }

  method WorkerUrlEncode(b: seq<Byte>) returns (text: string)
    ensures text == UrlText(Sextets(b))
  {
    hide StdChar, ToUrl, StdChars, UrlMapped, Pads, Sextets, Missing;
    var std := StdText(b);
    ghost var s := Sextets(b);
    ghost var want := UrlText(s);
    text := "";
    for i := 0 to |std|
      invariant text == if i <= |s| then want[..i] else want
    {
      if i < |s| {
        UrlTextStep(s, i);
      }
      if std[i] != '=' {
        text := text + [ToUrl(std[i])];
      }
    }
  }

  function WorkerDecode(text: string): Result<seq<Byte>, DecodeError> {
    if text == "" || !AllUrl(text) then Err(BadCharacter)
    else
      var r := Atob(Mapped(text) + Pads(Missing(|text|)));
      if r.Some? then Ok(r.value) else Err(BadEncoding)
  }

  // ---------------------------------------------------------------- round trips

  lemma StdIsNoPad(c: char)
    requires StdValue(c) >= 0
    ensures c != '=' && !IsBlank(c)
  {
  }

  lemma PadsAreZeros(text: string)
    requires AllStd(text)
    ensures
      var padded := text + Pads(Missing(|text|));
      AllStdOrPad(padded) && BlockValues(padded) == StdValues(text) + Zeros(Missing(|text|))
  {
    hide StdValue, Pads, Zeros, StdValues, BlockValues;
    var padded := text + Pads(Missing(|text|));
    forall i | 0 <= i < |padded| ensures IsStdOrPad(padded[i]) {
    }
    var zeros := StdValues(text) + Zeros(Missing(|text|));
    forall i | 0 <= i < |padded| ensures BlockValues(padded)[i] == zeros[i] {
      if i < |text| {
        StdIsNoPad(text[i]);
      }
    }
    assert BlockValues(padded) == zeros;
  }

  lemma PadsCounted(text: string)
    requires AllStd(text) && text != "" && |text| % 4 != 1
    ensures TrailingPads(text + Pads(Missing(|text|))) == Missing(|text|)
  {
    hide StdValue;
    StdIsNoPad(text[|text| - 1]);
  }

  /** The native decoder on unpadded standard text with no lone sextet. */
  lemma CleanTextDecodes(text: string)
    requires AllStd(text) && |text| % 4 != 1
    ensures DecodeClean(text) == Ok(Bytes(StdValues(text)))
  {
    hide Triples, Bytes, StdValues, BlockValues, Zeros, Pads, TrailingPads, AllStd, AllStdOrPad, Missing;
    PadsAreZeros(text);
    TrimmedTriples(StdValues(text));
    if text != "" {
      PadsCounted(text);
    } else {
      EmptyIsClean();
    }
  }

  lemma UrlTextIsClean(text: string)
    requires AllUrl(text)
    ensures Stripped(text) == text
  {
    NoBlankStrips(text);
  }

  /** The native side decodes its own encoding, which is also the worker's, of any bytes. */
  lemma NativeRoundTrip(b: seq<Byte>)
    ensures DecodeClean(Mapped(Stripped(UrlText(Sextets(b))))) == Ok(b)
    ensures |UrlText(Sextets(b))| == (4 * |b| + 2) / 3
  {
    var s := Sextets(b);
    hide Sextets, Bytes, DecodeClean, Stripped, Mapped, StdValues, StdChars, AllStd, AllUrl;
    TextReturns(s);
    UrlTextIsClean(UrlText(s));
    BytesOfSextets(b);
    CleanTextDecodes(StdChars(s));
  }

  /** `atob` after the worker's padding: nothing but a lone sextet fails. */
  lemma AtobDecodes(text: string)
    requires text != "" && AllStd(text)
    ensures
      Atob(text + Pads(Missing(|text|))) ==
      (if |text| % 4 == 1 then None else Some(Bytes(StdValues(text))))
  {
    hide Core, Bytes, StdValues, Pads;
    CoreOfPadded(text);
    if |text| % 4 == 1 {
      var core := text + "=";
      assert core[|text|] == '=' && StdValue('=') < 0;
      assert !AllStd(core);
    }
  }

  lemma CoreOfPadded(text: string)
    requires text != "" && AllStd(text)
    ensures Core(text + Pads(Missing(|text|))) == if |text| % 4 == 1 then text + "=" else text
  {
    hide StdValue;
    StdIsNoPad(text[|text| - 1]);
    var n := Missing(|text|);
    var padded := text + Pads(n);
    assert padded[..|text|] == text;
    if n == 3 {
      assert padded[..|padded| - 2] == text + "=";
    }
  }

  /** The worker decodes the same text of any bytes but none, which its pattern refuses. */
  lemma WorkerRoundTrip(b: seq<Byte>)
    ensures WorkerDecode(UrlText(Sextets(b))) == if b == [] then Err(BadCharacter) else Ok(b)
  {
    var s := Sextets(b);
    if b != [] {
      hide Sextets, Bytes, Atob, Mapped, StdValues, StdChars, AllStd, AllUrl, Pads;
      TextReturns(s);
      AtobDecodes(StdChars(s));
      BytesOfSextets(b);
    }
  }

  /** Whatever the worker accepts, the native side decodes to the same bytes. */
  lemma NativeAgreesWithWorker(text: string)
    requires WorkerDecode(text).Ok?
    ensures DecodeClean(Mapped(Stripped(text))) == WorkerDecode(text)
  {
    MappedIsStd(text);
    UrlTextIsClean(text);
    AtobDecodes(Mapped(text));
    hide Bytes, Atob, Mapped, StdValues, AllStd, AllUrl, Pads, DecodeClean, Stripped;
    CleanTextDecodes(Mapped(text));
  }

  /** Padding is optional: what comes with it decodes as what comes without it. */
  lemma PaddingIsOptional(text: string)
    ensures DecodeClean(text + Pads(Missing(|text|))) == DecodeClean(text)
  {
    hide Pads, BlockValues, DecodeBlock, AllStdOrPad, TrailingPads;
    var padded := text + Pads(Missing(|text|));
    assert Missing(|padded|) == 0 && padded + Pads(0) == padded;
  }

  lemma PadMaps()
    ensures FromUrl('=') == '=' && !IsBlank('=')
  {
  }

  lemma MapsPad(text: string, n: nat)
    requires forall i :: 0 <= i < |text| ==> !IsBlank(text[i])
    ensures Mapped(Stripped(text + Pads(n))) == Mapped(text) + Pads(n)
    ensures Stripped(text + Pads(n)) == text + Pads(n)
  {
    hide Mapped, Stripped, Pads, FromUrl, IsBlank;
    PadMaps();
    var padded, mapped := text + Pads(n), Mapped(text) + Pads(n);
    forall i | 0 <= i < |padded| ensures !IsBlank(padded[i]) && Mapped(padded)[i] == mapped[i] {
      assert i >= |text| ==> padded[i] == '=';
    }
    NoBlankStrips(padded);
    assert Mapped(padded) == mapped;
  }

  /** The native side decodes the padded text of any bytes, in either alphabet. */
  lemma PaddedRoundTrip(b: seq<Byte>)
    ensures DecodeClean(Stripped(StdText(b))) == Ok(b)
    ensures
      var url := UrlText(Sextets(b));
      DecodeClean(Mapped(Stripped(url + Pads(Missing(|url|))))) == Ok(b)
  {
    var s := Sextets(b);
    var std, url := StdChars(s), UrlText(s);
    hide Sextets, Bytes, DecodeClean, Stripped, Mapped, StdValues, StdChars, AllStd, AllUrl, Pads, Missing, StdChar;
    TextReturns(s);
    forall i | 0 <= i < |s| ensures std[i] != '=' && !IsBlank(std[i]) && !IsBlank(url[i]) {
      CharReturns(s[i]);
      StdIsNoPad(std[i]);
    }
    BytesOfSextets(b);
    CleanTextDecodes(std);
    PaddingIsOptional(std);
    MapsPad(std, Missing(|std|));
    MapsPad(url, Missing(|url|));
  }

  /** Blanks anywhere in the text make no difference. */
  lemma {:induction false} BlanksAreIgnored(front: string, c: char, rest: string)
    requires IsBlank(c)
    ensures Stripped(front + [c] + rest) == Stripped(front + rest)
    decreases |rest|
  {
    var with, without := front + [c] + rest, front + rest;
    if rest == "" {
      assert with[..|with| - 1] == front && without == front;
    } else {
      var more := rest[..|rest| - 1];
      BlanksAreIgnored(front, c, more);
      assert with[..|with| - 1] == front + [c] + more && without[..|without| - 1] == front + more;
    }
  }

  predicate IsBase64Char(c: char) {
    'A' <= c <= 'Z' || 'a' <= c <= 'z' || '0' <= c <= '9' || c == '+' || c == '/' || c == '='
  }

  lemma CheckedChar(c: char)
    ensures IsStdOrPad(c) <==> IsBase64Char(c)
  {
  }

  /** The native decoder refuses exactly the text with some character that is no letter, digit, '+', '/' or '='. */
  lemma RefusedExactly(text: string)
    ensures DecodeClean(text) == Err(BadCharacter) <==> exists i :: 0 <= i < |text| && !IsBase64Char(text[i])
    ensures DecodeClean(text).Err? ==> DecodeClean(text) == Err(BadCharacter)
  {
    hide DecodeBlock, TrailingPads, Pads, BlockValues, Missing, StdValue, IsStdOrPad, IsBase64Char;
    var padded := text + Pads(Missing(|text|));
    forall i | 0 <= i < |padded|
      ensures IsStdOrPad(padded[i]) <==> IsBase64Char(padded[i])
      ensures |text| <= i ==> IsBase64Char(padded[i])
    {
      CheckedChar(padded[i]);
      PadIsFine();
    }
    assert forall i :: 0 <= i < |text| ==> padded[i] == text[i];
  }

  lemma PadIsFine()
    ensures IsBase64Char('=')
  {
  }

  lemma Reads(s: seq<Sextet>, text: string)
    requires |s| == |text| && forall i :: 0 <= i < |s| ==> StdChar(s[i]) == text[i]
    ensures StdChars(s) == text
  {
    hide StdChars, StdChar;
  }

  /** The vector "foo" of section 10 of RFC 4648. */
  lemma FooVector(b: seq<Byte>)
    requires b == [0x66, 0x6f, 0x6f]
    ensures StdText(b) == "Zm9v"
  {
    assert b[3..] == [] && Sextets(b) == [25, 38, 61, 47];
    hide Sextets, StdChars, Pads;
    Reads(Sextets(b), "Zm9v");
    assert "Zm9v" + Pads(0) == "Zm9v";
  }

  /** Two octets whose text has both characters in which the url alphabet differs, and a pad to leave out. */
  lemma UrlVector(b: seq<Byte>)
    requires b == [0xfb, 0xff]
    ensures UrlText(Sextets(b)) == "-_8" && StdText(b) == "+/8="
  {
    assert Sextets(b) == [62, 63, 60];
    hide Sextets, StdChars, Pads, UrlMapped;
    Reads(Sextets(b), "+/8");
    assert UrlMapped("+/8") == "-_8";
    assert "+/8" + Pads(1) == "+/8=";
  }
}
