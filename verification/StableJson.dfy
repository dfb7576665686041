/**
 `stableStringify`, the canonical text behind every request hash: JSON with the keys of each object
 sorted.  Text is a sequence of UTF-16 code units, as in the language the service is written in.
 */
module StableJson {
  import opened Wrappers

  type Unit = u: int | 0 <= u < 0x1_0000

  type Text = seq<Unit>

  /**
   A JSON value.  A finite number is given by its ECMAScript text, on which it depends one to one; the
   fields of an object are in insertion order.
   */
  datatype Json =
    | Null
    | Bool(b: bool)
    | Num(text: Text)
    | Str(s: Text)
    | Arr(items: seq<Json>)
    | Obj(fields: seq<Field>)

  datatype Field = Field(key: Text, value: Json)

  const QUOTE: Unit := 0x22
  const COMMA: Unit := 0x2c
  const COLON: Unit := 0x3a
  const BACKSLASH: Unit := 0x5c
  const OPEN_BRACKET: Unit := 0x5b
  const CLOSE_BRACKET: Unit := 0x5d
  const OPEN_BRACE: Unit := 0x7b
  const CLOSE_BRACE: Unit := 0x7d
  const NULL: Text := [0x6e, 0x75, 0x6c, 0x6c]
  const TRUE: Text := [0x74, 0x72, 0x75, 0x65]
  const FALSE: Text := [0x66, 0x61, 0x6c, 0x73, 0x65]

  /** Digits, sign, point and exponent. */
  predicate IsNumberUnit(u: Unit) {
    0x30 <= u <= 0x39 || u in {0x2b, 0x2d, 0x2e, 0x65}
  }

  predicate IsNumberText(t: Text) {
    t != [] && forall i :: 0 <= i < |t| ==> IsNumberUnit(t[i])
  }

  /** Keys of an object are distinct, and numbers are finite. */
  predicate Valid(v: Json) {
    match v
    case Num(t) => IsNumberText(t)
    case Arr(items) => forall i :: 0 <= i < |items| ==> Valid(items[i])
    case Obj(fields) =>
      && (forall i, j :: 0 <= i < j < |fields| ==> fields[i].key != fields[j].key)
      && (forall i :: 0 <= i < |fields| ==> Valid(fields[i].value))
    case _ => true
  }

  // ---------------------------------------------------------------- strings

  predicate IsLead(u: Unit) { 0xd800 <= u < 0xdc00 }

  predicate IsTrail(u: Unit) { 0xdc00 <= u < 0xe000 }

  function HexDigit(d: int): Unit
    requires 0 <= d < 16
  {
    if d < 10 then 0x30 + d else 0x61 + d - 10
  }

  function HexValue(u: Unit): int {
    if 0x30 <= u <= 0x39 then u - 0x30 else if 0x61 <= u <= 0x66 then u - 0x61 + 10 else 0
  }

  /** `\uXXXX` in lower case. */
  function HexEscape(u: Unit): Text {
    [BACKSLASH, 0x75, HexDigit(u / 0x1000), HexDigit(u / 0x100 % 16), HexDigit(u / 16 % 16), HexDigit(u % 16)]
  }

  /** The letter after the backslash of a two-unit escape. */
  function ShortEscape(u: Unit): Option<Unit> {
    match u
    case 0x08 => Some(0x62)
    case 0x09 => Some(0x74)
    case 0x0a => Some(0x6e)
    case 0x0c => Some(0x66)
    case 0x0d => Some(0x72)
    case 0x22 => Some(0x22)
    case 0x5c => Some(0x5c)
    case _ => None
  }

  function EscapeUnit(u: Unit): Text {
    match ShortEscape(u)
    case Some(letter) => [BACKSLASH, letter]
    case None => if u < 0x20 || IsLead(u) || IsTrail(u) then HexEscape(u) else [u]
  }

  /**
   The escapes of ECMAScript's QuoteJSONString: seven units have a letter or stand for themselves after the
   backslash, other control units are `\u00` and two lower-case digits, and any other unit stands as it is
   unless it is a surrogate on its own.
   */
  lemma StandardEscapes(u: Unit)
    ensures
      EscapeUnit(u) ==
        match u
        case 0x08 => [0x5c, 0x62] case 0x09 => [0x5c, 0x74] case 0x0a => [0x5c, 0x6e] case 0x0c => [0x5c, 0x66]
        case 0x0d => [0x5c, 0x72] case 0x22 => [0x5c, 0x22] case 0x5c => [0x5c, 0x5c]
        case _ =>
          if u < 0x10 then [0x5c, 0x75, 0x30, 0x30, 0x30, if u < 10 then 0x30 + u else 0x57 + u]
          else if u < 0x20 then [0x5c, 0x75, 0x30, 0x30, 0x31, if u < 26 then 0x20 + u else 0x47 + u]
          else if 0xd800 <= u < 0xe000 then HexEscape(u)
          else [u]
  {
  }

  /** The inside of a quoted string: a surrogate pair stays as it is, a lone surrogate is escaped. */
  function Escape(s: Text): Text {
    if s == [] then []
    else if IsLead(s[0]) && 1 < |s| && IsTrail(s[1]) then s[..2] + Escape(s[2..])
    else EscapeUnit(s[0]) + Escape(s[1..])
  }

  function Quote(s: Text): Text {
    [QUOTE] + Escape(s) + [QUOTE]
  }

  function Unletter(letter: Unit): Unit {
    match letter
    case 0x62 => 0x08
    case 0x74 => 0x09
    case 0x6e => 0x0a
    case 0x66 => 0x0c
    case 0x72 => 0x0d
    case _ => letter
  }

  /** Reading back: the string before the closing quote, and the text after it. */
  function Unescape(x: Text): Option<(Text, Text)> {
    if x == [] then None
    else if x[0] == QUOTE then Some(([], x[1..]))
    else if x[0] != BACKSLASH then Prepend(x[0], Unescape(x[1..]))
    else if |x| < 2 then None
    else if x[1] != 0x75 then Prepend(Unletter(x[1]), Unescape(x[2..]))
    else if |x| < 6 then None
    else
      var u := ((HexValue(x[2]) * 16 + HexValue(x[3])) * 16 + HexValue(x[4])) * 16 + HexValue(x[5]);
      Prepend(u, Unescape(x[6..]))
  }

  function Prepend(u: Unit, r: Option<(Text, Text)>): Option<(Text, Text)> {
    match r
    case None => None
    case Some((s, rest)) => Some(([u] + s, rest))
  }

  lemma UnescapeRaw(u: Unit, tail: Text)
    requires u != QUOTE && u != BACKSLASH
    ensures Unescape([u] + tail) == Prepend(u, Unescape(tail))
  {
    assert ([u] + tail)[1..] == tail;
  }

  lemma UnescapeShort(u: Unit, tail: Text)
    requires ShortEscape(u).Some?
    ensures Unescape(EscapeUnit(u) + tail) == Prepend(u, Unescape(tail))
  {
    var x := EscapeUnit(u) + tail;
    assert x[2..] == tail;
  }

  lemma UnescapeHex(u: Unit, tail: Text)
    ensures Unescape(HexEscape(u) + tail) == Prepend(u, Unescape(tail))
  {
    var x := HexEscape(u) + tail;
    assert x[6..] == tail;
    HexDigitValue(u / 0x1000);
    HexDigitValue(u / 0x100 % 16);
    HexDigitValue(u / 16 % 16);
    HexDigitValue(u % 16);
    Nibbles(u);
    hide HexDigit, HexValue;
    assert x[0] == BACKSLASH && x[1] == 0x75;
    assert HexValue(x[2]) == u / 0x1000 && HexValue(x[3]) == u / 0x100 % 16;
    assert HexValue(x[4]) == u / 16 % 16 && HexValue(x[5]) == u % 16;
  }

  lemma HexDigitValue(d: int)
    requires 0 <= d < 16
    ensures HexValue(HexDigit(d)) == d
  {
  }

  lemma Nibbles(u: Unit)
    ensures ((u / 0x1000 * 16 + u / 0x100 % 16) * 16 + u / 16 % 16) * 16 + u % 16 == u
  {
    assert u / 0x1000 == u / 0x100 / 16 && u / 0x100 == u / 16 / 16;
  }

  lemma UnescapeUnit(u: Unit, tail: Text)
    ensures Unescape(EscapeUnit(u) + tail) == Prepend(u, Unescape(tail))
  {
    hide Unescape, HexEscape;
    if ShortEscape(u).Some? {
      UnescapeShort(u, tail);
    } else if u < 0x20 || IsLead(u) || IsTrail(u) {
      UnescapeHex(u, tail);
    } else {
      UnescapeRaw(u, tail);
    }
  }

  /** A quoted string determines the string and the text that follows it. */
  lemma {:induction false} UnescapeEscape(s: Text, rest: Text)
    ensures Unescape(Escape(s) + ([QUOTE] + rest)) == Some((s, rest))
  {
    var end := [QUOTE] + rest;
    if s == [] {
      assert Escape(s) + end == end && end[1..] == rest;
    } else if IsLead(s[0]) && 1 < |s| && IsTrail(s[1]) {
      UnescapeEscape(s[2..], rest);
      UnescapePair(s, end);
      assert s == [s[0]] + ([s[1]] + s[2..]);
    } else {
      UnescapeEscape(s[1..], rest);
      UnescapeFirst(s, end);
      assert s == [s[0]] + s[1..];
    }
  }

  lemma UnescapePair(s: Text, end: Text)
    requires 1 < |s| && IsLead(s[0]) && IsTrail(s[1])
    ensures Unescape(Escape(s) + end) == Prepend(s[0], Prepend(s[1], Unescape(Escape(s[2..]) + end)))
  {
    hide Unescape;
    var tail := Escape(s[2..]) + end;
    UnescapeRaw(s[1], tail);
    UnescapeRaw(s[0], [s[1]] + tail);
    assert Escape(s) + end == [s[0]] + ([s[1]] + tail);
  }

  lemma UnescapeFirst(s: Text, end: Text)
    requires s != [] && !(1 < |s| && IsLead(s[0]) && IsTrail(s[1]))
    ensures Unescape(Escape(s) + end) == Prepend(s[0], Unescape(Escape(s[1..]) + end))
  {
    hide Unescape, EscapeUnit;
    UnescapeUnit(s[0], Escape(s[1..]) + end);
    assert Escape(s) + end == EscapeUnit(s[0]) + (Escape(s[1..]) + end);
  }

  lemma QuoteUnique(s: Text, t: Text, r: Text, q: Text)
    requires Quote(s) + r == Quote(t) + q
    ensures s == t && r == q
  {
    hide Unescape, Escape;
    UnescapeEscape(s, r);
    UnescapeEscape(t, q);
    assert (Quote(s) + r)[1..] == Escape(s) + ([QUOTE] + r);
    assert (Quote(t) + q)[1..] == Escape(t) + ([QUOTE] + q);
  }

  // ---------------------------------------------------------------- sorted keys

  /** Order by code units, a proper prefix first. */
  predicate Less(a: Text, b: Text) {
    b != [] && (a == [] || a[0] < b[0] || (a[0] == b[0] && Less(a[1..], b[1..])))
  }

  lemma {:induction false} LessTotal(a: Text, b: Text)
    ensures a == b || Less(a, b) || Less(b, a)
    ensures !(Less(a, b) && Less(b, a)) && !Less(a, a)
  {
    if a != [] && b != [] {
      LessTotal(a[1..], b[1..]);
      assert a == [a[0]] + a[1..] && b == [b[0]] + b[1..];
    }
    if a != [] {
      LessTotal(a[1..], a[1..]);
    }
  }

  lemma {:induction false} LessTransitive(a: Text, b: Text, c: Text)
    requires Less(a, b) && Less(b, c)
    ensures Less(a, c)
  {
    if a != [] && a[0] == b[0] && b[0] == c[0] {
      LessTransitive(a[1..], b[1..], c[1..]);
    }
  }

  /** The first unit in which two texts differ decides, and a text comes before any longer one that begins with it. */
  lemma {:induction false} FirstDifferenceDecides(p: Text, x: Unit, y: Unit, a: Text, b: Text)
    requires x < y
    ensures Less(p + ([x] + a), p + ([y] + b)) && Less(p, p + ([x] + a))
  {
    if p == [] {
      assert p + ([x] + a) == [x] + a && p + ([y] + b) == [y] + b;
    } else {
      FirstDifferenceDecides(p[1..], x, y, a, b);
      assert (p + ([x] + a))[1..] == p[1..] + ([x] + a) && (p + ([y] + b))[1..] == p[1..] + ([y] + b);
    }
  }

  predicate Ascending(ks: seq<Text>) {
    forall i, j :: 0 <= i < j < |ks| ==> Less(ks[i], ks[j])
  }

  function Insert(k: Text, ks: seq<Text>): seq<Text> {
    if ks == [] || Less(k, ks[0]) then [k] + ks else [ks[0]] + Insert(k, ks[1..])
  }

  /** `Object.keys(record).sort()`. */
  function Sort(ks: seq<Text>): seq<Text> {
    if ks == [] then [] else Insert(ks[0], Sort(ks[1..]))
  }

  lemma {:induction false} InsertKeeps(k: Text, ks: seq<Text>)
    ensures forall x :: x in Insert(k, ks) <==> x == k || x in ks
    ensures Ascending(ks) && k !in ks ==> Ascending(Insert(k, ks))
  {
    if ks != [] {
      assert forall x :: x in ks <==> x == ks[0] || x in ks[1..];
      if !Less(k, ks[0]) {
        InsertKeeps(k, ks[1..]);
        LessTotal(k, ks[0]);
        var tail := Insert(k, ks[1..]);
        if Ascending(ks) && k !in ks {
          forall x | x in tail ensures Less(ks[0], x) { }
        }
      } else if Ascending(ks) {
        forall x | x in ks ensures Less(k, x) {
          if x != ks[0] {
            LessTransitive(k, ks[0], x);
          }
        }
      }
    }
  }

  lemma {:induction false} SortKeeps(ks: seq<Text>)
    ensures forall x :: x in Sort(ks) <==> x in ks
    ensures (forall i, j :: 0 <= i < j < |ks| ==> ks[i] != ks[j]) ==> Ascending(Sort(ks))
  {
    if ks != [] {
      SortKeeps(ks[1..]);
      InsertKeeps(ks[0], Sort(ks[1..]));
      assert forall x :: x in ks <==> x == ks[0] || x in ks[1..];
      if forall i, j :: 0 <= i < j < |ks| ==> ks[i] != ks[j] {
        assert ks[0] !in ks[1..];
      }
    }
  }

  /** An ascending sequence is determined by its members. */
  lemma {:induction false} AscendingUnique(a: seq<Text>, b: seq<Text>)
    requires Ascending(a) && Ascending(b) && forall x :: x in a <==> x in b
    ensures a == b
  {
    if a == [] {
      assert forall x :: x in b ==> x in a;
      if b != [] { MemberZero(b); }
    } else {
      assert a[0] in a && b != [] && b[0] in b;
      LessTotal(a[0], b[0]);
      assert a[0] == b[0];
      forall x ensures x in a[1..] <==> x in b[1..] {
        NotAgain(a);
        NotAgain(b);
        assert x in a <==> x == a[0] || x in a[1..];
        assert x in b <==> x == b[0] || x in b[1..];
      }
      AscendingUnique(a[1..], b[1..]);
      assert a == [a[0]] + a[1..] && b == [b[0]] + b[1..];
    }
  }

  lemma MemberZero(b: seq<Text>)
    requires b != []
    ensures exists x :: x in b
  {
    assert b[0] in b;
  }

  lemma NotAgain(a: seq<Text>)
    requires Ascending(a) && a != []
    ensures a[0] !in a[1..]
  {
    LessTotal(a[0], a[0]);
  }

  // ---------------------------------------------------------------- printing

  function Keys(fields: seq<Field>): seq<Text> {
    seq(|fields|, i requires 0 <= i < |fields| => fields[i].key)
  }

  function IndexOf(fields: seq<Field>, k: Text): (i: nat)
    requires k in Keys(fields)
    ensures i < |fields| && fields[i].key == k
  {
    if fields[0].key == k then 0
    else
      assert Keys(fields) == [fields[0].key] + Keys(fields[1..]);
      1 + IndexOf(fields[1..], k)
  }

  /** `record[key]`. */
  function Lookup(fields: seq<Field>, k: Text): Json
    requires k in Keys(fields)
  {
    fields[IndexOf(fields, k)].value
  }

  function Stringify(v: Json): Text
    decreases v, 0
  {
    match v
    case Null => NULL
    case Bool(b) => if b then TRUE else FALSE
    case Num(t) => t
    case Str(s) => Quote(s)
    case Arr(items) => [OPEN_BRACKET] + Items(items) + [CLOSE_BRACKET]
    case Obj(fields) =>
      SortKeeps(Keys(fields));
      [OPEN_BRACE] + Members(fields, Sort(Keys(fields))) + [CLOSE_BRACE]
  }

  function Items(items: seq<Json>): Text
    decreases items, 0
  {
    if items == [] then [] else Stringify(items[0]) + ItemsTail(items[1..])
  }

  function ItemsTail(items: seq<Json>): Text
    decreases items, 1
  {
    if items == [] then [] else [COMMA] + Items(items)
  }

  function Members(fields: seq<Field>, ks: seq<Text>): Text
    requires forall k :: k in ks ==> k in Keys(fields)
    decreases fields, |ks|, 0
  {
    if ks == [] then []
    else Quote(ks[0]) + [COLON] + Stringify(fields[IndexOf(fields, ks[0])].value) + MembersTail(fields, ks[1..])
  }

  function MembersTail(fields: seq<Field>, ks: seq<Text>): Text
    requires forall k :: k in ks ==> k in Keys(fields)
    decreases fields, |ks|, 1
  {
    if ks == [] then [] else [COMMA] + Members(fields, ks)
  }

  lemma SortOfTwo(b: Text, a: Text)
    requires Less(a, b)
    ensures Sort([b, a]) == [a, b]
  {
    LessTotal(a, b);
    hide Less;
    assert [b, a][1..] == [a] && [a][1..] == [];
    assert Sort([a]) == [a] && Insert(b, []) == [b];
  }

  /** Array items stand between brackets with a comma between them. */
  lemma PairText(v: Json, w: Json)
    ensures Stringify(Arr([v, w])) == [OPEN_BRACKET] + (Stringify(v) + ([COMMA] + Stringify(w))) + [CLOSE_BRACKET]
  {
    assert [v, w][1..] == [w] && [w][1..] == [];
    assert ItemsTail([]) == [] && Stringify(w) + [] == Stringify(w);
    assert Items([w]) == Stringify(w);
    assert ItemsTail([w]) == [COMMA] + Items([w]);
  }

  /** An object of two fields, set in either order, prints the lesser key first. */
  lemma ObjectText(fields: seq<Field>, a: Text, b: Text, v: Json, w: Json)
    requires Less(a, b) && (fields == [Field(a, v), Field(b, w)] || fields == [Field(b, w), Field(a, v)])
    ensures Stringify(Obj(fields)) ==
      [OPEN_BRACE] + (Quote(a) + [COLON] + Stringify(v) + ([COMMA] + (Quote(b) + [COLON] + Stringify(w)))) + [CLOSE_BRACE]
  {
    LessTotal(a, b);
    SortOfTwo(b, a);
    AlreadySorted(a, b);
    hide Quote, Sort, Less, Stringify;
    assert Keys(fields) == [a, b] || Keys(fields) == [b, a];
    assert fields[IndexOf(fields, a)] == Field(a, v) && fields[IndexOf(fields, b)] == Field(b, w);
    assert [a, b][1..] == [b] && [b][1..] == [];
    var last := Quote(b) + [COLON] + Stringify(w);
    assert last + [] == last && Members(fields, [b]) == last;
    assert Members(fields, [a, b]) == Quote(a) + [COLON] + Stringify(v) + ([COMMA] + last);
    ObjectUnfolds(fields, [a, b]);
  }

  lemma AlreadySorted(a: Text, b: Text)
    requires Less(a, b)
    ensures Sort([a, b]) == [a, b]
  {
    hide Less;
    assert [a, b][1..] == [b] && [b][1..] == [];
    assert Sort([b]) == [b];
  }

  lemma ObjectUnfolds(fields: seq<Field>, ks: seq<Text>)
    requires Sort(Keys(fields)) == ks && forall k :: k in ks ==> k in Keys(fields)
    ensures Stringify(Obj(fields)) == [OPEN_BRACE] + Members(fields, ks) + [CLOSE_BRACE]
  {
    hide Sort, Members;
  }

  // ---------------------------------------------------------------- the text determines the value

  /** Equality of JSON values, an object being a map from its keys. */
  ghost predicate Same(v: Json, w: Json)
    decreases v
  {
    match v
    case Arr(items) =>
      w.Arr? && |items| == |w.items| && forall i :: 0 <= i < |items| ==> Same(items[i], w.items[i])
    case Obj(fields) =>
      && w.Obj?
      && (forall k :: k in Keys(fields) <==> k in Keys(w.fields))
      && (forall k :: k in Keys(fields) ==>
            Same(fields[IndexOf(fields, k)].value, w.fields[IndexOf(w.fields, k)].value))
    case _ => v == w
  }

  /** What may follow a value inside a larger text. */
  predicate Delimited(r: Text) {
    r == [] || r[0] in {COMMA, CLOSE_BRACKET, CLOSE_BRACE}
  }

  function First(v: Json): Unit
    requires Valid(v)
  {
    match v
    case Null => 0x6e
    case Bool(b) => if b then 0x74 else 0x66
    case Num(t) => t[0]
    case Str(_) => QUOTE
    case Arr(_) => OPEN_BRACKET
    case Obj(_) => OPEN_BRACE
  }

  lemma FirstIsFirst(v: Json)
    requires Valid(v)
    ensures Stringify(v) != [] && Stringify(v)[0] == First(v)
    ensures First(v) !in {COMMA, CLOSE_BRACKET, CLOSE_BRACE}
  {
  }

  /** How far the number units reach. */
  function Span(x: Text): nat {
    if x == [] || !IsNumberUnit(x[0]) then 0 else 1 + Span(x[1..])
  }

  lemma {:induction false} SpanOfNumber(t: Text, r: Text)
    requires forall i :: 0 <= i < |t| ==> IsNumberUnit(t[i])
    requires Delimited(r)
    ensures Span(t + r) == |t|
  {
    if t == [] {
      assert t + r == r;
    } else {
      assert (t + r)[1..] == t[1..] + r;
      SpanOfNumber(t[1..], r);
    }
  }

  /** A number ends where the number units end. */
  lemma NumberUnique(t: Text, u: Text, r: Text, q: Text)
    requires IsNumberText(t) && IsNumberText(u) && Delimited(r) && Delimited(q)
    requires t + r == u + q
    ensures t == u && r == q
  {
    SpanOfNumber(t, r);
    SpanOfNumber(u, q);
    assert t == (t + r)[..|t|] && u == (u + q)[..|u|];
    SameHead(t, r, q);
  }

  lemma SameHead(h: Text, r: Text, q: Text)
    requires h + r == h + q
    ensures r == q
  {
    assert (h + r)[|h|..] == r && (h + q)[|h|..] == q;
  }

  // The printed texts, associated the way the induction reads them.

  lemma ArrText(items: seq<Json>, r: Text)
    ensures Stringify(Arr(items)) + r == [OPEN_BRACKET] + (Items(items) + ([CLOSE_BRACKET] + r))
  {
  }

  lemma ObjText(fields: seq<Field>, r: Text)
    ensures forall k :: k in Sort(Keys(fields)) <==> k in Keys(fields)
    ensures Stringify(Obj(fields)) + r ==
            [OPEN_BRACE] + (Members(fields, Sort(Keys(fields))) + ([CLOSE_BRACE] + r))
  {
    SortKeeps(Keys(fields));
  }

  lemma ItemsText(xs: seq<Json>, end: Text)
    ensures xs == [] ==> Items(xs) + end == end
    ensures xs != [] ==> Items(xs) + end == Stringify(xs[0]) + (ItemsTail(xs[1..]) + end)
  {
    if xs == [] {
      assert Items(xs) + end == end;
    }
  }

  lemma ItemsTailText(xs: seq<Json>, end: Text)
    ensures xs == [] ==> ItemsTail(xs) + end == end
    ensures xs != [] ==> ItemsTail(xs) + end == [COMMA] + (Items(xs) + end)
  {
    if xs == [] {
      assert ItemsTail(xs) + end == end;
    }
  }

  lemma MembersText(f: seq<Field>, ks: seq<Text>, end: Text)
    requires forall k :: k in ks ==> k in Keys(f)
    ensures ks == [] ==> Members(f, ks) + end == end
    ensures
      ks != [] ==>
        var rest := MembersTail(f, ks[1..]) + end;
        Members(f, ks) + end == Quote(ks[0]) + ([COLON] + (Stringify(f[IndexOf(f, ks[0])].value) + rest))
  {
    hide Quote, Stringify;
    if ks == [] {
      assert Members(f, ks) + end == end;
    }
  }

  lemma MembersTailText(f: seq<Field>, ks: seq<Text>, end: Text)
    requires forall k :: k in ks ==> k in Keys(f)
    ensures ks == [] ==> MembersTail(f, ks) + end == end
    ensures ks != [] ==> MembersTail(f, ks) + end == [COMMA] + (Members(f, ks) + end)
  {
    if ks == [] {
      assert MembersTail(f, ks) + end == end;
    }
  }

  /** The first unit of the text tells what kind of value follows. */
  lemma FirstAgrees(v: Json, w: Json, r: Text, q: Text)
    requires Valid(v) && Valid(w) && Stringify(v) + r == Stringify(w) + q
    ensures First(v) == First(w)
  {
    FirstIsFirst(v);
    FirstIsFirst(w);
    assert (Stringify(v) + r)[0] == First(v) && (Stringify(w) + q)[0] == First(w);
  }

  /** The text of a value tells the value and where it ends. */
  lemma {:induction false} ValueUnique(v: Json, w: Json, r: Text, q: Text)
    requires Valid(v) && Valid(w) && Delimited(r) && Delimited(q)
    requires Stringify(v) + r == Stringify(w) + q
    ensures Same(v, w) && r == q
    decreases v, 0
  {
    FirstAgrees(v, w, r, q);
    match v {
      case Arr(items) =>
        hide Stringify, Items;
        ArrText(items, r);
        ArrText(w.items, q);
        SameHead([OPEN_BRACKET], Items(items) + ([CLOSE_BRACKET] + r), Items(w.items) + ([CLOSE_BRACKET] + q));
        ItemsUnique(items, w.items, r, q);
      case Obj(fields) =>
        hide Stringify, Members, Sort;
        ObjText(fields, r);
        ObjText(w.fields, q);
        var ks, ls := Sort(Keys(fields)), Sort(Keys(w.fields));
        SameHead([OPEN_BRACE], Members(fields, ks) + ([CLOSE_BRACE] + r), Members(w.fields, ls) + ([CLOSE_BRACE] + q));
        MembersUnique(fields, ks, w.fields, ls, r, q);
      case Str(s) => QuoteUnique(s, w.s, r, q);
      case Num(t) => NumberUnique(t, w.text, r, q);
      case _ => SameHead(Stringify(v), r, q);
    }
  }

  lemma {:induction false} ItemsUnique(xs: seq<Json>, ys: seq<Json>, r: Text, q: Text)
    requires forall i :: 0 <= i < |xs| ==> Valid(xs[i])
    requires forall i :: 0 <= i < |ys| ==> Valid(ys[i])
    requires Items(xs) + ([CLOSE_BRACKET] + r) == Items(ys) + ([CLOSE_BRACKET] + q)
    ensures |xs| == |ys| && r == q
    ensures forall i :: 0 <= i < |xs| ==> Same(xs[i], ys[i])
    decreases xs, 1
  {
    hide Stringify, Items, ItemsTail, Same, Valid;
    var end, end' := [CLOSE_BRACKET] + r, [CLOSE_BRACKET] + q;
    ItemsText(xs, end);
    ItemsText(ys, end');
    if xs == [] || ys == [] {
      ItemsStart(xs, end);
      ItemsStart(ys, end');
      SameHead([CLOSE_BRACKET], r, q);
    } else {
      ItemsTailText(xs[1..], end);
      ItemsTailText(ys[1..], end');
      ValueUnique(xs[0], ys[0], ItemsTail(xs[1..]) + end, ItemsTail(ys[1..]) + end');
      if xs[1..] == [] || ys[1..] == [] {
        SameHead([CLOSE_BRACKET], r, q);
      } else {
        SameHead([COMMA], Items(xs[1..]) + end, Items(ys[1..]) + end');
        ItemsUnique(xs[1..], ys[1..], r, q);
      }
    }
  }

  /** An empty list of items starts with the bracket, any other with its first item. */
  lemma ItemsStart(xs: seq<Json>, end: Text)
    requires forall i :: 0 <= i < |xs| ==> Valid(xs[i])
    requires end != [] && end[0] == CLOSE_BRACKET
    ensures var x := Items(xs) + end; x != [] && (x[0] == CLOSE_BRACKET <==> xs == [])
  {
    hide Stringify, ItemsTail;
    ItemsText(xs, end);
    if xs != [] {
      FirstIsFirst(xs[0]);
    }
  }

  lemma {:induction false} MembersUnique(f: seq<Field>, ks: seq<Text>, g: seq<Field>, ls: seq<Text>, r: Text, q: Text)
    requires forall i :: 0 <= i < |f| ==> Valid(f[i].value)
    requires forall i :: 0 <= i < |g| ==> Valid(g[i].value)
    requires forall k :: k in ks ==> k in Keys(f)
    requires forall k :: k in ls ==> k in Keys(g)
    requires Members(f, ks) + ([CLOSE_BRACE] + r) == Members(g, ls) + ([CLOSE_BRACE] + q)
    ensures ks == ls && r == q
    ensures forall k :: k in ks ==> Same(f[IndexOf(f, k)].value, g[IndexOf(g, k)].value)
    decreases f, |ks| + 1
  {
    hide Stringify, Members, MembersTail, Same, Valid, Keys, Quote, IndexOf;
    var end, end' := [CLOSE_BRACE] + r, [CLOSE_BRACE] + q;
    MembersText(f, ks, end);
    MembersText(g, ls, end');
    if ks == [] || ls == [] {
      MembersStart(f, ks, end);
      MembersStart(g, ls, end');
      SameHead([CLOSE_BRACE], r, q);
    } else {
      MembersStep(f, ks, g, ls, end, end');
      MembersTailText(f, ks[1..], end);
      MembersTailText(g, ls[1..], end');
      var v, w := f[IndexOf(f, ks[0])].value, g[IndexOf(g, ls[0])].value;
      ValueUnique(v, w, MembersTail(f, ks[1..]) + end, MembersTail(g, ls[1..]) + end');
      if ks[1..] == [] || ls[1..] == [] {
        SameHead([CLOSE_BRACE], r, q);
      } else {
        SameHead([COMMA], Members(f, ks[1..]) + end, Members(g, ls[1..]) + end');
        MembersUnique(f, ks[1..], g, ls[1..], r, q);
      }
      assert ks == [ks[0]] + ks[1..] && ls == [ls[0]] + ls[1..];
    }
  }

  lemma MembersStart(f: seq<Field>, ks: seq<Text>, end: Text)
    requires forall k :: k in ks ==> k in Keys(f)
    requires end != [] && end[0] == CLOSE_BRACE
    ensures var x := Members(f, ks) + end; x != [] && (x[0] == CLOSE_BRACE <==> ks == [])
  {
    hide Stringify, MembersTail;
    MembersText(f, ks, end);
  }

  /** Equal texts of two non-empty member lists: the first keys agree, and so do the texts after the colon. */
  lemma MembersStep(f: seq<Field>, ks: seq<Text>, g: seq<Field>, ls: seq<Text>, end: Text, end': Text)
    requires forall k :: k in ks ==> k in Keys(f)
    requires forall k :: k in ls ==> k in Keys(g)
    requires ks != [] && ls != [] && Members(f, ks) + end == Members(g, ls) + end'
    ensures ks[0] == ls[0]
    ensures Stringify(f[IndexOf(f, ks[0])].value) + (MembersTail(f, ks[1..]) + end)
         == Stringify(g[IndexOf(g, ls[0])].value) + (MembersTail(g, ls[1..]) + end')
  {
    hide Stringify, Members, MembersTail, Quote, IndexOf, Keys;
    MembersText(f, ks, end);
    MembersText(g, ls, end');
    var x := Stringify(f[IndexOf(f, ks[0])].value) + (MembersTail(f, ks[1..]) + end);
    var y := Stringify(g[IndexOf(g, ls[0])].value) + (MembersTail(g, ls[1..]) + end');
    QuoteUnique(ks[0], ls[0], [COLON] + x, [COLON] + y);
    SameHead([COLON], x, y);
  }

  // ---------------------------------------------------------------- the value determines the text

  lemma {:induction false} SamePrintsSame(v: Json, w: Json)
    requires Valid(v) && Valid(w) && Same(v, w)
    ensures Stringify(v) == Stringify(w)
    decreases v, 0
  {
    match v
    case Arr(items) => SameItems(items, w.items);
    case Obj(fields) =>
      SortKeeps(Keys(fields));
      SortKeeps(Keys(w.fields));
      AscendingUnique(Sort(Keys(fields)), Sort(Keys(w.fields)));
      SameMembers(fields, w.fields, Sort(Keys(fields)));
    case _ =>
  }

  lemma {:induction false} SameItems(xs: seq<Json>, ys: seq<Json>)
    requires |xs| == |ys|
    requires forall i :: 0 <= i < |xs| ==> Valid(xs[i]) && Valid(ys[i]) && Same(xs[i], ys[i])
    ensures Items(xs) == Items(ys)
    decreases xs, 1
  {
    if xs != [] {
      SamePrintsSame(xs[0], ys[0]);
      SameItems(xs[1..], ys[1..]);
    }
  }

  lemma {:induction false} SameMembers(f: seq<Field>, g: seq<Field>, ks: seq<Text>)
    requires forall i :: 0 <= i < |f| ==> Valid(f[i].value)
    requires forall i :: 0 <= i < |g| ==> Valid(g[i].value)
    requires forall k :: k in ks ==> k in Keys(f) && k in Keys(g)
    requires forall k :: k in ks ==> Same(f[IndexOf(f, k)].value, g[IndexOf(g, k)].value)
    ensures Members(f, ks) == Members(g, ks)
    decreases f, |ks| + 1
  {
    if ks != [] {
      SamePrintsSame(f[IndexOf(f, ks[0])].value, g[IndexOf(g, ks[0])].value);
      SameMembers(f, g, ks[1..]);
    }
  }

  /** Two values print the same exactly when they are the same JSON, whatever the order of their keys. */
  lemma StringifyIsInjective(v: Json, w: Json)
    requires Valid(v) && Valid(w)
    ensures Stringify(v) == Stringify(w) <==> Same(v, w)
  {
    if Stringify(v) == Stringify(w) {
      ValueUnique(v, w, [], []);
    }
    if Same(v, w) {
      SamePrintsSame(v, w);
    }
  }
}
