/**
 The opaque cursor of a filtered list: an offset bound to a fingerprint of the filters, as base64url of
 UTF-8 JSON.  The UTF-8 coding is a parameter, of which only what it does to that text matters.
 */
module QueryCursor {
  import opened Wrappers
  import opened StableJson
  import Hex
  import Base64

  type Coding = Text -> seq<Hex.Byte>

  type Decoding = seq<Hex.Byte> -> Text

  datatype Error = InvalidCursor | QueryMismatch

  const EQUALS: Unit := 0x3d
  const MINUS: Unit := 0x2d
  const POINT: Unit := 0x2e
  const AMPERSAND: Unit := 0x26
  const OFFSET_KEY: Text := [0x6f]
  const QUERY_KEY: Text := [0x71]

  // ---------------------------------------------------------------- the fingerprint of the filters

  /** What a filter may be: a string, a flag, or labels in the order they were given. */
  predicate IsFilter(v: Json) {
    || v.Str? || v.Bool?
    || (v.Obj? && Valid(v) && forall i :: 0 <= i < |v.fields| ==> v.fields[i].value.Str?)
  }

  /** Filters by name; a name never has an equals sign. */
  predicate IsQuery(f: seq<Field>) {
    && (forall i, j :: 0 <= i < j < |f| ==> f[i].key != f[j].key)
    && (forall i :: 0 <= i < |f| ==> EQUALS !in f[i].key && IsFilter(f[i].value))
  }

  /** `JSON.stringify`, which keeps the order of the labels. */
  function Plain(v: Json): Text
    requires IsFilter(v)
  {
    if v.Obj? then
      [OPEN_BRACE] + Members(v.fields, Keys(v.fields)) + [CLOSE_BRACE]
    else Stringify(v)
  }

  lemma NamesAreClean(f: seq<Field>, k: Text)
    requires IsQuery(f) && k in Keys(f)
    ensures EQUALS !in k && IsFilter(Lookup(f, k))
  {
    assert f[IndexOf(f, k)].key == k;
  }

  function Joined(f: seq<Field>, ks: seq<Text>): Text
    requires IsQuery(f) && forall k :: k in ks ==> k in Keys(f)
    decreases |ks|, 0
  {
    if ks == [] then []
    else
      NamesAreClean(f, ks[0]);
      ks[0] + ([EQUALS] + (Plain(Lookup(f, ks[0])) + JoinedTail(f, ks[1..])))
  }

  function JoinedTail(f: seq<Field>, ks: seq<Text>): Text
    requires IsQuery(f) && forall k :: k in ks ==> k in Keys(f)
    decreases |ks|, 1
  {
    if ks == [] then [] else [AMPERSAND] + Joined(f, ks)
  }

  /** `stableQueryKey`. */
  function Fingerprint(f: seq<Field>): Text
    requires IsQuery(f)
  {
    SortKeeps(Keys(f));
    Joined(f, Sort(Keys(f)))
  }

  /** Text up to the first equals sign and text after it. */
  lemma {:induction false} NameUnique(a: Text, b: Text, r: Text, q: Text)
    requires EQUALS !in a && EQUALS !in b && a + ([EQUALS] + r) == b + ([EQUALS] + q)
    ensures a == b && r == q
  {
    var x, y := a + ([EQUALS] + r), b + ([EQUALS] + q);
    if a == [] || b == [] {
      assert x[|a|] == EQUALS && y[|b|] == EQUALS;
      assert a == [] <==> x[0] == EQUALS;
      assert b == [] <==> y[0] == EQUALS;
      assert x[1..] == r && y[1..] == q;
    } else {
      assert x[0] == a[0] && y[0] == b[0];
      assert x[1..] == a[1..] + ([EQUALS] + r) && y[1..] == b[1..] + ([EQUALS] + q);
      NameUnique(a[1..], b[1..], r, q);
      assert a == [a[0]] + a[1..] && b == [b[0]] + b[1..];
    }
  }

  lemma PlainText(v: Json, r: Text)
    requires IsFilter(v)
    ensures
      v.Obj? ==> Plain(v) + r == [OPEN_BRACE] + (Members(v.fields, Keys(v.fields)) + ([CLOSE_BRACE] + r))
    ensures Plain(v) != [] && (Plain(v) + r)[0] == First(v)
  {
    hide Members, Quote;
    if !v.Obj? {
      FirstIsFirst(v);
    }
  }

  lemma SameLabels(f: seq<Field>, g: seq<Field>)
    requires IsFilter(Obj(f)) && IsFilter(Obj(g)) && Keys(f) == Keys(g)
    requires forall k :: k in Keys(f) ==> Same(f[IndexOf(f, k)].value, g[IndexOf(g, k)].value)
    ensures f == g
  {
    assert |f| == |Keys(f)| == |Keys(g)| == |g|;
    forall i | 0 <= i < |f| ensures f[i] == g[i] {
      assert f[i].key == Keys(f)[i] == Keys(g)[i] == g[i].key;
      assert f[i].key in Keys(f);
      assert IndexOf(f, f[i].key) == i && IndexOf(g, f[i].key) == i;
    }
  }

  lemma PlainUnique(v: Json, w: Json, r: Text, q: Text)
    requires IsFilter(v) && IsFilter(w) && Plain(v) + r == Plain(w) + q
    ensures v == w && r == q
  {
    PlainText(v, r);
    PlainText(w, q);
    if v.Obj? {
      hide Members, Plain;
      assert w.Obj?;
      var f, g := v.fields, w.fields;
      SameHead([OPEN_BRACE], Members(f, Keys(f)) + ([CLOSE_BRACE] + r), Members(g, Keys(g)) + ([CLOSE_BRACE] + q));
      MembersUnique(f, Keys(f), g, Keys(g), r, q);
      SameLabels(f, g);
    } else if v.Str? {
      assert w.Str?;
      QuoteUnique(v.s, w.s, r, q);
    } else {
      assert v == w;
      SameHead(Stringify(v), r, q);
    }
  }

  lemma FirstNameUnique(f: seq<Field>, ks: seq<Text>, g: seq<Field>, ls: seq<Text>)
    requires IsQuery(f) && IsQuery(g) && ks != [] && ls != []
    requires (forall k :: k in ks ==> k in Keys(f)) && forall k :: k in ls ==> k in Keys(g)
    requires Joined(f, ks) == Joined(g, ls)
    ensures ks[0] == ls[0] && Lookup(f, ks[0]) == Lookup(g, ls[0])
    ensures JoinedTail(f, ks[1..]) == JoinedTail(g, ls[1..])
  {
    hide Plain, JoinedTail, Lookup, IsQuery;
    var v, w := Lookup(f, ks[0]), Lookup(g, ls[0]);
    NamesAreClean(f, ks[0]);
    NamesAreClean(g, ls[0]);
    var r, q := JoinedTail(f, ks[1..]), JoinedTail(g, ls[1..]);
    NameUnique(ks[0], ls[0], Plain(v) + r, Plain(w) + q);
    PlainUnique(v, w, r, q);
  }

  lemma {:induction false} JoinedUnique(f: seq<Field>, ks: seq<Text>, g: seq<Field>, ls: seq<Text>)
    requires IsQuery(f) && IsQuery(g)
    requires (forall k :: k in ks ==> k in Keys(f)) && forall k :: k in ls ==> k in Keys(g)
    requires Joined(f, ks) == Joined(g, ls)
    ensures ks == ls && forall k :: k in ks ==> Lookup(f, k) == Lookup(g, k)
    decreases |ks|
  {
    hide Plain, Lookup, IsQuery;
    if ks != [] && ls != [] {
      FirstNameUnique(f, ks, g, ls);
      if ks[1..] != [] && ls[1..] != [] {
        SameHead([AMPERSAND], Joined(f, ks[1..]), Joined(g, ls[1..]));
        JoinedUnique(f, ks[1..], g, ls[1..]);
      }
      assert ks == [ks[0]] + ks[1..] && ls == [ls[0]] + ls[1..];
    }
  }

  /** The same filters under the same names, in whichever order the names were set. */
  ghost predicate SameFilters(f: seq<Field>, g: seq<Field>) {
    && (forall k :: k in Keys(f) <==> k in Keys(g))
    && (forall k :: k in Keys(f) ==> Lookup(f, k) == Lookup(g, k))
  }

  lemma {:induction false} JoinedAgrees(f: seq<Field>, g: seq<Field>, ks: seq<Text>)
    requires IsQuery(f) && IsQuery(g) && SameFilters(f, g) && forall k :: k in ks ==> k in Keys(f)
    ensures Joined(f, ks) == Joined(g, ks)
    decreases |ks|
  {
    if ks != [] && ks[1..] != [] {
      JoinedAgrees(f, g, ks[1..]);
    }
  }

  /** Two queries have one fingerprint exactly when they filter by the same things. */
  lemma FingerprintTells(f: seq<Field>, g: seq<Field>)
    requires IsQuery(f) && IsQuery(g)
    ensures Fingerprint(f) == Fingerprint(g) <==> SameFilters(f, g)
  {
    hide Joined, Sort;
    SortKeeps(Keys(f));
    SortKeeps(Keys(g));
    var ks, ls := Sort(Keys(f)), Sort(Keys(g));
    if Fingerprint(f) == Fingerprint(g) {
      JoinedUnique(f, ks, g, ls);
    }
    if SameFilters(f, g) {
      KeysApart(f);
      KeysApart(g);
      AscendingUnique(ks, ls);
      JoinedAgrees(f, g, ks);
    }
  }

  lemma KeysApart(f: seq<Field>)
    requires IsQuery(f)
    ensures forall i, j :: 0 <= i < j < |Keys(f)| ==> Keys(f)[i] != Keys(f)[j]
  {
  }

  // ---------------------------------------------------------------- the cursor

  function Decimal(n: nat): (t: Text)
    ensures IsNumberText(t) && forall i :: 0 <= i < |t| ==> 0x30 <= t[i] <= 0x39
  {
    (if n < 10 then [] else Decimal(n / 10)) + [0x30 + n % 10]
  }

  function Number(t: Text): nat {
    if t == [] then 0
    else 10 * Number(t[..|t| - 1]) + if 0x30 <= t[|t| - 1] <= 0x39 then t[|t| - 1] - 0x30 else 0
  }

  lemma {:induction false} DecimalReads(n: nat)
    ensures Number(Decimal(n)) == n
  {
    hide IsNumberText;
    var t := Decimal(n);
    if n >= 10 {
      DecimalReads(n / 10);
      assert t[..|t| - 1] == Decimal(n / 10);
    } else {
      assert t[..|t| - 1] == [];
    }
  }

  function Payload(offset: nat, f: seq<Field>): Json
    requires IsQuery(f)
  {
    Obj([Field(OFFSET_KEY, Num(Decimal(offset))), Field(QUERY_KEY, Str(Fingerprint(f)))])
  }

  /** `JSON.parse` on printed text: some value that prints so. */
  ghost function Parsed(text: Text): Option<Json> {
    if exists v :: Valid(v) && Stringify(v) == text then
      var v :| Valid(v) && Stringify(v) == text;
      Some(v)
    else None
  }

  /** The digits before the point. */
  function Whole(t: Text): Text {
    if t == [] || t[0] == POINT then [] else [t[0]] + Whole(t[1..])
  }

  lemma {:induction false} DigitsAreWhole(t: Text)
    requires forall i :: 0 <= i < |t| ==> 0x30 <= t[i] <= 0x39
    ensures Whole(t) == t
  {
    if t != [] {
      DigitsAreWhole(t[1..]);
      assert t == [t[0]] + t[1..];
    }
  }

  /** What the fields of a parsed cursor come to under the filters `f`; a cursor may name no filters at all. */
  function Judged(fields: seq<Field>, f: seq<Field>): Result<nat, Error>
    requires IsQuery(f)
  {
    if OFFSET_KEY !in Keys(fields) || !Lookup(fields, OFFSET_KEY).Num? then Err(InvalidCursor)
    else
      var offset := Lookup(fields, OFFSET_KEY).text;
      if offset != [] && offset[0] == MINUS then Err(InvalidCursor)
      else if QUERY_KEY in Keys(fields) && Lookup(fields, QUERY_KEY) != Str(Fingerprint(f)) then Err(QueryMismatch)
      else if QUERY_KEY !in Keys(fields) && f != [] then Err(QueryMismatch)
      else Ok(Number(Whole(offset)))
  }

  ghost function DecodeQueryCursor(cursor: string, f: seq<Field>, back: Decoding): Result<nat, Error>
    requires IsQuery(f)
  {
    var bytes := Base64.Atob(Base64.Mapped(cursor) + Base64.Pads(Base64.Missing(|cursor|)));
    var decoded := if bytes.Some? then Parsed(back(bytes.value)) else None;
    if decoded.None? || !decoded.value.Obj? then Err(InvalidCursor) else Judged(decoded.value.fields, f)
  }

  /** Fields that mean the same are judged alike. */
  lemma SameIsJudgedAlike(v: Json, w: Json, f: seq<Field>)
    requires IsQuery(f) && v.Obj? && Same(v, w)
    ensures w.Obj? && Judged(v.fields, f) == Judged(w.fields, f)
  {
    hide Fingerprint, Number, Whole;
  }

  /** The cursor of any printed object is judged by its fields. */
  lemma PrintedObjectIsJudged(v: Json, f: seq<Field>, utf8: Coding, back: Decoding)
    requires IsQuery(f) && v.Obj? && Valid(v) && back(utf8(Stringify(v))) == Stringify(v)
    ensures DecodeQueryCursor(Base64.UrlText(Base64.Sextets(utf8(Stringify(v)))), f, back) == Judged(v.fields, f)
  {
    var text := Stringify(v);
    hide Stringify, Judged, Same, Valid, Base64.Sextets, Base64.UrlText, Base64.Atob;
    AtobReturns(utf8(text));
    var w := Parsed(text).value;
    StringifyIsInjective(w, v);
    if w.Obj? {
      SameIsJudgedAlike(w, v, f);
    } else {
      SameIsObject(w, v);
    }
  }

  lemma SameIsObject(v: Json, w: Json)
    requires Same(v, w) && w.Obj?
    ensures v.Obj?
  {
  }

  lemma PayloadLooksUp(offset: nat, f: seq<Field>)
    requires IsQuery(f)
    ensures Valid(Payload(offset, f))
    ensures
      var fields := Payload(offset, f).fields;
      && OFFSET_KEY in Keys(fields) && Lookup(fields, OFFSET_KEY) == Num(Decimal(offset))
      && QUERY_KEY in Keys(fields) && Lookup(fields, QUERY_KEY) == Str(Fingerprint(f))
  {
    var fields := Payload(offset, f).fields;
    assert Keys(fields)[0] == OFFSET_KEY && Keys(fields)[1] == QUERY_KEY;
    assert OFFSET_KEY[0] != QUERY_KEY[0];
    assert Keys(fields[1..])[0] == QUERY_KEY;
  }

  /**
   A cursor gives back its offset under the filters it was made for, and is refused under any others:
   a client that changes its filters midway restarts from the first page.
   */
  lemma CursorIsBound(offset: nat, f: seq<Field>, g: seq<Field>, utf8: Coding, back: Decoding)
    requires IsQuery(f) && IsQuery(g)
    requires back(utf8(Stringify(Payload(offset, f)))) == Stringify(Payload(offset, f))
    ensures
      DecodeQueryCursor(Base64.UrlText(Base64.Sextets(utf8(Stringify(Payload(offset, f))))), g, back)
      == if SameFilters(f, g) then Ok(offset) else Err(QueryMismatch)
  {
    hide Stringify, Fingerprint, SameFilters, Base64.Sextets, Base64.UrlText, Number, Whole, Decimal, Payload, Judged;
    PayloadLooksUp(offset, f);
    PayloadIsJudged(offset, f, g);
    PrintedObjectIsJudged(Payload(offset, f), g, utf8, back);
  }

  lemma PayloadIsJudged(offset: nat, f: seq<Field>, g: seq<Field>)
    requires IsQuery(f) && IsQuery(g)
    ensures Payload(offset, f).Obj?
    ensures Judged(Payload(offset, f).fields, g) == if SameFilters(f, g) then Ok(offset) else Err(QueryMismatch)
  {
    hide Fingerprint, SameFilters, Number, Whole;
    PayloadLooksUp(offset, f);
    FingerprintTells(f, g);
    DigitsAreWhole(Decimal(offset));
    DecimalReads(offset);
  }

  /** A cursor from before filters were bound: its offset holds while there are no filters, and under any it is refused. */
  lemma UnboundCursor(offset: nat, f: seq<Field>, utf8: Coding, back: Decoding)
    requires IsQuery(f)
    requires
      var text := Stringify(Obj([Field(OFFSET_KEY, Num(Decimal(offset)))]));
      back(utf8(text)) == text
    ensures
      DecodeQueryCursor(
        Base64.UrlText(Base64.Sextets(utf8(Stringify(Obj([Field(OFFSET_KEY, Num(Decimal(offset)))]))))), f, back)
      == if f == [] then Ok(offset) else Err(QueryMismatch)
  {
    var v := Obj([Field(OFFSET_KEY, Num(Decimal(offset)))]);
    hide Stringify, Fingerprint, Base64.Sextets, Base64.UrlText, Number, Whole, DecodeQueryCursor;
    assert Keys(v.fields) == [OFFSET_KEY] && OFFSET_KEY != QUERY_KEY;
    PrintedObjectIsJudged(v, f, utf8, back);
    DigitsAreWhole(Decimal(offset));
    DecimalReads(offset);
  }

  /** A negative offset is no cursor, under whatever filters it was made. */
  lemma NegativeOffsetIsInvalid(n: nat, q: Text, f: seq<Field>, utf8: Coding, back: Decoding)
    requires IsQuery(f)
    requires
      var text := Stringify(Obj([Field(OFFSET_KEY, Num([MINUS] + Decimal(n))), Field(QUERY_KEY, Str(q))]));
      back(utf8(text)) == text
    ensures
      DecodeQueryCursor(
        Base64.UrlText(Base64.Sextets(utf8(
          Stringify(Obj([Field(OFFSET_KEY, Num([MINUS] + Decimal(n))), Field(QUERY_KEY, Str(q))]))))), f, back)
      == Err(InvalidCursor)
  {
    var v := Obj([Field(OFFSET_KEY, Num([MINUS] + Decimal(n))), Field(QUERY_KEY, Str(q))]);
    hide Stringify, Fingerprint, Base64.Sextets, Base64.UrlText, Number, Whole, DecodeQueryCursor, Decimal;
    assert v.fields[0].key == OFFSET_KEY && v.fields[1].key == QUERY_KEY && OFFSET_KEY[0] != QUERY_KEY[0];
    assert Keys(v.fields)[0] == OFFSET_KEY;
    PrintedObjectIsJudged(v, f, utf8, back);
  }

  lemma AtobReturns(b: seq<Hex.Byte>)
    ensures
      var cursor := Base64.UrlText(Base64.Sextets(b));
      Base64.Atob(Base64.Mapped(cursor) + Base64.Pads(Base64.Missing(|cursor|))) == Some(b)
  {
    var s := Base64.Sextets(b);
    hide Base64.Sextets, Base64.Bytes, Base64.Atob, Base64.StdValues, Base64.StdChars, Base64.Pads;
    Base64.TextReturns(s);
    Base64.BytesOfSextets(b);
    if s != [] {
      Base64.AtobDecodes(Base64.StdChars(s));
    } else {
      AtobOfNothing();
    }
  }

  lemma AtobOfNothing()
    ensures Base64.Atob("" + Base64.Pads(Base64.Missing(0))) == Some([])
  {
    assert "" + Base64.Pads(0) == "";
  }

  /** Text with a character of neither alphabet, nor a pad, is no cursor, whatever the filters. */
  lemma ForeignTextIsInvalid(cursor: string, i: nat, f: seq<Field>, back: Decoding)
    requires IsQuery(f) && i < |cursor| && !Base64.IsUrlChar(cursor[i]) && cursor[i] !in "+/="
    ensures DecodeQueryCursor(cursor, f, back) == Err(InvalidCursor)
  {
    var n := Base64.Missing(|cursor|);
    var text := Base64.Mapped(cursor) + Base64.Pads(n);
    assert text[i] == cursor[i] && Base64.StdValue(text[i]) < 0 && text[i] != '=';
    ForeignStays(text, i);
    hide Base64.Mapped, Base64.Pads, Fingerprint, Base64.Bytes;
    assert Base64.Atob(text) == None;
  }

  lemma ForeignStays(text: string, i: nat)
    requires i < |text| && Base64.StdValue(text[i]) < 0 && text[i] != '='
    ensures !Base64.AllStd(Base64.Core(text))
  {
    hide Base64.StdValue;
    assert i < |Base64.Core(text)| && Base64.Core(text)[i] == text[i];
  }

  /** The cursor of an offset: its holder gets the offset back under these filters and under no others. */
  method EncodeQueryCursor(offset: nat, f: seq<Field>, utf8: Coding, ghost back: Decoding) returns (cursor: string)
    requires IsQuery(f) && back(utf8(Stringify(Payload(offset, f)))) == Stringify(Payload(offset, f))
    ensures
      forall g :: IsQuery(g) ==>
        DecodeQueryCursor(cursor, g, back) == if SameFilters(f, g) then Ok(offset) else Err(QueryMismatch)
    ensures forall i :: 0 <= i < |cursor| ==> Base64.IsUrlChar(cursor[i])
  {
    var bytes := utf8(Stringify(Payload(offset, f)));
    cursor := Base64.WorkerUrlEncode(bytes);
    hide Stringify, Fingerprint, SameFilters, Base64.Sextets, DecodeQueryCursor, IsQuery;
    forall g | IsQuery(g)
      ensures DecodeQueryCursor(cursor, g, back) == if SameFilters(f, g) then Ok(offset) else Err(QueryMismatch)
    {
      CursorIsBound(offset, f, g, utf8, back);
    }
    Base64.TextReturns(Base64.Sextets(bytes));
  }
}
