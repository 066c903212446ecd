// Canonical.dfy: the canonical form of a request body, whose hash identifies the
// request under an idempotency key.
module Canonical {
  import opened Prelude
  import opened Decimal
  import opened Json
  import opened Numeral
  import opened Wire

  // ---- sort.Strings ------------------------------------------------------

  predicate Leq(a: string, b: string) {
    a == "" || (b != "" && (a[0] < b[0] || (a[0] == b[0] && Leq(a[1..], b[1..]))))
  }

  lemma {:induction false} LeqTotal(a: string, b: string)
    ensures Leq(a, b) || Leq(b, a)
    ensures Leq(a, b) && Leq(b, a) ==> a == b
  {
    if a != "" && b != "" && a[0] == b[0] {
      LeqTotal(a[1..], b[1..]);
      assert a == [a[0]] + a[1..] && b == [b[0]] + b[1..];
    }
  }

  lemma {:induction false} LeqTransitive(a: string, b: string, c: string)
    requires Leq(a, b) && Leq(b, c)
    ensures Leq(a, c)
  {
    if a != "" && a[0] == b[0] && b[0] == c[0] {
      LeqTransitive(a[1..], b[1..], c[1..]);
    }
  }

  ghost predicate IsLeast(k: string, ks: set<string>) { k in ks && forall o :: o in ks ==> Leq(k, o) }

  lemma {:induction false} LeastExists(ks: set<string>)
    requires ks != {}
    ensures exists k :: IsLeast(k, ks)
  {
    var x :| x in ks;
    LeqTotal(x, x);
    if ks == {x} {
      assert IsLeast(x, ks);
    } else {
      LeastExists(ks - {x});
      var y :| IsLeast(y, ks - {x});
      LeqTotal(x, y);
      var k := if Leq(x, y) then x else y;
      forall o | o in ks
        ensures Leq(k, o)
      {
        if o != x && k == x { LeqTransitive(x, y, o); }
      }
      assert IsLeast(k, ks);
    }
  }

  ghost function Least(ks: set<string>): (k: string)
    requires ks != {}
    ensures IsLeast(k, ks)
  {
    LeastExists(ks);
    var k :| IsLeast(k, ks);
    k
  }

  ghost function SortedKeys(ks: set<string>): (keys: seq<string>)
    ensures forall k :: k in keys <==> k in ks
    ensures forall i, j :: 0 <= i < j < |keys| ==> keys[i] != keys[j] && Leq(keys[i], keys[j])
    decreases |ks|
  {
    if ks == {} then []
    else
      var k := Least(ks);
      var rest := SortedKeys(ks - {k});
      assert forall i :: 0 <= i < |rest| ==> rest[i] in rest;
      [k] + rest
  }

  // ---- sortKeys ----------------------------------------------------------

  ghost function SortKeys(v: Value): Doc
    decreases v, 1, 0
  {
    match v
    case NullValue => Null
    case BoolValue(b) => Bool(b)
    case NumValue(t) => Num(t)
    case StrValue(s) => Str(s)
    case ArrValue(items) => Arr(SortItems(items))
    case ObjValue(fields) => Obj(FieldsFor(v, SortedKeys(fields.Keys)))
  }

  ghost function SortItems(items: seq<Value>): seq<Doc>
    decreases items, 0, 0
  {
    if items == [] then [] else [SortKeys(items[0])] + SortItems(items[1..])
  }

  // The fields of an object in the order of the given keys.
  ghost function FieldsFor(v: Value, keys: seq<string>): seq<Field>
    requires v.ObjValue? && forall k :: k in keys ==> k in v.fields
    decreases v, 0, |keys|
  {
    if keys == [] then []
    else
      assert keys[0] in v.fields && forall k :: k in keys[1..] ==> k in keys;
      [Field(keys[0], SortKeys(v.fields[keys[0]]))] + FieldsFor(v, keys[1..])
  }

  // Sorting the keys loses nothing.
  lemma {:induction false} DecodeSorted(v: Value)
    ensures Decode(SortKeys(v)) == v
    decreases v, 1, 0
  {
    if v.ArrValue? {
      DecodeSortedItems(v.items);
    } else if v.ObjValue? {
      DecodeFieldsFor(v, SortedKeys(v.fields.Keys), map[]);
      AllFields(v.fields);
    }
  }

  lemma AllFields(m: map<string, Value>)
    ensures map[] + (map k | k in m && k in SortedKeys(m.Keys) :: m[k]) == m
  {
  }

  lemma {:induction false} DecodeSortedItems(items: seq<Value>)
    ensures DecodeItems(SortItems(items)) == items
    decreases items, 0, 0
  {
    if items != [] {
      DecodeSorted(items[0]);
      DecodeSortedItems(items[1..]);
      assert SortItems(items)[1..] == SortItems(items[1..]);
    }
  }

  lemma MergeOne(m: map<string, Value>, fields: map<string, Value>, keys: seq<string>)
    requires keys != [] && keys[0] in fields
    ensures m[keys[0] := fields[keys[0]]] + (map k | k in fields && k in keys[1..] :: fields[k])
         == m + (map k | k in fields && k in keys :: fields[k])
  {
    assert forall o :: o in keys <==> o == keys[0] || o in keys[1..];
  }

  lemma {:induction false} DecodeFieldsFor(v: Value, keys: seq<string>, m: map<string, Value>)
    requires v.ObjValue? && forall k :: k in keys ==> k in v.fields
    ensures DecodeFields(FieldsFor(v, keys), m) == m + (map k | k in v.fields && k in keys :: v.fields[k])
    decreases v, 0, |keys|
  {
    if keys != [] {
      var k := keys[0];
      assert k in v.fields && forall o :: o in keys[1..] ==> o in keys;
      DecodeSorted(v.fields[k]);
      DecodeFieldsFor(v, keys[1..], m[k := v.fields[k]]);
      assert FieldsFor(v, keys)[1..] == FieldsFor(v, keys[1..]);
      MergeOne(m, v.fields, keys);
    }
  }

  // ---- numerals ----------------------------------------------------------

  // Every number of the document fits a float64.
  predicate NumbersFit(fl: Floats, d: Doc)
    decreases d
  {
    match d
    case Num(t) => fl.Parse(t).Some?
    case Arr(items) => forall i :: 0 <= i < |items| ==> NumbersFit(fl, items[i])
    case Obj(fields) => forall i :: 0 <= i < |fields| ==> NumbersFit(fl, fields[i].value)
    case _ => true
  }

  // The document with every numeral as the encoder writes its float64.
  function Renumbered(fl: Floats, d: Doc): Doc
    decreases d
  {
    match d
    case Num(t) => Num(fl.Rewrite(t))
    case Arr(items) => Arr(seq(|items|, i requires 0 <= i < |items| => Renumbered(fl, items[i])))
    case Obj(fields) =>
      Obj(seq(|fields|, i requires 0 <= i < |fields| => Field(fields[i].key, Renumbered(fl, fields[i].value))))
    case _ => d
  }

  predicate WrittenDoc(fl: Floats, d: Doc)
    decreases d
  {
    match d
    case Num(t) => fl.Written(t)
    case Arr(items) => forall i :: 0 <= i < |items| ==> WrittenDoc(fl, items[i])
    case Obj(fields) => forall i :: 0 <= i < |fields| ==> WrittenDoc(fl, fields[i].value)
    case _ => true
  }

  ghost predicate WrittenValue(fl: Floats, v: Value)
    decreases v
  {
    match v
    case NumValue(t) => fl.Written(t)
    case ArrValue(items) => forall i :: 0 <= i < |items| ==> WrittenValue(fl, items[i])
    case ObjValue(fields) => forall k :: k in fields ==> WrittenValue(fl, fields[k])
    case _ => true
  }

  lemma {:induction false} RenumberedIsWritten(fl: Floats, d: Doc)
    requires Sound(fl) && NumbersFit(fl, d)
    ensures WrittenDoc(fl, Renumbered(fl, d))
    decreases d
  {
    match d
    case Num(t) => RewriteIsWritten(fl, t);
    case Arr(items) =>
      forall i | 0 <= i < |items| ensures WrittenDoc(fl, Renumbered(fl, items[i])) {
        RenumberedIsWritten(fl, items[i]);
      }
    case Obj(fields) =>
      forall i | 0 <= i < |fields| ensures WrittenDoc(fl, Renumbered(fl, fields[i].value)) {
        RenumberedIsWritten(fl, fields[i].value);
      }
    case _ =>
  }

  // A document written by the encoder is left as it is.
  lemma {:induction false} WrittenStays(fl: Floats, d: Doc)
    requires WrittenDoc(fl, d)
    ensures WellFormed(d) && NumbersFit(fl, d) && Renumbered(fl, d) == d
    decreases d
  {
    match d
    case Arr(items) =>
      forall i | 0 <= i < |items|
        ensures WellFormed(items[i]) && NumbersFit(fl, items[i]) && Renumbered(fl, items[i]) == items[i]
      {
        WrittenStays(fl, items[i]);
      }
      assert Renumbered(fl, d).items == items;
    case Obj(fields) =>
      forall i | 0 <= i < |fields|
        ensures WellFormed(fields[i].value) && NumbersFit(fl, fields[i].value)
        ensures Renumbered(fl, fields[i].value) == fields[i].value
      {
        WrittenStays(fl, fields[i].value);
      }
      assert Renumbered(fl, d).fields == fields;
    case _ =>
  }

  lemma {:induction false} DecodeWritten(fl: Floats, d: Doc)
    requires WrittenDoc(fl, d)
    ensures WrittenValue(fl, Decode(d))
    decreases d, 1
  {
    match d
    case Arr(items) => DecodeItemsWritten(fl, items);
    case Obj(fields) => DecodeFieldsWritten(fl, fields, map[]);
    case _ =>
  }

  lemma {:induction false} DecodeItemsWritten(fl: Floats, items: seq<Doc>)
    requires forall i :: 0 <= i < |items| ==> WrittenDoc(fl, items[i])
    ensures forall i :: 0 <= i < |items| ==> WrittenValue(fl, DecodeItems(items)[i])
    decreases items, 0
  {
    if items != [] {
      DecodeWritten(fl, items[0]);
      DecodeItemsWritten(fl, items[1..]);
      assert DecodeItems(items) == [Decode(items[0])] + DecodeItems(items[1..]);
    }
  }

  lemma {:induction false} DecodeFieldsWritten(fl: Floats, fields: seq<Field>, m: map<string, Value>)
    requires forall i :: 0 <= i < |fields| ==> WrittenDoc(fl, fields[i].value)
    requires forall k :: k in m ==> WrittenValue(fl, m[k])
    ensures forall k :: k in DecodeFields(fields, m) ==> WrittenValue(fl, DecodeFields(fields, m)[k])
    decreases fields, 0
  {
    if fields != [] {
      DecodeWritten(fl, fields[0].value);
      DecodeFieldsWritten(fl, fields[1..], m[fields[0].key := Decode(fields[0].value)]);
    }
  }

  lemma {:induction false} SortedWritten(fl: Floats, v: Value)
    requires WrittenValue(fl, v)
    ensures WrittenDoc(fl, SortKeys(v))
    decreases v, 1, 0
  {
    match v
    case ArrValue(items) => SortedItemsWritten(fl, items);
    case ObjValue(fields) => SortedFieldsWritten(fl, v, SortedKeys(fields.Keys));
    case _ =>
  }

  lemma {:induction false} SortedItemsWritten(fl: Floats, items: seq<Value>)
    requires forall i :: 0 <= i < |items| ==> WrittenValue(fl, items[i])
    ensures forall i :: 0 <= i < |SortItems(items)| ==> WrittenDoc(fl, SortItems(items)[i])
    decreases items, 0, 0
  {
    if items != [] {
      SortedWritten(fl, items[0]);
      SortedItemsWritten(fl, items[1..]);
    }
  }

  lemma {:induction false} SortedFieldsWritten(fl: Floats, v: Value, keys: seq<string>)
    requires v.ObjValue? && WrittenValue(fl, v) && forall k :: k in keys ==> k in v.fields
    ensures forall i :: 0 <= i < |FieldsFor(v, keys)| ==> WrittenDoc(fl, FieldsFor(v, keys)[i].value)
    decreases v, 0, |keys|
  {
    if keys != [] {
      assert keys[0] in v.fields && forall k :: k in keys[1..] ==> k in keys;
      SortedWritten(fl, v.fields[keys[0]]);
      SortedFieldsWritten(fl, v, keys[1..]);
    }
  }

  // ---- canonicaliseJSON --------------------------------------------------

  // What a document means.
  function Sense(fl: Floats, d: Doc): Value { Decode(Renumbered(fl, d)) }

  // What json.Unmarshal makes of a body: none when it is not JSON or holds a number
  // beyond float64.
  function Meaning(fl: Floats, body: string): Option<Value> {
    match Read(body)
    case None => None
    case Some(d) => if NumbersFit(fl, d) then Some(Sense(fl, d)) else None
  }

  // The bytes that are hashed: the sorted compact form of what the body means, or the
  // body itself.
  ghost function Canon(fl: Floats, body: string): string {
    match Meaning(fl, body)
    case Some(v) => Print(SortKeys(v))
    case None => body
  }

  // The canonical form means what the body means.
  lemma CanonKeepsMeaning(fl: Floats, body: string)
    requires Sound(fl)
    ensures Meaning(fl, Canon(fl, body)) == Meaning(fl, body)
  {
    if Meaning(fl, body).Some? {
      var d, v := Read(body).value, Meaning(fl, body).value;
      RenumberedIsWritten(fl, d);
      DecodeWritten(fl, Renumbered(fl, d));
      SortedWritten(fl, v);
      WrittenStays(fl, SortKeys(v));
      ReadUndoesPrint(SortKeys(v));
      DecodeSorted(v);
    }
  }

  // Canonicalising twice is canonicalising once.
  lemma CanonIdempotent(fl: Floats, body: string)
    requires Sound(fl)
    ensures Canon(fl, Canon(fl, body)) == Canon(fl, body)
  {
    CanonKeepsMeaning(fl, body);
  }

  // Two bodies are hashed over the same bytes exactly when they mean the same value
  // (so key order, repeated keys, space and the spelling of strings and numbers do not
  // matter and nothing else is ignored), or when neither means anything and they are
  // identical.
  lemma SameCanonIff(fl: Floats, a: string, b: string)
    requires Sound(fl)
    ensures Canon(fl, a) == Canon(fl, b) <==>
      Meaning(fl, a) == Meaning(fl, b) && (Meaning(fl, a).None? ==> a == b)
  {
    CanonKeepsMeaning(fl, a);
    CanonKeepsMeaning(fl, b);
  }

  // The same for documents written out.
  lemma SameCanonOfDocs(fl: Floats, d: Doc, e: Doc)
    requires Sound(fl) && WellFormed(d) && WellFormed(e)
    ensures Canon(fl, Print(d)) == Canon(fl, Print(e)) <==>
      if NumbersFit(fl, d) && NumbersFit(fl, e) then Sense(fl, d) == Sense(fl, e) else d == e
  {
    ReadUndoesPrint(d);
    ReadUndoesPrint(e);
    SameCanonIff(fl, Print(d), Print(e));
  }

  // A string escaped as a surrogate pair and the character itself are one body.
  lemma EscapesHashAlike(fl: Floats, c: char)
    requires c as int >= 0x1_0000
    ensures Canon(fl, "\"" + SurrogatePair(c) + "\"") == Canon(fl, Print(Str([c])))
  {
    ReadUndoesPrint(Str([c]));
    ReadEscapedPair(c);
  }

  lemma ReadEscapedPair(c: char)
    requires c as int >= 0x1_0000
    ensures Read("\"" + SurrogatePair(c) + "\"") == Some(Str([c]))
  {
    var body := SurrogatePair(c) + "\"";
    var text := "\"" + SurrogatePair(c) + "\"";
    ReadSurrogatePair(c, "\"");
    assert text[1..] == body;
    assert ReadString("\"") == Some(("", "")) by { assert "\""[1..] == ""; }
    assert [c] + "" == [c];
    assert ReadString(body) == Some(([c], ""));
    assert Skip(text) == text;
  }

  // ---- key order at any depth --------------------------------------------

  // One document becomes another by exchanging neighbouring fields with different
  // keys, inside any nesting of objects and arrays.
  datatype Move =
    | Exchange(at: nat)
    | InField(at: nat, move: Move)
    | InItem(at: nat, move: Move)

  predicate Applies(d: Doc, mv: Move)
    decreases mv
  {
    match mv
    case Exchange(k) => d.Obj? && k + 1 < |d.fields| && d.fields[k].key != d.fields[k + 1].key
    case InField(k, inner) => d.Obj? && k < |d.fields| && Applies(d.fields[k].value, inner)
    case InItem(k, inner) => d.Arr? && k < |d.items| && Applies(d.items[k], inner)
  }

  function Moved(d: Doc, mv: Move): Doc
    requires Applies(d, mv)
    decreases mv
  {
    match mv
    case Exchange(k) => Obj(d.fields[k := d.fields[k + 1]][k + 1 := d.fields[k]])
    case InField(k, inner) => Obj(d.fields[k := Field(d.fields[k].key, Moved(d.fields[k].value, inner))])
    case InItem(k, inner) => Arr(d.items[k := Moved(d.items[k], inner)])
  }

  lemma {:induction false} ExchangeKeepsFields(fields: seq<Field>, k: nat, m: map<string, Value>)
    requires k + 1 < |fields| && fields[k].key != fields[k + 1].key
    ensures DecodeFields(fields[k := fields[k + 1]][k + 1 := fields[k]], m) == DecodeFields(fields, m)
  {
    var after := fields[k := fields[k + 1]][k + 1 := fields[k]];
    if k == 0 {
      var f, g := fields[0], fields[1];
      assert after[1..][1..] == fields[1..][1..];
      assert m[f.key := Decode(f.value)][g.key := Decode(g.value)] ==
        m[g.key := Decode(g.value)][f.key := Decode(f.value)];
    } else {
      ExchangeKeepsFields(fields[1..], k - 1, m[fields[0].key := Decode(fields[0].value)]);
      assert after[1..] == fields[1..][k - 1 := fields[k + 1]][k := fields[k]];
    }
  }

  lemma {:induction false} FieldKeepsFields(fields: seq<Field>, k: nat, d: Doc, m: map<string, Value>)
    requires k < |fields| && Decode(d) == Decode(fields[k].value)
    ensures DecodeFields(fields[k := Field(fields[k].key, d)], m) == DecodeFields(fields, m)
  {
    var after := fields[k := Field(fields[k].key, d)];
    if k == 0 {
      assert after[1..] == fields[1..];
    } else {
      FieldKeepsFields(fields[1..], k - 1, d, m[fields[0].key := Decode(fields[0].value)]);
      assert after[1..] == fields[1..][k - 1 := Field(fields[k].key, d)];
    }
  }

  lemma {:induction false} ItemKeepsItems(items: seq<Doc>, k: nat, d: Doc)
    requires k < |items| && Decode(d) == Decode(items[k])
    ensures DecodeItems(items[k := d]) == DecodeItems(items)
  {
    if k == 0 {
      assert items[0 := d][1..] == items[1..];
    } else {
      ItemKeepsItems(items[1..], k - 1, d);
      assert items[k := d][1..] == items[1..][k - 1 := d];
    }
  }

  // No exchange of fields, at any depth, changes what the document means.
  lemma {:induction false} MoveKeepsValue(d: Doc, mv: Move)
    requires Applies(d, mv)
    ensures Decode(Moved(d, mv)) == Decode(d)
    decreases mv
  {
    match mv
    case Exchange(k) => ExchangeKeepsFields(d.fields, k, map[]);
    case InField(k, inner) =>
      MoveKeepsValue(d.fields[k].value, inner);
      FieldKeepsFields(d.fields, k, Moved(d.fields[k].value, inner), map[]);
    case InItem(k, inner) =>
      MoveKeepsValue(d.items[k], inner);
      ItemKeepsItems(d.items, k, Moved(d.items[k], inner));
  }

  lemma {:induction false} MoveKeepsWellFormed(d: Doc, mv: Move)
    requires Applies(d, mv) && WellFormed(d)
    ensures WellFormed(Moved(d, mv))
    decreases mv
  {
    match mv
    case Exchange(k) =>
    case InField(k, inner) => MoveKeepsWellFormed(d.fields[k].value, inner);
    case InItem(k, inner) => MoveKeepsWellFormed(d.items[k], inner);
  }

  lemma {:induction false} MoveKeepsNumbers(fl: Floats, d: Doc, mv: Move)
    requires Applies(d, mv)
    ensures NumbersFit(fl, Moved(d, mv)) <==> NumbersFit(fl, d)
    ensures Applies(Renumbered(fl, d), mv) && Renumbered(fl, Moved(d, mv)) == Moved(Renumbered(fl, d), mv)
    decreases mv
  {
    var r := Renumbered(fl, d);
    match mv
    case Exchange(k) =>
      ExchangeKeepsFit(fl, d.fields, k);
      ExchangeRenumbers(fl, d.fields, k);
    case InField(k, inner) =>
      MoveKeepsNumbers(fl, d.fields[k].value, inner);
      UpdateKeepsFit(fl, d, mv);
      FieldRenumbers(fl, d.fields, k, Moved(d.fields[k].value, inner));
    case InItem(k, inner) =>
      MoveKeepsNumbers(fl, d.items[k], inner);
      UpdateKeepsFit(fl, d, mv);
      ItemRenumbers(fl, d.items, k, Moved(d.items[k], inner));
  }

  lemma FieldRenumbers(fl: Floats, fields: seq<Field>, k: nat, d: Doc)
    requires k < |fields|
    ensures var key, r := fields[k].key, Renumbered(fl, Obj(fields)).fields;
      Renumbered(fl, Obj(fields[k := Field(key, d)])) == Obj(r[k := Field(key, Renumbered(fl, d))])
  {
    var after := fields[k := Field(fields[k].key, d)];
    var r := Renumbered(fl, Obj(fields)).fields;
    assert Renumbered(fl, Obj(after)).fields == r[k := Field(fields[k].key, Renumbered(fl, d))];
  }

  lemma ItemRenumbers(fl: Floats, items: seq<Doc>, k: nat, d: Doc)
    requires k < |items|
    ensures Renumbered(fl, Arr(items[k := d])) == Arr(Renumbered(fl, Arr(items)).items[k := Renumbered(fl, d)])
  {
    assert Renumbered(fl, Arr(items[k := d])).items == Renumbered(fl, Arr(items)).items[k := Renumbered(fl, d)];
  }

  lemma ExchangeRenumbers(fl: Floats, fields: seq<Field>, k: nat)
    requires k + 1 < |fields| && fields[k].key != fields[k + 1].key
    ensures var d := Obj(fields);
      && Applies(Renumbered(fl, d), Exchange(k))
      && Renumbered(fl, Moved(d, Exchange(k))) == Moved(Renumbered(fl, d), Exchange(k))
  {
    var d := Obj(fields);
    assert Renumbered(fl, Moved(d, Exchange(k))).fields == Moved(Renumbered(fl, d), Exchange(k)).fields;
  }

  lemma FitGoesOver(fl: Floats, fields: seq<Field>, after: seq<Field>, k: nat)
    requires k + 1 < |fields| && after == fields[k := fields[k + 1]][k + 1 := fields[k]]
    requires NumbersFit(fl, Obj(fields))
    ensures NumbersFit(fl, Obj(after))
  {
    forall i | 0 <= i < |after|
      ensures NumbersFit(fl, after[i].value)
    {
      assert after[i] == fields[if i == k then k + 1 else if i == k + 1 then k else i];
    }
  }

  lemma ExchangeKeepsFit(fl: Floats, fields: seq<Field>, k: nat)
    requires k + 1 < |fields|
    ensures NumbersFit(fl, Obj(fields[k := fields[k + 1]][k + 1 := fields[k]])) <==> NumbersFit(fl, Obj(fields))
  {
    var after := fields[k := fields[k + 1]][k + 1 := fields[k]];
    if NumbersFit(fl, Obj(fields)) { FitGoesOver(fl, fields, after, k); }
    if NumbersFit(fl, Obj(after)) {
      assert after[k := after[k + 1]][k + 1 := after[k]] == fields;
      FitGoesOver(fl, after, fields, k);
    }
  }

  lemma UpdateKeepsFit(fl: Floats, d: Doc, mv: Move)
    requires Applies(d, mv) && !mv.Exchange?
    requires mv.InField? ==>
      (NumbersFit(fl, Moved(d.fields[mv.at].value, mv.move)) <==> NumbersFit(fl, d.fields[mv.at].value))
    requires mv.InItem? ==> (NumbersFit(fl, Moved(d.items[mv.at], mv.move)) <==> NumbersFit(fl, d.items[mv.at]))
    ensures NumbersFit(fl, Moved(d, mv)) <==> NumbersFit(fl, d)
  {
    var after := Moved(d, mv);
    if mv.InField? {
      assert after.fields[mv.at].value == Moved(d.fields[mv.at].value, mv.move);
      assert forall i :: 0 <= i < |d.fields| && i != mv.at ==> after.fields[i] == d.fields[i];
    } else {
      assert after.items[mv.at] == Moved(d.items[mv.at], mv.move);
      assert forall i :: 0 <= i < |d.items| && i != mv.at ==> after.items[i] == d.items[i];
    }
  }

  lemma {:induction false} MoveMoves(d: Doc, mv: Move)
    requires Applies(d, mv)
    ensures Moved(d, mv) != d
    decreases mv
  {
    match mv
    case Exchange(k) => assert Moved(d, mv).fields[k] == d.fields[k + 1];
    case InField(k, inner) =>
      MoveMoves(d.fields[k].value, inner);
      assert Moved(d, mv).fields[k].value != d.fields[k].value;
    case InItem(k, inner) =>
      MoveMoves(d.items[k], inner);
      assert Moved(d, mv).items[k] != d.items[k];
  }

  // Key order at any depth does not reach the hash, exactly when every number fits; a
  // body with a number beyond float64 is hashed as it stands.
  lemma KeyOrderIsIgnored(fl: Floats, d: Doc, mv: Move)
    requires Sound(fl) && WellFormed(d) && Applies(d, mv)
    ensures Canon(fl, Print(Moved(d, mv))) == Canon(fl, Print(d)) <==> NumbersFit(fl, d)
  {
    MoveKeepsNumbers(fl, d, mv);
    MoveKeepsValue(Renumbered(fl, d), mv);
    MoveKeepsWellFormed(d, mv);
    MoveMoves(d, mv);
    SameCanonOfDocs(fl, Moved(d, mv), d);
  }

  // The failing case: a number beyond float64 under one of two keys, and the two orders
  // of the keys are hashed apart.
  lemma HugeNumberKeepsOrder(fl: Floats, key: string, t: string, other: Field)
    requires Sound(fl) && IsNumber(t) && fl.Parse(t).None? && WellFormed(other.value) && other.key != key
    ensures Canon(fl, Print(Obj([Field(key, Num(t)), other]))) != Canon(fl, Print(Obj([other, Field(key, Num(t))])))
  {
    var huge := Field(key, Num(t));
    SwappedTwo(huge, other);
    OneMisfit(fl, [huge, other], 0);
    WellFormedTwo(huge, other);
    KeyOrderIsIgnored(fl, Obj([huge, other]), Exchange(0));
  }

  lemma SwappedTwo(f: Field, g: Field)
    requires f.key != g.key
    ensures Applies(Obj([f, g]), Exchange(0)) && Moved(Obj([f, g]), Exchange(0)) == Obj([g, f])
  {
    assert [f, g][0 := g][1 := f] == [g, f];
  }

  lemma OneMisfit(fl: Floats, fields: seq<Field>, i: nat)
    requires i < |fields| && !NumbersFit(fl, fields[i].value)
    ensures !NumbersFit(fl, Obj(fields))
  {
  }

  lemma WellFormedTwo(f: Field, g: Field)
    requires WellFormed(f.value) && WellFormed(g.value)
    ensures WellFormed(Obj([f, g]))
  {
  }

  // ---- equality up to key order ------------------------------------------

  predicate DistinctFields(fields: seq<Field>) {
    forall i, j :: 0 <= i < j < |fields| ==> fields[i].key != fields[j].key
  }

  predicate NoRepeatedKeys(d: Doc)
    decreases d
  {
    match d
    case Arr(items) => forall i :: 0 <= i < |items| ==> NoRepeatedKeys(items[i])
    case Obj(fields) => DistinctFields(fields) && forall i :: 0 <= i < |fields| ==> NoRepeatedKeys(fields[i].value)
    case _ => true
  }

  function KeysOf(fields: seq<Field>): set<string> { set i | 0 <= i < |fields| :: fields[i].key }

  // The same document but for the spelling of its numbers and the order of the fields
  // of its objects: the same keys, and under each key the same value.
  predicate SameUpToOrder(fl: Floats, d: Doc, e: Doc)
    decreases d
  {
    match d
    case Num(t) => e.Num? && fl.Parse(t) == fl.Parse(e.text)
    case Arr(items) =>
      e.Arr? && |items| == |e.items| && forall i :: 0 <= i < |items| ==> SameUpToOrder(fl, items[i], e.items[i])
    case Obj(fields) =>
      && e.Obj?
      && KeysOf(fields) == KeysOf(e.fields)
      && (forall i, j :: 0 <= i < |fields| && 0 <= j < |e.fields| && fields[i].key == e.fields[j].key ==>
            SameUpToOrder(fl, fields[i].value, e.fields[j].value))
    case _ => d == e
  }

  lemma DecodedKeys(fields: seq<Field>)
    requires DistinctFields(fields)
    ensures DecodeFields(fields, map[]).Keys == KeysOf(fields)
  {
    FieldsFound(fields, map[]);
    var m := DecodeFields(fields, map[]);
    forall k | k in m
      ensures k in KeysOf(fields)
    {
      FieldOfKey(fields, k);
    }
  }

  lemma FieldOfKey(fields: seq<Field>, k: string)
    requires DistinctFields(fields) && k in DecodeFields(fields, map[])
    ensures exists i :: 0 <= i < |fields| && fields[i].key == k
  {
    FieldsFound(fields, map[]);
  }

  lemma FieldValue(fields: seq<Field>, i: nat)
    requires DistinctFields(fields) && i < |fields|
    ensures var m := DecodeFields(fields, map[]); fields[i].key in m && m[fields[i].key] == Decode(fields[i].value)
  {
    FieldsFound(fields, map[]);
  }

  // Under equal keys the values decode alike.
  predicate Paired(fields: seq<Field>, others: seq<Field>) {
    forall i, j :: 0 <= i < |fields| && 0 <= j < |others| && fields[i].key == others[j].key ==>
      Decode(fields[i].value) == Decode(others[j].value)
  }

  lemma SameMapPairs(fields: seq<Field>, others: seq<Field>)
    requires DistinctFields(fields) && DistinctFields(others)
    requires DecodeFields(fields, map[]) == DecodeFields(others, map[])
    ensures KeysOf(fields) == KeysOf(others) && Paired(fields, others)
  {
    DecodedKeys(fields);
    DecodedKeys(others);
    forall i, j | 0 <= i < |fields| && 0 <= j < |others| && fields[i].key == others[j].key
      ensures Decode(fields[i].value) == Decode(others[j].value)
    {
      FieldValue(fields, i);
      FieldValue(others, j);
    }
  }

  lemma PairsSameMap(fields: seq<Field>, others: seq<Field>)
    requires DistinctFields(fields) && DistinctFields(others)
    requires KeysOf(fields) == KeysOf(others) && Paired(fields, others)
    ensures DecodeFields(fields, map[]) == DecodeFields(others, map[])
  {
    DecodedKeys(fields);
    DecodedKeys(others);
    forall k | k in KeysOf(fields)
      ensures DecodeFields(others, map[])[k] == DecodeFields(fields, map[])[k]
    {
      FieldOfKey(fields, k);
      FieldOfKey(others, k);
      var i :| 0 <= i < |fields| && fields[i].key == k;
      var j :| 0 <= j < |others| && others[j].key == k;
      FieldValue(fields, i);
      FieldValue(others, j);
    }
    EqualMaps(DecodeFields(fields, map[]), DecodeFields(others, map[]));
  }

  lemma EqualMaps(m: map<string, Value>, n: map<string, Value>)
    requires m.Keys == n.Keys && forall k :: k in m.Keys ==> n[k] == m[k]
    ensures m == n
  {
  }

  lemma {:induction false} SameItems(items: seq<Doc>, others: seq<Doc>)
    requires |items| == |others|
    ensures DecodeItems(items) == DecodeItems(others) <==>
      forall i :: 0 <= i < |items| ==> Decode(items[i]) == Decode(others[i])
  {
    if items != [] {
      SameItems(items[1..], others[1..]);
      var a, b := DecodeItems(items), DecodeItems(others);
      assert a == [Decode(items[0])] + DecodeItems(items[1..]) && b == [Decode(others[0])] + DecodeItems(others[1..]);
      assert a == b <==> a[0] == b[0] && a[1..] == b[1..];
      assert forall i :: 1 <= i < |items| ==> items[i] == items[1..][i - 1] && others[i] == others[1..][i - 1];
    }
  }

  ghost predicate SensesAgree(fl: Floats, fields: seq<Field>, others: seq<Field>) {
    forall i, j :: 0 <= i < |fields| && 0 <= j < |others| ==>
      (Sense(fl, fields[i].value) == Sense(fl, others[j].value) <==>
       SameUpToOrder(fl, fields[i].value, others[j].value))
  }

  // Without repeated keys, meaning the same is being equal up to the order of keys and
  // the spelling of numbers.
  lemma {:induction false} SameValueIff(fl: Floats, d: Doc, e: Doc)
    requires Sound(fl) && NumbersFit(fl, d) && NumbersFit(fl, e) && NoRepeatedKeys(d) && NoRepeatedKeys(e)
    ensures Sense(fl, d) == Sense(fl, e) <==> SameUpToOrder(fl, d, e)
    decreases d
  {
    if d.Num? && e.Num? {
      SameRewriteIff(fl, d.text, e.text);
    } else if d.Arr? && e.Arr? {
      if |d.items| == |e.items| {
        forall i | 0 <= i < |d.items|
          ensures Sense(fl, d.items[i]) == Sense(fl, e.items[i]) <==> SameUpToOrder(fl, d.items[i], e.items[i])
        {
          SameValueIff(fl, d.items[i], e.items[i]);
        }
        SameArraysIff(fl, d.items, e.items);
      }
    } else if d.Obj? && e.Obj? {
      forall i, j | 0 <= i < |d.fields| && 0 <= j < |e.fields|
        ensures Sense(fl, d.fields[i].value) == Sense(fl, e.fields[j].value) <==>
          SameUpToOrder(fl, d.fields[i].value, e.fields[j].value)
      {
        SameValueIff(fl, d.fields[i].value, e.fields[j].value);
      }
      SameObjectsIff(fl, d.fields, e.fields);
    }
  }

  lemma SameArraysIff(fl: Floats, items: seq<Doc>, others: seq<Doc>)
    requires |items| == |others|
    requires forall i :: 0 <= i < |items| ==>
      (Sense(fl, items[i]) == Sense(fl, others[i]) <==> SameUpToOrder(fl, items[i], others[i]))
    ensures Sense(fl, Arr(items)) == Sense(fl, Arr(others)) <==> SameUpToOrder(fl, Arr(items), Arr(others))
  {
    var f, g := Renumbered(fl, Arr(items)).items, Renumbered(fl, Arr(others)).items;
    SameItems(f, g);
    if DecodeItems(f) == DecodeItems(g) {
      forall i | 0 <= i < |items|
        ensures SameUpToOrder(fl, items[i], others[i])
      {
        assert Decode(f[i]) == Decode(g[i]);
      }
    }
    if SameUpToOrder(fl, Arr(items), Arr(others)) {
      forall i | 0 <= i < |f|
        ensures Decode(f[i]) == Decode(g[i])
      {
        assert Sense(fl, items[i]) == Sense(fl, others[i]);
      }
    }
  }

  lemma RenumberedKeys(fl: Floats, fields: seq<Field>)
    ensures KeysOf(Renumbered(fl, Obj(fields)).fields) == KeysOf(fields)
  {
    var after := Renumbered(fl, Obj(fields)).fields;
    forall k | k in KeysOf(fields)
      ensures k in KeysOf(after)
    {
      var i :| 0 <= i < |fields| && fields[i].key == k;
      assert after[i].key == k;
    }
  }

  lemma SameObjectsIff(fl: Floats, fields: seq<Field>, others: seq<Field>)
    requires DistinctFields(fields) && DistinctFields(others) && SensesAgree(fl, fields, others)
    ensures Sense(fl, Obj(fields)) == Sense(fl, Obj(others)) <==> SameUpToOrder(fl, Obj(fields), Obj(others))
  {
    var f, g := Renumbered(fl, Obj(fields)).fields, Renumbered(fl, Obj(others)).fields;
    RenumberedKeys(fl, fields);
    RenumberedKeys(fl, others);
    if DecodeFields(f, map[]) == DecodeFields(g, map[]) {
      SameMapPairs(f, g);
      forall i, j | 0 <= i < |fields| && 0 <= j < |others| && fields[i].key == others[j].key
        ensures SameUpToOrder(fl, fields[i].value, others[j].value)
      {
        assert f[i].key == g[j].key;
      }
    }
    if SameUpToOrder(fl, Obj(fields), Obj(others)) {
      forall i, j | 0 <= i < |f| && 0 <= j < |g| && f[i].key == g[j].key
        ensures Decode(f[i].value) == Decode(g[j].value)
      {
        assert Sense(fl, fields[i].value) == Sense(fl, others[j].value);
      }
      PairsSameMap(f, g);
    }
  }

  // Two bodies whose numbers fit have the same canonical bytes exactly when they are
  // equal up to the order of keys at any depth and the spelling of numbers; otherwise
  // exactly when they are the same document.
  lemma SameCanonIffSameUpToOrder(fl: Floats, d: Doc, e: Doc)
    requires Sound(fl) && WellFormed(d) && WellFormed(e) && NoRepeatedKeys(d) && NoRepeatedKeys(e)
    ensures Canon(fl, Print(d)) == Canon(fl, Print(e)) <==>
      if NumbersFit(fl, d) && NumbersFit(fl, e) then SameUpToOrder(fl, d, e) else d == e
  {
    SameCanonOfDocs(fl, d, e);
    if NumbersFit(fl, d) && NumbersFit(fl, e) { SameValueIff(fl, d, e); }
  }

  // {"k":1} and {"k":1.0} are hashed over the same bytes, for every key, every natural
  // number and every number of zeros after the point.
  lemma SpellingsHashAlike(fl: Floats, key: string, n: nat, k: nat)
    requires Sound(fl) && k > 0 && fl.Parse(Digits(n)).Some?
    ensures Canon(fl, Print(Obj([Field(key, Num(Digits(n)))])))
         == Canon(fl, Print(Obj([Field(key, Num(Digits(n) + "." + Zeros(k)))])))
  {
    var d, e := Num(Digits(n)), Num(Digits(n) + "." + Zeros(k));
    DigitsAreNumber(n);
    PointZerosAreNumber(n, k);
    PointZerosRewriteAlike(fl, Digits(n), k);
    OneField(fl, key, d, e);
  }

  lemma OneFieldDoc(fl: Floats, f: Field)
    requires WellFormed(f.value) && NumbersFit(fl, f.value) && NoRepeatedKeys(f.value)
    ensures var d := Obj([f]); WellFormed(d) && NumbersFit(fl, d) && NoRepeatedKeys(d) && KeysOf(d.fields) == {f.key}
  {
    assert [f][0].key == f.key;
  }

  lemma OneFieldSame(fl: Floats, f: Field, g: Field)
    requires f.key == g.key && SameUpToOrder(fl, f.value, g.value)
    requires KeysOf([f]) == KeysOf([g])
    ensures SameUpToOrder(fl, Obj([f]), Obj([g]))
  {
  }

  lemma OneField(fl: Floats, key: string, d: Doc, e: Doc)
    requires Sound(fl) && d.Num? && e.Num? && WellFormed(d) && WellFormed(e)
    requires fl.Parse(d.text).Some? && fl.Parse(d.text) == fl.Parse(e.text)
    ensures Canon(fl, Print(Obj([Field(key, d)]))) == Canon(fl, Print(Obj([Field(key, e)])))
  {
    var f, g := Field(key, d), Field(key, e);
    OneFieldDoc(fl, f);
    OneFieldDoc(fl, g);
    OneFieldSame(fl, f, g);
    SameCanonIffSameUpToOrder(fl, Obj([f]), Obj([g]));
  }

  // ---- MarshalJSON -------------------------------------------------------

  lemma JoinMore(a: string, b: string, c: string)
    ensures a + "," + (b + "," + c) == a + "," + b + "," + c
  {
  }

  lemma {:induction false} PrintAppend(fields: seq<Field>, f: Field)
    requires fields != []
    ensures PrintFields(fields + [f]) == PrintFields(fields) + "," + PrintField(f)
  {
    var more, rest := fields + [f], fields[1..];
    assert more[1..] == rest + [f];
    if rest == [] {
      assert more[1..] == [f];
    } else {
      PrintAppend(rest, f);
      JoinMore(PrintField(fields[0]), PrintFields(rest), PrintField(f));
    }
  }

  lemma JoinField(before: string, key: string, value: string)
    ensures before + key + ":" + value == before + (key + ":" + value)
  {
  }

  lemma FieldsSoFar(fields: seq<Field>, i: nat)
    requires i < |fields|
    ensures PrintFields(fields[..i + 1]) ==
      if i == 0 then PrintField(fields[0]) else PrintFields(fields[..i]) + "," + PrintField(fields[i])
  {
    assert fields[..i + 1] == fields[..i] + [fields[i]];
    if i > 0 {
      PrintAppend(fields[..i], fields[i]);
    }
  }

  lemma OpenBrace(a: string, b: string)
    ensures "{" + a + "," + b == "{" + (a + "," + b)
    ensures "{" + "" + b == "{" + b
  {
  }

  // The hand-written encoder of an ordered object.
  method MarshalObject(fields: seq<Field>) returns (buf: string)
    ensures buf == Print(Obj(fields))
  {
    buf := "{";
    var i := 0;
    while i < |fields|
      invariant i <= |fields|
      invariant buf == "{" + PrintFields(fields[..i])
    {
      FieldsSoFar(fields, i);
      OpenBrace(PrintFields(fields[..i]), PrintField(fields[i]));
      if i > 0 {
        buf := buf + ",";
      }
      JoinField(buf, Quote(fields[i].key), Print(fields[i].value));
      buf := buf + Quote(fields[i].key);
      buf := buf + ":";
      buf := buf + Print(fields[i].value);
      i := i + 1;
    }
    assert fields[..i] == fields;
    buf := buf + "}";
  }
}
