// Wire.dfy: how integers and struct fields go through JSON.
module Wire {
  import opened Prelude
  import opened Decimal
  import opened Json

  predicate Int64(n: int) { -0x8000_0000_0000_0000 <= n <= 0x7fff_ffff_ffff_ffff }

  function IntDoc(n: int): Doc { Num(Format(n)) }

  // ---- decimal integers are JSON numbers ---------------------------------

  lemma {:induction false} RunStops(s: string, rest: string)
    requires AllDigits(s) && (rest == "" || !IsDigit(rest[0]))
    ensures DigitRun(s + rest) == |s|
  {
    if s == "" {
      assert s + rest == rest;
    } else {
      RunStops(s[1..], rest);
      assert (s + rest)[1..] == s[1..] + rest;
    }
  }

  lemma {:induction false} NoLeadingZero(n: nat)
    ensures Digits(n)[0] == '0' ==> |Digits(n)| == 1 && n == 0
  {
    if n >= 10 { NoLeadingZero(n / 10); }
  }

  lemma DigitsAreNumber(n: nat)
    ensures IsNumber(Digits(n)) && IsNumber("-" + Digits(n))
  {
    RunStops(Digits(n), "");
    assert Digits(n) + "" == Digits(n);
    NoLeadingZero(n);
    var s := Digits(n);
    assert forall i :: 0 <= i < |s| ==> IsDigit(s[i]) && NumberChar(s[i]);
    assert s[|s|..] == "" && ("-" + s)[1..] == s;
    assert forall i :: 0 <= i < |"-" + s| ==> NumberChar(("-" + s)[i]);
    assert s[0] != '-';
  }

  lemma FormatIsNumber(n: int)
    ensures IsNumber(Format(n))
  {
    if n < 0 { DigitsAreNumber(-n); } else { DigitsAreNumber(n); }
  }

  lemma IntDocOk(n: int)
    ensures WellFormed(IntDoc(n))
  {
    FormatIsNumber(n);
  }

  // ---- struct fields -----------------------------------------------------

  // A missing or null field keeps its zero value; any other kind is an error.
  function IntField(fields: map<string, Value>, key: string): Option<int> {
    if key !in fields || fields[key].NullValue? then Some(0)
    else if !fields[key].NumValue? then None
    else
      match Parse(fields[key].text)
      case Some(n) => if Int64(n) then Some(n) else None
      case None => None
  }

  function StrField(fields: map<string, Value>, key: string): Option<string> {
    if key !in fields || fields[key].NullValue? then Some("")
    else if fields[key].StrValue? then Some(fields[key].s)
    else None
  }

  function BoolField(fields: map<string, Value>, key: string): Option<bool> {
    if key !in fields || fields[key].NullValue? then Some(false)
    else if fields[key].BoolValue? then Some(fields[key].b)
    else None
  }

  // An optional field: nil when missing or null.
  function IntOrNil(fields: map<string, Value>, key: string): Option<Option<int>> {
    if key !in fields || fields[key].NullValue? then Some(None)
    else
      match IntField(fields, key)
      case Some(n) => Some(Some(n))
      case None => None
  }

  // The fields of a JSON object, read from its text; null reads as an empty object.
  function ObjectFields(text: string): Option<map<string, Value>> {
    match Read(text)
    case None => None
    case Some(d) =>
      match Decode(d)
      case ObjValue(fields) => Some(fields)
      case NullValue => Some(map[])
      case _ => None
  }

  lemma IntComesBack(fields: map<string, Value>, key: string, n: int)
    requires Int64(n) && key in fields && fields[key] == Decode(IntDoc(n))
    ensures IntField(fields, key) == Some(n)
  {
    ParseFormat(n);
  }

  lemma ReadObjectFields(text: string, fields: seq<Field>)
    requires Read(text) == Some(Obj(fields))
    ensures ObjectFields(text) == Some(DecodeFields(fields, map[]))
  {
  }

  lemma PrintedFields(fields: seq<Field>)
    requires forall i :: 0 <= i < |fields| ==> WellFormed(fields[i].value)
    ensures ObjectFields(Print(Obj(fields))) == Some(DecodeFields(fields, map[]))
  {
    var d := Obj(fields);
    ReadUndoesPrint(d);
    ReadObjectFields(Print(d), fields);
  }

  lemma FieldAt(fields: seq<Field>, k: nat, key: string, d: Doc)
    requires forall i, j :: 0 <= i < j < |fields| ==> fields[i].key != fields[j].key
    requires k < |fields| && fields[k] == Field(key, d)
    ensures var m := DecodeFields(fields, map[]); key in m && m[key] == Decode(d)
  {
    FieldsFound(fields, map[]);
  }

  // Fields with different keys are all found again.
  lemma {:induction false} FieldsFound(fields: seq<Field>, m: map<string, Value>)
    requires forall i, j :: 0 <= i < j < |fields| ==> fields[i].key != fields[j].key
    ensures forall i :: 0 <= i < |fields| ==>
      fields[i].key in DecodeFields(fields, m) && DecodeFields(fields, m)[fields[i].key] == Decode(fields[i].value)
    ensures forall k :: (forall i :: 0 <= i < |fields| ==> fields[i].key != k) ==>
      (k in DecodeFields(fields, m) <==> k in m) && (k in m ==> DecodeFields(fields, m)[k] == m[k])
    decreases |fields|
  {
    if fields != [] {
      var rest, next := fields[1..], m[fields[0].key := Decode(fields[0].value)];
      FieldsFound(rest, next);
      assert forall i :: 0 < i < |fields| ==> fields[i] == rest[i - 1];
      forall k | forall i :: 0 <= i < |fields| ==> fields[i].key != k
        ensures (k in DecodeFields(fields, m) <==> k in m) && (k in m ==> DecodeFields(fields, m)[k] == m[k])
      {
        assert forall i :: 0 <= i < |rest| ==> rest[i].key != k;
      }
      assert forall i :: 0 <= i < |rest| ==> rest[i].key != fields[0].key;
    }
  }

  lemma TwoFieldsReadBack(f: Field, g: Field)
    requires f.key != g.key && WellFormed(f.value) && WellFormed(g.value)
    ensures ObjectFields(Print(Obj([f, g]))) == Some(DecodeFields([f, g], map[]))
    ensures var m := DecodeFields([f, g], map[]);
      f.key in m && g.key in m && m[f.key] == Decode(f.value) && m[g.key] == Decode(g.value)
  {
    var fields := [f, g];
    PrintedFields(fields);
    FieldAt(fields, 0, f.key, f.value);
    FieldAt(fields, 1, g.key, g.value);
  }
}
