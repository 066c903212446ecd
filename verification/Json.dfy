// Json.dfy: JSON text as the standard encoder writes it and reads it back
// (RFC 8259). Text is a sequence of characters; numbers are kept as their text.
module Json {
  import opened Prelude

  // A document: object fields in textual order, repeated keys allowed.
  datatype Doc =
    | Null
    | Bool(b: bool)
    | Num(text: string)
    | Str(s: string)
    | Arr(items: seq<Doc>)
    | Obj(fields: seq<Field>)

  datatype Field = Field(key: string, value: Doc)

  // A decoded value: what json.Unmarshal makes of a document. Keys have no order.
  datatype Value =
    | NullValue
    | BoolValue(b: bool)
    | NumValue(text: string)
    | StrValue(s: string)
    | ArrValue(items: seq<Value>)
    | ObjValue(fields: map<string, Value>)

  // Decoding: the last of several fields with one key wins.
  function Decode(d: Doc): Value
    decreases d, 0
  {
    match d
    case Null => NullValue
    case Bool(b) => BoolValue(b)
    case Num(t) => NumValue(t)
    case Str(s) => StrValue(s)
    case Arr(items) => ArrValue(DecodeItems(items))
    case Obj(fields) => ObjValue(DecodeFields(fields, map[]))
  }

  function DecodeItems(items: seq<Doc>): (vs: seq<Value>)
    ensures |vs| == |items|
    decreases items, 0
  {
    if items == [] then [] else [Decode(items[0])] + DecodeItems(items[1..])
  }

  function DecodeFields(fields: seq<Field>, m: map<string, Value>): map<string, Value>
    decreases fields, 0
  {
    if fields == [] then m
    else DecodeFields(fields[1..], m[fields[0].key := Decode(fields[0].value)])
  }

  // ---- numbers -----------------------------------------------------------

  predicate NumberChar(c: char) { '0' <= c <= '9' || c in {'-', '+', '.', 'e', 'E'} }

  // The length of the run of characters at the start of s that may belong to a number.
  function NumberRun(s: string): (n: nat)
    ensures n <= |s| && forall i :: 0 <= i < n ==> NumberChar(s[i])
    ensures n < |s| ==> !NumberChar(s[n])
  {
    if s == "" || !NumberChar(s[0]) then 0
    else
      var n := NumberRun(s[1..]);
      assert forall i :: 1 <= i < n + 1 ==> s[i] == s[1..][i - 1];
      n + 1
  }

  function DigitRun(s: string): (n: nat)
    ensures n <= |s|
  {
    if s == "" || !('0' <= s[0] <= '9') then 0 else DigitRun(s[1..]) + 1
  }

  predicate IsExponent(s: string) {
    s == "" ||
    (s[0] in {'e', 'E'} &&
     var digits := if |s| > 1 && s[1] in {'+', '-'} then s[2..] else s[1..];
     digits != "" && DigitRun(digits) == |digits|)
  }

  predicate IsFraction(s: string) {
    if s != "" && s[0] == '.'
    then var n := DigitRun(s[1..]); n > 0 && IsExponent(s[1..][n..])
    else IsExponent(s)
  }

  // The number grammar of section 6 of RFC 8259.
  predicate IsNumber(s: string) {
    && (forall i :: 0 <= i < |s| ==> NumberChar(s[i]))
    && (var t := if s != "" && s[0] == '-' then s[1..] else s;
        var n := DigitRun(t);
        n > 0 && (t[0] == '0' ==> n == 1) && IsFraction(t[n..]))
  }

  predicate WellFormed(d: Doc)
    decreases d
  {
    match d
    case Num(t) => IsNumber(t)
    case Arr(items) => forall i :: 0 <= i < |items| ==> WellFormed(items[i])
    case Obj(fields) => forall i :: 0 <= i < |fields| ==> WellFormed(fields[i].value)
    case _ => true
  }

  // ---- strings -----------------------------------------------------------

  function HexDigit(n: int): (c: char)
    requires 0 <= n < 16
    ensures HexValue(c) == n
  {
    "0123456789abcdef"[n]
  }

  // -1 when the character is not a hexadecimal digit.
  function HexValue(c: char): (n: int)
    ensures -1 <= n < 16
  {
    if '0' <= c <= '9' then c as int - '0' as int
    else if 'a' <= c <= 'f' then c as int - 'a' as int + 10
    else if 'A' <= c <= 'F' then c as int - 'A' as int + 10
    else -1
  }

  function Hex4(n: int): (s: string)
    requires 0 <= n < 0x1_0000
    ensures |s| == 4
  {
    [HexDigit(n / 4096), HexDigit(n / 256 % 16), HexDigit(n / 16 % 16), HexDigit(n % 16)]
  }

  // The code unit written by four hexadecimal digits.
  function ReadHex4(s: string): (n: int)
    requires |s| >= 4
    ensures -1 <= n < 0x1_0000
  {
    if HexValue(s[0]) < 0 || HexValue(s[1]) < 0 || HexValue(s[2]) < 0 || HexValue(s[3]) < 0 then -1
    else HexValue(s[0]) * 4096 + HexValue(s[1]) * 256 + HexValue(s[2]) * 16 + HexValue(s[3])
  }

  // Characters the encoder writes as \uXXXX: control characters without a short
  // form, the three that are unsafe in HTML, and the two line separators.
  predicate NeedsHex(c: char) {
    c as int < 0x20 || c in {'<', '>', '&'} || c as int == 0x2028 || c as int == 0x2029
  }

  function EscapeChar(c: char): (s: string)
    ensures s != ""
  {
    if c == '"' then ['\\', '"']
    else if c == '\\' then ['\\', '\\']
    else if c == '\n' then ['\\', 'n']
    else if c == '\r' then ['\\', 'r']
    else if c == '\t' then ['\\', 't']
    else if c as int == 8 then ['\\', 'b']
    else if c as int == 12 then ['\\', 'f']
    else if NeedsHex(c) then ['\\', 'u'] + Hex4(c as int)
    else [c]
  }

  function Escape(s: string): string {
    if s == "" then "" else EscapeChar(s[0]) + Escape(s[1..])
  }

  function Quote(s: string): string { "\"" + Escape(s) + "\"" }

  predicate IsSurrogate(n: int) { 0xD800 <= n < 0xE000 }

  // The code unit of the \u escape at the start of s, or -1.
  function NextUnit(s: string): (n: int)
    ensures -1 <= n < 0x1_0000
    ensures n >= 0 ==> |s| >= 6 && s[0] == '\\' && s[1] == 'u'
  {
    if |s| >= 6 && s[0] == '\\' && s[1] == 'u' then ReadHex4(s[2..]) else -1
  }

  // Section 7 of RFC 8259: characters beyond the basic plane are escaped as a pair of
  // surrogates. A surrogate that is not part of a pair is read as U+FFFD.
  function ReadUnit(n: int, rest: string): (r: (char, string))
    requires 0 <= n < 0x1_0000
    ensures |r.1| <= |rest|
  {
    var low := NextUnit(rest);
    if !IsSurrogate(n) then (n as char, rest)
    else if n < 0xDC00 && 0xDC00 <= low < 0xE000 then
      ((0x1_0000 + (n - 0xD800) * 0x400 + (low - 0xDC00)) as char, rest[6..])
    else (0xFFFD as char, rest)
  }

  // One character of a string body and the rest of the text.
  function UnescapeChar(s: string): (r: Option<(char, string)>)
    ensures r.Some? ==> |r.value.1| < |s|
  {
    if s == "" || s[0] == '"' || s[0] as int < 0x20 then None
    else if s[0] != '\\' then Some((s[0], s[1..]))
    else if |s| < 2 then None
    else if s[1] in {'"', '\\', '/'} then Some((s[1], s[2..]))
    else if s[1] == 'n' then Some(('\n', s[2..]))
    else if s[1] == 'r' then Some(('\r', s[2..]))
    else if s[1] == 't' then Some(('\t', s[2..]))
    else if s[1] == 'b' then Some((8 as char, s[2..]))
    else if s[1] == 'f' then Some((12 as char, s[2..]))
    else if NextUnit(s) >= 0 then Some(ReadUnit(NextUnit(s), s[6..]))
    else None
  }

  // The string up to the closing quote, and the text after it.
  function ReadString(s: string): (r: Option<(string, string)>)
    ensures r.Some? ==> |r.value.1| < |s|
    decreases |s|
  {
    if s != "" && s[0] == '"' then Some(("", s[1..]))
    else
      match UnescapeChar(s)
      case None => None
      case Some((c, rest)) =>
        match ReadString(rest)
        case None => None
        case Some((tail, after)) => Some(([c] + tail, after))
  }

  lemma HexRoundTrip(n: int)
    requires 0 <= n < 0x1_0000
    ensures ReadHex4(Hex4(n)) == n
  {
    var a, b, c, d := n / 4096, n / 256 % 16, n / 16 % 16, n % 16;
    HexSplit(n);
    var s := Hex4(n);
    assert s[0] == HexDigit(a) && s[1] == HexDigit(b) && s[2] == HexDigit(c) && s[3] == HexDigit(d);
  }

  lemma HexSplit(n: int)
    ensures n == n / 4096 * 4096 + n / 256 % 16 * 256 + n / 16 % 16 * 16 + n % 16
  {
    assert n / 256 == n / 4096 * 16 + n / 256 % 16;
    assert n / 16 == n / 256 * 16 + n / 16 % 16;
  }

  // The escape of a character beyond the basic plane, as other encoders write it.
  function SurrogatePair(c: char): string
    requires c as int >= 0x1_0000
  {
    var n := c as int - 0x1_0000;
    ['\\', 'u'] + Hex4(0xD800 + n / 0x400) + ['\\', 'u'] + Hex4(0xDC00 + n % 0x400)
  }

  lemma UnitOf(n: int, rest: string)
    requires 0 <= n < 0x1_0000
    ensures NextUnit(['\\', 'u'] + Hex4(n) + rest) == n
    ensures (['\\', 'u'] + Hex4(n) + rest)[6..] == rest
  {
    var s := ['\\', 'u'] + Hex4(n) + rest;
    assert s[2..][0] == Hex4(n)[0] && s[2..][1] == Hex4(n)[1] && s[2..][2] == Hex4(n)[2] && s[2..][3] == Hex4(n)[3];
    HexRoundTrip(n);
  }

  lemma PairedUnits(s: string, high: int, low: int)
    requires 0xD800 <= high < 0xDC00 && 0xDC00 <= low < 0xE000
    requires NextUnit(s) == high && NextUnit(s[6..]) == low
    ensures UnescapeChar(s) == Some(((0x1_0000 + (high - 0xD800) * 0x400 + (low - 0xDC00)) as char, s[6..][6..]))
  {
  }

  lemma PairParts(high: int, low: int, rest: string)
    requires 0 <= high < 0x1_0000 && 0 <= low < 0x1_0000
    ensures var s := ['\\', 'u'] + Hex4(high) + ['\\', 'u'] + Hex4(low) + rest;
            NextUnit(s) == high && NextUnit(s[6..]) == low && s[6..][6..] == rest
  {
    PairSplits(high, low, rest);
    UnitOf(high, ['\\', 'u'] + Hex4(low) + rest);
    UnitOf(low, rest);
  }

  // A surrogate pair reads as the character it stands for.
  lemma ReadSurrogatePair(c: char, rest: string)
    requires c as int >= 0x1_0000
    ensures UnescapeChar(SurrogatePair(c) + rest) == Some((c, rest))
  {
    var n := c as int - 0x1_0000;
    PairValue(n);
    PairParts(0xD800 + n / 0x400, 0xDC00 + n % 0x400, rest);
    PairedUnits(SurrogatePair(c) + rest, 0xD800 + n / 0x400, 0xDC00 + n % 0x400);
  }

  lemma PairValue(n: int)
    requires 0 <= n < 0x10_0000
    ensures 0xD800 <= 0xD800 + n / 0x400 < 0xDC00 && 0xDC00 <= 0xDC00 + n % 0x400 < 0xE000
    ensures n / 0x400 * 0x400 + n % 0x400 == n
  {
  }

  lemma PairSplits(high: int, low: int, rest: string)
    requires 0 <= high < 0x1_0000 && 0 <= low < 0x1_0000
    ensures ['\\', 'u'] + Hex4(high) + ['\\', 'u'] + Hex4(low) + rest
         == ['\\', 'u'] + Hex4(high) + (['\\', 'u'] + Hex4(low) + rest)
  {
  }

  lemma UnescapeHex(c: char, rest: string)
    requires NeedsHex(c)
    ensures UnescapeChar(['\\', 'u'] + Hex4(c as int) + rest) == Some((c, rest))
  {
    var n, s := c as int, ['\\', 'u'] + Hex4(c as int) + rest;
    assert s[2..][0] == Hex4(n)[0] && s[2..][1] == Hex4(n)[1] && s[2..][2] == Hex4(n)[2] && s[2..][3] == Hex4(n)[3];
    HexRoundTrip(n);
    assert s[6..] == rest;
  }

  lemma UnescapeEscapeChar(c: char, rest: string)
    ensures UnescapeChar(EscapeChar(c) + rest) == Some((c, rest))
    ensures (EscapeChar(c) + rest)[0] != '"'
  {
    var s := EscapeChar(c) + rest;
    if NeedsHex(c) && s[1] == 'u' {
      UnescapeHex(c, rest);
    } else if s[0] == '\\' {
      assert s[2..] == rest;
    } else {
      assert s[1..] == rest;
    }
  }

  lemma EscapeSplits(head: string, tail: string, rest: string)
    ensures head + tail + "\"" + rest == head + (tail + "\"" + rest)
  {
  }

  lemma {:induction false} ReadEscaped(s: string, rest: string)
    ensures ReadString(Escape(s) + "\"" + rest) == Some((s, rest))
  {
    if s == "" {
      assert (Escape(s) + "\"" + rest)[1..] == rest;
    } else {
      var tail := Escape(s[1..]) + "\"" + rest;
      ReadEscaped(s[1..], rest);
      EscapeSplits(EscapeChar(s[0]), Escape(s[1..]), rest);
      UnescapeEscapeChar(s[0], tail);
      assert s == [s[0]] + s[1..];
    }
  }

  // ---- printing ----------------------------------------------------------

  function Print(d: Doc): string
    decreases d, 1
  {
    match d
    case Null => "null"
    case Bool(b) => if b then "true" else "false"
    case Num(t) => t
    case Str(s) => Quote(s)
    case Arr(items) => "[" + PrintItems(items) + "]"
    case Obj(fields) => "{" + PrintFields(fields) + "}"
  }

  function PrintItems(items: seq<Doc>): string
    decreases items, 0
  {
    if items == [] then ""
    else if |items| == 1 then Print(items[0])
    else Print(items[0]) + "," + PrintItems(items[1..])
  }

  function PrintField(f: Field): string
    decreases f, 0
  {
    Quote(f.key) + ":" + Print(f.value)
  }

  function PrintFields(fields: seq<Field>): string
    decreases fields, 0
  {
    if fields == [] then ""
    else if |fields| == 1 then PrintField(fields[0])
    else PrintField(fields[0]) + "," + PrintFields(fields[1..])
  }

  // ---- reading -----------------------------------------------------------

  predicate IsSpace(c: char) { c in {' ', '\t', '\n', '\r'} }

  function Skip(s: string): (t: string)
    ensures |t| <= |s|
  {
    if s != "" && IsSpace(s[0]) then Skip(s[1..]) else s
  }

  function ReadDoc(s: string): (r: Option<(Doc, string)>)
    ensures r.Some? ==> |r.value.1| < |s| && WellFormed(r.value.0)
    decreases |s|, 2
  {
    var t := Skip(s);
    if t == "" then None
    else if "null" <= t then Some((Null, t[4..]))
    else if "true" <= t then Some((Bool(true), t[4..]))
    else if "false" <= t then Some((Bool(false), t[5..]))
    else if t[0] == '"' then
      match ReadString(t[1..])
      case None => None
      case Some((text, rest)) => Some((Str(text), rest))
    else if t[0] == '[' then
      var u := Skip(t[1..]);
      if u != "" && u[0] == ']' then Some((Arr([]), u[1..]))
      else
        match ReadItems(t[1..])
        case None => None
        case Some((items, rest)) => Some((Arr(items), rest))
    else if t[0] == '{' then
      var u := Skip(t[1..]);
      if u != "" && u[0] == '}' then Some((Obj([]), u[1..]))
      else
        match ReadFields(t[1..])
        case None => None
        case Some((fields, rest)) => Some((Obj(fields), rest))
    else
      var n := NumberRun(t);
      if IsNumber(t[..n]) then Some((Num(t[..n]), t[n..])) else None
  }

  // Items up to and including the closing bracket.
  function ReadItems(s: string): (r: Option<(seq<Doc>, string)>)
    ensures r.Some? ==> |r.value.1| < |s| && forall i :: 0 <= i < |r.value.0| ==> WellFormed(r.value.0[i])
    decreases |s|, 3
  {
    match ReadDoc(s)
    case None => None
    case Some((d, rest)) =>
      var t := Skip(rest);
      if t != "" && t[0] == ']' then Some(([d], t[1..]))
      else if t != "" && t[0] == ',' then
        match ReadItems(t[1..])
        case None => None
        case Some((items, after)) => Some(([d] + items, after))
      else None
  }

  function ReadField(s: string): (r: Option<(Field, string)>)
    ensures r.Some? ==> |r.value.1| < |s| && WellFormed(r.value.0.value)
    decreases |s|, 3
  {
    var t := Skip(s);
    if t == "" || t[0] != '"' then None
    else
      match ReadString(t[1..])
      case None => None
      case Some((key, rest)) =>
        var u := Skip(rest);
        if u == "" || u[0] != ':' then None
        else
          match ReadDoc(u[1..])
          case None => None
          case Some((d, after)) => Some((Field(key, d), after))
  }

  // Fields up to and including the closing brace.
  function ReadFields(s: string): (r: Option<(seq<Field>, string)>)
    ensures r.Some? ==> |r.value.1| < |s| && forall i :: 0 <= i < |r.value.0| ==> WellFormed(r.value.0[i].value)
    decreases |s|, 4
  {
    match ReadField(s)
    case None => None
    case Some((f, rest)) =>
      var t := Skip(rest);
      if t != "" && t[0] == '}' then Some(([f], t[1..]))
      else if t != "" && t[0] == ',' then
        match ReadFields(t[1..])
        case None => None
        case Some((fields, after)) => Some(([f] + fields, after))
      else None
  }

  // A whole text: one document and nothing but space after it.
  function Read(s: string): (r: Option<Doc>)
    ensures r.Some? ==> WellFormed(r.value)
  {
    match ReadDoc(s)
    case None => None
    case Some((d, rest)) => if Skip(rest) == "" then Some(d) else None
  }

  // ---- reading undoes printing -------------------------------------------

  // Text that cannot continue a number.
  predicate Ends(rest: string) { rest == "" || !NumberChar(rest[0]) }

  lemma {:induction false} RunOfNumber(t: string, rest: string)
    requires (forall i :: 0 <= i < |t| ==> NumberChar(t[i])) && Ends(rest)
    ensures NumberRun(t + rest) == |t|
  {
    if t == "" {
      assert t + rest == rest;
    } else {
      RunOfNumber(t[1..], rest);
      assert (t + rest)[1..] == t[1..] + rest;
    }
  }

  // A printed document starts with a character that tells its kind.
  lemma PrintStart(d: Doc)
    requires WellFormed(d)
    ensures Print(d) != "" && !IsSpace(Print(d)[0]) && Print(d)[0] !in {']', '}', ',', ':'}
    ensures d.Num? ==> NumberChar(Print(d)[0]) && Print(d)[0] != 'e'
  {
  }

  lemma SkipNothing(s: string)
    requires s != "" && !IsSpace(s[0])
    ensures Skip(s) == s
  {
  }

  lemma NumberStart(t: string)
    requires IsNumber(t)
    ensures t != "" && (t[0] == '-' || '0' <= t[0] <= '9')
  {
  }

  lemma ReadNumber(t: string, rest: string)
    requires IsNumber(t) && Ends(rest)
    ensures ReadDoc(t + rest) == Some((Num(t), rest))
  {
    NumberStart(t);
    var s := t + rest;
    assert s[0] == t[0];
    SkipNothing(s);
    RunOfNumber(t, rest);
    assert s[..|t|] == t && s[|t|..] == rest;
  }

  lemma ReadStringDoc(text: string, rest: string)
    ensures ReadDoc(Quote(text) + rest) == Some((Str(text), rest))
  {
    var s := Quote(text) + rest;
    SkipNothing(s);
    assert s[1..] == Escape(text) + "\"" + rest;
    ReadEscaped(text, rest);
  }

  // Reading a printed document gives it back, whatever text follows.
  lemma {:induction false} ReadPrinted(d: Doc, rest: string)
    requires WellFormed(d) && Ends(rest)
    ensures ReadDoc(Print(d) + rest) == Some((d, rest))
    decreases d, 2
  {
    match d
    case Null => SkipNothing("null" + rest); assert ("null" + rest)[4..] == rest;
    case Bool(b) =>
      if b {
        SkipNothing("true" + rest);
        assert ("true" + rest)[4..] == rest;
      } else {
        SkipNothing("false" + rest);
        assert ("false" + rest)[5..] == rest;
      }
    case Num(t) => ReadNumber(t, rest);
    case Str(text) => ReadStringDoc(text, rest);
    case Arr(items) => ReadArray(d, items, rest);
    case Obj(fields) => ReadObject(d, fields, rest);
  }

  lemma {:induction false} ReadArray(d: Doc, items: seq<Doc>, rest: string)
    requires d == Arr(items) && WellFormed(d)
    ensures ReadDoc(Print(d) + rest) == Some((d, rest))
    decreases d, 1
  {
    var s := Print(d) + rest;
    SkipNothing(s);
    var body := PrintItems(items) + ("]" + rest);
    assert s[1..] == body;
    if items == [] {
      assert body == "]" + rest;
      SkipNothing(body);
      assert body[1..] == rest;
    } else {
      ReadPrintedItems(items, rest);
      ItemsStart(items);
      assert body[0] == PrintItems(items)[0];
      SkipNothing(body);
    }
  }

  lemma ItemsStart(items: seq<Doc>)
    requires items != [] && forall i :: 0 <= i < |items| ==> WellFormed(items[i])
    ensures PrintItems(items) != "" && !IsSpace(PrintItems(items)[0]) && PrintItems(items)[0] != ']'
  {
    PrintStart(items[0]);
  }

  lemma AfterItem(d: Doc, s: string, rest: string)
    requires ReadDoc(s) == Some((d, rest)) && rest != "" && !IsSpace(rest[0])
    ensures rest[0] == ']' ==> ReadItems(s) == Some(([d], rest[1..]))
    ensures rest[0] == ',' && ReadItems(rest[1..]).Some? ==>
      ReadItems(s) == Some(([d] + ReadItems(rest[1..]).value.0, ReadItems(rest[1..]).value.1))
  {
    SkipNothing(rest);
  }

  lemma {:induction false} LastItem(d: Doc, rest: string)
    requires WellFormed(d)
    ensures ReadItems(Print(d) + ("]" + rest)) == Some(([d], rest))
    decreases d, 4
  {
    ReadPrinted(d, "]" + rest);
    AfterItem(d, Print(d) + ("]" + rest), "]" + rest);
    assert ("]" + rest)[1..] == rest;
  }

  lemma {:induction false} NextItem(d: Doc, more: string)
    requires WellFormed(d) && ReadItems(more).Some?
    ensures ReadItems(Print(d) + ("," + more)) == Some(([d] + ReadItems(more).value.0, ReadItems(more).value.1))
    decreases d, 4
  {
    ReadPrinted(d, "," + more);
    AfterItem(d, Print(d) + ("," + more), "," + more);
    assert ("," + more)[1..] == more;
  }

  lemma PrintMoreItems(items: seq<Doc>, tail: string)
    requires |items| >= 2
    ensures PrintItems(items) + tail == Print(items[0]) + ("," + (PrintItems(items[1..]) + tail))
    ensures items == [items[0]] + items[1..]
  {
    Regroup(Print(items[0]), PrintItems(items[1..]), tail);
  }

  lemma {:induction false} ReadPrintedItems(items: seq<Doc>, rest: string)
    requires items != [] && forall i :: 0 <= i < |items| ==> WellFormed(items[i])
    ensures ReadItems(PrintItems(items) + ("]" + rest)) == Some((items, rest))
    decreases items, 3
  {
    if |items| == 1 {
      LastItem(items[0], rest);
      assert items == [items[0]];
    } else {
      ReadPrintedItems(items[1..], rest);
      NextItem(items[0], PrintItems(items[1..]) + ("]" + rest));
      PrintMoreItems(items, "]" + rest);
    }
  }

  lemma {:induction false} ReadObject(d: Doc, fields: seq<Field>, rest: string)
    requires d == Obj(fields) && WellFormed(d)
    ensures ReadDoc(Print(d) + rest) == Some((d, rest))
    decreases d, 1
  {
    var s := Print(d) + rest;
    SkipNothing(s);
    var body := PrintFields(fields) + ("}" + rest);
    assert s[1..] == body;
    if fields == [] {
      assert body == "}" + rest;
      SkipNothing(body);
      assert body[1..] == rest;
    } else {
      ReadPrintedFields(fields, rest);
      FieldsStart(fields);
      assert body[0] == PrintFields(fields)[0];
      SkipNothing(body);
    }
  }

  lemma ReadKey(key: string, after: string)
    requires after != "" && after[0] == ':'
    ensures ReadField(Quote(key) + after) ==
      match ReadDoc(after[1..])
      case None => None
      case Some((d, rest)) => Some((Field(key, d), rest))
  {
    var s := Quote(key) + after;
    SkipNothing(s);
    assert s[1..] == Escape(key) + "\"" + after;
    ReadEscaped(key, after);
    SkipNothing(after);
  }

  lemma {:induction false} ReadPrintedField(f: Field, rest: string)
    requires WellFormed(f.value) && Ends(rest)
    ensures ReadField(PrintField(f) + rest) == Some((f, rest))
    decreases f, 3
  {
    var after := ":" + (Print(f.value) + rest);
    assert PrintField(f) + rest == Quote(f.key) + after;
    ReadKey(f.key, after);
    assert after[1..] == Print(f.value) + rest;
    ReadPrinted(f.value, rest);
  }

  lemma AfterField(f: Field, s: string, rest: string)
    requires ReadField(s) == Some((f, rest)) && rest != "" && !IsSpace(rest[0])
    ensures rest[0] == '}' ==> ReadFields(s) == Some(([f], rest[1..]))
    ensures rest[0] == ',' && ReadFields(rest[1..]).Some? ==>
      ReadFields(s) == Some(([f] + ReadFields(rest[1..]).value.0, ReadFields(rest[1..]).value.1))
  {
    SkipNothing(rest);
  }

  lemma {:induction false} ReadPrintedFields(fields: seq<Field>, rest: string)
    requires fields != [] && forall i :: 0 <= i < |fields| ==> WellFormed(fields[i].value)
    ensures ReadFields(PrintFields(fields) + ("}" + rest)) == Some((fields, rest))
    decreases fields, 3
  {
    if |fields| == 1 {
      LastField(fields[0], rest);
      assert fields == [fields[0]];
    } else {
      ReadPrintedFields(fields[1..], rest);
      NextField(fields[0], PrintFields(fields[1..]) + ("}" + rest));
      PrintMoreFields(fields, "}" + rest);
    }
  }

  lemma PrintMoreFields(fields: seq<Field>, tail: string)
    requires |fields| >= 2
    ensures PrintFields(fields) + tail == PrintField(fields[0]) + ("," + (PrintFields(fields[1..]) + tail))
    ensures fields == [fields[0]] + fields[1..]
  {
    Regroup(PrintField(fields[0]), PrintFields(fields[1..]), tail);
  }

  lemma Regroup(a: string, b: string, tail: string)
    ensures a + "," + b + tail == a + ("," + (b + tail))
  {
  }

  lemma {:induction false} LastField(f: Field, rest: string)
    requires WellFormed(f.value)
    ensures ReadFields(PrintField(f) + ("}" + rest)) == Some(([f], rest))
    decreases f, 4
  {
    ReadPrintedField(f, "}" + rest);
    AfterField(f, PrintField(f) + ("}" + rest), "}" + rest);
    assert ("}" + rest)[1..] == rest;
  }

  lemma {:induction false} NextField(f: Field, more: string)
    requires WellFormed(f.value) && ReadFields(more).Some?
    ensures ReadFields(PrintField(f) + ("," + more)) == Some(([f] + ReadFields(more).value.0, ReadFields(more).value.1))
    decreases f, 4
  {
    ReadPrintedField(f, "," + more);
    AfterField(f, PrintField(f) + ("," + more), "," + more);
    assert ("," + more)[1..] == more;
  }

  lemma FieldsStart(fields: seq<Field>)
    requires fields != []
    ensures PrintFields(fields) != "" && PrintFields(fields)[0] == '"'
  {
    assert PrintField(fields[0])[0] == '"';
  }

  // The round trip on whole texts; so two documents print alike only if they are equal.
  lemma ReadUndoesPrint(d: Doc)
    requires WellFormed(d)
    ensures Read(Print(d)) == Some(d)
  {
    ReadPrinted(d, "");
    assert Print(d) + "" == Print(d);
  }

  lemma {:induction false} SkipsAllIff(s: string)
    ensures Skip(s) == "" <==> forall i :: 0 <= i < |s| ==> s[i] in " \t\n\r"
  {
    if s != "" && IsSpace(s[0]) {
      SkipsAllIff(s[1..]);
    }
  }

  // After a document only white space may follow.
  lemma TrailerIff(d: Doc, tail: string)
    requires WellFormed(d) && Ends(tail)
    ensures Read(Print(d) + tail) ==
      if forall i :: 0 <= i < |tail| ==> tail[i] in " \t\n\r" then Some(d) else None
  {
    ReadPrinted(d, tail);
    SkipsAllIff(tail);
  }

  lemma {:induction false} RunIsWhole(digits: string)
    requires forall i :: 0 <= i < |digits| ==> '0' <= digits[i] <= '9'
    ensures DigitRun(digits) == |digits|
  {
    if digits != "" {
      RunIsWhole(digits[1..]);
    }
  }

  // A run of digits, with or without a minus, is a number unless a zero leads others.
  lemma IntegerIff(digits: string)
    requires digits != "" && forall i :: 0 <= i < |digits| ==> '0' <= digits[i] <= '9'
    ensures IsNumber(digits) <==> digits[0] != '0' || |digits| == 1
    ensures IsNumber("-" + digits) <==> digits[0] != '0' || |digits| == 1
  {
    RunIsWhole(digits);
    assert ("-" + digits)[1..] == digits;
  }
}
