// Cursor.dfy: the opaque list cursor, a base64url-encoded JSON object of a timestamp
// and an id.
module Cursor {
  import opened Prelude
  import B64 = Base64
  import opened Decimal
  import opened Json
  import opened Wire

  // ---- RFC 3339 instants in UTC ------------------------------------------

  datatype Stamp = Stamp(year: nat, month: nat, day: nat, hour: nat, minute: nat, second: nat, nanos: nat)

  predicate Leap(y: nat) { y % 4 == 0 && (y % 100 != 0 || y % 400 == 0) }

  function DaysIn(y: nat, m: nat): nat {
    if m == 2 then (if Leap(y) then 29 else 28)
    else if m in {4, 6, 9, 11} then 30 else 31
  }

  predicate InRange(t: Stamp) {
    && t.year <= 9999 && 1 <= t.month <= 12 && 1 <= t.day <= DaysIn(t.year, t.month)
    && t.hour < 24 && t.minute < 60 && t.second < 60 && t.nanos < 1_000_000_000
  }

  // n in exactly w digits.
  function Pad(n: nat, w: nat): (s: string)
    ensures |s| == w && AllDigits(s)
  {
    if w == 0 then "" else Pad(n / 10, w - 1) + [DigitChar(n % 10)]
  }

  function Power10(w: nat): (p: nat)
    ensures p > 0
  {
    if w == 0 then 1 else 10 * Power10(w - 1)
  }

  lemma {:induction false} ValueOfPad(n: nat, w: nat)
    requires n < Power10(w)
    ensures Decimal.Value(Pad(n, w)) == n
  {
    if w > 0 {
      ValueOfPad(n / 10, w - 1);
      assert Pad(n, w)[..w - 1] == Pad(n / 10, w - 1);
    }
  }

  // The fraction without its trailing zeros.
  function Trim(s: string): (t: string)
    ensures |t| <= |s| && t <= s
    ensures forall i :: |t| <= i < |s| ==> s[i] == '0'
  {
    if s != "" && s[|s| - 1] == '0' then Trim(s[..|s| - 1]) else s
  }

  function Fraction(nanos: nat): string {
    var t := Trim(Pad(nanos, 9));
    if t == "" then "" else "." + t
  }

  function FormatTime(t: Stamp): string {
    Pad(t.year, 4) + ("-" + (Pad(t.month, 2) + ("-" + (Pad(t.day, 2) + ("T" + (Pad(t.hour, 2) +
      (":" + (Pad(t.minute, 2) + (":" + (Pad(t.second, 2) + (Fraction(t.nanos) + "Z")))))))))))
  }

  // ---- reading -----------------------------------------------------------

  // w digits at the start of s, and the rest.
  function TakeDigits(s: string, w: nat): Option<(nat, string)> {
    if |s| < w || !AllDigits(s[..w]) then None else Some((Decimal.Value(s[..w]), s[w..]))
  }

  function Expect(s: string, c: char): Option<string> {
    if s != "" && s[0] == c then Some(s[1..]) else None
  }

  // w digits followed by the character c.
  function TakeField(s: string, w: nat, c: char): Option<(nat, string)> {
    match TakeDigits(s, w)
    case None => None
    case Some((n, rest)) =>
      match Expect(rest, c)
      case None => None
      case Some(after) => Some((n, after))
  }

  // The first nine digits after the point count; a missing fraction is zero.
  function TakeFraction(s: string): Option<(nat, string)> {
    if s == "" || s[0] !in {'.', ','} then Some((0, s))
    else
      var n := DigitRun(s[1..]);
      if n == 0 || !AllDigits(s[1..][..n]) then None
      else Some((Decimal.Value((s[1..][..n] + Zeros(9))[..9]), s[1..][n..]))
  }

  function ParseClock(s: string): Option<((nat, nat, nat, nat), string)> {
    match TakeField(s, 2, ':')
    case None => None
    case Some((hour, s1)) =>
      match TakeField(s1, 2, ':')
      case None => None
      case Some((minute, s2)) =>
        match TakeDigits(s2, 2)
        case None => None
        case Some((second, s3)) =>
          match TakeFraction(s3)
          case None => None
          case Some((nanos, s4)) => Some(((hour, minute, second, nanos), s4))
  }

  function ParseDate(s: string): Option<((nat, nat, nat), string)> {
    match TakeField(s, 4, '-')
    case None => None
    case Some((year, s1)) =>
      match TakeField(s1, 2, '-')
      case None => None
      case Some((month, s2)) =>
        match TakeField(s2, 2, 'T')
        case None => None
        case Some((day, s3)) => Some(((year, month, day), s3))
  }

  function ParseTime(s: string): Option<Stamp> {
    match ParseDate(s)
    case None => None
    case Some((d, rest)) =>
      match ParseClock(rest)
      case None => None
      case Some((c, zone)) =>
        var t := Stamp(d.0, d.1, d.2, c.0, c.1, c.2, c.3);
        if zone == "Z" && InRange(t) then Some(t) else None
  }

  // ---- reading undoes writing --------------------------------------------

  lemma TakePad(n: nat, w: nat, rest: string)
    requires n < Power10(w)
    ensures TakeDigits(Pad(n, w) + rest, w) == Some((n, rest))
  {
    ValueOfPad(n, w);
    assert (Pad(n, w) + rest)[..w] == Pad(n, w) && (Pad(n, w) + rest)[w..] == rest;
  }

  lemma TakePadField(n: nat, w: nat, c: char, rest: string)
    requires n < Power10(w)
    ensures TakeField(Pad(n, w) + ([c] + rest), w, c) == Some((n, rest))
  {
    TakePad(n, w, [c] + rest);
  }

  lemma TrimmedDigits(nanos: nat)
    ensures AllDigits(Trim(Pad(nanos, 9)))
    ensures (Trim(Pad(nanos, 9)) + Zeros(9))[..9] == Pad(nanos, 9)
  {
    var s, t := Pad(nanos, 9), Trim(Pad(nanos, 9));
    assert t == s[..|t|];
    forall i | 0 <= i < 9
      ensures (t + Zeros(9))[..9][i] == s[i]
    {
    }
  }

  lemma Powers()
    ensures Power10(2) == 100 && Power10(4) == 10_000 && Power10(9) == 1_000_000_000
  {
    assert Power10(3) == 1_000;
    assert Power10(6) == 1_000_000;
  }

  lemma TakeWrittenFraction(nanos: nat)
    requires nanos < 1_000_000_000
    ensures TakeFraction(Fraction(nanos) + "Z") == Some((nanos, "Z"))
  {
    Powers();
    ValueOfPad(nanos, 9);
    TrimmedDigits(nanos);
    var t := Trim(Pad(nanos, 9));
    if t == "" {
      assert Fraction(nanos) + "Z" == "Z";
      ZerosAreZero(9);
      assert (t + Zeros(9))[..9] == Zeros(9);
    } else {
      assert Fraction(nanos) + "Z" == "." + t + "Z";
      TakeDigitsAfterPoint(t, nanos);
    }
  }

  lemma TakeDigitsAfterPoint(t: string, nanos: nat)
    requires t != "" && AllDigits(t) && AllDigits((t + Zeros(9))[..9]) && Decimal.Value((t + Zeros(9))[..9]) == nanos
    ensures TakeFraction("." + t + "Z") == Some((nanos, "Z"))
  {
    var s := "." + t + "Z";
    assert s[1..] == t + "Z";
    RunStops(t, "Z");
    assert s[1..][..|t|] == t && s[1..][|t|..] == "Z";
  }

  lemma {:induction false} ZerosAreZero(n: nat)
    ensures AllDigits(Zeros(n)) && Decimal.Value(Zeros(n)) == 0
  {
    if n > 0 {
      ZerosAreZero(n - 1);
      assert Zeros(n)[..n - 1] == Zeros(n - 1);
    }
  }

  lemma ClockComesBack(t: Stamp)
    requires InRange(t)
    ensures ParseClock(
      Pad(t.hour, 2) + (":" + (Pad(t.minute, 2) + (":" + (Pad(t.second, 2) + (Fraction(t.nanos) + "Z"))))))
         == Some(((t.hour, t.minute, t.second, t.nanos), "Z"))
  {
    Powers();
    var s3 := Fraction(t.nanos) + "Z";
    var s2 := Pad(t.second, 2) + s3;
    var s1 := Pad(t.minute, 2) + (":" + s2);
    TakePadField(t.hour, 2, ':', s1);
    TakePadField(t.minute, 2, ':', s2);
    TakePad(t.second, 2, s3);
    TakeWrittenFraction(t.nanos);
  }

  lemma DateComesBack(year: nat, month: nat, day: nat, rest: string)
    requires year <= 9999 && month <= 12 && day <= 31
    ensures ParseDate(Pad(year, 4) + ("-" + (Pad(month, 2) + ("-" + (Pad(day, 2) + ("T" + rest))))))
         == Some(((year, month, day), rest))
  {
    Powers();
    var s2 := Pad(day, 2) + ("T" + rest);
    var s1 := Pad(month, 2) + ("-" + s2);
    TakePadField(year, 4, '-', s1);
    TakePadField(month, 2, '-', s2);
    TakePadField(day, 2, 'T', rest);
  }

  lemma ParseFormatTime(t: Stamp)
    requires InRange(t)
    ensures ParseTime(FormatTime(t)) == Some(t)
  {
    var rest := Pad(t.hour, 2) + (":" + (Pad(t.minute, 2) + (":" + (Pad(t.second, 2) + (Fraction(t.nanos) + "Z")))));
    DateComesBack(t.year, t.month, t.day, rest);
    ClockComesBack(t);
  }

  // ---- the cursor --------------------------------------------------------

  datatype Position = Position(time: Stamp, id: int)

  // Map keys are written in ascending order.
  function CursorFields(p: Position): seq<Field> {
    [Field("id", IntDoc(p.id)), Field("t", Str(FormatTime(p.time)))]
  }

  function Payload(p: Position): seq<B64.Byte> { B64.Utf8(Print(Obj(CursorFields(p)))) }

  function EncodeCursor(p: Position): string { B64.Encode(Payload(p)) }

  // What older clients stored.
  function EncodeCursorPadded(p: Position): string { B64.EncodePadded(Payload(p)) }

  function DecodePayload(raw: seq<B64.Byte>): Option<Position> {
    match B64.FromUtf8(raw)
    case None => None
    case Some(text) =>
      match ObjectFields(text)
      case None => None
      case Some(m) => ReadPosition(m)
  }

  function ReadPosition(m: map<string, Value>): Option<Position> {
    if "t" !in m || "id" !in m then None
    else
      var ts, id := StrField(m, "t"), IntField(m, "id");
      if ts.None? || id.None? then None
      else
        match ParseTime(ts.value)
        case None => None
        case Some(t) => Some(Position(t, id.value))
  }

  // The unpadded alphabet first, then the padded one.
  function DecodeCursor(s: string): Option<Position> {
    if s == "" then None
    else
      match B64.Decode(s)
      case Some(raw) => DecodePayload(raw)
      case None =>
        match B64.DecodePadded(s)
        case Some(raw) => DecodePayload(raw)
        case None => None
  }

  lemma FieldsComeBack(m: map<string, Value>, id: int, ts: string, t: Stamp)
    requires Int64(id) && ParseTime(ts) == Some(t)
    requires "id" in m && m["id"] == Decode(IntDoc(id)) && "t" in m && m["t"] == StrValue(ts)
    ensures ReadPosition(m) == Some(Position(t, id))
  {
    IntComesBack(m, "id", id);
  }

  lemma PayloadOfText(text: string, m: map<string, Value>)
    requires ObjectFields(text) == Some(m)
    ensures DecodePayload(B64.Utf8(text)) == ReadPosition(m)
  {
    B64.FromUtf8Utf8(text);
  }

  lemma TextComesBack(id: int, ts: string, t: Stamp)
    requires Int64(id) && ParseTime(ts) == Some(t)
    ensures DecodePayload(B64.Utf8(Print(Obj([Field("id", IntDoc(id)), Field("t", Str(ts))])))) == Some(Position(t, id))
  {
    var f, g := Field("id", IntDoc(id)), Field("t", Str(ts));
    IntDocOk(id);
    TwoFieldsReadBack(f, g);
    var m := DecodeFields([f, g], map[]);
    PayloadOfText(Print(Obj([f, g])), m);
    FieldsComeBack(m, id, ts, t);
  }

  lemma PayloadComesBack(p: Position)
    requires InRange(p.time) && Int64(p.id)
    ensures DecodePayload(Payload(p)) == Some(p)
  {
    ParseFormatTime(p.time);
    TextComesBack(p.id, FormatTime(p.time), p.time);
  }

  lemma PayloadIsNotEmpty(p: Position)
    ensures Payload(p) != []
  {
    assert Print(Obj(CursorFields(p)))[0] == '{';
  }

  // Decoding undoes encoding for every id and every instant in range, and accepts the
  // padded form of the same cursor.
  lemma DecodeEncodeCursor(p: Position)
    requires InRange(p.time) && Int64(p.id)
    ensures DecodeCursor(EncodeCursor(p)) == Some(p)
    ensures DecodeCursor(EncodeCursorPadded(p)) == Some(p)
  {
    PayloadComesBack(p);
    PayloadIsNotEmpty(p);
    B64.DecodeEncode(Payload(p));
    B64.DecodePaddedEncode(Payload(p));
  }
}
