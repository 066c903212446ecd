// Jwt.dfy: compact HS256 tokens (section 7.1 of RFC 7515) and the two kinds of claims.
module Jwt {
  import opened Prelude
  import B64 = Base64
  import opened Json
  import opened Wire

  // The MAC under one secret, over the signing text.
  type Mac = string -> seq<B64.Byte>

  // ---- the three parts ---------------------------------------------------

  predicate NoDot(s: string) { forall i :: 0 <= i < |s| ==> s[i] != '.' }

  function FirstDot(s: string): (n: nat)
    ensures n <= |s| && NoDot(s[..n]) && (n < |s| ==> s[n] == '.')
  {
    if s == "" || s[0] == '.' then 0
    else
      var n := FirstDot(s[1..]);
      assert s[..n + 1] == [s[0]] + s[1..][..n];
      n + 1
  }

  function Split(s: string): (parts: seq<string>)
    ensures |parts| >= 1
    decreases |s|
  {
    var n := FirstDot(s);
    if n == |s| then [s] else [s[..n]] + Split(s[n + 1..])
  }

  lemma SplitOne(a: string)
    requires NoDot(a)
    ensures Split(a) == [a]
  {
  }

  lemma {:induction false} FirstDotAt(a: string, rest: string)
    requires NoDot(a)
    ensures FirstDot(a + "." + rest) == |a|
  {
    var s := a + "." + rest;
    if a == "" {
      assert s[0] == '.';
    } else {
      FirstDotAt(a[1..], rest);
      assert s[1..] == a[1..] + "." + rest;
    }
  }

  lemma SplitHead(a: string, rest: string)
    requires NoDot(a)
    ensures Split(a + "." + rest) == [a] + Split(rest)
  {
    var s := a + "." + rest;
    FirstDotAt(a, rest);
    assert s[..|a|] == a && s[|a| + 1..] == rest;
  }

  lemma Regrouped(a: string, b: string, c: string)
    ensures a + "." + b + "." + c == a + "." + (b + "." + c)
  {
  }

  lemma SplitThree(a: string, b: string, c: string)
    requires NoDot(a) && NoDot(b) && NoDot(c)
    ensures Split(a + "." + b + "." + c) == [a, b, c]
  {
    Regrouped(a, b, c);
    SplitHead(a, b + "." + c);
    SplitHead(b, c);
    SplitOne(c);
  }

  // '.' is outside the alphabet.
  lemma EncodedHasNoDot(b: seq<B64.Byte>)
    ensures NoDot(B64.Encode(b))
  {
    B64.DotIsOutside();
  }

  // ---- sign and verify ---------------------------------------------------

  const HEADER := Obj([Field("alg", Str("HS256")), Field("typ", Str("JWT"))])

  // The fixed header, as the source spells it.
  const HEADER_TEXT := "{\"alg\":\"HS256\",\"typ\":\"JWT\"}"

  function Signing(payload: seq<B64.Byte>): string {
    B64.Encode(B64.Utf8(HEADER_TEXT)) + "." + B64.Encode(payload)
  }

  function Sign(mac: Mac, payload: seq<B64.Byte>): string {
    Signing(payload) + "." + B64.Encode(mac(Signing(payload)))
  }

  predicate HeaderOk(b: seq<B64.Byte>) {
    B64.FromUtf8(b).Some? && ObjectFields(B64.FromUtf8(b).value).Some? &&
    var fields := ObjectFields(B64.FromUtf8(b).value).value;
    StrField(fields, "alg") == Some("HS256") && StrField(fields, "typ").Some?
  }

  function Verify(mac: Mac, token: string): Option<seq<B64.Byte>> {
    var parts := Split(token);
    if |parts| != 3 then None
    else
      match B64.Decode(parts[0])
      case None => None
      case Some(header) =>
        if !HeaderOk(header) then None
        else
          match B64.Decode(parts[2])
          case None => None
          case Some(got) => if got != mac(parts[0] + "." + parts[1]) then None else B64.Decode(parts[1])
  }

  lemma HeaderText()
    ensures Print(HEADER) == HEADER_TEXT
  {
    PlainField("alg", "HS256");
    PlainField("typ", "JWT");
    TwoFields(Field("alg", Str("HS256")), Field("typ", Str("JWT")));
    HeaderPieces(PrintField(Field("alg", Str("HS256"))), PrintField(Field("typ", Str("JWT"))));
  }

  lemma HeaderPieces(a: string, b: string)
    requires a == "\"" + "alg" + "\":\"" + "HS256" + "\"" && b == "\"" + "typ" + "\":\"" + "JWT" + "\""
    ensures "{" + a + "," + b + "}" == "{\"alg\":\"HS256\",\"typ\":\"JWT\"}"
  {
  }

  lemma PlainField(k: string, v: string)
    requires Plain(k) && Plain(v)
    ensures PrintField(Field(k, Str(v))) == "\"" + k + "\":\"" + v + "\""
  {
    QuoteLetters(k);
    QuoteLetters(v);
  }

  lemma TwoFields(f: Field, g: Field)
    ensures Print(Obj([f, g])) == "{" + PrintField(f) + "," + PrintField(g) + "}"
  {
    assert [f, g][1..] == [g];
    assert PrintFields([f, g]) == PrintField(f) + "," + PrintField(g);
  }

  predicate Plain(s: string) {
    forall i :: 0 <= i < |s| ==> '0' <= s[i] <= '9' || 'A' <= s[i] <= 'Z' || 'a' <= s[i] <= 'z'
  }

  lemma {:induction false} QuoteLetters(s: string)
    requires Plain(s)
    ensures Escape(s) == s
  {
    if s != "" {
      QuoteLetters(s[1..]);
      assert EscapeChar(s[0]) == [s[0]];
    }
  }

  lemma HeaderIsOk()
    ensures HeaderOk(B64.Utf8(HEADER_TEXT))
  {
    HeaderText();
    var alg, typ := Field("alg", Str("HS256")), Field("typ", Str("JWT"));
    TwoFieldsReadBack(alg, typ);
    var m := DecodeFields([alg, typ], map[]);
    assert m["alg"] == StrValue("HS256") && m["typ"] == StrValue("JWT");
    HeaderReads(Print(Obj([alg, typ])), m);
  }

  lemma HeaderReads(text: string, m: map<string, Value>)
    requires ObjectFields(text) == Some(m) && StrField(m, "alg") == Some("HS256") && StrField(m, "typ").Some?
    ensures HeaderOk(B64.Utf8(text))
  {
    B64.FromUtf8Utf8(text);
  }

  // A verifier under any secret: it gives the payload back exactly when its MAC agrees
  // with the signer's on the signing text.
  lemma VerifySigned(mac: Mac, other: Mac, payload: seq<B64.Byte>)
    ensures Verify(other, Sign(mac, payload)) ==
      if mac(Signing(payload)) == other(Signing(payload)) then Some(payload) else None
  {
    var header, sig := B64.Utf8(HEADER_TEXT), mac(Signing(payload));
    EncodedHasNoDot(header);
    EncodedHasNoDot(payload);
    EncodedHasNoDot(sig);
    SplitThree(B64.Encode(header), B64.Encode(payload), B64.Encode(sig));
    B64.DecodeEncode(header);
    B64.DecodeEncode(payload);
    B64.DecodeEncode(sig);
    HeaderIsOk();
  }

  function Join(parts: seq<string>): string
    requires parts != []
  {
    if |parts| == 1 then parts[0] else parts[0] + "." + Join(parts[1..])
  }

  lemma {:induction false} JoinSplit(s: string)
    ensures Join(Split(s)) == s
    decreases |s|
  {
    var n := FirstDot(s);
    if n < |s| {
      JoinSplit(s[n + 1..]);
      assert Split(s)[1..] == Split(s[n + 1..]);
      CutAt(s, n);
    }
  }

  lemma CutAt(s: string, n: nat)
    requires n < |s| && s[n] == '.'
    ensures s[..n] + "." + s[n + 1..] == s
  {
  }

  // The header text decodes to an object whose algorithm is HS256.
  predicate NamesHs256(h: string) {
    B64.Decode(h).Some? && B64.FromUtf8(B64.Decode(h).value).Some? &&
    var fields := ObjectFields(B64.FromUtf8(B64.Decode(h).value).value);
    fields.Some? && StrField(fields.value, "alg") == Some("HS256")
  }

  lemma HeaderOkNames(h: string)
    requires B64.Decode(h).Some? && HeaderOk(B64.Decode(h).value)
    ensures NamesHs256(h)
  {
  }

  // Nothing is accepted whose last part does not decode to the MAC of what stands
  // before it, or whose header names another algorithm.
  lemma VerifiedIsSigned(mac: Mac, token: string)
    requires Verify(mac, token).Some?
    ensures exists h: string, p: string, s: string ::
      && token == h + "." + p + "." + s
      && B64.Decode(s) == Some(mac(h + "." + p))
      && NamesHs256(h)
      && Verify(mac, token) == B64.Decode(p)
  {
    var parts := Split(token);
    JoinSplit(token);
    assert parts[1..][1..] == [parts[2]];
    JoinThree(parts[0], parts[1], parts[2]);
    assert parts == [parts[0], parts[1], parts[2]];
    HeaderOkNames(parts[0]);
  }

  lemma JoinThree(h: string, p: string, s: string)
    ensures Join([h, p, s]) == h + "." + p + "." + s
  {
    assert [h, p, s][1..] == [p, s] && [p, s][1..] == [s];
    assert Join([p, s]) == p + "." + s;
    Regrouped(h, p, s);
  }

  // ---- claims ------------------------------------------------------------

  // Seconds.
  const ACCESS_TTL := 30 * 60
  const REFRESH_TTL := 15 * 3_600

  datatype Access = Access(
    sub: int, username: string, role: string, branch: Option<int>, mustChange: bool, iat: int, exp: int)

  datatype Refresh = Refresh(sub: int, jti: string, iat: int, exp: int)

  function AccessFields(c: Access): (fields: seq<Field>) {
    [Field("sub", IntDoc(c.sub)), Field("username", Str(c.username)), Field("role", Str(c.role))]
    + (if c.branch.Some? then [Field("branch_id", IntDoc(c.branch.value))] else [])
    + [Field("must_change_password", Bool(c.mustChange)), Field("iat", IntDoc(c.iat)), Field("exp", IntDoc(c.exp))]
  }

  function RefreshFields(c: Refresh): seq<Field> {
    [Field("sub", IntDoc(c.sub)), Field("jti", Str(c.jti)), Field("iat", IntDoc(c.iat)), Field("exp", IntDoc(c.exp))]
  }

  // The clock fills in what the caller left zero.
  function Filled(c: Access, now: int): Access {
    var d := c.(iat := if c.iat == 0 then now else c.iat);
    d.(exp := if d.exp == 0 then d.iat + ACCESS_TTL else d.exp)
  }

  function SignDoc(mac: Mac, fields: seq<Field>): string { Sign(mac, B64.Utf8(Print(Obj(fields)))) }

  function IssueAccess(mac: Mac, c: Access, now: int): string { SignDoc(mac, AccessFields(Filled(c, now))) }

  function NewRefresh(sub: int, jti: string, now: int): Refresh { Refresh(sub, jti, now, now + REFRESH_TTL) }

  function IssueRefresh(mac: Mac, sub: int, jti: string, now: int): string {
    SignDoc(mac, RefreshFields(NewRefresh(sub, jti, now)))
  }

  function VerifiedFields(mac: Mac, token: string): Option<map<string, Value>> {
    match Verify(mac, token)
    case None => None
    case Some(payload) =>
      match B64.FromUtf8(payload)
      case None => None
      case Some(text) => ObjectFields(text)
  }

  function ReadAccess(m: map<string, Value>): Option<Access> {
    var sub, username, role := IntField(m, "sub"), StrField(m, "username"), StrField(m, "role");
    var branch, must := IntOrNil(m, "branch_id"), BoolField(m, "must_change_password");
    var iat, exp := IntField(m, "iat"), IntField(m, "exp");
    if sub.None? || username.None? || role.None? || branch.None? || must.None? || iat.None? || exp.None? then None
    else Some(Access(sub.value, username.value, role.value, branch.value, must.value, iat.value, exp.value))
  }

  function ReadRefresh(m: map<string, Value>): Option<Refresh> {
    var sub, jti, iat, exp := IntField(m, "sub"), StrField(m, "jti"), IntField(m, "iat"), IntField(m, "exp");
    if sub.None? || jti.None? || iat.None? || exp.None? then None
    else Some(Refresh(sub.value, jti.value, iat.value, exp.value))
  }

  predicate AccessOk(c: Access) {
    c.sub != 0 && c.role in {"global", "branch"} && c.iat != 0 && c.exp != 0
  }

  predicate RefreshOk(c: Refresh) { c.sub != 0 && c.jti != "" && c.iat != 0 && c.exp != 0 }

  function ParseAccess(mac: Mac, token: string, now: int): Option<Access> {
    match VerifiedFields(mac, token)
    case None => None
    case Some(m) =>
      match ReadAccess(m)
      case None => None
      case Some(c) => if AccessOk(c) && now < c.exp then Some(c) else None
  }

  function ParseRefresh(mac: Mac, token: string, now: int): Option<Refresh> {
    match VerifiedFields(mac, token)
    case None => None
    case Some(m) =>
      match ReadRefresh(m)
      case None => None
      case Some(c) => if RefreshOk(c) && now < c.exp then Some(c) else None
  }

  // ---- round trips of claims ---------------------------------------------

  lemma SignedFields(mac: Mac, fields: seq<Field>)
    requires forall i :: 0 <= i < |fields| ==> WellFormed(fields[i].value)
    ensures VerifiedFields(mac, SignDoc(mac, fields)) == Some(DecodeFields(fields, map[]))
  {
    PrintedFields(fields);
    SignedText(mac, Print(Obj(fields)));
  }

  lemma SignedText(mac: Mac, text: string)
    ensures VerifiedFields(mac, Sign(mac, B64.Utf8(text))) == ObjectFields(text)
  {
    VerifySigned(mac, mac, B64.Utf8(text));
    B64.FromUtf8Utf8(text);
  }

  predicate AccessInRange(c: Access) {
    Int64(c.sub) && Int64(c.iat) && Int64(c.exp) && (c.branch.Some? ==> Int64(c.branch.value))
  }

  predicate RefreshInRange(c: Refresh) { Int64(c.sub) && Int64(c.iat) && Int64(c.exp) }

  // The fields of a map are these documents.
  ghost predicate Holds(m: map<string, Value>, key: string, d: Doc) { key in m && m[key] == Decode(d) }

  lemma RefreshFrom(m: map<string, Value>, c: Refresh)
    requires RefreshInRange(c)
    requires Holds(m, "sub", IntDoc(c.sub)) && Holds(m, "jti", Str(c.jti))
    requires Holds(m, "iat", IntDoc(c.iat)) && Holds(m, "exp", IntDoc(c.exp))
    ensures ReadRefresh(m) == Some(c)
  {
    IntComesBack(m, "sub", c.sub);
    IntComesBack(m, "iat", c.iat);
    IntComesBack(m, "exp", c.exp);
  }

  lemma ReadsRefresh(c: Refresh)
    requires RefreshInRange(c)
    ensures ReadRefresh(DecodeFields(RefreshFields(c), map[])) == Some(c)
  {
    var fields := RefreshFields(c);
    assert fields[0].key == "sub" && fields[1].key == "jti" && fields[2].key == "iat" && fields[3].key == "exp";
    FieldAt(fields, 0, "sub", IntDoc(c.sub));
    FieldAt(fields, 1, "jti", Str(c.jti));
    FieldAt(fields, 2, "iat", IntDoc(c.iat));
    FieldAt(fields, 3, "exp", IntDoc(c.exp));
    RefreshFrom(DecodeFields(fields, map[]), c);
  }

  lemma RefreshFieldsOk(c: Refresh)
    ensures forall i :: 0 <= i < |RefreshFields(c)| ==> WellFormed(RefreshFields(c)[i].value)
  {
    IntDocOk(c.sub);
    IntDocOk(c.iat);
    IntDocOk(c.exp);
  }

  lemma KeysDiffer(c: Access)
    ensures forall i, j :: 0 <= i < j < |AccessFields(c)| ==> AccessFields(c)[i].key != AccessFields(c)[j].key
    ensures c.branch.None? ==> forall i :: 0 <= i < |AccessFields(c)| ==> AccessFields(c)[i].key != "branch_id"
  {
  }

  lemma AccessFieldsOk(c: Access)
    ensures forall i :: 0 <= i < |AccessFields(c)| ==> WellFormed(AccessFields(c)[i].value)
  {
    var b := if c.branch.Some? then 1 else 0;
    forall i | 0 <= i < |AccessFields(c)|
      ensures WellFormed(AccessFields(c)[i].value)
    {
      if i == 0 { IntDocOk(c.sub); }
      else if i == 4 + b { IntDocOk(c.iat); }
      else if i == 5 + b { IntDocOk(c.exp); }
      else if i == 3 && c.branch.Some? { IntDocOk(c.branch.value); }
    }
  }

  lemma AccessFrom(m: map<string, Value>, c: Access)
    requires AccessInRange(c)
    requires Holds(m, "sub", IntDoc(c.sub)) && Holds(m, "username", Str(c.username)) && Holds(m, "role", Str(c.role))
    requires Holds(m, "must_change_password", Bool(c.mustChange))
    requires Holds(m, "iat", IntDoc(c.iat)) && Holds(m, "exp", IntDoc(c.exp))
    requires if c.branch.Some? then Holds(m, "branch_id", IntDoc(c.branch.value)) else "branch_id" !in m
    ensures ReadAccess(m) == Some(c)
  {
    IntComesBack(m, "sub", c.sub);
    IntComesBack(m, "iat", c.iat);
    IntComesBack(m, "exp", c.exp);
    if c.branch.Some? { IntComesBack(m, "branch_id", c.branch.value); }
  }

  lemma HoldsAt(c: Access, k: nat, key: string, d: Doc)
    requires k < |AccessFields(c)| && AccessFields(c)[k] == Field(key, d)
    ensures Holds(DecodeFields(AccessFields(c), map[]), key, d)
  {
    KeysDiffer(c);
    FieldAt(AccessFields(c), k, key, d);
  }

  lemma BranchHolds(c: Access)
    ensures var m := DecodeFields(AccessFields(c), map[]);
            if c.branch.Some? then Holds(m, "branch_id", IntDoc(c.branch.value)) else "branch_id" !in m
  {
    if c.branch.Some? {
      HoldsAt(c, 3, "branch_id", IntDoc(c.branch.value));
    } else {
      KeysDiffer(c);
      FieldsFound(AccessFields(c), map[]);
    }
  }

  lemma ReadsAccess(c: Access)
    requires AccessInRange(c)
    ensures ReadAccess(DecodeFields(AccessFields(c), map[])) == Some(c)
  {
    var b := if c.branch.Some? then 1 else 0;
    HoldsAt(c, 0, "sub", IntDoc(c.sub));
    HoldsAt(c, 1, "username", Str(c.username));
    HoldsAt(c, 2, "role", Str(c.role));
    HoldsAt(c, 3 + b, "must_change_password", Bool(c.mustChange));
    HoldsAt(c, 4 + b, "iat", IntDoc(c.iat));
    HoldsAt(c, 5 + b, "exp", IntDoc(c.exp));
    BranchHolds(c);
    AccessFrom(DecodeFields(AccessFields(c), map[]), c);
  }

  lemma IssuedAccess(mac: Mac, c: Access, now: int)
    requires AccessInRange(c)
    ensures ParseAccess(mac, SignDoc(mac, AccessFields(c)), now) == if AccessOk(c) && now < c.exp then Some(c) else None
  {
    AccessFieldsOk(c);
    SignedFields(mac, AccessFields(c));
    ReadsAccess(c);
    AccessOfFields(mac, SignDoc(mac, AccessFields(c)), c, now);
  }

  // No claim the reader insists on is missing, and the role is one of the two.
  predicate AllClaims(c: Access) {
    c.sub != 0 && c.iat != 0 && c.exp != 0 && c.role in {"global", "branch"}
  }

  lemma AllClaimsOk(c: Access)
    ensures AccessOk(c) <==> AllClaims(c)
  {
  }

  lemma FilledIn(c: Access, issued: int)
    ensures var iat := if c.iat == 0 then issued else c.iat;
            Filled(c, issued) == c.(iat := iat, exp := if c.exp == 0 then iat + 1_800 else c.exp)
  {
  }

  // Every issued access token reads back as its claims, with the clock's times filled in,
  // exactly until it expires.
  lemma ParseIssuedAccess(mac: Mac, c: Access, issued: int, now: int, d: Access)
    requires d.iat == (if c.iat == 0 then issued else c.iat) && d.exp == (if c.exp == 0 then d.iat + 1_800 else c.exp)
    requires d == c.(iat := d.iat, exp := d.exp) && AccessInRange(d)
    ensures ParseAccess(mac, IssueAccess(mac, c, issued), now) == if AllClaims(d) && now < d.exp then Some(d) else None
  {
    FilledIn(c, issued);
    IssuedAccess(mac, d, now);
    AllClaimsOk(d);
  }

  lemma AccessOfFields(mac: Mac, token: string, c: Access, now: int)
    requires VerifiedFields(mac, token).Some? && ReadAccess(VerifiedFields(mac, token).value) == Some(c)
    ensures ParseAccess(mac, token, now) == if AccessOk(c) && now < c.exp then Some(c) else None
  {
  }

  lemma RefreshOfFields(mac: Mac, token: string, c: Refresh, now: int)
    requires VerifiedFields(mac, token).Some? && ReadRefresh(VerifiedFields(mac, token).value) == Some(c)
    ensures ParseRefresh(mac, token, now) == if RefreshOk(c) && now < c.exp then Some(c) else None
  {
  }

  // The same for refresh tokens.
  lemma ParseIssuedRefresh(mac: Mac, sub: int, jti: string, issued: int, now: int)
    requires RefreshInRange(NewRefresh(sub, jti, issued))
    ensures var c := Refresh(sub, jti, issued, issued + 54_000);
            ParseRefresh(mac, IssueRefresh(mac, sub, jti, issued), now) ==
              if sub != 0 && jti != "" && issued != 0 && c.exp != 0 && now < c.exp then Some(c) else None
  {
    var c := NewRefresh(sub, jti, issued);
    RefreshFieldsOk(c);
    ReadsRefresh(c);
    SignedFields(mac, RefreshFields(c));
    RefreshOfFields(mac, SignDoc(mac, RefreshFields(c)), c, now);
  }
}
