// Sessions.dfy: access and refresh tokens, the revocation table and its cleanup, and
// the cut-off that a password, role or branch change puts on older tokens.
module Sessions {
  import opened Prelude
  import L = Lockout
  import J = Jwt

  const KEEP_REVOKED := 15 * 3_600 * 1_000_000

  // The second a microsecond lies in, as time.Unix reports it.
  function Unix(now: int): int { now / 1_000_000 }

  type Refresh = J.Refresh

  // What the checks look at in the claims of an access token.
  datatype Access = Access(sub: int, iat: int, exp: int)

  // The tables, and the tokens signed so far: a signature check is membership in them.
  datatype State = State(
    admins: map<int, L.Row>,
    revoked: map<string, int>,
    refreshes: map<string, Refresh>,
    accesses: set<Access>)

  // ---- the decisions -----------------------------------------------------

  function NewAccess(sub: int, now: int): Access { Access(sub, Unix(now), Unix(now) + J.ACCESS_TTL) }

  function NewRefresh(sub: int, jti: string, now: int): Refresh { J.NewRefresh(sub, jti, Unix(now)) }

  predicate Signed(s: State, tok: Refresh) { tok.jti in s.refreshes && s.refreshes[tok.jti] == tok }

  predicate ParseRefresh(s: State, tok: Refresh, now: int) {
    Signed(s, tok) && J.RefreshOk(tok) && Unix(now) < tok.exp
  }

  predicate ParseAccess(s: State, tok: Access, now: int) {
    tok in s.accesses && tok.sub != 0 && tok.iat != 0 && tok.exp != 0 && Unix(now) < tok.exp
  }

  predicate Live(s: State, sub: int) { sub in s.admins && !s.admins[sub].deleted }

  // The token was issued in a second before that of the last change.
  predicate Stale(s: State, sub: int, iat: int)
    requires sub in s.admins
  {
    s.admins[sub].changedAt.Some? && iat < Unix(s.admins[sub].changedAt.value)
  }

  predicate RefreshAccepted(s: State, tok: Refresh, now: int) {
    ParseRefresh(s, tok, now) && tok.jti !in s.revoked && Live(s, tok.sub) && !Stale(s, tok.sub, tok.iat)
  }

  predicate AccessAccepted(s: State, tok: Access, now: int) {
    ParseAccess(s, tok, now) && Live(s, tok.sub) && !Stale(s, tok.sub, tok.iat)
  }

  // ---- steps -------------------------------------------------------------

  datatype Act =
    | SignIn(sub: int, ok: bool, jti: string)
    | Renew(refresh: Refresh)
    | SignOut(refresh: Refresh, caller: int)
    | Change(sub: int, event: L.Event)
    | CleanUp

  predicate SignsIn(s: State, now: int, sub: int, ok: bool) {
    sub in s.admins && L.LoginOutcome(s.admins[sub], now, ok) == L.LoggedIn
  }

  predicate SignsOut(s: State, now: int, tok: Refresh, caller: int) {
    ParseRefresh(s, tok, now) && tok.sub == caller
  }

  function Step(s: State, now: int, a: Act): State {
    match a
    case SignIn(sub, ok, jti) =>
      if sub !in s.admins then s
      else
        var t := s.(admins := s.admins[sub := L.Step(s.admins[sub], now, L.Attempt(ok))]);
        if SignsIn(s, now, sub, ok)
        then t.(refreshes := s.refreshes[jti := NewRefresh(sub, jti, now)],
                accesses := s.accesses + {NewAccess(sub, now)})
        else t
    case Renew(tok) =>
      if RefreshAccepted(s, tok, now) then s.(accesses := s.accesses + {NewAccess(tok.sub, now)}) else s
    case SignOut(tok, caller) =>
      if SignsOut(s, now, tok, caller) && tok.jti !in s.revoked then s.(revoked := s.revoked[tok.jti := now]) else s
    case Change(sub, e) =>
      if sub !in s.admins || e.Attempt? then s
      else s.(admins := s.admins[sub := L.Step(s.admins[sub], now, e)])
    case CleanUp => s.(revoked := map j | j in s.revoked && s.revoked[j] >= now - KEEP_REVOKED :: s.revoked[j])
  }

  // ---- the tables updated in place ---------------------------------------

  class Auth {
    var admins: map<int, L.Row>
    var revoked: map<string, int>
    var refreshes: map<string, Refresh>
    var accesses: set<Access>

    function S(): State
      reads this
    {
      State(admins, revoked, refreshes, accesses)
    }

    constructor (rows: map<int, L.Row>)
      ensures S() == State(rows, map[], map[], {})
    {
      admins, revoked, refreshes, accesses := rows, map[], map[], {};
    }

    method Revoke(jti: string, now: int)
      modifies this`revoked
      ensures revoked == if jti in old(revoked) then old(revoked) else old(revoked)[jti := now]
    {
      if jti !in revoked {
        revoked := revoked[jti := now];
      }
    }

    method IssueAccess(sub: int, now: int) returns (tok: Access)
      modifies this`accesses
      ensures tok == NewAccess(sub, now) && accesses == old(accesses) + {tok}
    {
      tok := Access(sub, Unix(now), Unix(now) + J.ACCESS_TTL);
      accesses := accesses + {tok};
    }

    method IssueRefresh(sub: int, jti: string, now: int) returns (tok: Refresh)
      modifies this`refreshes
      ensures tok == NewRefresh(sub, jti, now) && refreshes == old(refreshes)[jti := tok]
    {
      tok := J.Refresh(sub, jti, Unix(now), Unix(now) + J.REFRESH_TTL);
      refreshes := refreshes[jti := tok];
    }

    method Login(sub: int, ok: bool, jti: string, now: int) returns (r: Option<(Access, Refresh)>)
      modifies this
      ensures S() == Step(old(S()), now, SignIn(sub, ok, jti))
      ensures r ==
        if SignsIn(old(S()), now, sub, ok) then Some((NewAccess(sub, now), NewRefresh(sub, jti, now))) else None
    {
      if sub !in admins {
        return None;
      }
      var outcome := L.LoginOutcome(admins[sub], now, ok);
      admins := admins[sub := L.Step(admins[sub], now, L.Attempt(ok))];
      if outcome != L.LoggedIn {
        return None;
      }
      var access := IssueAccess(sub, now);
      var refresh := IssueRefresh(sub, jti, now);
      return Some((access, refresh));
    }

    method RenewAccess(tok: Refresh, now: int) returns (r: Option<Access>)
      modifies this
      ensures S() == Step(old(S()), now, Renew(tok))
      ensures r == if RefreshAccepted(old(S()), tok, now) then Some(NewAccess(tok.sub, now)) else None
    {
      if !ParseRefresh(S(), tok, now) {
        return None;
      }
      if tok.jti in revoked {
        return None;
      }
      if tok.sub !in admins || admins[tok.sub].deleted {
        return None;
      }
      if admins[tok.sub].changedAt.Some? && tok.iat < Unix(admins[tok.sub].changedAt.value) {
        return None;
      }
      var access := IssueAccess(tok.sub, now);
      return Some(access);
    }

    method Logout(tok: Refresh, caller: int, now: int) returns (accepted: bool)
      modifies this
      ensures accepted == SignsOut(old(S()), now, tok, caller)
      ensures S() == Step(old(S()), now, SignOut(tok, caller))
    {
      if !ParseRefresh(S(), tok, now) {
        return false;
      }
      if tok.sub != caller {
        return false;
      }
      Revoke(tok.jti, now);
      return true;
    }

    method CleanupRevoked(now: int) returns (deleted: int)
      modifies this
      ensures S() == Step(old(S()), now, CleanUp)
      ensures deleted == |old(revoked)| - |revoked|
    {
      var kept := map j | j in revoked && revoked[j] >= now - KEEP_REVOKED :: revoked[j];
      deleted := |revoked| - |kept|;
      revoked := kept;
    }
  }

  // ---- histories ---------------------------------------------------------

  function RunFrom(s: State, es: seq<Timed<Act>>): State {
    if es == [] then s else Step(RunFrom(s, es[..|es| - 1]), es[|es| - 1].now, es[|es| - 1].event)
  }

  // A deployment at time t: any admins, no token signed yet.
  predicate Starts(s: State, t: int) {
    && s.revoked == map[] && s.refreshes == map[] && s.accesses == {}
    && forall k :: k in s.admins && s.admins[k].changedAt.Some? ==> s.admins[k].changedAt.value <= t
  }

  // No identifier is generated twice.
  ghost predicate FreshIds(s: State, es: seq<Timed<Act>>) {
    es != [] ==>
      && FreshIds(s, es[..|es| - 1])
      && (es[|es| - 1].event.SignIn? ==> es[|es| - 1].event.jti !in RunFrom(s, es[..|es| - 1]).refreshes)
  }

  ghost predicate Legal(s: State, t: int, es: seq<Timed<Act>>) { Starts(s, t) && Clocked(t, es) && FreshIds(s, es) }

  // ---- what really happened ----------------------------------------------

  predicate Changes(s: State, a: Act, sub: int) {
    && a.Change? && a.sub == sub && Live(s, sub)
    && !a.event.Attempt? && (a.event.ChangePassword? ==> a.event.currentOk)
  }

  // The admin was changed or deleted in a second after iat.
  ghost predicate ChangedSince(s: State, es: seq<Timed<Act>>, sub: int, iat: int) {
    es != [] &&
    (ChangedSince(s, es[..|es| - 1], sub, iat) ||
     (Changes(RunFrom(s, es[..|es| - 1]), es[|es| - 1].event, sub) && iat < Unix(es[|es| - 1].now)))
  }

  // The token was accepted by a logout.
  ghost predicate LoggedOut(s: State, es: seq<Timed<Act>>, tok: Refresh) {
    es != [] &&
    (LoggedOut(s, es[..|es| - 1], tok) ||
     (var e := es[|es| - 1];
      e.event.SignOut? && e.event.refresh == tok && SignsOut(RunFrom(s, es[..|es| - 1]), e.now, tok, e.event.caller)))
  }

  // ---- invariants of a run -----------------------------------------------

  ghost predicate TokensOk(s: State, clock: int) {
    && (forall j :: j in s.refreshes ==>
          var tok := s.refreshes[j];
          tok.jti == j && tok.iat <= Unix(clock) && tok.exp == tok.iat + J.REFRESH_TTL && tok.sub in s.admins)
    && (forall tok :: tok in s.accesses ==> tok.iat <= Unix(clock) && tok.sub in s.admins)
  }

  ghost predicate RevokedOk(s: State, clock: int) {
    forall j :: j in s.revoked ==>
      j in s.refreshes && s.refreshes[j].iat <= Unix(s.revoked[j]) && s.revoked[j] <= clock
  }

  ghost predicate ChangesOk(s: State, clock: int) {
    forall k :: k in s.admins && s.admins[k].changedAt.Some? ==> s.admins[k].changedAt.value <= clock
  }

  lemma UnixMonotone(a: int, b: int)
    requires a <= b
    ensures Unix(a) <= Unix(b)
  {
  }

  lemma StepKeepsTokens(s: State, clock: int, e: Timed<Act>)
    requires TokensOk(s, clock) && clock <= e.now
    ensures TokensOk(Step(s, e.now, e.event), e.now)
  {
    UnixMonotone(clock, e.now);
  }

  lemma StepKeepsRevoked(s: State, clock: int, e: Timed<Act>)
    requires TokensOk(s, clock) && RevokedOk(s, clock) && clock <= e.now
    requires e.event.SignIn? ==> e.event.jti !in s.refreshes
    ensures RevokedOk(Step(s, e.now, e.event), e.now)
  {
    UnixMonotone(clock, e.now);
  }

  lemma StepKeepsChanges(s: State, clock: int, e: Timed<Act>)
    requires ChangesOk(s, clock) && clock <= e.now
    ensures ChangesOk(Step(s, e.now, e.event), e.now)
  {
  }

  lemma {:induction false} RunKeeps(s: State, t: int, es: seq<Timed<Act>>)
    requires Legal(s, t, es)
    ensures var r := RunFrom(s, es); var c := ClockAfter(t, es); TokensOk(r, c) && RevokedOk(r, c) && ChangesOk(r, c)
    decreases |es|
  {
    if es != [] {
      var before := es[..|es| - 1];
      RunKeeps(s, t, before);
      StepKeepsTokens(RunFrom(s, before), ClockAfter(t, before), es[|es| - 1]);
      StepKeepsRevoked(RunFrom(s, before), ClockAfter(t, before), es[|es| - 1]);
      StepKeepsChanges(RunFrom(s, before), ClockAfter(t, before), es[|es| - 1]);
    }
  }

  // ---- the cut-off says what happened ------------------------------------

  // Nothing that happened up to now is after a token of the current second.
  lemma {:induction false} NotYetChanged(s: State, es: seq<Timed<Act>>, sub: int, now: int)
    requires forall i :: 0 <= i < |es| ==> es[i].now <= now
    ensures !ChangedSince(s, es, sub, Unix(now))
    decreases |es|
  {
    if es != [] {
      NotYetChanged(s, es[..|es| - 1], sub, now);
      UnixMonotone(es[|es| - 1].now, now);
    }
  }

  // Some token of the admin was issued in the second iat.
  ghost predicate Issued(s: State, sub: int, iat: int) {
    (exists j :: j in s.refreshes && s.refreshes[j].sub == sub && s.refreshes[j].iat == iat) ||
    (exists tok :: tok in s.accesses && tok.sub == sub && tok.iat == iat)
  }

  // A step either finds the token there or issues it in the current second.
  lemma IssuedBefore(s: State, e: Timed<Act>, sub: int, iat: int)
    requires Issued(Step(s, e.now, e.event), sub, iat)
    ensures Issued(s, sub, iat) || (iat == Unix(e.now) && !e.event.Change?)
  {
    var after := Step(s, e.now, e.event);
    if j :| j in after.refreshes && after.refreshes[j].sub == sub && after.refreshes[j].iat == iat {
      if j in s.refreshes && s.refreshes[j] == after.refreshes[j] { assert Issued(s, sub, iat); }
    } else {
      var tok :| tok in after.accesses && tok.sub == sub && tok.iat == iat;
      if tok in s.accesses { assert Issued(s, sub, iat); }
    }
  }

  // The change column moves exactly when the admin is changed.
  lemma ChangedAtAfter(s: State, e: Timed<Act>, sub: int)
    requires sub in s.admins
    ensures var r := Step(s, e.now, e.event);
            sub in r.admins &&
            r.admins[sub].changedAt == if Changes(s, e.event, sub) then Some(e.now) else s.admins[sub].changedAt
  {
  }

  lemma IssuedHasAdmin(s: State, clock: int, sub: int, iat: int)
    requires TokensOk(s, clock) && Issued(s, sub, iat)
    ensures sub in s.admins
  {
  }

  // One step: the token turns stale exactly when the admin is changed in a later second.
  lemma StaleAfter(s: State, clock: int, e: Timed<Act>, sub: int, iat: int)
    requires ChangesOk(s, clock) && clock <= e.now && sub in s.admins
    ensures var r := Step(s, e.now, e.event);
            sub in r.admins
            && (Stale(r, sub, iat) <==> (if Changes(s, e.event, sub) then iat < Unix(e.now) else Stale(s, sub, iat)))
    ensures Stale(s, sub, iat) ==> iat < Unix(e.now)
  {
    ChangedAtAfter(s, e, sub);
    if s.admins[sub].changedAt.Some? { UnixMonotone(s.admins[sub].changedAt.value, e.now); }
  }

  // The comparison with the change column refuses a token exactly when the admin was
  // changed in a later second than the token's.
  lemma {:induction false} StaleIff(s: State, t: int, es: seq<Timed<Act>>, sub: int, iat: int)
    requires Legal(s, t, es) && Issued(RunFrom(s, es), sub, iat)
    ensures sub in RunFrom(s, es).admins
    ensures Stale(RunFrom(s, es), sub, iat) <==> ChangedSince(s, es, sub, iat)
    decreases |es|
  {
    RunKeeps(s, t, es);
    IssuedHasAdmin(RunFrom(s, es), ClockAfter(t, es), sub, iat);
    if es != [] {
      var before, e := es[..|es| - 1], es[|es| - 1];
      var r := RunFrom(s, before);
      RunKeeps(s, t, before);
      IssuedBefore(r, e, sub, iat);
      assert sub in r.admins;
      if Issued(r, sub, iat) {
        StaleIff(s, t, before, sub, iat);
      } else {
        NotYetChanged(s, before, sub, e.now);
      }
      StaleAfter(r, ClockAfter(t, before), e, sub, iat);
    }
  }

  // ---- the revocation table says what happened ---------------------------

  lemma RefreshesGrow(s: State, e: Timed<Act>, jti: string)
    requires jti in s.refreshes
    ensures jti in Step(s, e.now, e.event).refreshes
  {
  }

  lemma {:induction false} LoggedOutWasSigned(s: State, es: seq<Timed<Act>>, tok: Refresh)
    requires LoggedOut(s, es, tok)
    ensures tok.jti in RunFrom(s, es).refreshes
    decreases |es|
  {
    var before := es[..|es| - 1];
    if LoggedOut(s, before, tok) { LoggedOutWasSigned(s, before, tok); }
    RefreshesGrow(RunFrom(s, before), es[|es| - 1], tok.jti);
  }

  // A cleaned-up revocation belongs to a token that has run out.
  lemma CleanedHasExpired(s: State, clock: int, now: int, jti: string)
    requires TokensOk(s, clock) && RevokedOk(s, clock)
    requires jti in s.revoked && s.revoked[jti] < now - KEEP_REVOKED
    ensures Unix(now) >= s.refreshes[jti].exp
  {
    assert Unix(now - KEEP_REVOKED) == Unix(now) - J.REFRESH_TTL;
    UnixMonotone(s.revoked[jti], now - KEEP_REVOKED);
  }

  lemma RevokedAfter(s: State, clock: int, e: Timed<Act>, tok: Refresh)
    requires TokensOk(s, clock) && RevokedOk(s, clock)
    requires e.event.SignIn? ==> e.event.jti !in s.refreshes
    requires Signed(s, tok)
    ensures var r := Step(s, e.now, e.event);
            var out := e.event.SignOut? && e.event.refresh == tok && SignsOut(s, e.now, tok, e.event.caller);
            && Signed(r, tok)
            && (tok.jti in r.revoked ==> tok.jti in s.revoked || out)
            && (tok.jti in s.revoked || out ==> tok.jti in r.revoked || Unix(e.now) >= tok.exp)
  {
    if tok.jti in s.revoked && e.event.CleanUp? && s.revoked[tok.jti] < e.now - KEEP_REVOKED {
      CleanedHasExpired(s, clock, e.now, tok.jti);
    }
  }

  lemma SignedBefore(s: State, e: Timed<Act>, tok: Refresh)
    requires Signed(Step(s, e.now, e.event), tok)
    requires e.event.SignIn? ==> e.event.jti !in s.refreshes
    ensures Signed(s, tok) || (tok.jti !in s.refreshes && e.event.SignIn?)
  {
  }

  // A revocation row means a logout; a logout means a revocation row, until the token
  // has run out anyway.
  lemma {:induction false} RevokedIff(s: State, t: int, es: seq<Timed<Act>>, tok: Refresh)
    requires Legal(s, t, es) && Signed(RunFrom(s, es), tok)
    ensures tok.jti in RunFrom(s, es).revoked ==> LoggedOut(s, es, tok)
    ensures LoggedOut(s, es, tok) ==> tok.jti in RunFrom(s, es).revoked || Unix(ClockAfter(t, es)) >= tok.exp
    decreases |es|
  {
    if es != [] {
      var before, e := es[..|es| - 1], es[|es| - 1];
      var r := RunFrom(s, before);
      RunKeeps(s, t, before);
      SignedBefore(r, e, tok);
      UnixMonotone(ClockAfter(t, before), e.now);
      if Signed(r, tok) {
        RevokedIff(s, t, before, tok);
        RevokedAfter(r, ClockAfter(t, before), e, tok);
      } else {
        if LoggedOut(s, before, tok) { LoggedOutWasSigned(s, before, tok); }
      }
    }
  }

  // ---- which tokens were given out ---------------------------------------

  // The refresh token was given out by a successful login, for fifteen hours.
  ghost predicate SignedIn(s: State, es: seq<Timed<Act>>, tok: Refresh) {
    es != [] &&
    (SignedIn(s, es[..|es| - 1], tok) ||
     (var e := es[|es| - 1];
      && e.event.SignIn? && SignsIn(RunFrom(s, es[..|es| - 1]), e.now, e.event.sub, e.event.ok)
      && tok == J.Refresh(e.event.sub, e.event.jti, Unix(e.now), Unix(e.now) + 54_000)))
  }

  // The access token was given out by a successful login or renewal, for half an hour.
  ghost predicate Given(s: State, es: seq<Timed<Act>>, tok: Access) {
    es != [] &&
    (Given(s, es[..|es| - 1], tok) ||
     (var r, e := RunFrom(s, es[..|es| - 1]), es[|es| - 1];
      && tok == Access(tok.sub, Unix(e.now), Unix(e.now) + 1_800)
      && ((e.event.SignIn? && e.event.sub == tok.sub && SignsIn(r, e.now, tok.sub, e.event.ok)) ||
          (e.event.Renew? && e.event.refresh.sub == tok.sub && RefreshAccepted(r, e.event.refresh, e.now)))))
  }

  lemma {:induction false} SignedIff(s: State, t: int, es: seq<Timed<Act>>, tok: Refresh)
    requires Legal(s, t, es)
    ensures Signed(RunFrom(s, es), tok) <==> SignedIn(s, es, tok)
    decreases |es|
  {
    if es != [] {
      var before, e := es[..|es| - 1], es[|es| - 1];
      SignedIff(s, t, before, tok);
      if Signed(RunFrom(s, es), tok) {
        SignedBefore(RunFrom(s, before), e, tok);
      }
    }
  }

  lemma {:induction false} GivenIff(s: State, t: int, es: seq<Timed<Act>>, tok: Access)
    requires Legal(s, t, es)
    ensures tok in RunFrom(s, es).accesses <==> Given(s, es, tok)
    decreases |es|
  {
    if es != [] {
      GivenIff(s, t, es[..|es| - 1], tok);
    }
  }

  // ---- main results ------------------------------------------------------

  // No claim the reader insists on is missing.
  predicate AllClaims(tok: Refresh) { tok.sub != 0 && tok.jti != "" && tok.iat != 0 && tok.exp != 0 }

  // A refresh token is accepted exactly when a login gave it out, it has not run out, its
  // admin is live, and the history holds neither a logout with it nor a later change.
  lemma RefreshIff(s: State, t: int, es: seq<Timed<Act>>, tok: Refresh, now: int)
    requires Legal(s, t, es) && ClockAfter(t, es) <= now
    ensures var r := RunFrom(s, es);
            RefreshAccepted(r, tok, now) <==>
              && SignedIn(s, es, tok) && AllClaims(tok) && now < tok.exp * 1_000_000
              && tok.sub in r.admins && !r.admins[tok.sub].deleted
              && !LoggedOut(s, es, tok) && !ChangedSince(s, es, tok.sub, tok.iat)
  {
    var r := RunFrom(s, es);
    SignedIff(s, t, es, tok);
    if ParseRefresh(r, tok, now) {
      RevokedIff(s, t, es, tok);
      UnixMonotone(ClockAfter(t, es), now);
      assert Issued(r, tok.sub, tok.iat);
      StaleIff(s, t, es, tok.sub, tok.iat);
    }
  }

  // An access token is accepted exactly when a login or a renewal gave it out, it has not
  // run out, and its admin is live and was not changed since.
  lemma AccessIff(s: State, t: int, es: seq<Timed<Act>>, tok: Access, now: int)
    requires Legal(s, t, es) && ClockAfter(t, es) <= now
    ensures var r := RunFrom(s, es);
            AccessAccepted(r, tok, now) <==>
              && Given(s, es, tok) && tok.sub != 0 && tok.iat != 0 && tok.exp != 0 && now < tok.exp * 1_000_000
              && tok.sub in r.admins && !r.admins[tok.sub].deleted
              && !ChangedSince(s, es, tok.sub, tok.iat)
  {
    var r := RunFrom(s, es);
    GivenIff(s, t, es, tok);
    if ParseAccess(r, tok, now) {
      assert Issued(r, tok.sub, tok.iat);
      StaleIff(s, t, es, tok.sub, tok.iat);
    }
  }

  // A logout is accepted exactly from the admin of a token that a login gave out and that
  // has not run out.
  lemma SignsOutIff(s: State, t: int, es: seq<Timed<Act>>, tok: Refresh, caller: int, now: int)
    requires Legal(s, t, es)
    ensures SignsOut(RunFrom(s, es), now, tok, caller) <==>
      SignedIn(s, es, tok) && AllClaims(tok) && now < tok.exp * 1_000_000 && caller == tok.sub
  {
    SignedIff(s, t, es, tok);
  }

  lemma {:induction false} LogoutIsRemembered(s: State, es: seq<Timed<Act>>, i: nat, tok: Refresh)
    requires i < |es| && es[i].event.SignOut? && es[i].event.refresh == tok
    requires SignsOut(RunFrom(s, es[..i]), es[i].now, tok, es[i].event.caller)
    ensures LoggedOut(s, es, tok)
    decreases |es|
  {
    if i < |es| - 1 {
      assert es[..|es| - 1][..i] == es[..i];
      LogoutIsRemembered(s, es[..|es| - 1], i, tok);
    }
  }

  lemma {:induction false} ChangeIsRemembered(s: State, es: seq<Timed<Act>>, i: nat, sub: int, iat: int)
    requires i < |es| && Changes(RunFrom(s, es[..i]), es[i].event, sub) && iat < Unix(es[i].now)
    ensures ChangedSince(s, es, sub, iat)
    decreases |es|
  {
    if i < |es| - 1 {
      assert es[..|es| - 1][..i] == es[..i];
      ChangeIsRemembered(s, es[..|es| - 1], i, sub, iat);
    }
  }

  // Once logged out, a refresh token is never accepted again, whatever follows and
  // however often the revocation table is cleaned.
  lemma LogoutIsForever(s: State, t: int, es: seq<Timed<Act>>, i: nat, tok: Refresh, now: int)
    requires Legal(s, t, es) && ClockAfter(t, es) <= now
    requires i < |es| && es[i].event.SignOut? && es[i].event.refresh == tok
    requires SignsOut(RunFrom(s, es[..i]), es[i].now, tok, es[i].event.caller)
    ensures !RefreshAccepted(RunFrom(s, es), tok, now)
  {
    LogoutIsRemembered(s, es, i, tok);
    RefreshIff(s, t, es, tok, now);
  }

  // After a password, role or branch change or a deletion, every token of the admin
  // from an earlier second is refused for good.
  lemma ChangeCutsOlderTokens(s: State, t: int, es: seq<Timed<Act>>, i: nat, refresh: Refresh, access: Access, now: int)
    requires Legal(s, t, es) && ClockAfter(t, es) <= now
    requires i < |es| && refresh.sub == access.sub && Changes(RunFrom(s, es[..i]), es[i].event, refresh.sub)
    requires refresh.iat < Unix(es[i].now) && access.iat < Unix(es[i].now)
    ensures !RefreshAccepted(RunFrom(s, es), refresh, now)
    ensures !AccessAccepted(RunFrom(s, es), access, now)
  {
    ChangeIsRemembered(s, es, i, refresh.sub, refresh.iat);
    ChangeIsRemembered(s, es, i, access.sub, access.iat);
    RefreshIff(s, t, es, refresh, now);
    AccessIff(s, t, es, access, now);
  }
}
