// Forms.dfy: from the fields of a form to the columns of the tables. What a keyed call
// that finds no fresh row requires, and what it writes and stores.
module Forms {
  import opened Prelude
  import opened Schema
  import opened Calendar
  import opened Answers
  import opened Extension
  import opened Idempotency
  import E = Engine
  import Lifecycle

  // The header and the caller are in order and the body binds.
  predicate WellSent(c: Call) { UuidV4(c.key) && c.readable && c.admin >= 1 }

  // The answer is stored under the key, unless the insert fails or a row is in the way.
  predicate StoresAnswer(w: World, c: Call, now: int, after: World, reply: E.Reply) {
    var row := KeyRow(c.admin, EndpointOf(c.form), c.hash, reply, c.rendered, now);
    after.keys == if c.kept && c.key !in w.keys then w.keys[c.key := row] else w.keys
  }

  // ---- grant -------------------------------------------------------------

  predicate GrantFilled(db: Db, f: Form) {
    && f.GrantForm?
    && (f.kind == "pass10" || (f.kind == "monthly" && f.months.Some? && f.months.value >= 1))
    && f.amount >= 1 && (f.tender == "cash" || f.tender == "card")
    && f.start.Some? && f.start.value >= db.today
    && Reached(db, f.member, f.scope)
  }

  // The membership and the payment a filled form describes.
  function MembershipAsked(f: Form): Membership
    requires f.GrantForm? && f.start.Some? && (f.kind == "monthly" ==> f.months.Some?)
  {
    var plan := if f.kind == "monthly" then Monthly(f.months.value) else Pass10(10);
    Membership(f.member, plan, f.start.value, f.start.value + f.term, Active, None, false)
  }

  function PaymentAsked(db: Db, f: Form): Payment
    requires f.GrantForm? && f.member in db.members
  {
    Payment(|db.rows|, db.members[f.member].branch, f.amount, if f.tender == "card" then Card else Cash, db.today)
  }

  lemma GrantGuardIff(db: Db, f: Form)
    requires f.GrantForm?
    ensures GrantGuard(db, f).None? <==> GrantFilled(db, f)
  {
  }

  lemma GrantEffect(db: Db, f: Form)
    requires GrantFilled(db, f) && CalendarOk(db)
    ensures E.Step(db, RequestOf(f)) ==
      if Collides(db.rows, |db.rows|, MembershipAsked(f)) then E.Outcome(db, E.PeriodOverlap)
      else
        E.Outcome(db.(rows := db.rows + [MembershipAsked(f)], payments := db.payments + [PaymentAsked(db, f)]), E.Done)
  {
    var q := RequestOf(f);
    GrantAnswers(db, q.member, q.scope, q.offer, q.start, q.term, q.amount, q.tender);
  }

  // A grant call is answered, and its answer stored, exactly when everything is filled in
  // and the term is free; then one row and one payment are added, with the values of the
  // form. A call that is not answered changes nothing at all.
  lemma GrantCall(w: World, c: Call, now: int)
    requires c.form.GrantForm? && CalendarOk(w.db) && Find(w.keys, c.key, now).None?
    ensures var (after, r) := Serve(w, c, now);
      if WellSent(c) && GrantFilled(w.db, c.form) && !Collides(w.db.rows, |w.db.rows|, MembershipAsked(c.form))
      then
        && r == Answer(E.Done, c.rendered)
        && after.db == w.db.(rows := w.db.rows + [MembershipAsked(c.form)],
                             payments := w.db.payments + [PaymentAsked(w.db, c.form)])
        && StoresAnswer(w, c, now, after, E.Done)
      else after == w && !r.Answer?
  {
    GrantGuardIff(w.db, c.form);
    if Guard(w.db, c).None? {
      GrantEffect(w.db, c.form);
    }
  }

  // ---- refund ------------------------------------------------------------

  // A refund call is answered exactly for a reason that is not blank and a membership in
  // reach that is active or paused; it refunds the membership of its path.
  lemma RefundCall(w: World, c: Call, now: int)
    requires c.form.RefundForm? && CalendarOk(w.db) && Lifecycle.AllPaid(w.db) && Find(w.keys, c.key, now).None?
    ensures var (after, r) := Serve(w, c, now);
      var id := c.form.id;
      if WellSent(c) && !Blank(c.form.reason) && InReach(w.db, id, c.form.scope)
        && w.db.rows[id].status in {Active, Paused}
      then
        && r == Answer(E.Done, c.rendered)
        && |after.db.payments| == |w.db.payments| + 1
        && var p := after.db.payments[|w.db.payments|];
        && MirrorsOne(w.db.payments, id, p, w.db.today)
        && after.db == w.db.(rows := w.db.rows[id := w.db.rows[id].(status := Refunded)],
                             payments := w.db.payments + [p], events := w.db.events + [Event(id, MoneyBack)])
        && StoresAnswer(w, c, now, after, E.Done)
      else after == w && !r.Answer?
  {
    if Guard(w.db, c).None? {
      RefundAnswers(w.db, c.form.id, c.form.scope);
    }
  }

  // ---- bulk extension ----------------------------------------------------

  predicate BulkFilled(f: Form) {
    && f.BulkForm? && 1 <= f.days <= 90 && !Blank(f.reason)
    && (f.only.None? || f.only.value == "monthly" || f.only.value == "pass10")
  }

  // The rows the form names.
  predicate Named(db: Db, f: Form, m: Membership)
    requires f.BulkForm?
  {
    && m.status in {Active, Paused}
    && Reached(db, m.member, f.branch)
    && (f.only == Some("monthly") ==> m.plan.Monthly?)
    && (f.only == Some("pass10") ==> m.plan.Pass10?)
  }

  predicate NamedReaches(db: Db, f: Form, i: int)
    requires f.BulkForm?
  {
    0 <= i < |db.rows| && Named(db, f, db.rows[i]) && E.Reaches(db.rows, i, f.days)
  }

  predicate NamedMoved(db: Db, f: Form, before: Membership, after: Membership)
    requires f.BulkForm?
  {
    if Named(db, f, before)
    then
      var w := before.pause;
      var shifted := if w.Some? then Some(Window(w.value.from + f.days, w.value.until + f.days)) else None;
      after == before.(end := before.end + f.days, pause := shifted)
    else after == before
  }

  predicate HasNewEvent(db: Db, after: Db, i: int) {
    exists k :: |db.events| <= k < |after.events| && after.events[k].membership == i
  }

  // The new events: one for every row the form names, in order of id, and no other.
  ghost predicate EventsNamed(db: Db, f: Form, after: Db)
    requires f.BulkForm?
  {
    && db.events <= after.events
    && (forall k, l :: |db.events| <= k < l < |after.events| ==>
          after.events[k].membership < after.events[l].membership)
    && (forall k :: |db.events| <= k < |after.events| ==> after.events[k].action == DaysAdded(f.days))
    && (forall i :: HasNewEvent(db, after, i) <==> 0 <= i < |db.rows| && Named(db, f, db.rows[i]))
  }

  ghost predicate BulkDone(db: Db, f: Form, after: Db, reply: E.Reply)
    requires f.BulkForm?
  {
    && |after.rows| == |db.rows| && after == db.(rows := after.rows, events := after.events)
    && (forall i :: 0 <= i < |db.rows| ==> NamedMoved(db, f, db.rows[i], after.rows[i]))
    && EventsNamed(db, f, after) && reply == E.ExtendedRows(|after.events| - |db.events|)
  }

  lemma NamedIsMeant(db: Db, f: Form, m: Membership)
    requires BulkFilled(f)
    ensures Named(db, f, m) <==> Meant(db, RequestOf(f).filter, m)
  {
  }

  lemma NamedIsMoved(db: Db, f: Form, before: Membership, after: Membership)
    requires BulkFilled(f) && RowMoved(db, RequestOf(f).filter, f.days, before, after)
    ensures NamedMoved(db, f, before, after)
  {
    NamedIsMeant(db, f, before);
  }

  lemma NamedIsLogged(db: Db, f: Form, after: Db)
    requires BulkFilled(f) && EventsAdded(db, RequestOf(f).filter, f.days, after)
    ensures EventsNamed(db, f, after)
  {
    forall i
      ensures HasNewEvent(db, after, i) <==> 0 <= i < |db.rows| && Named(db, f, db.rows[i])
    {
      if 0 <= i < |db.rows| {
        NamedIsMeant(db, f, db.rows[i]);
      }
    }
  }

  lemma NamedReach(db: Db, f: Form)
    requires BulkFilled(f)
    ensures forall i :: NamedReaches(db, f, i) <==> MeantReaches(db, RequestOf(f).filter, f.days, i)
  {
    forall i
      ensures NamedReaches(db, f, i) <==> MeantReaches(db, RequestOf(f).filter, f.days, i)
    {
      if 0 <= i < |db.rows| {
        NamedIsMeant(db, f, db.rows[i]);
      }
    }
  }

  lemma BulkEffect(db: Db, f: Form)
    requires BulkFilled(f) && CalendarOk(db)
    ensures var out := E.Step(db, RequestOf(f));
      if exists i :: NamedReaches(db, f, i)
      then out.db == db && out.reply.ConflictAt? && NamedReaches(db, f, out.reply.id)
      else BulkDone(db, f, out.db, out.reply)
  {
    var q := RequestOf(f);
    StepIsBulk(db, q);
    NamedReach(db, f);
    if i :| NamedReaches(db, f, i) {
      assert MeantReaches(db, q.filter, f.days, i);
      RefusedExtension(db, q.filter, f.days);
    } else {
      AcceptedExtension(db, q.filter, f.days);
      var after := E.BulkExtend(db, q.filter, f.days).db;
      forall i | 0 <= i < |db.rows|
        ensures NamedMoved(db, f, db.rows[i], after.rows[i])
      {
        NamedIsMoved(db, f, db.rows[i], after.rows[i]);
      }
      NamedIsLogged(db, f, after);
    }
  }

  lemma BulkGuardIff(f: Form)
    requires f.BulkForm?
    ensures BulkGuard(f).None? <==> BulkFilled(f)
  {
  }

  // A bulk-extension call that is filled in is answered and stored, success or conflict.
  // On success exactly the rows the form names move, by its days, with one event each.
  lemma BulkCall(w: World, c: Call, now: int)
    requires c.form.BulkForm? && CalendarOk(w.db) && Find(w.keys, c.key, now).None?
    ensures var (after, r) := Serve(w, c, now);
      if WellSent(c) && BulkFilled(c.form)
      then
        && r.Answer? && r.body == c.rendered && StoresAnswer(w, c, now, after, r.reply)
        && if exists i :: NamedReaches(w.db, c.form, i)
           then after.db == w.db && r.reply.ConflictAt? && NamedReaches(w.db, c.form, r.reply.id)
           else BulkDone(w.db, c.form, after.db, r.reply)
      else after == w && !r.Answer?
  {
    BulkGuardIff(c.form);
    if Guard(w.db, c).None? {
      BulkEffect(w.db, c.form);
      BulkIsStored(w.db, RequestOf(c.form));
      Performed(w, c, now, E.Step(w.db, RequestOf(c.form)));
    }
  }
}
