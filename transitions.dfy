/**
 * What each state-changing function of SubscriptionService/DBFunc.js does to the
 * store, as one function from the state before to the state after and the
 * function's return value. A BEGIN...COMMIT block that fails leaves `db` as it
 * was; the id sequence moves on regardless. `candidates` are the codes the
 * call's own Math.random() values yield.
 */
module Transitions {
  import opened Wrappers
  import opened Tables
  import opened CodeAuthority

  /**
   * The store together with what a rollback does not undo: the next value of
   * the subscriber id sequence.
   */
  datatype Sys = Sys(db: Db, nextId: int)

  ghost predicate SysValid(s: Sys)
  {
    && s.db.Valid()
    && s.nextId >= 1
    && forall id | id in s.db.subscribers.byId :: id < s.nextId
  }

  /** Every code table except those of the kinds in `ks` is the same in `a` and `b`. */
  ghost predicate CodeTablesSameExcept(a: Db, b: Db, ks: set<Kind>)
  {
    && (Confirmation !in ks ==> a.confirmation == b.confirmation)
    && (Update !in ks ==> a.update == b.update)
    && (Unsubscribe !in ks ==> a.unsubscribe == b.unsubscribe)
    && (Pending !in ks ==> a.pending == b.pending)
  }

  // subscribe

  /** The two guard statements at the top of subscribe. */
  predicate SubscribeAccepts(sub: Option<User>)
  {
    && sub.Some?
    && sub.value.freq != "" && sub.value.email != ""
    && sub.value.sex != "" && sub.value.age != 0 && sub.value.system != ""
    && sub.value.weight != 0 && sub.value.height != 0
    && sub.value.estBmr != 0 && sub.value.estTdee != 0
  }

  /** The three rows of a new subscriber `id` with its confirmation code. */
  function AddSubscriber(db: Db, id: int, u: User, freqId: int, code: int, now: int): (d: Db)
    requires db.Valid() && id >= 1 && id !in db.Ids() && u.email !in db.subscribers.byEmail
    requires code !in db.confirmation.byCode && MIN_CODE <= code <= MAX_CODE
    ensures d.Valid()
  {
    var d := db.(subscribers := db.subscribers.Insert(id, Subscriber(u.email, freqId, false, None)),
                 measurements := db.measurements[id := MeasurementsRow(MeasurementsOf(u), now)],
                 confirmation := db.confirmation.Put(id, CodeRow(code, now, now + Window(Confirmation), ())));
    AddedWellFormed(db, d, id, u, freqId, code, now);
    d
  }

  lemma AddedWellFormed(db: Db, d: Db, id: int, u: User, freqId: int, code: int, now: int)
    requires db.Valid() && id >= 1 && id !in db.Ids() && u.email !in db.subscribers.byEmail
    requires code !in db.confirmation.byCode && MIN_CODE <= code <= MAX_CODE
    requires d == db.(subscribers := db.subscribers.Insert(id, Subscriber(u.email, freqId, false, None)),
                 measurements := db.measurements[id := MeasurementsRow(MeasurementsOf(u), now)],
                 confirmation := db.confirmation.Put(id, CodeRow(code, now, now + Window(Confirmation), ())))
    ensures d.Valid()
  {
    assert d.Ids() == db.Ids() + {id};
    PutWellFormed(db.confirmation, d.Ids(), id, CodeRow(code, now, now + Window(Confirmation), ()));
    CodesWellFormedGrow(db.update, db.Ids(), d.Ids());
    CodesWellFormedGrow(db.unsubscribe, db.Ids(), d.Ids());
    CodesWellFormedGrow(db.pending, db.Ids(), d.Ids());
    assert d.measurements.Keys == d.Ids();
    forall i | i in d.subscribers.byId
      ensures i >= 1 && (i in d.reminders <==> d.subscribers.byId[i].confirmed)
    {
      if i != id {
        assert i in db.subscribers.byId && d.subscribers.byId[i] == db.subscribers.byId[i];
      }
    }
  }

  lemma PutWellFormed<P>(t: CodeTable<P>, ids: set<int>, sub: int, row: CodeRow<P>)
    requires CodesWellFormed(t, ids) && sub in ids
    requires row.code !in t.byCode && MIN_CODE <= row.code <= MAX_CODE
    ensures CodesWellFormed(t.Put(sub, row), ids)
  {
  }

  lemma CodesWellFormedGrow<P>(t: CodeTable<P>, ids: set<int>, more: set<int>)
    requires CodesWellFormed(t, ids) && ids <= more
    ensures CodesWellFormed(t, more)
  {
  }

  /** `after` is `before` with the rows a successful subscribe of `u` as `id` inserts, and nothing else. */
  ghost predicate Subscribed(before: Db, after: Db, id: int, u: User, now: int)
  {
    && id !in before.Ids()
    && FreqId(before.frequency, u.freq).Some?
    && after.subscribers.byId == before.subscribers.byId[id := Subscriber(u.email, FreqId(before.frequency, u.freq).value, false, None)]
    && after.measurements == before.measurements[id := MeasurementsRow(MeasurementsOf(u), now)]
    && id in after.confirmation.bySub
    && after.confirmation.bySub == before.confirmation.bySub[id := after.confirmation.bySub[id]]
    && after.confirmation.bySub[id].code !in before.confirmation.byCode
    && after.confirmation.bySub[id].created == now
    && after.confirmation.bySub[id].expires == now + Window(Confirmation)
    && CodeTablesSameExcept(before, after, {Confirmation})
    && after.reminders == before.reminders
    && after.frequency == before.frequency
  }

  /**
   * subscribe: rejects a malformed user outright; otherwise takes the next id and
   * inserts subscriber, measurements and confirmation code in one transaction,
   * which an unknown frequency, a taken email or a failed code generation rolls back.
   *
   * DBFunc's Store.Subscribe runs it statement by statement.
   */
  function SubscribeSpec(s: Sys, candidates: Candidates, sub: Option<User>, now: int): (r: (Sys, Option<int>))
    requires SysValid(s)
    ensures SysValid(r.0)
    ensures !SubscribeAccepts(sub) ==> r == (s, None)
    ensures r.1.None? ==> r.0.db == s.db
    ensures sub.Some? && sub.value.email in s.db.subscribers.byEmail ==> r.1.None?
    ensures r.1.Some? ==> SubscribeAccepts(sub) && r.1.value == s.nextId && Subscribed(s.db, r.0.db, r.1.value, sub.value, now)
    ensures SubscribeAccepts(sub) ==> r.0.nextId == s.nextId + 1
    ensures sub.Some? && FreqId(s.db.frequency, sub.value.freq).None? ==> r.1.None?
    ensures SubscribeAccepts(sub) && FreqId(s.db.frequency, sub.value.freq).Some? && sub.value.email !in s.db.subscribers.byEmail ==>
      (r.1.Some? <==> Generate(s.db, Confirmation, candidates).code.Some?)
    ensures r.1.Some? ==> r.0.db.confirmation.bySub[r.1.value].code == Generate(s.db, Confirmation, candidates).code.value
  {
    if !SubscribeAccepts(sub) then (s, None)
    else
      var u := sub.value;
      var id := s.nextId;
      // nextval is taken by the INSERT even when the transaction rolls back
      var s1 := s.(nextId := s.nextId + 1);
      var freqId := FreqId(s.db.frequency, u.freq);
      if freqId.None? || u.email in s.db.subscribers.byEmail then (s1, None)
      else
        var g := Generate(s.db, Confirmation, candidates);
        if g.code.None? then (s1, None)
        else (s1.(db := AddSubscriber(s.db, id, u, freqId.value, g.code.value, now)), Some(id))
  }

  // confirmSubscriber

  /**
   * confirmSubscriber: an unknown or already confirmed subscriber is refused;
   * otherwise one transaction confirms, drops the confirmation code and schedules
   * the first reminder `numDays` days from now (an unknown frequency rolls it back).
   *
   * DBFunc's Store.ConfirmSubscriber runs it statement by statement.
   */
  function ConfirmSubscriberSpec(db: Db, id: int, now: int): (r: (Db, bool))
    requires db.Valid()
    ensures r.0.Valid()
    ensures !r.1 ==> r.0 == db
    ensures SelectSubscriberById(db, id).None? ==> !r.1
    ensures SelectSubscriberById(db, id).Some? && SelectSubscriberById(db, id).value.confirmed ==> !r.1
    ensures r.1 ==>
      && id in db.Ids() && !db.subscribers.byId[id].confirmed
      && r.0.subscribers.byId == db.subscribers.byId[id := db.subscribers.byId[id].(confirmed := true, dateConfirmed := Some(now))]
      && r.0.confirmation.bySub == db.confirmation.bySub - {id}
      && FreqNumDays(db.frequency, db.subscribers.byId[id].freqId).Some?
      && r.0.reminders == db.reminders[id := now + FreqNumDays(db.frequency, db.subscribers.byId[id].freqId).value * DAY]
      && r.0.measurements == db.measurements
      && CodeTablesSameExcept(db, r.0, {Confirmation})
  {
    var user := SelectSubscriberById(db, id);
    if user.None? || user.value.confirmed then (db, false)
    else
      var numDays := FreqNumDays(db.frequency, user.value.freqId);
      if numDays.None? then (db, false)
      else
        var d := db.(subscribers := db.subscribers.Replace(id, user.value.(confirmed := true, dateConfirmed := Some(now))),
                     confirmation := db.confirmation.RemoveSub(id),
                     reminders := db.reminders[id := now + numDays.value * DAY]);
        ConfirmedWellFormed(db, d, id, now, now + numDays.value * DAY);
        (d, true)
  }

  lemma ConfirmedWellFormed(db: Db, d: Db, id: int, now: int, due: int)
    requires db.Valid() && id in db.Ids()
    requires d == db.(subscribers := db.subscribers.Replace(id, db.subscribers.byId[id].(confirmed := true, dateConfirmed := Some(now))),
                      confirmation := db.confirmation.RemoveSub(id),
                      reminders := db.reminders[id := due])
    ensures d.Valid()
  {
    RemoveSubWellFormed(db.confirmation, db.Ids(), id);
    CodesWellFormedGrow(d.confirmation, db.Ids() - {id}, d.Ids());
    forall i | i in d.subscribers.byId
      ensures i >= 1 && (i in d.reminders <==> d.subscribers.byId[i].confirmed)
    {
      if i != id {
        assert i in db.subscribers.byId && d.subscribers.byId[i] == db.subscribers.byId[i];
      }
    }
  }

  // updateConfirmedSubscriber

  /**
   * updateConfirmedSubscriber: stages `values` in a pending_update row under a
   * fresh code; the insert fails for an unknown subscriber or one that already
   * has a pending update. Measurements are never touched.
   *
   * DBFunc's Store.UpdateConfirmedSubscriber runs it statement by statement.
   */
  function UpdateConfirmedSubscriberSpec(db: Db, candidates: Candidates, subId: int, values: Option<Measurements>, now: int): (r: (Db, bool))
    requires db.Valid()
    ensures r.0.Valid()
    ensures !r.1 ==> r.0 == db
    ensures subId == 0 || values.None? ==> r == (db, false)
    ensures r.1 ==>
      && subId in db.Ids() && subId !in db.pending.bySub
      && subId in r.0.pending.bySub
      && r.0.pending.bySub == db.pending.bySub[subId := r.0.pending.bySub[subId]]
      && r.0.pending.bySub[subId].payload == values.value
      && r.0.pending.bySub[subId].code !in db.pending.byCode
      && r.0.pending.bySub[subId].expires == now + Window(Pending)
      && r.0.measurements == db.measurements
      && r.0.subscribers == db.subscribers
      && r.0.reminders == db.reminders
      && CodeTablesSameExcept(db, r.0, {Pending})
    ensures subId != 0 && values.Some? && subId in db.Ids() && subId !in db.pending.bySub ==>
      (r.1 <==> Generate(db, Pending, candidates).code.Some?)
    ensures r.1 ==> r.0.pending.bySub[subId].code == Generate(db, Pending, candidates).code.value
  {
    if subId == 0 || values.None? then (db, false)
    else
      var g := Generate(db, Pending, candidates);
      if g.code.None? then (db, false)
      // the foreign key and the unique sub_id of pending_update
      else if subId !in db.Ids() || subId in db.pending.bySub then (db, false)
      else
        var row := CodeRow(g.code.value, now, now + Window(Pending), values.value);
        (db.(pending := db.pending.Put(subId, row)), true)
  }

  // updatePendingSubscriber

  /**
   * updatePendingSubscriber: in one transaction, replaces the measurements and
   * the confirmation code of `subId`. The new code is generated against the
   * committed tables, which still hold the old code; a failed generation leaves
   * a null code, whose insert fails and rolls everything back.
   *
   * DBFunc's Store.UpdatePendingSubscriber runs it statement by statement.
   */
  function UpdatePendingSubscriberSpec(db: Db, candidates: Candidates, subId: int, values: Option<Measurements>, now: int): (r: (Db, bool))
    requires db.Valid()
    ensures r.0.Valid()
    ensures !r.1 ==> r.0 == db
    ensures subId == 0 || values.None? || subId !in db.Ids() ==> r == (db, false)
    ensures r.1 ==>
      && subId in db.Ids()
      && r.0.measurements == db.measurements[subId := MeasurementsRow(values.value, now)]
      && subId in r.0.confirmation.bySub
      && r.0.confirmation.bySub == db.confirmation.bySub[subId := r.0.confirmation.bySub[subId]]
      && r.0.confirmation.bySub[subId].code !in db.confirmation.byCode
      && r.0.confirmation.bySub[subId].expires == now + Window(Confirmation)
      && r.0.subscribers == db.subscribers
      && r.0.reminders == db.reminders
      && CodeTablesSameExcept(db, r.0, {Confirmation})
    ensures subId != 0 && values.Some? && subId in db.Ids() ==> (r.1 <==> Generate(db, Confirmation, candidates).code.Some?)
    ensures r.1 ==> r.0.confirmation.bySub[subId].code == Generate(db, Confirmation, candidates).code.value
  {
    if subId == 0 || values.None? then (db, false)
    // the measurements insert violates the foreign key
    else if subId !in db.Ids() then (db, false)
    else
      var g := Generate(db, Confirmation, candidates);
      if g.code.None? then (db, false)
      else
        var row := CodeRow(g.code.value, now, now + Window(Confirmation), ());
        var d := db.(measurements := db.measurements[subId := MeasurementsRow(values.value, now)],
                     confirmation := db.confirmation.Put(subId, row));
        (d, true)
  }

  // confirmPendingUpdate

  /**
   * confirmPendingUpdate: None (null) for a falsy id or when nothing is staged;
   * otherwise applies the staged values, stamped now, and drops the staged row.
   *
   * DBFunc's Store.ConfirmPendingUpdate runs it statement by statement.
   */
  function ConfirmPendingUpdateSpec(db: Db, subId: int, now: int): (r: (Db, Option<bool>))
    requires db.Valid()
    ensures r.0.Valid()
    ensures r.1 != Some(false)
    ensures r.1.None? <==> SelectPendingUpdateBySubId(db, subId).None?
    ensures r.1.None? ==> r.0 == db
    ensures r.1 == Some(true) ==>
      && r.0.measurements == db.measurements[subId := MeasurementsRow(db.pending.bySub[subId].payload, now)]
      && r.0.pending.bySub == db.pending.bySub - {subId}
      && r.0.subscribers == db.subscribers
      && r.0.reminders == db.reminders
      && CodeTablesSameExcept(db, r.0, {Pending})
  {
    var staged := SelectPendingUpdateBySubId(db, subId);
    if staged.None? then (db, None)
    else
      var d := db.(measurements := db.measurements[subId := MeasurementsRow(staged.value.payload, now)],
                   pending := db.pending.RemoveSub(subId));
      (d, Some(true))
  }

  // updateSubMeasurements

  /** One column of updateSubMeasurements: written only when the new value is truthy and differs. */
  function MergeText(stored: string, given: string): string
  {
    if given != "" && given != stored then given else stored
  }

  function MergeNumber(stored: int, given: int): int
  {
    if given != 0 && given != stored then given else stored
  }

  /** The columns updateSubMeasurements writes, one conditional UPDATE each. */
  function Merge(stored: Measurements, given: Measurements): (m: Measurements)
    ensures m.sex == (if given.sex != "" then given.sex else stored.sex)
    ensures m.age == (if given.age != 0 then given.age else stored.age)
    ensures m.system == (if given.system != "" then given.system else stored.system)
    ensures m.weight == (if given.weight != 0 then given.weight else stored.weight)
    ensures m.height == (if given.height != 0 then given.height else stored.height)
    ensures m.estBmr == (if given.estBmr != 0 then given.estBmr else stored.estBmr)
    ensures m.estTdee == (if given.estTdee != 0 then given.estTdee else stored.estTdee)
  {
    Measurements(
      MergeText(stored.sex, given.sex), MergeNumber(stored.age, given.age),
      MergeText(stored.system, given.system), MergeNumber(stored.weight, given.weight),
      MergeNumber(stored.height, given.height), MergeNumber(stored.estBmr, given.estBmr),
      MergeNumber(stored.estTdee, given.estTdee))
  }

  /**
   * updateSubMeasurements: null for a falsy id, a missing object or a subscriber
   * without measurements; otherwise the merged row, stamped now, which it also returns.
   *
   * DBFunc's Store.UpdateSubMeasurements runs it statement by statement.
   */
  function UpdateSubMeasurementsSpec(db: Db, subId: int, values: Option<Measurements>, now: int): (r: (Db, Option<MeasurementsRow>))
    requires db.Valid()
    ensures r.0.Valid()
    ensures r.1.None? <==> values.None? || SelectSubMeasurements(db, subId).None?
    ensures r.1.None? ==> r.0 == db
    ensures r.1.Some? ==>
      && r.1.value == MeasurementsRow(Merge(db.measurements[subId].values, values.value), now)
      && r.0 == db.(measurements := db.measurements[subId := r.1.value])
  {
    if subId == 0 || values.None? then (db, None)
    else
      var current := SelectSubMeasurements(db, subId);
      if current.None? then (db, None)
      else
        var row := MeasurementsRow(Merge(current.value.values, values.value), now);
        (db.(measurements := db.measurements[subId := row]), Some(row))
  }

  // newUpdateCode

  /**
   * newUpdateCode: draws a fresh update code, then inserts the subscriber's row
   * or overwrites the one it has, expiring 7 days from now; the row is returned.
   *
   * DBFunc's Store.NewUpdateCode runs it statement by statement.
   */
  function NewUpdateCodeSpec(db: Db, candidates: Candidates, subId: int, now: int): (r: (Db, Option<CodeRow<()>>))
    requires db.Valid()
    ensures r.0.Valid()
    ensures r.1.None? ==> r.0 == db
    ensures subId == 0 ==> r == (db, None)
    ensures r.1.Some? ==>
      && subId in db.Ids()
      && r.1.value.code !in db.update.byCode
      && MIN_CODE <= r.1.value.code <= MAX_CODE
      && r.1.value.created == now && r.1.value.expires == now + 7 * DAY
      && r.0 == db.(update := r.0.update)
      && r.0.update.bySub == db.update.bySub[subId := r.1.value]
    ensures subId != 0 && subId in db.Ids() ==> (r.1.Some? <==> Generate(db, Update, candidates).code.Some?)
    ensures r.1.Some? ==> r.1.value.code == Generate(db, Update, candidates).code.value
  {
    if subId == 0 then (db, None)
    else
      var g := Generate(db, Update, candidates);
      if g.code.None? then (db, None)
      else
        var row := CodeRow(g.code.value, now, now + 7 * DAY, ());
        var existing := SelectCodeBySubId(db, Update, subId);
        // without a row to UPDATE, the INSERT violates the foreign key
        if existing.None? && subId !in db.Ids() then (db, None)
        else
          (db.(update := db.update.Put(subId, row)), Some(row))
  }

  // insertUnsubscribeCode

  /**
   * insertUnsubscribeCode: refuses a subscriber that already has an unsubscribe
   * code; otherwise inserts one with a fresh code (a failed generation leaves a
   * null code, whose insert fails), expiring 30 minutes from now.
   *
   * DBFunc's Store.InsertUnsubscribeCode runs it statement by statement.
   */
  function InsertUnsubscribeCodeSpec(db: Db, candidates: Candidates, subId: int, now: int): (r: (Db, Option<CodeRow<()>>))
    requires db.Valid()
    ensures r.0.Valid()
    ensures r.1.None? ==> r.0 == db
    ensures subId == 0 || subId in db.unsubscribe.bySub ==> r == (db, None)
    ensures r.1.Some? ==>
      && subId in db.Ids() && subId !in db.unsubscribe.bySub
      && r.1.value.code !in db.unsubscribe.byCode
      && MIN_CODE <= r.1.value.code <= MAX_CODE
      && r.1.value.created == now && r.1.value.expires == now + Window(Unsubscribe)
      && r.0 == db.(unsubscribe := r.0.unsubscribe)
      && r.0.unsubscribe.bySub == db.unsubscribe.bySub[subId := r.1.value]
    ensures subId != 0 && subId in db.Ids() && subId !in db.unsubscribe.bySub ==>
      (r.1.Some? <==> Generate(db, Unsubscribe, candidates).code.Some?)
    ensures r.1.Some? ==> r.1.value.code == Generate(db, Unsubscribe, candidates).code.value
  {
    if subId == 0 then (db, None)
    else if SelectCodeBySubId(db, Unsubscribe, subId).Some? then
      (db, None)
    else
      var g := Generate(db, Unsubscribe, candidates);
      if g.code.None? || subId !in db.Ids() then (db, None)
      else
        var row := CodeRow(g.code.value, now, now + Window(Unsubscribe), ());
        (db.(unsubscribe := db.unsubscribe.Put(subId, row)), Some(row))
  }

  // deletions

  /**
   * `b` is `a` without the subscribers in `gone` and without every row that
   * refers to them; every other row, and the frequency table, is unchanged.
   */
  ghost predicate RemovedSubscribers(a: Db, b: Db, gone: set<int>)
  {
    && b.subscribers.byId == a.subscribers.byId - gone
    && b.measurements == a.measurements - gone
    && b.reminders == a.reminders - gone
    && b.pending.bySub == a.pending.bySub - gone
    && (forall k: Kind :: b.Rows(k) == a.Rows(k) - gone)
    && b.frequency == a.frequency
  }

  /** Removing a subscriber with ON DELETE CASCADE on every table that refers to it. */
  function Cascade(db: Db, id: int): (d: Db)
    requires db.Valid()
    ensures d.Valid()
    ensures d.Ids() == db.Ids() - {id}
    ensures RemovedSubscribers(db, d, {id})
  {
    var d := Db(db.subscribers.Remove(id), db.measurements - {id},
      db.confirmation.RemoveSub(id), db.update.RemoveSub(id), db.unsubscribe.RemoveSub(id),
      db.pending.RemoveSub(id), db.reminders - {id}, db.frequency);
    CascadeWellFormed(db, d, id);
    d
  }

  lemma CascadeWellFormed(db: Db, d: Db, id: int)
    requires db.Valid()
    requires d == Db(db.subscribers.Remove(id), db.measurements - {id},
      db.confirmation.RemoveSub(id), db.update.RemoveSub(id), db.unsubscribe.RemoveSub(id),
      db.pending.RemoveSub(id), db.reminders - {id}, db.frequency)
    ensures d.Valid()
    ensures forall k: Kind :: d.Rows(k) == db.Rows(k) - {id}
  {
    assert d.Ids() == db.Ids() - {id};
    RemoveSubWellFormed(db.confirmation, db.Ids(), id);
    RemoveSubWellFormed(db.update, db.Ids(), id);
    RemoveSubWellFormed(db.unsubscribe, db.Ids(), id);
    RemoveSubWellFormed(db.pending, db.Ids(), id);
    forall k: Kind
      ensures d.Rows(k) == db.Rows(k) - {id}
    {
      match k
      case Confirmation =>
      case Update =>
      case Unsubscribe =>
      case Pending =>
    }
  }

  lemma RemoveSubWellFormed<P>(t: CodeTable<P>, ids: set<int>, id: int)
    requires CodesWellFormed(t, ids)
    ensures CodesWellFormed(t.RemoveSub(id), ids - {id})
    ensures Stamps(t.RemoveSub(id)) == Stamps(t) - {id}
  {
  }

  /**
   * deleteSubscriberById: null for a falsy id, else the number of subscribers deleted.
   *
   * DBFunc's Store.DeleteSubscriberById runs it statement by statement.
   */
  function DeleteSubscriberByIdSpec(db: Db, id: int): (r: (Db, Option<nat>))
    requires db.Valid()
    ensures r.0.Valid()
    ensures r.1.None? <==> id == 0
    ensures r.1 == Some(1) <==> id in db.Ids()
    ensures r.1.Some? ==> r.1.value <= 1 && r.0.Ids() == db.Ids() - {id}
    ensures r.1 != Some(1) ==> r.0 == db
    ensures r.1 == Some(1) ==> r.0 == Cascade(db, id)
  {
    if id == 0 then (db, None)
    else if id in db.Ids() then (Cascade(db, id), Some(1))
    else (db, Some(0))
  }

  /**
   * deleteUpdateCodeBySubId: null for a falsy id, else the number of rows deleted.
   *
   * DBFunc's Store.DeleteUpdateCodeBySubId runs it statement by statement.
   */
  function DeleteUpdateCodeBySubIdSpec(db: Db, subId: int): (r: (Db, Option<nat>))
    requires db.Valid()
    ensures r.0.Valid()
    ensures r.1.None? <==> subId == 0
    ensures r.1 == Some(1) <==> subId != 0 && subId in db.update.bySub
    ensures r.1.Some? ==> r.1.value <= 1 && r.0 == db.(update := r.0.update) && r.0.update.bySub == db.update.bySub - {subId}
    ensures r.1 != Some(1) ==> r.0 == db
  {
    if subId == 0 then (db, None)
    else if subId in db.update.bySub then (db.(update := db.update.RemoveSub(subId)), Some(1))
    else (db, Some(0))
  }

  /**
   * deleteUpdateCodeByCode, deleteUnsubscribeCodeByCode and
   * deletePendingUpdateByCode: null for a falsy code, else the number of rows deleted.
   *
   * DBFunc's Store.DeleteUpdateCodeByCode, Store.DeleteUnsubscribeCodeByCode and
   * Store.DeletePendingUpdateByCode run it statement by statement.
   */
  function DeleteByCodeSpec(db: Db, k: Kind, code: int): (r: (Db, Option<nat>))
    requires db.Valid()
    ensures r.0.Valid()
    ensures r.1.None? <==> code == 0
    ensures r.1 == Some(1) <==> SelectOwnerByCode(db, k, code).Some?
    ensures r.1.Some? ==> r.1.value <= 1
    ensures r.1 != Some(1) ==> r.0 == db
    ensures r.1 == Some(1) ==>
      && r.0.Rows(k) == db.Rows(k) - {db.Codes(k)[code]}
      && r.0.subscribers == db.subscribers && r.0.measurements == db.measurements && r.0.reminders == db.reminders
      && r.0.frequency == db.frequency
      && CodeTablesSameExcept(db, r.0, {k})
  {
    if code == 0 then (db, None)
    else if code !in db.Codes(k) then (db, Some(0))
    else
      RemoveCodeWellFormed(db, k, code);
      (WithoutCode(db, k, code), Some(1))
  }

  /** The store with the row holding `code` gone from the table of kind `k`. */
  function WithoutCode(db: Db, k: Kind, code: int): (d: Db)
    requires db.Valid()
    ensures d.subscribers == db.subscribers && d.measurements == db.measurements
    ensures d.reminders == db.reminders && d.frequency == db.frequency
    ensures CodeTablesSameExcept(db, d, {k})
  {
    match k
    case Confirmation => db.(confirmation := db.confirmation.RemoveCode(code))
    case Update => db.(update := db.update.RemoveCode(code))
    case Unsubscribe => db.(unsubscribe := db.unsubscribe.RemoveCode(code))
    case Pending => db.(pending := db.pending.RemoveCode(code))
  }

  lemma RemoveCodeWellFormed(db: Db, k: Kind, code: int)
    requires db.Valid() && code in db.Codes(k)
    ensures var d := WithoutCode(db, k, code);
      && d.Valid()
      && d.Rows(k) == db.Rows(k) - {db.Codes(k)[code]}
      && d.Ids() == db.Ids() && d.measurements == db.measurements && d.reminders == db.reminders
      && CodeTablesSameExcept(db, d, {k})
  {
    var owner := db.Codes(k)[code];
    var d := WithoutCode(db, k, code);
    match k
    case Confirmation =>
      RemoveSubWellFormed(db.confirmation, db.Ids(), owner);
      CodesWellFormedGrow(d.confirmation, db.Ids() - {owner}, db.Ids());
    case Update =>
      RemoveSubWellFormed(db.update, db.Ids(), owner);
      CodesWellFormedGrow(d.update, db.Ids() - {owner}, db.Ids());
    case Unsubscribe =>
      RemoveSubWellFormed(db.unsubscribe, db.Ids(), owner);
      CodesWellFormedGrow(d.unsubscribe, db.Ids() - {owner}, db.Ids());
    case Pending =>
      RemoveSubWellFormed(db.pending, db.Ids(), owner);
      CodesWellFormedGrow(d.pending, db.Ids() - {owner}, db.Ids());
  }

  // updateScheduledReminder

  /**
   * updateScheduledReminder: moves the subscriber's reminder to now plus the
   * frequency's number of days and returns the new date; null for a falsy id, an
   * unknown subscriber or frequency, or a subscriber without a reminder.
   *
   * DBFunc's Store.UpdateScheduledReminder runs it statement by statement.
   */
  function UpdateScheduledReminderSpec(db: Db, subId: int, now: int): (r: (Db, Option<int>))
    requires db.Valid()
    ensures r.0.Valid()
    ensures r.1.None? ==> r.0 == db
    ensures r.1.Some? ==>
      && subId in db.reminders && subId in db.Ids()
      && FreqNumDays(db.frequency, db.subscribers.byId[subId].freqId).Some?
      && r.1.value == now + FreqNumDays(db.frequency, db.subscribers.byId[subId].freqId).value * DAY
      && r.0 == db.(reminders := db.reminders[subId := r.1.value])
    ensures (&& SelectSubscriberById(db, subId).Some? && subId in db.reminders
             && FreqNumDays(db.frequency, db.subscribers.byId[subId].freqId).Some?) ==> r.1.Some?
  {
    var sub := SelectSubscriberById(db, subId);
    if sub.None? then (db, None)
    else
      var numDays := FreqNumDays(db.frequency, sub.value.freqId);
      if numDays.None? || subId !in db.reminders then (db, None)
      else
        var date := now + numDays.value * DAY;
        (db.(reminders := db.reminders[subId := date]), Some(date))
  }
}
