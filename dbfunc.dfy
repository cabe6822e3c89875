/**
 * The state-changing functions of SubscriptionService/DBFunc.js, statement by
 * statement, on a store object. Inside BEGIN...COMMIT the statements act on a
 * local copy `tx` of the tables: COMMIT publishes it, ROLLBACK drops it.
 * generateCode looks codes up in the committed tables `db`, as its own pool
 * connection does. `random` is the sequence of values Math.random() returns
 * during the call. Each method is proved to do what its function in
 * Transitions says.
 */
module DBFunc {
  import opened Wrappers
  import opened Tables
  import opened CodeAuthority
  import opened Transitions

  /** The conditional column UPDATEs of updateSubMeasurements, in the order they run. */
  method MergeColumns(stored: Measurements, given: Measurements) returns (m: Measurements)
    ensures m == Merge(stored, given)
  {
    m := stored;
    if given.sex != "" && given.sex != stored.sex { m := m.(sex := given.sex); }
    assert m.sex == MergeText(stored.sex, given.sex);
    if given.age != 0 && given.age != stored.age { m := m.(age := given.age); }
    assert m.age == MergeNumber(stored.age, given.age);
    if given.system != "" && given.system != stored.system { m := m.(system := given.system); }
    assert m.system == MergeText(stored.system, given.system);
    if given.weight != 0 && given.weight != stored.weight { m := m.(weight := given.weight); }
    assert m.weight == MergeNumber(stored.weight, given.weight);
    if given.height != 0 && given.height != stored.height { m := m.(height := given.height); }
    assert m.height == MergeNumber(stored.height, given.height);
    if given.estBmr != 0 && given.estBmr != stored.estBmr { m := m.(estBmr := given.estBmr); }
    assert m.estBmr == MergeNumber(stored.estBmr, given.estBmr);
    if given.estTdee != 0 && given.estTdee != stored.estTdee { m := m.(estTdee := given.estTdee); }
  }

  class Store {
    var db: Db
    /** The next value of the subscriber id sequence. */
    var nextId: int

    ghost predicate Valid()
      reads this
    {
      SysValid(Sys(db, nextId))
    }

    function State(): Sys
      reads this
    {
      Sys(db, nextId)
    }

    /** An empty store over a frequency table. */
    constructor(frequency: seq<Frequency>)
      ensures Valid()
      ensures db == Db(SubscriberTable(map[], map[]), map[], CodeTable(map[], map[]), CodeTable(map[], map[]),
                       CodeTable(map[], map[]), CodeTable(map[], map[]), map[], frequency)
      ensures nextId == 1
    {
      db := Db(SubscriberTable(map[], map[]), map[], CodeTable(map[], map[]), CodeTable(map[], map[]),
               CodeTable(map[], map[]), CodeTable(map[], map[]), map[], frequency);
      nextId := 1;
    }

    method Subscribe(sub: Option<User>, now: int, random: Random) returns (id: Option<int>)
      requires Valid()
      modifies this
      ensures var spec := SubscribeSpec(old(State()), CandidatesOf(random), sub, now);
        db == spec.0.db && nextId == spec.0.nextId && id == spec.1
      ensures Valid()
    {
      if !SubscribeAccepts(sub) {
        return None;
      }
      var u := sub.value;
      // BEGIN: `tx` is what the transaction sees, `db` stays the committed state
      var tx := db;
      var freqId := FreqId(tx.frequency, u.freq);
      // INSERT INTO subscriber: the sequence advances before the constraints are checked
      var newId := nextId;
      nextId := nextId + 1;
      if freqId.None? || u.email in tx.subscribers.byEmail {
        return None;
      }
      tx := tx.(subscribers := tx.subscribers.Insert(newId, Subscriber(u.email, freqId.value, false, None)));
      // INSERT INTO subscriber_measurements
      tx := tx.(measurements := tx.measurements[newId := MeasurementsRow(MeasurementsOf(u), now)]);
      var code, draws := GenerateCode(db, Confirmation, CandidatesOf(random));
      if code.None? {
        return None;
      }
      // INSERT INTO confirmation_code
      tx := tx.(confirmation := tx.confirmation.Put(newId, CodeRow(code.value, now, now + Window(Confirmation), ())));
      assert tx == AddSubscriber(db, newId, u, freqId.value, code.value, now);
      // COMMIT
      db := tx;
      id := Some(newId);
    }

    method ConfirmSubscriber(id: int, now: int) returns (ok: bool)
      requires Valid()
      modifies this
      ensures var spec := ConfirmSubscriberSpec(old(db), id, now);
        db == spec.0 && ok == spec.1
      ensures Valid() && nextId == old(nextId)
    {
      var user := SelectSubscriberById(db, id);
      if user.None? || user.value.confirmed {
        return false;
      }
      var tx := db;
      // UPDATE subscriber SET confirmed
      tx := tx.(subscribers := tx.subscribers.Replace(id, user.value.(confirmed := true, dateConfirmed := Some(now))));
      // DELETE FROM confirmation_code
      tx := tx.(confirmation := tx.confirmation.RemoveSub(id));
      var numDays := FreqNumDays(tx.frequency, user.value.freqId);
      if numDays.None? {
        // the interval reads 'null days' and the INSERT fails: ROLLBACK
        return false;
      }
      // INSERT INTO scheduled_reminder
      tx := tx.(reminders := tx.reminders[id := now + numDays.value * DAY]);
      assert tx.subscribers == db.subscribers.Replace(id, user.value.(confirmed := true, dateConfirmed := Some(now)));
      assert tx == db.(subscribers := tx.subscribers, confirmation := db.confirmation.RemoveSub(id),
                       reminders := db.reminders[id := now + numDays.value * DAY]);
      // COMMIT
      db := tx;
      ok := true;
    }

    method UpdateConfirmedSubscriber(subId: int, values: Option<Measurements>, now: int, random: Random) returns (ok: bool)
      requires Valid()
      modifies this
      ensures var spec := UpdateConfirmedSubscriberSpec(old(db), CandidatesOf(random), subId, values, now);
        db == spec.0 && ok == spec.1
      ensures Valid() && nextId == old(nextId)
    {
      if subId == 0 || values.None? {
        return false;
      }
      var code, draws := GenerateCode(db, Pending, CandidatesOf(random));
      if code.None? {
        return false;
      }
      // INSERT INTO pending_update: the foreign key and the unique sub_id
      if subId !in db.Ids() || subId in db.pending.bySub {
        return false;
      }
      db := db.(pending := db.pending.Put(subId, CodeRow(code.value, now, now + Window(Pending), values.value)));
      ok := true;
    }

    method UpdatePendingSubscriber(subId: int, values: Option<Measurements>, now: int, random: Random) returns (ok: bool)
      requires Valid()
      modifies this
      ensures var spec := UpdatePendingSubscriberSpec(old(db), CandidatesOf(random), subId, values, now);
        db == spec.0 && ok == spec.1
      ensures Valid() && nextId == old(nextId)
    {
      if subId == 0 || values.None? {
        return false;
      }
      var tx := db;
      // DELETE FROM subscriber_measurements, DELETE FROM confirmation_code
      tx := tx.(measurements := tx.measurements - {subId}, confirmation := tx.confirmation.RemoveSub(subId));
      // INSERT INTO subscriber_measurements: the foreign key
      if subId !in tx.Ids() {
        return false;
      }
      tx := tx.(measurements := tx.measurements[subId := MeasurementsRow(values.value, now)]);
      var code, draws := GenerateCode(db, Confirmation, CandidatesOf(random));
      if code.None? {
        // a null code violates NOT NULL: ROLLBACK
        return false;
      }
      // INSERT INTO confirmation_code
      tx := tx.(confirmation := tx.confirmation.Put(subId, CodeRow(code.value, now, now + Window(Confirmation), ())));
      IndexDetermined(tx.confirmation, db.confirmation.Put(subId, CodeRow(code.value, now, now + Window(Confirmation), ())));
      assert tx.measurements == db.measurements[subId := MeasurementsRow(values.value, now)];
      // COMMIT
      db := tx;
      ok := true;
    }

    method ConfirmPendingUpdate(subId: int, now: int) returns (r: Option<bool>)
      requires Valid()
      modifies this
      ensures var spec := ConfirmPendingUpdateSpec(old(db), subId, now);
        db == spec.0 && r == spec.1
      ensures Valid() && nextId == old(nextId)
    {
      var staged := SelectPendingUpdateBySubId(db, subId);
      if staged.None? {
        return None;
      }
      var tx := db;
      // UPDATE subscriber_measurements, DELETE FROM pending_update
      tx := tx.(measurements := tx.measurements[subId := MeasurementsRow(staged.value.payload, now)]);
      tx := tx.(pending := tx.pending.RemoveSub(subId));
      // COMMIT
      db := tx;
      r := Some(true);
    }

    method UpdateSubMeasurements(subId: int, values: Option<Measurements>, now: int) returns (r: Option<MeasurementsRow>)
      requires Valid()
      modifies this
      ensures var spec := UpdateSubMeasurementsSpec(old(db), subId, values, now);
        db == spec.0 && r == spec.1
      ensures Valid() && nextId == old(nextId)
    {
      if subId == 0 || values.None? {
        return None;
      }
      var current := SelectSubMeasurements(db, subId);
      if current.None? {
        return None;
      }
      // one UPDATE per column, then date_last_updated
      var m := MergeColumns(current.value.values, values.value);
      db := db.(measurements := db.measurements[subId := MeasurementsRow(m, now)]);
      r := SelectSubMeasurements(db, subId);
    }

    method NewUpdateCode(subId: int, now: int, random: Random) returns (r: Option<CodeRow<()>>)
      requires Valid()
      modifies this
      ensures var spec := NewUpdateCodeSpec(old(db), CandidatesOf(random), subId, now);
        db == spec.0 && r == spec.1
      ensures Valid() && nextId == old(nextId)
    {
      if subId == 0 {
        return None;
      }
      var code, draws := GenerateCode(db, Update, CandidatesOf(random));
      if code.None? {
        return None;
      }
      var existing := SelectCodeBySubId(db, Update, subId);
      if existing.None? && subId !in db.Ids() {
        return None;
      }
      // INSERT a new row, or UPDATE the existing one with a fresh code and dates
      var row := CodeRow(code.value, now, now + 7 * DAY, ());
      db := db.(update := db.update.Put(subId, row));
      r := Some(row);
    }

    method InsertUnsubscribeCode(subId: int, now: int, random: Random) returns (r: Option<CodeRow<()>>)
      requires Valid()
      modifies this
      ensures var spec := InsertUnsubscribeCodeSpec(old(db), CandidatesOf(random), subId, now);
        db == spec.0 && r == spec.1
      ensures Valid() && nextId == old(nextId)
    {
      if subId == 0 {
        return None;
      }
      var existing := SelectCodeBySubId(db, Unsubscribe, subId);
      if existing.Some? {
        return None;
      }
      var code, draws := GenerateCode(db, Unsubscribe, CandidatesOf(random));
      if code.None? || subId !in db.Ids() {
        return None;
      }
      var row := CodeRow(code.value, now, now + Window(Unsubscribe), ());
      db := db.(unsubscribe := db.unsubscribe.Put(subId, row));
      r := Some(row);
    }

    method DeleteSubscriberById(id: int) returns (r: Option<nat>)
      requires Valid()
      modifies this
      ensures var spec := DeleteSubscriberByIdSpec(old(db), id);
        db == spec.0 && r == spec.1
      ensures Valid() && nextId == old(nextId)
    {
      if id == 0 {
        return None;
      }
      if id !in db.Ids() {
        return Some(0);
      }
      db := Cascade(db, id);
      r := Some(1);
    }

    method DeleteUpdateCodeBySubId(subId: int) returns (r: Option<nat>)
      requires Valid()
      modifies this
      ensures var spec := DeleteUpdateCodeBySubIdSpec(old(db), subId);
        db == spec.0 && r == spec.1
      ensures Valid() && nextId == old(nextId)
    {
      if subId == 0 {
        return None;
      }
      if subId !in db.update.bySub {
        return Some(0);
      }
      db := db.(update := db.update.RemoveSub(subId));
      r := Some(1);
    }

    method DeleteByCode(k: Kind, code: int) returns (r: Option<nat>)
      requires Valid()
      modifies this
      ensures var spec := DeleteByCodeSpec(old(db), k, code);
        db == spec.0 && r == spec.1
      ensures Valid() && nextId == old(nextId)
    {
      if code == 0 {
        return None;
      }
      if code !in db.Codes(k) {
        return Some(0);
      }
      // DELETE FROM the kind's table WHERE code = $1
      RemoveCodeWellFormed(db, k, code);
      db := WithoutCode(db, k, code);
      r := Some(1);
    }

    method DeleteUpdateCodeByCode(code: int) returns (r: Option<nat>)
      requires Valid()
      modifies this
      ensures var spec := DeleteByCodeSpec(old(db), Update, code);
        db == spec.0 && r == spec.1
      ensures Valid() && nextId == old(nextId)
    {
      r := DeleteByCode(Update, code);
    }

    method DeleteUnsubscribeCodeByCode(code: int) returns (r: Option<nat>)
      requires Valid()
      modifies this
      ensures var spec := DeleteByCodeSpec(old(db), Unsubscribe, code);
        db == spec.0 && r == spec.1
      ensures Valid() && nextId == old(nextId)
    {
      r := DeleteByCode(Unsubscribe, code);
    }

    method DeletePendingUpdateByCode(code: int) returns (r: Option<nat>)
      requires Valid()
      modifies this
      ensures var spec := DeleteByCodeSpec(old(db), Pending, code);
        db == spec.0 && r == spec.1
      ensures Valid() && nextId == old(nextId)
    {
      r := DeleteByCode(Pending, code);
    }

    method UpdateScheduledReminder(subId: int, now: int) returns (r: Option<int>)
      requires Valid()
      modifies this
      ensures var spec := UpdateScheduledReminderSpec(old(db), subId, now);
        db == spec.0 && r == spec.1
      ensures Valid() && nextId == old(nextId)
    {
      var sub := SelectSubscriberById(db, subId);
      if sub.None? {
        return None;
      }
      var numDays := FreqNumDays(db.frequency, sub.value.freqId);
      if numDays.None? || subId !in db.reminders {
        return None;
      }
      var date := now + numDays.value * DAY;
      db := db.(reminders := db.reminders[subId := date]);
      r := Some(date);
    }
  }
}
