/**
 * controller/UpdateController.js: what the update links do. confirmUpdate,
 * rejectUpdate and updateMeasurements act on the store; the two getters read a
 * row and convert it to the form's units.
 *
 * The module never declares ERROR, so the getters' failure paths throw; the
 * functions ending in AsWritten model that, the others return None instead.
 */
module UpdateController {
  import opened Wrappers
  import opened Tables
  import opened Transitions
  import opened DBFunc
  import opened FormatConverter

  /**
   * confirmUpdate: false (Some(false)) for a falsy id; otherwise exactly what
   * confirmPendingUpdate returns, None standing for its null.
   */
  method ConfirmUpdate(store: Store, subId: int, now: int) returns (r: Option<bool>)
    requires store.Valid()
    modifies store
    ensures store.Valid() && store.nextId == old(store.nextId)
    ensures subId == 0 ==> r == Some(false) && store.db == old(store.db)
    ensures subId != 0 ==> var spec := ConfirmPendingUpdateSpec(old(store.db), subId, now);
      store.db == spec.0 && r == spec.1
  {
    if subId == 0 {
      return Some(false);
    }
    r := store.ConfirmPendingUpdate(subId, now);
  }

  /**
   * rejectUpdate: None stands for its false, returned for a falsy code; otherwise the number of
   * pending_update rows deletePendingUpdateByCode removed. Measurements stay.
   */
  method RejectUpdate(store: Store, code: int) returns (r: Option<nat>)
    requires store.Valid()
    modifies store
    ensures store.Valid() && store.nextId == old(store.nextId)
    ensures code == 0 ==> r.None? && store.db == old(store.db)
    ensures code != 0 ==> var spec := DeleteByCodeSpec(old(store.db), Pending, code);
      store.db == spec.0 && r == spec.1
    ensures r.Some? ==> r.value <= 1
    ensures store.db.measurements == old(store.db.measurements)
  {
    if code == 0 {
      return None;
    }
    r := store.DeletePendingUpdateByCode(code);
  }

  /** A stored measurements row as the object the converters receive. */
  function RowAsUser(m: Measurements): (u: User)
    ensures MeasurementsOf(u) == m
    ensures u.email == "" && u.freq == "" && u.inches.None?
  {
    User("", "", m.sex, m.age, m.system, 0, None, 0, 0, 0, m.weight, m.height, m.estBmr, m.estTdee)
  }

  /** getPendingMeasurements: the staged values in the form's units, or None. */
  function GetPendingMeasurements(db: Db, id: int): (r: Option<User>)
    ensures SelectPendingUpdateBySubId(db, id).None? ==> r.None?
    ensures r.Some? ==> id in db.pending.bySub && MeasurementsOf(r.value) == db.pending.bySub[id].payload
    ensures r.Some? ==> r == ToInputFormat(RowAsUser(db.pending.bySub[id].payload))
    ensures id != 0 && id in db.pending.bySub && db.pending.bySub[id].payload.system in {IMPERIAL, METRIC} ==>
      r.Some? && r.value.system == db.pending.bySub[id].payload.system
  {
    var row := SelectPendingUpdateBySubId(db, id);
    if row.None? then None else ToInputFormat(RowAsUser(row.value.payload))
  }

  /** getSubscriberMeasurements: the stored values in the form's units, or None. */
  function GetSubscriberMeasurements(db: Db, id: int): (r: Option<User>)
    ensures SelectSubMeasurements(db, id).None? ==> r.None?
    ensures r.Some? ==> id in db.measurements && MeasurementsOf(r.value) == db.measurements[id].values
    ensures r.Some? ==> r == ToInputFormat(RowAsUser(db.measurements[id].values))
  {
    var row := SelectSubMeasurements(db, id);
    if row.None? then None else ToInputFormat(RowAsUser(row.value.values))
  }

  /** getPendingMeasurements as written: a missing row or an unknown system throws. */
  function GetPendingMeasurementsAsWritten(db: Db, id: int): (r: Outcome<User>)
    ensures r.Threw? <==> GetPendingMeasurements(db, id).None?
    ensures r.Returned? ==> r.value == GetPendingMeasurements(db, id).value
  {
    var row := SelectPendingUpdateBySubId(db, id);
    if row.None? then Threw else ToInputFormatAsWritten(RowAsUser(row.value.payload))
  }

  /** getSubscriberMeasurements as written: a missing row or an unknown system throws. */
  function GetSubscriberMeasurementsAsWritten(db: Db, id: int): (r: Outcome<User>)
    ensures r.Threw? <==> GetSubscriberMeasurements(db, id).None?
    ensures r.Returned? ==> r.value == GetSubscriberMeasurements(db, id).value
  {
    var row := SelectSubMeasurements(db, id);
    if row.None? then Threw else ToInputFormatAsWritten(RowAsUser(row.value.values))
  }

  /** Asking for the measurements of an id without a row throws instead of yielding null. */
  lemma MissingRowThrows(db: Db, id: int)
    requires id !in db.measurements
    ensures GetSubscriberMeasurementsAsWritten(db, id) == Threw
    ensures GetSubscriberMeasurements(db, id) == None
  {
  }

  /** The getters read the store back in the units the form would submit. */
  lemma StoredMeasurementsReadBack(db: Db, id: int)
    requires id != 0 && id in db.measurements
    requires db.measurements[id].values.system in {IMPERIAL, METRIC}
    ensures GetSubscriberMeasurements(db, id).Some?
    ensures GetSubscriberMeasurements(db, id).value.system == db.measurements[id].values.system
  {
  }

  /** The values updateMeasurements hands to updateSubMeasurements, when the form converts. */
  function Converted(measurements: Option<User>): Option<Measurements>
  {
    if measurements.None? then None
    else
      var dbUser := ToDBFormat(measurements.value);
      if dbUser.None? then None else Some(MeasurementsOf(dbUser.value))
  }

  /**
   * updateMeasurements: false with no change for a falsy id, a missing object or
   * a failed conversion. Otherwise updates the measurements, then deletes the
   * subscriber's update code whether or not that update found a row, and is
   * true exactly when it did.
   */
  method UpdateMeasurements(store: Store, subId: int, measurements: Option<User>, now: int) returns (ok: bool)
    requires store.Valid()
    modifies store
    ensures store.Valid() && store.nextId == old(store.nextId)
    ensures subId == 0 || Converted(measurements).None? ==> !ok && store.db == old(store.db)
    ensures subId != 0 && Converted(measurements).Some? ==>
      var updated := UpdateSubMeasurementsSpec(old(store.db), subId, Converted(measurements), now);
      && store.db == DeleteUpdateCodeBySubIdSpec(updated.0, subId).0
      && ok == updated.1.Some?
  {
    if subId == 0 || measurements.None? {
      return false;
    }
    var dbMeasurements := ToDBFormat(measurements.value);
    if dbMeasurements.None? {
      return false;
    }
    var updated := store.UpdateSubMeasurements(subId, Some(MeasurementsOf(dbMeasurements.value)), now);
    var deleted := store.DeleteUpdateCodeBySubId(subId);
    ok := updated.Some?;
  }

  /**
   * What a converted updateMeasurements call leaves behind: no update code for
   * the subscriber, and, exactly when the subscriber has measurements, the
   * merged values stamped now; nothing else changes.
   */
  lemma UpdateMeasurementsEffect(db: Db, subId: int, values: Measurements, now: int)
    requires db.Valid() && subId != 0
    ensures var updated := UpdateSubMeasurementsSpec(db, subId, Some(values), now);
      var after := DeleteUpdateCodeBySubIdSpec(updated.0, subId).0;
      && (updated.1.Some? <==> subId in db.measurements)
      && after.update.bySub == db.update.bySub - {subId}
      && (subId in db.measurements ==>
            after.measurements == db.measurements[subId := MeasurementsRow(Merge(db.measurements[subId].values, values), now)])
      && (subId !in db.measurements ==> after.measurements == db.measurements)
      && after.subscribers == db.subscribers && after.reminders == db.reminders
      && CodeTablesSameExcept(db, after, {Update})
  {
    var updated := UpdateSubMeasurementsSpec(db, subId, Some(values), now);
    assert updated.0.update == db.update;
  }
}
