/**
 * controller/handlers/Delete.js: the periodic sweep of one code table. It
 * selects the rows whose expiry has passed and deletes them one by one,
 * counting the deletes that report a row. An expired confirmation code deletes
 * its whole subscriber through deleteSubscriberById; the other tables lose only
 * the row, deleted by its code.
 */
module Delete {
  import opened Wrappers
  import opened Tables
  import opened Transitions
  import opened DBFunc

  /** The subscribers whose row in table `k` has expired by `now`. */
  function ExpiredIds(db: Db, k: Kind, now: int): (ids: set<int>)
    ensures forall s :: s in ids <==> s in db.Rows(k) && db.Rows(k)[s].expires < now
  {
    set s | s in db.Rows(k) && db.Rows(k)[s].expires < now
  }

  /**
   * The delete the sweep runs on one record and what it returns: by sub_id on
   * the confirmation table, by code on the others.
   */
  function Reap(db: Db, k: Kind, e: Expired): (Db, Option<nat>)
    requires db.Valid()
  {
    if k == Confirmation then DeleteSubscriberByIdSpec(db, e.subId) else DeleteByCodeSpec(db, k, e.code)
  }

  /** A record whose row is still there is deleted, and only its row (and, for a signup, its subscriber) goes. */
  lemma ReapOne(db: Db, k: Kind, e: Expired)
    requires db.Valid() && e.subId in db.Rows(k) && e.code == db.Rows(k)[e.subId].code
    ensures var r := Reap(db, k, e);
      && r.0.Valid()
      && r.1 == Some(1)
      && r.0.Rows(k) == db.Rows(k) - {e.subId}
      && r.0.frequency == db.frequency
      && (k == Confirmation ==> r.0.Ids() == db.Ids() - {e.subId} && RemovedSubscribers(db, r.0, {e.subId}))
      && (k != Confirmation ==>
            && r.0.subscribers == db.subscribers
            && r.0.measurements == db.measurements && r.0.reminders == db.reminders
            && CodeTablesSameExcept(db, r.0, {k}))
  {
    CodesOfRows(db, k);
    if k != Confirmation {
      assert e.code in db.Codes(k) && db.Codes(k)[e.code] == e.subId;
      assert e.code != 0 by {
        match k
        case Update =>
        case Unsubscribe =>
        case Pending =>
      }
      RemoveCodeWellFormed(db, k, e.code);
    } else {
      assert e.subId in db.subscribers.byId;
    }
  }

  /** `deleteFunc(field)` for the table the sweep is bound to. */
  method DeleteRecord(store: Store, k: Kind, e: Expired) returns (deleted: Option<nat>)
    requires store.Valid()
    modifies store
    ensures store.Valid() && store.nextId == old(store.nextId)
    ensures store.db == Reap(old(store.db), k, e).0 && deleted == Reap(old(store.db), k, e).1
  {
    match k
    case Confirmation => deleted := store.DeleteSubscriberById(e.subId);
    case Update => deleted := store.DeleteUpdateCodeByCode(e.code);
    case Unsubscribe => deleted := store.DeleteUnsubscribeCodeByCode(e.code);
    case Pending => deleted := store.DeletePendingUpdateByCode(e.code);
  }

  /**
   * What the sweep has done so far: the rows of `gone` are deleted from table
   * `k`; on the confirmation table their subscribers go too, with every row
   * that refers to them; nothing else changed.
   */
  ghost predicate Swept(start: Db, db: Db, k: Kind, gone: set<int>)
  {
    && db.Rows(k) == start.Rows(k) - gone
    && db.frequency == start.frequency
    && (k == Confirmation ==> db.Ids() == start.Ids() - gone && RemovedSubscribers(start, db, gone))
    && (k != Confirmation ==>
          && db.subscribers == start.subscribers
          && db.measurements == start.measurements
          && db.reminders == start.reminders
          && CodeTablesSameExcept(start, db, {k}))
  }

  lemma MinusMinus<V>(m: map<int, V>, gone: set<int>, s: int)
    ensures m - (gone + {s}) == (m - gone) - {s}
  {
  }

  lemma SetMinusMinus(a: set<int>, gone: set<int>, s: int)
    ensures a - (gone + {s}) == (a - gone) - {s}
  {
  }

  /** One more record of the sweep deleted: its row goes and the sweep stays on track. */
  lemma SweepStep(start: Db, db: Db, k: Kind, gone: set<int>, e: Expired)
    requires db.Valid() && Swept(start, db, k, gone)
    requires e.subId in start.Rows(k) && e.subId !in gone && e.code == start.Rows(k)[e.subId].code
    ensures var r := Reap(db, k, e); r.0.Valid() && r.1 == Some(1) && Swept(start, r.0, k, gone + {e.subId})
  {
    assert e.subId in db.Rows(k) && db.Rows(k)[e.subId] == start.Rows(k)[e.subId];
    ReapOne(db, k, e);
    var r := Reap(db, k, e);
    MinusMinus(start.Rows(k), gone, e.subId);
    assert r.0.Rows(k) == start.Rows(k) - (gone + {e.subId});
    if k == Confirmation {
      SetMinusMinus(start.Ids(), gone, e.subId);
      RemovedCompose(start, db, r.0, gone, e.subId);
    } else {
      assert CodeTablesSameExcept(start, r.0, {k});
    }
  }

  /** Removing `gone` and then `s` removes `gone + {s}`. */
  lemma RemovedCompose(start: Db, db: Db, d: Db, gone: set<int>, s: int)
    requires RemovedSubscribers(start, db, gone) && RemovedSubscribers(db, d, {s})
    ensures RemovedSubscribers(start, d, gone + {s})
  {
    MinusMinus(start.subscribers.byId, gone, s);
    MinusMinus(start.measurements, gone, s);
    MinusMinus(start.reminders, gone, s);
    MinusMinus(start.pending.bySub, gone, s);
    forall k: Kind
      ensures d.Rows(k) == start.Rows(k) - (gone + {s})
    {
      MinusMinus(start.Rows(k), gone, s);
    }
  }

  /** The subscribers a list of expired records names. */
  function SubIds(rs: seq<Expired>): set<int>
  {
    set e | e in rs :: e.subId
  }

  lemma SubIdsSnoc(rs: seq<Expired>, i: nat)
    requires i < |rs|
    ensures SubIds(rs[..i + 1]) == SubIds(rs[..i]) + {rs[i].subId}
  {
    assert rs[..i + 1] == rs[..i] + [rs[i]];
  }

  /** In a list ascending by sub_id, no record's subscriber appears earlier. */
  lemma SubIdsFresh(rs: seq<Expired>, i: nat)
    requires forall a, b | 0 <= a < b < |rs| :: rs[a].subId < rs[b].subId
    requires i < |rs|
    ensures rs[i].subId !in SubIds(rs[..i])
  {
  }

  /** The records the sweep selects name exactly the expired subscribers. */
  lemma SelectedAreExpired(db: Db, k: Kind, now: int)
    ensures SubIds(SelectExpiredRecords(db, k, now)) == ExpiredIds(db, k, now)
  {
    var rs := SelectExpiredRecords(db, k, now);
    forall s | s in ExpiredIds(db, k, now)
      ensures s in SubIds(rs)
    {
      assert Expired(s, db.Rows(k)[s].code) in rs;
    }
  }

  /** A sweep over all expired rows leaves none behind. */
  lemma SweepDone(start: Db, db: Db, k: Kind, now: int)
    requires Swept(start, db, k, ExpiredIds(start, k, now))
    ensures forall s | s in db.Rows(k) :: db.Rows(k)[s].expires >= now
  {
  }

  /** The records a sweep can run over: rows of table `k`, ascending by sub_id. */
  ghost predicate Sweepable(start: Db, k: Kind, records: seq<Expired>)
  {
    && (forall e | e in records :: e.subId in start.Rows(k) && e.code == start.Rows(k)[e.subId].code)
    && (forall a, b | 0 <= a < b < |records| :: records[a].subId < records[b].subId)
  }

  /** One delete of the sweep, on a record whose row has not gone yet: it reports one row. */
  method SweepRecord(store: Store, k: Kind, ghost start: Db, ghost gone: set<int>, e: Expired) returns (deleted: Option<nat>)
    requires store.Valid() && Swept(start, store.db, k, gone)
    requires e.subId in start.Rows(k) && e.subId !in gone && e.code == start.Rows(k)[e.subId].code
    modifies store
    ensures store.Valid() && store.nextId == old(store.nextId)
    ensures deleted == Some(1) && Swept(start, store.db, k, gone + {e.subId})
  {
    SweepStep(start, store.db, k, gone, e);
    deleted := DeleteRecord(store, k, e);
  }

  /**
   * The loop of deleteExpired: delete each selected record in turn and count
   * the deletes that report a row.
   */
  method DeleteEach(store: Store, k: Kind, records: seq<Expired>) returns (numDeleted: nat)
    requires store.Valid() && Sweepable(store.db, k, records)
    modifies store
    ensures store.Valid() && store.nextId == old(store.nextId)
    ensures numDeleted == |records| && Swept(old(store.db), store.db, k, SubIds(records))
  {
    ghost var start := store.db;
    numDeleted := 0;
    var i := 0;
    while i < |records|
      invariant 0 <= i <= |records|
      invariant store.Valid() && store.nextId == old(store.nextId)
      invariant numDeleted == i
      invariant Swept(start, store.db, k, SubIds(records[..i]))
    {
      var record := records[i];
      assert record in records;
      SubIdsFresh(records, i);
      var deleted := SweepRecord(store, k, start, SubIds(records[..i]), record);
      if deleted.Some? && deleted.value != 0 {
        numDeleted := numDeleted + 1;
      }
      SubIdsSnoc(records, i);
      i := i + 1;
    }
    assert records[..i] == records;
  }

  /**
   * deleteExpired bound to table `k`. Every expired row goes, each delete
   * reports one row, and nothing unexpired is touched; an expired signup takes
   * its subscriber with it.
   */
  method DeleteExpired(store: Store, k: Kind, now: int) returns (numDeleted: nat)
    requires store.Valid()
    modifies store
    ensures store.Valid() && store.nextId == old(store.nextId)
    ensures numDeleted == |SelectExpiredRecords(old(store.db), k, now)|
    ensures store.db.Rows(k) == old(store.db).Rows(k) - ExpiredIds(old(store.db), k, now)
    ensures forall s | s in store.db.Rows(k) :: store.db.Rows(k)[s].expires >= now
    ensures store.db.frequency == old(store.db).frequency
    ensures k == Confirmation ==> store.db.Ids() == old(store.db).Ids() - ExpiredIds(old(store.db), k, now)
    ensures k == Confirmation ==> RemovedSubscribers(old(store.db), store.db, ExpiredIds(old(store.db), k, now))
    ensures k != Confirmation ==>
      && store.db.subscribers == old(store.db).subscribers
      && store.db.measurements == old(store.db).measurements
      && store.db.reminders == old(store.db).reminders
      && CodeTablesSameExcept(old(store.db), store.db, {k})
  {
    var records := SelectExpiredRecords(store.db, k, now);
    numDeleted := DeleteEach(store, k, records);
    SelectedAreExpired(old(store.db), k, now);
    SweepDone(old(store.db), store.db, k, now);
  }
}
