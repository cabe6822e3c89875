/**
 * controller/handlers/Scheduler.js: the daily reminder run. For every reminder
 * scheduled on today's date it looks the subscriber up, reuses the subscriber's
 * update code or issues a new one, emails the reminder with that code, and only
 * after a successful send moves the reminder to its next date. A reminder that
 * fails at any step is skipped and the run goes on with the next one.
 *
 * sendEmail is outside the model: `delivered(i)` is whether the send for the
 * i-th reminder of the run succeeded, and `randoms(i)` are the Math.random()
 * values newUpdateCode draws for it.
 */
module Scheduler {
  import opened Wrappers
  import opened Tables
  import opened CodeAuthority
  import opened Transitions
  import opened DBFunc
  import opened Send

  /**
   * The update code the reminder carries: the subscriber's existing row if it
   * has one, otherwise the row newUpdateCode inserts (or none when that fails).
   */
  function Issue(db: Db, subId: int, now: int, random: Random): (r: (Db, Option<CodeRow<()>>))
    requires db.Valid()
    ensures r.0.Valid()
    ensures r.0 == db.(update := r.0.update)
    ensures r.0.update.bySub - {subId} == db.update.bySub - {subId}
    ensures r.1.None? ==> r.0 == db
    ensures r.1.Some? ==>
      subId != 0 && subId in db.Ids() && subId in r.0.update.bySub && r.0.update.bySub[subId] == r.1.value
    ensures subId != 0 && subId in db.update.bySub ==> r == (db, Some(db.update.bySub[subId]))
    ensures subId !in db.update.bySub && r.1.Some? ==> r.1.value.code !in db.update.byCode
    ensures subId !in db.update.bySub ==> r == NewUpdateCodeSpec(db, CandidatesOf(random), subId, now)
  {
    var existing := SelectCodeBySubId(db, Update, subId);
    if existing.Some? then
      var row := db.update.bySub[subId];
      assert row.payload == ();
      assert row == CodeRow(row.code, row.created, row.expires, ());
      assert db.Rows(Update)[subId] == Stamp(row);
      (db, existing)
    else
      var r := NewUpdateCodeSpec(db, CandidatesOf(random), subId, now);
      assert r.0.update.bySub - {subId} == db.update.bySub - {subId} by {
        if r.1.Some? {
          assert r.0.update.bySub == db.update.bySub[subId := r.1.value];
        }
      }
      r
  }

  /**
   * One pass of the loop body for subscriber `subId`: the store afterwards and
   * the reminder email it tried to send, if it got that far.
   */
  function RemindOne(db: Db, subId: int, now: int, random: Random, delivered: bool): (r: (Db, Option<Email>))
    requires db.Valid()
    ensures r.0.Valid()
  {
    var subscriber := SelectSubscriberById(db, subId);
    if subscriber.None? then (db, None)
    else
      var issued := Issue(db, subId, now, random);
      if issued.1.None? then (db, None)
      else
        var email := Email(UpdateRemind, subscriber.value.email, subId, issued.1.value.code);
        if !delivered then (issued.0, Some(email))
        else (UpdateScheduledReminderSpec(issued.0, subId, now).0, Some(email))
  }

  /**
   * A reminder touches only its own subscriber's update code and reminder, and
   * one that is skipped before the send changes nothing.
   */
  lemma RemindFrame(db: Db, subId: int, now: int, random: Random, delivered: bool)
    requires db.Valid()
    ensures var r := RemindOne(db, subId, now, random, delivered);
      && r.0 == db.(update := r.0.update, reminders := r.0.reminders)
      && r.0.update.bySub - {subId} == db.update.bySub - {subId}
      && r.0.reminders - {subId} == db.reminders - {subId}
      && r.0.reminders.Keys == db.reminders.Keys
      && (r.1.None? ==> r.0 == db)
  {
    var subscriber := SelectSubscriberById(db, subId);
    if subscriber.Some? {
      var issued := Issue(db, subId, now, random);
      if issued.1.Some? && delivered {
        var moved := UpdateScheduledReminderSpec(issued.0, subId, now);
        assert moved.0 == issued.0.(reminders := moved.0.reminders);
      }
    }
  }

  /**
   * The reminder email goes to the subscriber's address and carries the update
   * code the subscriber holds afterwards: the one it already had if any,
   * otherwise a fresh one unused in the update table.
   */
  lemma RemindMail(db: Db, subId: int, now: int, random: Random, delivered: bool)
    requires db.Valid()
    ensures var r := RemindOne(db, subId, now, random, delivered);
      r.1.Some? ==>
        && subId != 0 && subId in db.Ids()
        && r.1.value.category == UpdateRemind && r.1.value.subId == subId
        && r.1.value.to == db.subscribers.byId[subId].email
        && subId in r.0.update.bySub && r.0.update.bySub[subId].code == r.1.value.code
        && (subId in db.update.bySub ==> r.0.update == db.update)
        && (subId !in db.update.bySub ==> r.1.value.code !in db.update.byCode)
    ensures var r := RemindOne(db, subId, now, random, delivered);
      subId != 0 && subId in db.Ids() && subId in db.update.bySub ==>
        r.1 == Some(Email(UpdateRemind, db.subscribers.byId[subId].email, subId, db.update.bySub[subId].code))
  {
    var r := RemindOne(db, subId, now, random, delivered);
    if r.1.Some? {
      var issued := Issue(db, subId, now, random);
      if delivered {
        var moved := UpdateScheduledReminderSpec(issued.0, subId, now);
        assert moved.0.update == issued.0.update;
      }
    }
  }

  /**
   * A subscriber without an update code still gets its reminder when one of
   * newUpdateCode's draws is free: the email carries the fresh code.
   */
  lemma NewcomerReminded(db: Db, subId: int, now: int, random: Random, delivered: bool)
    requires db.Valid() && subId in db.Ids() && subId !in db.update.bySub
    requires FreeDrawWithin(db, Update, CandidatesOf(random))
    ensures var r := RemindOne(db, subId, now, random, delivered);
      && r.1.Some?
      && r.1.value == Email(UpdateRemind, db.subscribers.byId[subId].email, subId, r.1.value.code)
      && Generate(db, Update, CandidatesOf(random)).code == Some(r.1.value.code)
      && subId in r.0.update.bySub && r.0.update.bySub[subId].code == r.1.value.code
  {
    var candidates := CandidatesOf(random);
    GenerateSucceedsIff(db, Update, candidates);
    var issued := Issue(db, subId, now, random);
    assert issued == NewUpdateCodeSpec(db, candidates, subId, now);
    assert issued.1.Some? && issued.1.value.code == Generate(db, Update, candidates).code.value;
    assert SelectSubscriberById(db, subId) == Some(db.subscribers.byId[subId]);
    RemindMail(db, subId, now, random, delivered);
  }

  /**
   * The reminder is moved only after a successful send, and then to now plus
   * the subscriber's frequency, provided it exists.
   */
  lemma RescheduleAfterSend(db: Db, subId: int, now: int, random: Random, delivered: bool)
    requires db.Valid()
    ensures var r := RemindOne(db, subId, now, random, delivered);
      r.0.reminders != db.reminders ==> delivered && r.1.Some?
    ensures var r := RemindOne(db, subId, now, random, delivered);
      && delivered && r.1.Some? && subId in db.reminders
      && FreqNumDays(db.frequency, db.subscribers.byId[subId].freqId).Some? ==>
        r.0.reminders == db.reminders[subId := now + FreqNumDays(db.frequency, db.subscribers.byId[subId].freqId).value * DAY]
  {
    var subscriber := SelectSubscriberById(db, subId);
    if subscriber.Some? {
      var issued := Issue(db, subId, now, random);
    }
  }

  /** The loop body for one reminder, with its `continue`s as early returns. */
  method Remind(store: Store, subId: int, now: int, random: Random, delivered: bool) returns (email: Option<Email>)
    requires store.Valid()
    modifies store
    ensures store.Valid() && store.nextId == old(store.nextId)
    ensures store.db == RemindOne(old(store.db), subId, now, random, delivered).0
    ensures email == RemindOne(old(store.db), subId, now, random, delivered).1
  {
    var subscriber := SelectSubscriberById(store.db, subId);
    if subscriber.None? {
      return None;
    }
    var updateCode := SelectCodeBySubId(store.db, Update, subId);
    if updateCode.None? {
      updateCode := store.NewUpdateCode(subId, now, random);
    }
    if updateCode.None? {
      return None;
    }
    email := Some(Email(UpdateRemind, subscriber.value.email, subId, updateCode.value.code));
    if !delivered {
      return;
    }
    // a failed reschedule is only logged
    var updatedSchedule := store.UpdateScheduledReminder(subId, now);
  }

  /** The loop over the first |ids| reminders of the run: the store and the emails tried, in order. */
  function RemindAll(db: Db, ids: seq<int>, now: int, randoms: nat -> Random, delivered: nat -> bool): (r: (Db, seq<Email>))
    requires db.Valid()
    ensures r.0.Valid()
  {
    if ids == [] then (db, [])
    else
      var n := |ids| - 1;
      var before := RemindAll(db, ids[..n], now, randoms, delivered);
      var step := RemindOne(before.0, ids[n], now, randoms(n), delivered(n));
      (step.0, before.1 + (if step.1.Some? then [step.1.value] else []))
  }

  /** An update code a subscriber holds survives any reminder, its own included. */
  lemma RemindKeepsCode(db: Db, subId: int, now: int, random: Random, delivered: bool, s: int)
    requires db.Valid() && s != 0 && s in db.update.bySub
    ensures var r := RemindOne(db, subId, now, random, delivered);
      s in r.0.update.bySub && r.0.update.bySub[s] == db.update.bySub[s]
  {
    RemindFrame(db, subId, now, random, delivered);
    RemindMail(db, subId, now, random, delivered);
    var r := RemindOne(db, subId, now, random, delivered);
    if s != subId {
      assert s in db.update.bySub - {subId};
    }
  }

  /** The run leaves every table but update_code and scheduled_reminder alone, and no reminder appears or vanishes. */
  lemma {:induction false} RunFrame(db: Db, ids: seq<int>, now: int, randoms: nat -> Random, delivered: nat -> bool)
    requires db.Valid()
    ensures var r := RemindAll(db, ids, now, randoms, delivered);
      && r.0 == db.(update := r.0.update, reminders := r.0.reminders)
      && r.0.reminders.Keys == db.reminders.Keys
      && forall t | t in db.reminders && t !in ids :: r.0.reminders[t] == db.reminders[t]
  {
    if ids != [] {
      var n := |ids| - 1;
      RunFrame(db, ids[..n], now, randoms, delivered);
      var before := RemindAll(db, ids[..n], now, randoms, delivered);
      RemindFrame(before.0, ids[n], now, randoms(n), delivered(n));
      var r := RemindAll(db, ids, now, randoms, delivered);
      forall t | t in db.reminders && t !in ids
        ensures r.0.reminders[t] == db.reminders[t]
      {
        assert t !in ids[..n];
        assert t in before.0.reminders - {ids[n]};
      }
    }
  }

  /** Update codes held when the run starts are still held, unchanged, when it ends. */
  lemma {:induction false} RunKeepsCode(db: Db, ids: seq<int>, now: int, randoms: nat -> Random, delivered: nat -> bool, s: int)
    requires db.Valid() && s != 0 && s in db.update.bySub
    ensures var r := RemindAll(db, ids, now, randoms, delivered);
      s in r.0.update.bySub && r.0.update.bySub[s] == db.update.bySub[s]
  {
    if ids != [] {
      var n := |ids| - 1;
      RunKeepsCode(db, ids[..n], now, randoms, delivered, s);
      var before := RemindAll(db, ids[..n], now, randoms, delivered);
      RemindKeepsCode(before.0, ids[n], now, randoms(n), delivered(n), s);
    }
  }

  /**
   * Every reminder email of the run goes to a listed subscriber and carries
   * the update code that subscriber holds when the run is over.
   */
  lemma {:induction false} RunMailsLive(db: Db, ids: seq<int>, now: int, randoms: nat -> Random, delivered: nat -> bool)
    requires db.Valid()
    ensures var r := RemindAll(db, ids, now, randoms, delivered);
      forall m | m in r.1 ::
        && m.category == UpdateRemind && m.subId != 0 && m.subId in ids
        && m.subId in r.0.update.bySub && r.0.update.bySub[m.subId].code == m.code
  {
    if ids != [] {
      var n := |ids| - 1;
      RunMailsLive(db, ids[..n], now, randoms, delivered);
      var before := RemindAll(db, ids[..n], now, randoms, delivered);
      var step := RemindOne(before.0, ids[n], now, randoms(n), delivered(n));
      RemindMail(before.0, ids[n], now, randoms(n), delivered(n));
      var r := RemindAll(db, ids, now, randoms, delivered);
      forall m | m in r.1
        ensures && m.category == UpdateRemind && m.subId != 0 && m.subId in ids
                && m.subId in r.0.update.bySub && r.0.update.bySub[m.subId].code == m.code
      {
        if m in before.1 {
          assert m.subId in ids[..n];
          RemindKeepsCode(before.0, ids[n], now, randoms(n), delivered(n), m.subId);
        } else {
          assert m == step.1.value;
        }
      }
    }
  }

  lemma LastHolderReached(db: Db, ids: seq<int>, now: int, randoms: nat -> Random, delivered: nat -> bool)
    requires db.Valid() && ids != []
    requires var s := ids[|ids| - 1]; s != 0 && s in db.Ids() && s in db.update.bySub
    ensures var s := ids[|ids| - 1];
      Email(UpdateRemind, db.subscribers.byId[s].email, s, db.update.bySub[s].code) in RemindAll(db, ids, now, randoms, delivered).1
  {
    var n := |ids| - 1;
    var before := RemindAll(db, ids[..n], now, randoms, delivered);
    RunFrame(db, ids[..n], now, randoms, delivered);
    RunKeepsCode(db, ids[..n], now, randoms, delivered, ids[n]);
    assert before.0.Ids() == db.Ids();
    RemindMail(before.0, ids[n], now, randoms(n), delivered(n));
  }

  /**
   * No failure stops the run: every listed subscriber that already holds an
   * update code gets its reminder, with that code, whatever happened to the
   * reminders handled before it.
   */
  lemma {:induction false} RunReachesHolders(db: Db, ids: seq<int>, now: int, randoms: nat -> Random, delivered: nat -> bool)
    requires db.Valid()
    ensures var r := RemindAll(db, ids, now, randoms, delivered);
      forall j | 0 <= j < |ids| && ids[j] != 0 && ids[j] in db.Ids() && ids[j] in db.update.bySub ::
        Email(UpdateRemind, db.subscribers.byId[ids[j]].email, ids[j], db.update.bySub[ids[j]].code) in r.1
  {
    if ids != [] {
      var n := |ids| - 1;
      RunReachesHolders(db, ids[..n], now, randoms, delivered);
      var before := RemindAll(db, ids[..n], now, randoms, delivered);
      var r := RemindAll(db, ids, now, randoms, delivered);
      forall j | 0 <= j < |ids| && ids[j] != 0 && ids[j] in db.Ids() && ids[j] in db.update.bySub
        ensures Email(UpdateRemind, db.subscribers.byId[ids[j]].email, ids[j], db.update.bySub[ids[j]].code) in r.1
      {
        if j < n {
          assert ids[..n][j] == ids[j];
        } else {
          LastHolderReached(db, ids, now, randoms, delivered);
        }
      }
    }
  }

  /** The reminders the run handles: those on the day starting at `today`, ascending by subscriber. */
  function Todays(db: Db, today: int): seq<int>
  {
    var due := SelectScheduledReminderByDate(db, today);
    if due.None? then [] else due.value
  }

  /** The for...of loop of scheduleReminders over the selected reminders. */
  method RemindEach(store: Store, reminders: seq<int>, now: int, randoms: nat -> Random, delivered: nat -> bool)
      returns (emails: seq<Email>)
    requires store.Valid()
    modifies store
    ensures store.Valid() && store.nextId == old(store.nextId)
    ensures var run := RemindAll(old(store.db), reminders, now, randoms, delivered);
      store.db == run.0 && emails == run.1
  {
    emails := [];
    ghost var start := store.db;
    var i := 0;
    while i < |reminders|
      invariant 0 <= i <= |reminders|
      invariant store.Valid() && store.nextId == old(store.nextId)
      invariant store.db == RemindAll(start, reminders[..i], now, randoms, delivered).0
      invariant emails == RemindAll(start, reminders[..i], now, randoms, delivered).1
    {
      assert reminders[..i + 1][..i] == reminders[..i];
      var email := Remind(store, reminders[i], now, randoms(i), delivered(i));
      if email.Some? {
        emails := emails + [email.value];
      }
      i := i + 1;
    }
    assert reminders[..i] == reminders;
  }

  /**
   * scheduleReminders for the day starting at `today`: nothing happens when no
   * reminder falls on it; otherwise each reminder is handled as RemindOne
   * describes, in the order the query returns them.
   */
  method ScheduleReminders(store: Store, today: int, now: int, randoms: nat -> Random, delivered: nat -> bool)
      returns (emails: seq<Email>)
    requires store.Valid()
    modifies store
    ensures store.Valid() && store.nextId == old(store.nextId)
    ensures var run := RemindAll(old(store.db), Todays(old(store.db), today), now, randoms, delivered);
      store.db == run.0 && emails == run.1
  {
    var todaysReminders := SelectScheduledReminderByDate(store.db, today);
    if todaysReminders.None? {
      return [];
    }
    emails := RemindEach(store, todaysReminders.value, now, randoms, delivered);
  }
}
