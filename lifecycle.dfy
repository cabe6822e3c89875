/**
 * How the transitions of SubscriptionService/DBFunc.js compose: signing up and
 * confirming, confirming only once, staging an update and then confirming or
 * rejecting it, issuing an unsubscribe code and withdrawing it, deleting a
 * subscriber only once.
 */
module Lifecycle {
  import opened Wrappers
  import opened Tables
  import opened CodeAuthority
  import opened Transitions

  /**
   * subscribe succeeds for every well-formed signup with a known frequency and
   * a new email exactly when one of the code draws is free; the new subscriber
   * is then the one subscriber holding that email.
   */
  lemma SubscribeSucceedsIff(s: Sys, candidates: Candidates, u: User, now: int)
    requires SysValid(s) && SubscribeAccepts(Some(u))
    requires FreqId(s.db.frequency, u.freq).Some? && u.email !in s.db.subscribers.byEmail
    ensures var r := SubscribeSpec(s, candidates, Some(u), now);
      && (r.1.Some? <==> FreeDrawWithin(s.db, Confirmation, candidates))
      && (r.1.Some? ==> u.email in r.0.db.subscribers.byEmail && r.0.db.subscribers.byEmail[u.email] == r.1.value)
  {
    GenerateSucceedsIff(s.db, Confirmation, candidates);
    var r := SubscribeSpec(s, candidates, Some(u), now);
    if r.1.Some? {
      assert r.0.db.subscribers.byId[r.1.value].email == u.email;
    }
  }

  /** updateConfirmedSubscriber stages the values of a subscriber with nothing staged exactly when a draw is free. */
  lemma StageSucceedsIff(db: Db, candidates: Candidates, subId: int, values: Measurements, now: int)
    requires db.Valid() && subId in db.Ids() && subId !in db.pending.bySub
    ensures UpdateConfirmedSubscriberSpec(db, candidates, subId, Some(values), now).1 <==> FreeDrawWithin(db, Pending, candidates)
  {
    GenerateSucceedsIff(db, Pending, candidates);
  }

  /** updatePendingSubscriber replaces a subscriber's measurements and code exactly when a draw is free. */
  lemma ResubmitSucceedsIff(db: Db, candidates: Candidates, subId: int, values: Measurements, now: int)
    requires db.Valid() && subId in db.Ids()
    ensures var r := UpdatePendingSubscriberSpec(db, candidates, subId, Some(values), now);
      && (r.1 <==> FreeDrawWithin(db, Confirmation, candidates))
      && (r.1 ==> r.0.measurements[subId].values == values)
  {
    GenerateSucceedsIff(db, Confirmation, candidates);
  }

  /** newUpdateCode gives a subscriber an update code exactly when a draw is free, whether or not it had one. */
  lemma UpdateCodeIssuedIff(db: Db, candidates: Candidates, subId: int, now: int)
    requires db.Valid() && subId in db.Ids()
    ensures var r := NewUpdateCodeSpec(db, candidates, subId, now);
      && (r.1.Some? <==> FreeDrawWithin(db, Update, candidates))
      && (r.1.Some? ==> subId in r.0.update.bySub && r.0.update.bySub[subId].code !in db.update.byCode)
  {
    GenerateSucceedsIff(db, Update, candidates);
  }

  /** insertUnsubscribeCode gives a subscriber without one an unsubscribe code exactly when a draw is free. */
  lemma UnsubscribeCodeIssuedIff(db: Db, candidates: Candidates, subId: int, now: int)
    requires db.Valid() && subId in db.Ids() && subId !in db.unsubscribe.bySub
    ensures var r := InsertUnsubscribeCodeSpec(db, candidates, subId, now);
      && (r.1.Some? <==> FreeDrawWithin(db, Unsubscribe, candidates))
      && (r.1.Some? ==> subId in r.0.unsubscribe.bySub && r.0.unsubscribe.bySub[subId].code !in db.unsubscribe.byCode)
  {
    GenerateSucceedsIff(db, Unsubscribe, candidates);
  }

  /** A new subscriber's confirmation succeeds: it ends confirmed, codeless and with a reminder. */
  lemma SubscribeThenConfirm(s: Sys, candidates: Candidates, u: User, now: int, later: int)
    requires SysValid(s)
    requires forall i | 0 <= i < |s.db.frequency| :: s.db.frequency[i].id != 0
    requires SubscribeSpec(s, candidates, Some(u), now).1.Some?
    ensures var signed := SubscribeSpec(s, candidates, Some(u), now);
      var id := signed.1.value;
      var confirmed := ConfirmSubscriberSpec(signed.0.db, id, later);
      && confirmed.1
      && confirmed.0.subscribers.byId[id].confirmed
      && id !in confirmed.0.confirmation.bySub
      && id in confirmed.0.reminders
      && confirmed.0.measurements == signed.0.db.measurements
  {
    var signed := SubscribeSpec(s, candidates, Some(u), now);
    var id := signed.1.value;
    var freqId := FreqId(s.db.frequency, u.freq).value;
    var i :| 0 <= i < |s.db.frequency| && s.db.frequency[i].descriptor == u.freq && s.db.frequency[i].id == freqId;
    assert signed.0.db.subscribers.byId[id].freqId == freqId;
    assert FreqNumDays(signed.0.db.frequency, freqId).Some? by {
      assert signed.0.db.frequency == s.db.frequency;
      assert s.db.frequency[i].id == freqId;
    }
  }

  /** confirmSubscriber succeeds at most once: a second call refuses and changes nothing. */
  lemma ConfirmOnlyOnce(db: Db, id: int, now: int, later: int)
    requires db.Valid()
    ensures var first := ConfirmSubscriberSpec(db, id, now);
      ConfirmSubscriberSpec(first.0, id, later) == (first.0, false)
  {
    var first := ConfirmSubscriberSpec(db, id, now);
    if first.1 {
      assert first.0.subscribers.byId[id].confirmed;
    }
  }

  /**
   * Confirming a staged update applies exactly the staged values, stamped with
   * the time of the confirmation, and leaves no staged row behind: the store is
   * the one before staging with only that subscriber's measurements replaced.
   */
  lemma ConfirmAppliesStage(db: Db, candidates: Candidates, subId: int, values: Option<Measurements>, now: int, later: int)
    requires db.Valid()
    requires UpdateConfirmedSubscriberSpec(db, candidates, subId, values, now).1
    ensures var staged := UpdateConfirmedSubscriberSpec(db, candidates, subId, values, now).0;
      var applied := ConfirmPendingUpdateSpec(staged, subId, later);
      && applied.1 == Some(true)
      && applied.0 == db.(measurements := db.measurements[subId := MeasurementsRow(values.value, later)])
  {
    var staged := UpdateConfirmedSubscriberSpec(db, candidates, subId, values, now).0;
    var applied := ConfirmPendingUpdateSpec(staged, subId, later);
    assert subId != 0 by {
      assert subId in db.subscribers.byId;
    }
    assert applied.0.pending.bySub == db.pending.bySub;
    IndexDetermined(applied.0.pending, db.pending);
  }

  /** Rejecting a staged update by its code undoes the staging exactly. */
  lemma RejectUndoesStage(db: Db, candidates: Candidates, subId: int, values: Option<Measurements>, now: int)
    requires db.Valid()
    requires UpdateConfirmedSubscriberSpec(db, candidates, subId, values, now).1
    ensures var staged := UpdateConfirmedSubscriberSpec(db, candidates, subId, values, now).0;
      DeleteByCodeSpec(staged, Pending, staged.pending.bySub[subId].code) == (db, Some(1))
  {
    var staged := UpdateConfirmedSubscriberSpec(db, candidates, subId, values, now).0;
    var code := staged.pending.bySub[subId].code;
    assert code in staged.pending.byCode && staged.pending.byCode[code] == subId;
    var d := DeleteByCodeSpec(staged, Pending, code).0;
    assert d == staged.(pending := staged.pending.RemoveCode(code));
    assert d.pending.bySub == db.pending.bySub;
    IndexDetermined(d.pending, db.pending);
  }

  /** Deleting an unsubscribe code by its code leaves the store as it was before the code was issued. */
  lemma WithdrawUndoesUnsubscribeCode(db: Db, candidates: Candidates, subId: int, now: int)
    requires db.Valid()
    requires InsertUnsubscribeCodeSpec(db, candidates, subId, now).1.Some?
    ensures var issued := InsertUnsubscribeCodeSpec(db, candidates, subId, now);
      DeleteByCodeSpec(issued.0, Unsubscribe, issued.1.value.code) == (db, Some(1))
  {
    var issued := InsertUnsubscribeCodeSpec(db, candidates, subId, now);
    var code := issued.1.value.code;
    assert code in issued.0.unsubscribe.byCode && issued.0.unsubscribe.byCode[code] == subId;
    var d := DeleteByCodeSpec(issued.0, Unsubscribe, code).0;
    assert d == issued.0.(unsubscribe := issued.0.unsubscribe.RemoveCode(code));
    assert d.unsubscribe.bySub == db.unsubscribe.bySub;
    IndexDetermined(d.unsubscribe, db.unsubscribe);
  }

  /**
   * A subscriber is deleted at most once: the second delete reports no row and
   * changes nothing. This follows directly from DeleteSubscriberByIdSpec's contract.
   */
  lemma DeleteOnlyOnce(db: Db, id: int)
    requires db.Valid()
    ensures var first := DeleteSubscriberByIdSpec(db, id);
      DeleteSubscriberByIdSpec(first.0, id) == (first.0, if id == 0 then None else Some(0))
  {
  }
}
