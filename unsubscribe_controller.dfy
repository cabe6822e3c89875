/**
 * controller/UnsubscribeController.js: a confirmed subscriber asks by email to
 * unsubscribe and is queued for a confirmation email; following the emailed
 * link deletes the subscriber. The module-level array unsubRequests is the
 * queue sendUnsubscribeEmail empties every minute.
 */
module UnsubscribeController {
  import opened Wrappers
  import opened Tables
  import opened CodeAuthority
  import opened Transitions
  import opened DBFunc
  import opened Send

  class Controller {
    const store: Store
    /** The unsubRequests array. */
    const unsubRequests: RequestQueue

    constructor(store: Store)
      ensures this.store == store && fresh(unsubRequests) && unsubRequests.items == []
    {
      this.store := store;
      unsubRequests := new RequestQueue();
    }

    /**
     * createUnsubscribeRequest: false, with nothing queued and no change, when no
     * subscriber has `email` or that subscriber is unconfirmed; false when
     * insertUnsubscribeCode fails, as it does when one is already pending;
     * otherwise queues one request carrying the new code and answers true.
     */
    method CreateUnsubscribeRequest(email: string, now: int, random: Random) returns (ok: bool)
      requires store.Valid()
      modifies store, unsubRequests
      ensures store.Valid() && store.nextId == old(store.nextId)
      ensures var sub := SelectSubscriberByEmail(old(store.db), email);
        sub.None? || !old(store.db).subscribers.byId[sub.value].confirmed ==>
          !ok && store.db == old(store.db) && unsubRequests.items == old(unsubRequests.items)
      ensures var sub := SelectSubscriberByEmail(old(store.db), email);
        sub.Some? && old(store.db).subscribers.byId[sub.value].confirmed ==>
          var spec := InsertUnsubscribeCodeSpec(old(store.db), CandidatesOf(random), sub.value, now);
          && store.db == spec.0
          && ok == spec.1.Some?
          && unsubRequests.items == old(unsubRequests.items) +
               (if ok then [Request(email, sub.value, 0, 0, spec.1.value.code)] else [])
    {
      var subId := SelectSubscriberByEmail(store.db, email);
      if subId.None? || !store.db.subscribers.byId[subId.value].confirmed {
        return false;
      }
      var unsubscribeCode := store.InsertUnsubscribeCode(subId.value, now, random);
      if unsubscribeCode.None? {
        return false;
      }
      unsubRequests.Push(Request(email, subId.value, 0, 0, unsubscribeCode.value.code));
      ok := true;
    }

    /** unsubscribe: false for a falsy id; otherwise whether deleteSubscriberById removed a subscriber. */
    method Unsubscribe(id: int) returns (ok: bool)
      requires store.Valid()
      modifies store
      ensures store.Valid() && store.nextId == old(store.nextId)
      ensures ok <==> id != 0 && id in old(store.db).Ids()
      ensures store.db == DeleteSubscriberByIdSpec(old(store.db), id).0
    {
      if id == 0 {
        return false;
      }
      var deleted := store.DeleteSubscriberById(id);
      ok := deleted.Some? && deleted.value != 0;
    }
  }

  /**
   * A request is queued only for a confirmed subscriber, and the code it carries
   * is then that subscriber's live unsubscribe code, so the sender mails it.
   */
  lemma QueuedRequestIsSendable(db: Db, candidates: Candidates, email: string, now: int)
    requires db.Valid()
    requires SelectSubscriberByEmail(db, email).Some?
    requires InsertUnsubscribeCodeSpec(db, candidates, SelectSubscriberByEmail(db, email).value, now).1.Some?
    ensures var id := SelectSubscriberByEmail(db, email).value;
      var spec := InsertUnsubscribeCodeSpec(db, candidates, id, now);
      && Sendable(UnsubConfirm, Request(email, id, 0, 0, spec.1.value.code))
      && spec.0.unsubscribe.bySub[id].code == spec.1.value.code
      && spec.0.Ids() == db.Ids()
  {
    var id := SelectSubscriberByEmail(db, email).value;
    assert id in db.Ids();
  }

  /** A second request while the first code is pending is refused and changes nothing. */
  lemma SecondRequestRefused(db: Db, candidates: Candidates, candidates2: Candidates, id: int, now: int, later: int)
    requires db.Valid()
    requires InsertUnsubscribeCodeSpec(db, candidates, id, now).1.Some?
    ensures var d := InsertUnsubscribeCodeSpec(db, candidates, id, now).0;
      InsertUnsubscribeCodeSpec(d, candidates2, id, later) == (d, None)
  {
  }
}
