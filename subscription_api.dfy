/**
 * SubscriptionService/SubscriptionAPI.js: the layer between the server and the
 * store. addUser validates and converts a submitted form and queues it;
 * handleUsers later empties that queue, deciding for each user whether it is a
 * change for a confirmed subscriber, a resubmission by a pending one or a new
 * signup, and queues a confirmation email for each operation that succeeded.
 * Its module-level arrays are the fields of one SubscriptionService object.
 */
module SubscriptionApi {
  import opened Wrappers
  import opened Tables
  import opened CodeAuthority
  import opened Transitions
  import opened DBFunc
  import opened FormatConverter
  import Validate

  const ERROR_MESSAGE: string := "There was an error while attempting to subscribe. Please try again later."

  function ConfirmationMessage(email: string): string
  {
    "A confirmation email will be sent to " + email + "."
  }

  /** The `type` of a scheduled email. */
  datatype EmailKind = EmailConfirmation | UpdateConfirmation

  /** An entry of scheduledEmails: the subscriber's id, the email's type and the submitted user. */
  datatype ScheduledEmail = ScheduledEmail(id: int, kind: EmailKind, subscriber: User)

  /** An entry of unsubscribeRequests. */
  datatype UnsubRequest = UnsubRequest(subId: int, unsubscribeCode: int)

  // addUser

  /** The fields addUser insists on before converting. */
  predicate HasRequiredFields(u: User)
  {
    u.age != 0 && u.sex != "" && u.email != "" && u.freq != "" && u.system != "" && u.estBmr != 0 && u.estTdee != 0
  }

  /**
   * The user addUser queues, if any: a submitted user with every required
   * field, converted to the stored format.
   */
  function Admit(user: Option<User>): (r: Option<User>)
    ensures r.Some? <==> user.Some? && HasRequiredFields(user.value) && ToDBFormat(user.value).Some?
    ensures r.Some? ==> r.value == user.value.(weight := r.value.weight, height := r.value.height)
    ensures r.Some? ==> r == ToDBFormat(user.value)
    ensures r.Some? && user.value.system == IMPERIAL ==>
      r.value.weight == user.value.lbs && r.value.height == user.value.feet * 12 + user.value.inches.value
    ensures r.Some? && user.value.system == METRIC ==>
      r.value.weight == user.value.kg && r.value.height == user.value.cm
    ensures r.Some? ==> r.value.system == IMPERIAL || r.value.system == METRIC
  {
    if user.None? || !HasRequiredFields(user.value) then None
    else ToDBFormat(user.value)
  }

  /**
   * A queued user passes subscribe's own guard, provided its imperial height is
   * not made non-positive by a negative feet or inches value, which neither
   * layer rules out.
   */
  lemma AdmittedUserSubscribable(user: Option<User>)
    requires Admit(user).Some?
    requires user.value.system == IMPERIAL ==> user.value.feet > 0 && user.value.inches.value >= 0
    requires user.value.system == METRIC ==> user.value.cm != 0
    ensures SubscribeAccepts(Admit(user))
  {
  }

  /** A queued user can still be refused by subscribe: feet -1 and inches 12 give height 0. */
  lemma NegativeFeetAdmitted()
    ensures var u := User("a@b.c", "weekly", "F", 30, IMPERIAL, -1, Some(12), 150, 0, 0, 0, 0, 1500, 2000);
      Admit(Some(u)).Some? && !SubscribeAccepts(Admit(Some(u)))
  {
    var u := User("a@b.c", "weekly", "F", 30, IMPERIAL, -1, Some(12), 150, 0, 0, 0, 0, 1500, 2000);
    assert ToDBFormat(u) == Some(u.(weight := 150, height := 0));
  }

  // handleUsers

  /**
   * One pass of handleUsers' loop for `u`: the store afterwards and the email
   * it schedules. A known email is an update: staged for a confirmed
   * subscriber, applied with a new confirmation code for a pending one.
   * An unknown email is a signup.
   */
  function HandleOne(s: Sys, u: User, now: int, random: Random): (r: (Sys, Option<ScheduledEmail>))
    requires SysValid(s)
    ensures SysValid(r.0)
  {
    var existing := SelectSubscriberByEmail(s.db, u.email);
    if existing.Some? then
      var subId := existing.value;
      if s.db.subscribers.byId[subId].confirmed then
        var updated := UpdateConfirmedSubscriberSpec(s.db, CandidatesOf(random), subId, Some(MeasurementsOf(u)), now);
        (s.(db := updated.0), if updated.1 then Some(ScheduledEmail(subId, UpdateConfirmation, u)) else None)
      else
        var updated := UpdatePendingSubscriberSpec(s.db, CandidatesOf(random), subId, Some(MeasurementsOf(u)), now);
        (s.(db := updated.0), if updated.1 then Some(ScheduledEmail(subId, EmailConfirmation, u)) else None)
    else
      var subscribed := SubscribeSpec(s, CandidatesOf(random), Some(u), now);
      (subscribed.0, if subscribed.1.Some? && subscribed.1.value != 0 then Some(ScheduledEmail(subscribed.1.value, EmailConfirmation, u)) else None)
  }

  /**
   * An email is scheduled exactly when the store changed. It goes to the
   * subscriber that now holds the user's email; an update confirmation is
   * scheduled only for a subscriber that was already confirmed, whose
   * measurements stay as they were until the update is confirmed.
   */
  lemma HandleOneDispatch(s: Sys, u: User, now: int, random: Random)
    requires SysValid(s)
    ensures var r := HandleOne(s, u, now, random);
      && (r.1.Some? <==> r.0.db != s.db)
      && (r.1.Some? ==>
            && r.1.value.subscriber == u
            && r.1.value.id in r.0.db.Ids()
            && r.0.db.subscribers.byId[r.1.value.id].email == u.email
            && (r.1.value.kind == UpdateConfirmation <==>
                  r.1.value.id in s.db.Ids() && s.db.subscribers.byId[r.1.value.id].confirmed))
      && (r.1.Some? && r.1.value.kind == UpdateConfirmation ==> r.0.db.measurements == s.db.measurements)
  {
    var r := HandleOne(s, u, now, random);
    var existing := SelectSubscriberByEmail(s.db, u.email);
    if existing.Some? {
      var subId := existing.value;
      var candidates := CandidatesOf(random);
      if s.db.subscribers.byId[subId].confirmed {
        var updated := UpdateConfirmedSubscriberSpec(s.db, candidates, subId, Some(MeasurementsOf(u)), now);
        if updated.1 {
          assert subId in updated.0.pending.bySub && subId !in s.db.pending.bySub;
        }
      } else {
        var updated := UpdatePendingSubscriberSpec(s.db, candidates, subId, Some(MeasurementsOf(u)), now);
        if updated.1 {
          var code := updated.0.confirmation.bySub[subId].code;
          if subId in s.db.confirmation.bySub {
            CodesOfRows(s.db, Confirmation);
            assert s.db.Rows(Confirmation)[subId].code == s.db.confirmation.bySub[subId].code;
            assert s.db.confirmation.bySub[subId].code in s.db.confirmation.byCode;
          }
          assert updated.0.confirmation.bySub != s.db.confirmation.bySub;
        }
      }
    } else {
      var subscribed := SubscribeSpec(s, CandidatesOf(random), Some(u), now);
      if subscribed.1.Some? {
        var id := subscribed.1.value;
        assert id in subscribed.0.db.Ids() && id !in s.db.Ids();
        assert id != 0 by {
          assert id == s.nextId;
        }
      }
    }
  }

  /** A pass never removes a subscriber nor changes its email. */
  lemma HandleOneKeepsSubscribers(s: Sys, u: User, now: int, random: Random)
    requires SysValid(s)
    ensures var r := HandleOne(s, u, now, random);
      forall id | id in s.db.Ids() ::
        id in r.0.db.Ids() && r.0.db.subscribers.byId[id].email == s.db.subscribers.byId[id].email
  {
    var existing := SelectSubscriberByEmail(s.db, u.email);
    if existing.None? {
      var subscribed := SubscribeSpec(s, CandidatesOf(random), Some(u), now);
      if subscribed.1.Some? {
        assert Subscribed(s.db, subscribed.0.db, subscribed.1.value, u, now);
      }
    }
  }

  /** The email a pass schedules, as the list handleUsers pushes it onto. */
  function Pushed(step: (Sys, Option<ScheduledEmail>)): seq<ScheduledEmail>
  {
    if step.1.Some? then [step.1.value] else []
  }

  /**
   * handleUsers' loop over `users`, popped from the end, onto the emails
   * already `queued`; `i` counts the passes already made. The result is the
   * store afterwards and the scheduled emails afterwards.
   */
  function Run(s: Sys, users: seq<User>, now: int, randoms: nat -> Random, i: nat, queued: seq<ScheduledEmail>): (r: (Sys, seq<ScheduledEmail>))
    requires SysValid(s)
    ensures SysValid(r.0)
    decreases |users|
  {
    if users == [] then (s, queued)
    else
      var step := HandleOne(s, users[|users| - 1], now, randoms(i));
      Run(step.0, users[..|users| - 1], now, randoms, i + 1, queued + Pushed(step))
  }

  /**
   * A run keeps the emails already queued and adds at most one per user; each
   * added email is for one of the users and names a subscriber that holds
   * that user's email once the run is over.
   */
  lemma {:induction false} RunSchedules(s: Sys, users: seq<User>, now: int, randoms: nat -> Random, i: nat, queued: seq<ScheduledEmail>)
    requires SysValid(s)
    ensures var r := Run(s, users, now, randoms, i, queued);
      && |queued| <= |r.1| <= |queued| + |users|
      && r.1[..|queued|] == queued
      && ScheduledFrom(r.0, users, r.1, |queued|)
    decreases |users|
  {
    if users != [] {
      var n := |users| - 1;
      var step := HandleOne(s, users[n], now, randoms(i));
      var queued' := queued + Pushed(step);
      RunSchedules(step.0, users[..n], now, randoms, i + 1, queued');
      var r := Run(step.0, users[..n], now, randoms, i + 1, queued');
      PrefixOfPrefix(r.1, queued, Pushed(step));
      if step.1.Some? {
        RunKeepsSubscribers(step.0, users[..n], now, randoms, i + 1, queued');
        PushedSurvives(s, users[n], now, randoms(i), r.0);
      }
      ScheduledFromWiden(r.0, users, r.1, |queued|, Pushed(step));
    }
  }

  /** Every email of `emails` from index `from` on is ScheduledFor `s` and `users`. */
  ghost predicate ScheduledFrom(s: Sys, users: seq<User>, emails: seq<ScheduledEmail>, from: nat)
  {
    forall j | from <= j < |emails| :: ScheduledFor(s, users, emails[j])
  }

  /** `e` is for one of `users` and names the subscriber of `s` holding that user's email. */
  ghost predicate ScheduledFor(s: Sys, users: seq<User>, e: ScheduledEmail)
  {
    e.subscriber in users && e.id in s.db.Ids() && s.db.subscribers.byId[e.id].email == e.subscriber.email
  }

  lemma PrefixOfPrefix(r: seq<ScheduledEmail>, queued: seq<ScheduledEmail>, pushed: seq<ScheduledEmail>)
    requires |queued + pushed| <= |r| && r[..|queued + pushed|] == queued + pushed
    ensures r[..|queued|] == queued
    ensures pushed != [] ==> r[|queued|] == pushed[0]
  {
    assert r[..|queued|] == r[..|queued + pushed|][..|queued|];
    if pushed != [] {
      assert r[|queued|] == r[..|queued + pushed|][|queued|];
    }
  }

  lemma ScheduledFromWiden(t: Sys, users: seq<User>, emails: seq<ScheduledEmail>, from: nat, pushed: seq<ScheduledEmail>)
    requires users != [] && |pushed| <= 1 && from + |pushed| <= |emails|
    requires ScheduledFrom(t, users[..|users| - 1], emails, from + |pushed|)
    requires pushed != [] ==> ScheduledFor(t, [users[|users| - 1]], emails[from])
    ensures ScheduledFrom(t, users, emails, from)
  {
    forall j | from <= j < |emails|
      ensures ScheduledFor(t, users, emails[j])
    {
      if j >= from + |pushed| {
        assert ScheduledFor(t, users[..|users| - 1], emails[j]);
        assert emails[j].subscriber in users[..|users| - 1];
      } else {
        assert ScheduledFor(t, [users[|users| - 1]], emails[j]);
      }
    }
  }

  /** The email a pass schedules still names its subscriber in any later store that keeps the subscribers. */
  lemma PushedSurvives(s: Sys, u: User, now: int, random: Random, later: Sys)
    requires SysValid(s) && HandleOne(s, u, now, random).1.Some?
    requires var next := HandleOne(s, u, now, random).0;
      forall id | id in next.db.Ids() ::
        id in later.db.Ids() && later.db.subscribers.byId[id].email == next.db.subscribers.byId[id].email
    ensures ScheduledFor(later, [u], HandleOne(s, u, now, random).1.value)
  {
    HandleOneDispatch(s, u, now, random);
  }

  /** A run never removes a subscriber nor changes its email. */
  lemma {:induction false} RunKeepsSubscribers(s: Sys, users: seq<User>, now: int, randoms: nat -> Random, i: nat, queued: seq<ScheduledEmail>)
    requires SysValid(s)
    ensures var r := Run(s, users, now, randoms, i, queued);
      forall id | id in s.db.Ids() ::
        id in r.0.db.Ids() && r.0.db.subscribers.byId[id].email == s.db.subscribers.byId[id].email
    decreases |users|
  {
    if users != [] {
      var n := |users| - 1;
      var step := HandleOne(s, users[n], now, randoms(i));
      HandleOneKeepsSubscribers(s, users[n], now, randoms(i));
      RunKeepsSubscribers(step.0, users[..n], now, randoms, i + 1, queued + Pushed(step));
    }
  }

  /** The user queued last is handled first (LIFO): its email comes first. */
  lemma LastQueuedHandledFirst(s: Sys, users: seq<User>, u: User, now: int, randoms: nat -> Random, queued: seq<ScheduledEmail>)
    requires SysValid(s)
    requires HandleOne(s, u, now, randoms(0)).1.Some?
    ensures var r := Run(s, users + [u], now, randoms, 0, queued);
      |r.1| > |queued| && r.1[|queued|] == HandleOne(s, u, now, randoms(0)).1.value && r.1[|queued|].subscriber == u
  {
    var step := HandleOne(s, u, now, randoms(0));
    assert (users + [u])[..|users|] == users;
    HandleOneDispatch(s, u, now, randoms(0));
    RunSchedules(step.0, users, now, randoms, 1, queued + Pushed(step));
    var r := Run(s, users + [u], now, randoms, 0, queued);
    assert r.1[..|queued| + 1][|queued|] == r.1[|queued|];
  }

  // isValidCode and codeBelongsToSubId of this layer

  /** The tables this layer's checks know: the three code tables, but not pending_update. */
  function ApiKindOf(table: string): (k: Option<Kind>)
    ensures k.Some? ==> k.value != Pending && KindOfTable(table) == k
    ensures k.None? ==> KindOfTable(table).None? || KindOfTable(table) == Some(Pending)
  {
    if table == TableName(Confirmation) then Some(Confirmation)
    else if table == TableName(Unsubscribe) then Some(Unsubscribe)
    else if table == TableName(Update) then Some(Update)
    else None
  }

  /** isValidCode: false for a falsy table or code and for any other table name. */
  function IsValidCode(db: Db, table: string, code: int): (ok: bool)
    requires db.Valid()
    ensures ok <==> code != 0 && ApiKindOf(table).Some? && Validate.HasCode(db.Rows(ApiKindOf(table).value), code)
  {
    if table == "" || code == 0 then false
    else
      var k := ApiKindOf(table);
      if k.None? then false
      else
        Validate.OwnerFound(db, k.value, code);
        SelectOwnerByCode(db, k.value, code).Some?
  }

  /** codeBelongsToSubId: the row holding `code` must be the one of subscriber `id`. */
  function CodeBelongsToSubId(db: Db, table: string, code: int, id: int): (ok: bool)
    requires db.Valid()
    ensures ok <==>
      && code != 0 && id != 0 && ApiKindOf(table).Some?
      && id in db.Rows(ApiKindOf(table).value) && db.Rows(ApiKindOf(table).value)[id].code == code
  {
    if table == "" || code == 0 || id == 0 then false
    else
      var k := ApiKindOf(table);
      if k.None? then false
      else
        CodesOfRows(db, k.value);
        var owner := SelectOwnerByCode(db, k.value, code);
        owner.Some? && owner.value == id
  }

  /**
   * The checks here agree with those of controller/Validate.js on every table
   * but pending_update, which they do not know.
   */
  lemma ChecksAgreeWithValidate(db: Db, table: string, code: int, id: int)
    requires db.Valid()
    ensures IsValidCode(db, table, code) <==> table != TableName(Pending) && Validate.IsValidCode(db, table, code)
    ensures CodeBelongsToSubId(db, table, code, id) <==>
      table != TableName(Pending) && Validate.CodeBelongsToSubId(db, table, code, id)
  {
  }

  class SubscriptionService {
    const store: Store
    var usersToHandle: seq<User>
    var unsubscribeRequests: seq<UnsubRequest>
    var scheduledEmails: seq<ScheduledEmail>

    constructor(store: Store)
      ensures this.store == store
      ensures usersToHandle == [] && unsubscribeRequests == [] && scheduledEmails == []
    {
      this.store := store;
      usersToHandle := [];
      unsubscribeRequests := [];
      scheduledEmails := [];
    }

    /**
     * addUser: the error message, with nothing queued, for a missing user, a
     * missing required field or a failed conversion; otherwise the converted
     * user is queued and the answer names its email.
     */
    method AddUser(user: Option<User>) returns (message: string)
      modifies this
      ensures Admit(user).None? ==> message == ERROR_MESSAGE && usersToHandle == old(usersToHandle)
      ensures Admit(user).Some? ==>
        message == ConfirmationMessage(user.value.email) && usersToHandle == old(usersToHandle) + [Admit(user).value]
      ensures unsubscribeRequests == old(unsubscribeRequests) && scheduledEmails == old(scheduledEmails)
    {
      if user.None? || !HasRequiredFields(user.value) {
        return ERROR_MESSAGE;
      }
      var dbuser := ToDBFormat(user.value);
      if dbuser.None? {
        return ERROR_MESSAGE;
      }
      usersToHandle := usersToHandle + [dbuser.value];
      message := ConfirmationMessage(dbuser.value.email);
    }

    /** One pass of handleUsers' loop, on the store only. */
    method HandleUser(user: User, now: int, random: Random) returns (schedEm: Option<ScheduledEmail>)
      requires store.Valid()
      modifies store
      ensures store.Valid()
      ensures var r := HandleOne(old(store.State()), user, now, random);
        store.db == r.0.db && store.nextId == r.0.nextId && schedEm == r.1
    {
      var existingSub := SelectSubscriberByEmail(store.db, user.email);
      if existingSub.Some? {
        var subId := existingSub.value;
        var success;
        if store.db.subscribers.byId[subId].confirmed {
          success := store.UpdateConfirmedSubscriber(subId, Some(MeasurementsOf(user)), now, random);
          schedEm := if success then Some(ScheduledEmail(subId, UpdateConfirmation, user)) else None;
        } else {
          success := store.UpdatePendingSubscriber(subId, Some(MeasurementsOf(user)), now, random);
          schedEm := if success then Some(ScheduledEmail(subId, EmailConfirmation, user)) else None;
        }
      } else {
        var id := store.Subscribe(Some(user), now, random);
        schedEm := if id.Some? && id.value != 0 then Some(ScheduledEmail(id.value, EmailConfirmation, user)) else None;
      }
    }

    /**
     * One iteration of handleUsers' loop: pop the last queued user, handle it
     * and push the email it schedules. `cur` is the store it starts from.
     */
    method HandleNext(now: int, random: Random, ghost cur: Sys) returns (ghost next: Sys)
      requires usersToHandle != [] && SysValid(cur) && store.db == cur.db && store.nextId == cur.nextId
      modifies this, store
      ensures var step := HandleOne(cur, old(usersToHandle)[|old(usersToHandle)| - 1], now, random);
        next == step.0 && scheduledEmails == old(scheduledEmails) + Pushed(step)
      ensures SysValid(next) && store.db == next.db && store.nextId == next.nextId
      ensures usersToHandle == old(usersToHandle)[..|old(usersToHandle)| - 1]
      ensures unsubscribeRequests == old(unsubscribeRequests)
    {
      var user := usersToHandle[|usersToHandle| - 1];
      usersToHandle := usersToHandle[..|usersToHandle| - 1];
      next := HandleOne(cur, user, now, random).0;
      var schedEm := HandleUser(user, now, random);
      if schedEm.Some? {
        scheduledEmails := scheduledEmails + [schedEm.value];
      }
    }

    /**
     * handleUsers: pops every queued user, last first, handles it as HandleOne
     * says and pushes the email it schedules; the queue ends empty.
     */
    method HandleUsers(now: int, randoms: nat -> Random)
      requires store.Valid()
      modifies this, store
      ensures store.Valid()
      ensures usersToHandle == []
      ensures var run := Run(old(store.State()), old(usersToHandle), now, randoms, 0, old(scheduledEmails));
        store.db == run.0.db && store.nextId == run.0.nextId && scheduledEmails == run.1
      ensures unsubscribeRequests == old(unsubscribeRequests)
    {
      ghost var cur := store.State();
      var i: nat := 0;
      while |usersToHandle| > 0
        invariant SysValid(cur) && store.db == cur.db && store.nextId == cur.nextId
        invariant unsubscribeRequests == old(unsubscribeRequests)
        invariant Run(cur, usersToHandle, now, randoms, i, scheduledEmails)
          == Run(old(store.State()), old(usersToHandle), now, randoms, 0, old(scheduledEmails))
        decreases |usersToHandle|
      {
        cur := HandleNext(now, randoms(i), cur);
        i := i + 1;
      }
    }

    /** sendEmails: pops every scheduled email; sending them is not written yet. */
    method SendEmails()
      modifies this
      ensures scheduledEmails == []
      ensures usersToHandle == old(usersToHandle) && unsubscribeRequests == old(unsubscribeRequests)
    {
      while |scheduledEmails| > 0
        invariant usersToHandle == old(usersToHandle) && unsubscribeRequests == old(unsubscribeRequests)
        decreases |scheduledEmails|
      {
        scheduledEmails := scheduledEmails[..|scheduledEmails| - 1];
      }
    }

    /**
     * createUnsubscribeRequest: false when no subscriber has `email` or it is
     * unconfirmed, false when insertUnsubscribeCode fails; otherwise queues
     * the subscriber's id with the new code and answers true.
     */
    method CreateUnsubscribeRequest(email: string, now: int, random: Random) returns (ok: bool)
      requires store.Valid()
      modifies this, store
      ensures store.Valid() && store.nextId == old(store.nextId)
      ensures usersToHandle == old(usersToHandle) && scheduledEmails == old(scheduledEmails)
      ensures var sub := SelectSubscriberByEmail(old(store.db), email);
        sub.None? || !old(store.db).subscribers.byId[sub.value].confirmed ==>
          !ok && store.db == old(store.db) && unsubscribeRequests == old(unsubscribeRequests)
      ensures var sub := SelectSubscriberByEmail(old(store.db), email);
        sub.Some? && old(store.db).subscribers.byId[sub.value].confirmed ==>
          var spec := InsertUnsubscribeCodeSpec(old(store.db), CandidatesOf(random), sub.value, now);
          && store.db == spec.0
          && ok == spec.1.Some?
          && unsubscribeRequests == old(unsubscribeRequests) +
               (if ok then [UnsubRequest(sub.value, spec.1.value.code)] else [])
    {
      var sub := SelectSubscriberByEmail(store.db, email);
      if sub.None? || !store.db.subscribers.byId[sub.value].confirmed {
        return false;
      }
      var subId := sub.value;
      var unsubscribeCode := store.InsertUnsubscribeCode(subId, now, random);
      if unsubscribeCode.None? {
        return false;
      }
      unsubscribeRequests := unsubscribeRequests + [UnsubRequest(subId, unsubscribeCode.value.code)];
      ok := true;
    }
  }
}
