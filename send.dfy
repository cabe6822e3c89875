/**
 * controller/handlers/Send.js: each function empties the request array it is
 * given, popping from the end, and hands every request that carries an email,
 * a subscriber id and its code to sendEmail with the function's own category.
 * A failed send is ignored. The array is shared with whoever filled it, so it
 * is an object here, emptied in place.
 */
module Send {

  /** The email categories of the mailer. */
  datatype Category = EmailConfirm | UpdateConfirm | UnsubConfirm | UpdateRemind

  /** One call of sendEmail(category, email, subId, code). */
  datatype Email = Email(category: Category, to: string, subId: int, code: int)

  /**
   * A queued request: the recipient, the subscriber, and the code under the
   * property each sender reads (0 where the request has no such property).
   */
  datatype Request = Request(email: string, subId: int, confirmationCode: int, pendingCode: int, unsubscribeCode: int)

  /** The property of a request the sender of `category` reads its code from. */
  function CodeFor(category: Category, r: Request): int
  {
    match category
    case EmailConfirm => r.confirmationCode
    case UpdateConfirm => r.pendingCode
    case UnsubConfirm => r.unsubscribeCode
    case UpdateRemind => 0
  }

  /** A request with a falsy email, subscriber id or code is discarded. */
  predicate Sendable(category: Category, r: Request)
  {
    r.email != "" && r.subId != 0 && CodeFor(category, r) != 0
  }

  function EmailOf(category: Category, r: Request): Email
  {
    Email(category, r.email, r.subId, CodeFor(category, r))
  }

  /** The emails sent while popping every request of `items`, last first. */
  function Drained(category: Category, items: seq<Request>): (sent: seq<Email>)
    ensures |sent| <= |items|
  {
    if items == [] then []
    else
      var last := items[|items| - 1];
      (if Sendable(category, last) then [EmailOf(category, last)] else []) + Drained(category, items[..|items| - 1])
  }

  /** The array object the requests are pushed onto. */
  class RequestQueue {
    var items: seq<Request>

    constructor()
      ensures items == []
    {
      items := [];
    }

    method Push(r: Request)
      modifies this
      ensures items == old(items) + [r]
    {
      items := items + [r];
    }

    method Pop() returns (r: Request)
      requires items != []
      modifies this
      ensures r == old(items)[|old(items)| - 1]
      ensures items == old(items)[..|old(items)| - 1]
    {
      r := items[|items| - 1];
      items := items[..|items| - 1];
    }
  }

  /**
   * The loop the three senders share: a missing array returns at once; otherwise
   * the array ends empty and the emails sent are those of Drained.
   */
  method Drain(category: Category, requests: RequestQueue?) returns (sent: seq<Email>)
    modifies requests
    ensures requests == null ==> sent == []
    ensures requests != null ==> requests.items == [] && sent == Drained(category, old(requests.items))
  {
    sent := [];
    if requests == null {
      return;
    }
    while |requests.items| > 0
      invariant sent + Drained(category, requests.items) == Drained(category, old(requests.items))
      decreases |requests.items|
    {
      DrainedStep(category, requests.items);
      var request := requests.Pop();
      if request.email != "" && request.subId != 0 && CodeFor(category, request) != 0 {
        assert sent + [EmailOf(category, request)] + Drained(category, requests.items)
          == sent + ([EmailOf(category, request)] + Drained(category, requests.items));
        sent := sent + [EmailOf(category, request)];
      }
    }
  }

  /** One pop: the last request's email, if any, comes before the rest. */
  lemma DrainedStep(category: Category, items: seq<Request>)
    requires items != []
    ensures Sendable(category, items[|items| - 1]) ==>
      Drained(category, items) == [EmailOf(category, items[|items| - 1])] + Drained(category, items[..|items| - 1])
    ensures !Sendable(category, items[|items| - 1]) ==>
      Drained(category, items) == Drained(category, items[..|items| - 1])
  {
  }

  method SendConfirmationEmail(requests: RequestQueue?) returns (sent: seq<Email>)
    modifies requests
    ensures requests == null ==> sent == []
    ensures requests != null ==> requests.items == [] && sent == Drained(EmailConfirm, old(requests.items))
  {
    sent := Drain(EmailConfirm, requests);
  }

  method SendPendingEmail(requests: RequestQueue?) returns (sent: seq<Email>)
    modifies requests
    ensures requests == null ==> sent == []
    ensures requests != null ==> requests.items == [] && sent == Drained(UpdateConfirm, old(requests.items))
  {
    sent := Drain(UpdateConfirm, requests);
  }

  method SendUnsubscribeEmail(requests: RequestQueue?) returns (sent: seq<Email>)
    modifies requests
    ensures requests == null ==> sent == []
    ensures requests != null ==> requests.items == [] && sent == Drained(UnsubConfirm, old(requests.items))
  {
    sent := Drain(UnsubConfirm, requests);
  }

  /** Popping serves the later requests first: the emails of `b` precede those of `a`. */
  lemma {:induction false} DrainedLifo(category: Category, a: seq<Request>, b: seq<Request>)
    ensures Drained(category, a + b) == Drained(category, b) + Drained(category, a)
    decreases |b|
  {
    if b == [] {
      assert a + b == a;
    } else {
      var last := b[|b| - 1];
      assert (a + b)[..|a + b| - 1] == a + b[..|b| - 1];
      DrainedLifo(category, a, b[..|b| - 1]);
    }
  }

  /**
   * Every sendable request is mailed, and every email sent comes from a
   * sendable request: nothing is invented and nothing well-formed is dropped.
   */
  lemma {:induction false} DrainedExactly(category: Category, items: seq<Request>)
    ensures forall r | r in items && Sendable(category, r) :: EmailOf(category, r) in Drained(category, items)
    ensures forall e | e in Drained(category, items) :: exists r | r in items :: Sendable(category, r) && e == EmailOf(category, r)
    decreases |items|
  {
    if items != [] {
      var init := items[..|items| - 1];
      var last := items[|items| - 1];
      DrainedExactly(category, init);
      assert items == init + [last];
      forall e | e in Drained(category, items)
        ensures exists r | r in items :: Sendable(category, r) && e == EmailOf(category, r)
      {
        if e in Drained(category, init) {
          var r :| r in init && Sendable(category, r) && e == EmailOf(category, r);
          assert r in items;
        } else {
          assert Sendable(category, last) && e == EmailOf(category, last);
        }
      }
    }
  }

  /** Draining sends one email per sendable request. */
  lemma {:induction false} DrainedCount(category: Category, items: seq<Request>)
    ensures |Drained(category, items)| == |SendableAt(category, items)|
    decreases |items|
  {
    if items != [] {
      var n := |items| - 1;
      DrainedCount(category, items[..n]);
      var before := SendableAt(category, items[..n]);
      var now := SendableAt(category, items);
      assert n !in before;
      if Sendable(category, items[n]) {
        assert now == before + {n};
      } else {
        assert now == before;
      }
    }
  }

  /** The positions of the sendable requests. */
  function SendableAt(category: Category, items: seq<Request>): (at: set<int>)
    ensures forall i :: i in at <==> 0 <= i < |items| && Sendable(category, items[i])
  {
    set i | 0 <= i < |items| && Sendable(category, items[i])
  }
}
