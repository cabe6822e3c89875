/**
 * The relational state the lifecycle engine works on: the subscriber table with
 * its unique email index, the measurements table, the four one-time-code tables
 * with their unique code indexes, the scheduled reminders and the read-only
 * frequency table; and the read-only queries of SubscriptionService/DBFunc.js.
 *
 * Timestamps are whole seconds; `now` stands for the database's CURRENT_TIMESTAMP.
 * JavaScript's falsy values are 0 for numbers and "" for strings.
 */
module Tables {
  import opened Wrappers
  import opened Ordering

  const MINUTE: int := 60
  const DAY: int := 24 * 60 * MINUTE

  /** The inclusive range of the 8-digit codes and the number of draws per generation. */
  const MIN_CODE: int := 10000000
  const MAX_CODE: int := 99999999
  const MAX_TRIES: nat := 15

  /** The four one-time-code tables. */
  datatype Kind = Confirmation | Update | Unsubscribe | Pending

  function TableName(k: Kind): string
  {
    match k
    case Confirmation => "confirmation_code"
    case Update => "update_code"
    case Unsubscribe => "unsubscribe_code"
    case Pending => "pending_update"
  }

  /** The table a name designates; every other string designates none. */
  function KindOfTable(table: string): (k: Option<Kind>)
    ensures k.Some? ==> TableName(k.value) == table
    ensures k.None? ==> forall kind: Kind :: TableName(kind) != table
  {
    if table == TableName(Confirmation) then Some(Confirmation)
    else if table == TableName(Update) then Some(Update)
    else if table == TableName(Unsubscribe) then Some(Unsubscribe)
    else if table == TableName(Pending) then Some(Pending)
    else None
  }

  /** How long a freshly inserted row of each table lives (the columns' defaults). */
  function Window(k: Kind): int
  {
    match k
    case Confirmation => 7 * DAY
    case Update => 7 * DAY
    case Unsubscribe => 30 * MINUTE
    case Pending => 30 * MINUTE
  }

  datatype Measurements = Measurements(
    sex: string, age: int, system: string, weight: int, height: int, estBmr: int, estTdee: int)

  datatype MeasurementsRow = MeasurementsRow(values: Measurements, lastUpdated: int)

  datatype Subscriber = Subscriber(email: string, freqId: int, confirmed: bool, dateConfirmed: Option<int>)

  datatype Frequency = Frequency(id: int, descriptor: string, numDays: int)

  /**
   * The object the handlers pass between layers: the form's fields, the imperial
   * or metric inputs, and the stored measurement fields once converted.
   * `inches` is the one input whose 0 is meaningful, so its absence is explicit.
   */
  datatype User = User(
    email: string, freq: string,
    sex: string, age: int, system: string,
    feet: int, inches: Option<int>, lbs: int, cm: int, kg: int,
    weight: int, height: int, estBmr: int, estTdee: int)

  function MeasurementsOf(u: User): Measurements
  {
    Measurements(u.sex, u.age, u.system, u.weight, u.height, u.estBmr, u.estTdee)
  }

  /** The subscriber table and its unique email index. */
  datatype SubscriberTable = SubscriberTable(byId: map<int, Subscriber>, byEmail: map<string, int>)
  {
    ghost predicate Indexed()
    {
      && (forall id | id in byId :: byId[id].email in byEmail && byEmail[byId[id].email] == id)
      && (forall e | e in byEmail :: byEmail[e] in byId && byId[byEmail[e]].email == e)
    }

    function Insert(id: int, s: Subscriber): (t: SubscriberTable)
      requires Indexed() && id !in byId && s.email !in byEmail
      ensures t.Indexed() && t.byId == byId[id := s]
    {
      SubscriberTable(byId[id := s], byEmail[s.email := id])
    }

    /** Rewrites a row without changing its email. */
    function Replace(id: int, s: Subscriber): (t: SubscriberTable)
      requires Indexed() && id in byId && s.email == byId[id].email
      ensures t.Indexed() && t.byId == byId[id := s]
    {
      SubscriberTable(byId[id := s], byEmail)
    }

    function Remove(id: int): (t: SubscriberTable)
      requires Indexed()
      ensures t.Indexed() && t.byId == byId - {id}
    {
      if id in byId then SubscriberTable(byId - {id}, byEmail - {byId[id].email}) else this
    }
  }

  /**
   * One row of a code table. The staged measurements of pending_update are its
   * payload; the other three tables carry none.
   */
  datatype CodeRow<P> = CodeRow(code: int, created: int, expires: int, payload: P)

  /** A code table: at most one row per subscriber, and a unique index on the code. */
  datatype CodeTable<P> = CodeTable(bySub: map<int, CodeRow<P>>, byCode: map<int, int>)
  {
    ghost predicate Indexed()
    {
      && (forall s | s in bySub :: bySub[s].code in byCode && byCode[bySub[s].code] == s)
      && (forall c | c in byCode :: byCode[c] in bySub && bySub[byCode[c]].code == c)
    }

    /** Inserts or overwrites the row of `sub`. */
    function Put(sub: int, row: CodeRow<P>): (t: CodeTable<P>)
      requires Indexed()
      requires row.code !in byCode || byCode[row.code] == sub
      ensures t.Indexed() && t.bySub == bySub[sub := row]
    {
      var freed := if sub in bySub then byCode - {bySub[sub].code} else byCode;
      CodeTable(bySub[sub := row], freed[row.code := sub])
    }

    function RemoveSub(sub: int): (t: CodeTable<P>)
      requires Indexed()
      ensures t.Indexed() && t.bySub == bySub - {sub}
    {
      if sub in bySub then CodeTable(bySub - {sub}, byCode - {bySub[sub].code}) else this
    }

    function RemoveCode(code: int): (t: CodeTable<P>)
      requires Indexed()
      ensures t.Indexed()
      ensures code in byCode ==> t.bySub == bySub - {byCode[code]}
      ensures code !in byCode ==> t == this
    {
      if code in byCode then RemoveSub(byCode[code]) else this
    }
  }

  /** byCode is only an index: two indexed tables holding the same rows are the same table. */
  lemma IndexDetermined<P>(t: CodeTable<P>, u: CodeTable<P>)
    requires t.Indexed() && u.Indexed() && t.bySub == u.bySub
    ensures t == u
  {
    forall c | c in t.byCode
      ensures c in u.byCode && u.byCode[c] == t.byCode[c]
    {
      var s := t.byCode[c];
      assert s in u.bySub && u.bySub[s].code == c;
    }
    forall c | c in u.byCode
      ensures c in t.byCode
    {
      var s := u.byCode[c];
      assert s in t.bySub && t.bySub[s].code == c;
    }
    assert t.byCode == u.byCode;
  }

  function Stamp<P>(r: CodeRow<P>): CodeRow<()>
  {
    CodeRow(r.code, r.created, r.expires, ())
  }

  /** The rows of a code table without their payloads. */
  function Stamps<P>(t: CodeTable<P>): (r: map<int, CodeRow<()>>)
    ensures r.Keys == t.bySub.Keys
  {
    map s | s in t.bySub :: Stamp(t.bySub[s])
  }

  ghost predicate CodesWellFormed<P>(t: CodeTable<P>, ids: set<int>)
  {
    && t.Indexed()
    && t.bySub.Keys <= ids
    && forall c | c in t.byCode :: MIN_CODE <= c <= MAX_CODE
  }

  datatype Db = Db(
    subscribers: SubscriberTable,
    measurements: map<int, MeasurementsRow>,
    confirmation: CodeTable<()>,
    update: CodeTable<()>,
    unsubscribe: CodeTable<()>,
    pending: CodeTable<Measurements>,
    reminders: map<int, int>,
    frequency: seq<Frequency>)
  {
    /** The unique code index of one kind's table: code to owning subscriber. */
    function Codes(k: Kind): map<int, int>
    {
      match k
      case Confirmation => confirmation.byCode
      case Update => update.byCode
      case Unsubscribe => unsubscribe.byCode
      case Pending => pending.byCode
    }

    /** The rows of one kind's table, by owning subscriber. */
    function Rows(k: Kind): map<int, CodeRow<()>>
    {
      match k
      case Confirmation => Stamps(confirmation)
      case Update => Stamps(update)
      case Unsubscribe => Stamps(unsubscribe)
      case Pending => Stamps(pending)
    }

    function Ids(): set<int>
    {
      subscribers.byId.Keys
    }

    /**
     * The constraints the queries rely on (no schema ships with the code, so
     * these are assumptions): unique emails and codes, ids from the serial
     * sequence (never 0), one measurements row per subscriber, foreign keys to
     * subscriber, 8-digit codes, and a reminder exactly for each confirmed subscriber.
     */
    ghost predicate Valid()
    {
      && subscribers.Indexed()
      && (forall id | id in subscribers.byId :: id >= 1)
      && measurements.Keys == Ids()
      && CodesWellFormed(confirmation, Ids())
      && CodesWellFormed(update, Ids())
      && CodesWellFormed(unsubscribe, Ids())
      && CodesWellFormed(pending, Ids())
      && reminders.Keys <= Ids()
      && (forall id | id in subscribers.byId :: id in reminders <==> subscribers.byId[id].confirmed)
    }
  }

  /** A code table's index agrees with its rows. */
  lemma CodesOfRows(db: Db, k: Kind)
    requires db.Valid()
    ensures forall c | c in db.Codes(k) :: db.Codes(k)[c] in db.Rows(k) && db.Rows(k)[db.Codes(k)[c]].code == c
    ensures forall s | s in db.Rows(k) :: db.Rows(k)[s].code in db.Codes(k) && db.Codes(k)[db.Rows(k)[s].code] == s
    ensures db.Rows(k).Keys <= db.Ids()
  {
    match k
    case Confirmation => StampsIndexed(db.confirmation);
    case Update => StampsIndexed(db.update);
    case Unsubscribe => StampsIndexed(db.unsubscribe);
    case Pending => StampsIndexed(db.pending);
  }

  lemma StampsIndexed<P>(t: CodeTable<P>)
    requires t.Indexed()
    ensures Stamps(t).Keys == t.bySub.Keys
    ensures forall c | c in t.byCode :: t.byCode[c] in Stamps(t) && Stamps(t)[t.byCode[c]].code == c
    ensures forall s | s in Stamps(t) :: Stamps(t)[s].code in t.byCode && t.byCode[Stamps(t)[s].code] == s
  {
    forall c | c in t.byCode
      ensures t.byCode[c] in Stamps(t) && Stamps(t)[t.byCode[c]].code == c
    {
      var s := t.byCode[c];
      assert Stamps(t)[s] == Stamp(t.bySub[s]);
    }
    forall s | s in Stamps(t)
      ensures Stamps(t)[s].code in t.byCode && t.byCode[Stamps(t)[s].code] == s
    {
      assert Stamps(t)[s] == Stamp(t.bySub[s]);
    }
  }

  // Queries of SubscriptionService/DBFunc.js

  /** selectSubscriberById: a falsy id finds nothing. */
  function SelectSubscriberById(db: Db, id: int): (r: Option<Subscriber>)
    ensures r.Some? <==> id != 0 && id in db.subscribers.byId
    ensures r.Some? ==> r.value == db.subscribers.byId[id]
  {
    if id != 0 && id in db.subscribers.byId then Some(db.subscribers.byId[id]) else None
  }

  /** selectSubscriberByEmail, answered through the unique email index; yields the id. */
  function SelectSubscriberByEmail(db: Db, email: string): (r: Option<int>)
    requires db.subscribers.Indexed()
    ensures r.Some? ==> email != "" && r.value in db.subscribers.byId && db.subscribers.byId[r.value].email == email
    ensures r.None? ==> email == "" || forall id | id in db.subscribers.byId :: db.subscribers.byId[id].email != email
  {
    if email != "" && email in db.subscribers.byEmail then Some(db.subscribers.byEmail[email]) else None
  }

  /** selectSubMeasurementsBySubId */
  function SelectSubMeasurements(db: Db, subId: int): (r: Option<MeasurementsRow>)
    ensures r.Some? <==> subId != 0 && subId in db.measurements
    ensures r.Some? ==> r.value == db.measurements[subId]
  {
    if subId != 0 && subId in db.measurements then Some(db.measurements[subId]) else None
  }

  /**
   * select...ByCode of each code table, answered through the code index: the
   * subscriber owning the row whose code is `code`.
   */
  function SelectOwnerByCode(db: Db, k: Kind, code: int): (r: Option<int>)
    requires db.Valid()
    ensures r.Some? ==> code != 0 && r.value in db.Rows(k) && db.Rows(k)[r.value].code == code
    ensures r.None? ==> code == 0 || forall s | s in db.Rows(k) :: db.Rows(k)[s].code != code
  {
    CodesOfRows(db, k);
    if code != 0 && code in db.Codes(k) then Some(db.Codes(k)[code]) else None
  }

  /** select...BySubId of each code table. */
  function SelectCodeBySubId(db: Db, k: Kind, subId: int): (r: Option<CodeRow<()>>)
    ensures r.Some? <==> subId != 0 && subId in db.Rows(k)
    ensures r.Some? ==> r.value == db.Rows(k)[subId]
  {
    if subId != 0 && subId in db.Rows(k) then Some(db.Rows(k)[subId]) else None
  }

  /** selectPendingUpdateBySubId: the staged row with its measurements. */
  function SelectPendingUpdateBySubId(db: Db, subId: int): (r: Option<CodeRow<Measurements>>)
    ensures r.Some? <==> subId != 0 && subId in db.pending.bySub
    ensures r.Some? ==> r.value == db.pending.bySub[subId]
  {
    if subId != 0 && subId in db.pending.bySub then Some(db.pending.bySub[subId]) else None
  }

  /**
   * selectScheduledReminderByDate: the subscribers whose reminder falls on the
   * day starting at `day`, or None when there are none (the query's NOT_FOUND).
   */
  function SelectScheduledReminderByDate(db: Db, day: int): (r: Option<seq<int>>)
    ensures r.None? <==> forall s | s in db.reminders :: !(day <= db.reminders[s] < day + DAY)
    ensures r.Some? ==> forall i | 0 <= i < |r.value| ::
      r.value[i] in db.reminders && day <= db.reminders[r.value[i]] < day + DAY
    ensures r.Some? ==> forall s | s in db.reminders && day <= db.reminders[s] < day + DAY :: s in r.value
    ensures r.Some? ==> forall i, j | 0 <= i < j < |r.value| :: r.value[i] < r.value[j]
  {
    var due := set s | s in db.reminders && day <= db.reminders[s] < day + DAY;
    assert forall s | s in db.reminders && day <= db.reminders[s] < day + DAY :: s in due;
    if due == {} then None
    else
      var r := Ascending(due);
      assert r[0] in due;
      Some(r)
  }

  /** An expired row as the reaper sees it. */
  datatype Expired = Expired(subId: int, code: int)

  function ExpiredOf(rows: map<int, CodeRow<()>>, ids: seq<int>): (r: seq<Expired>)
    requires forall i | 0 <= i < |ids| :: ids[i] in rows
    ensures |r| == |ids|
    ensures forall i | 0 <= i < |ids| :: r[i] == Expired(ids[i], rows[ids[i]].code)
  {
    if ids == [] then [] else [Expired(ids[0], rows[ids[0]].code)] + ExpiredOf(rows, ids[1..])
  }

  /** The rows of `rows` whose expiry is before `now`, one record each, in ascending subscriber order. */
  function ExpiredRows(rows: map<int, CodeRow<()>>, now: int): (r: seq<Expired>)
  {
    var ids := Ascending(set s | s in rows && rows[s].expires < now);
    ExpiredOf(rows, ids)
  }

  lemma ExpiredRowsSound(rows: map<int, CodeRow<()>>, now: int)
    ensures var r := ExpiredRows(rows, now);
      forall e | e in r :: e.subId in rows && rows[e.subId].expires < now && e.code == rows[e.subId].code
  {
    var r := ExpiredRows(rows, now);
    forall e | e in r
      ensures e.subId in rows && rows[e.subId].expires < now && e.code == rows[e.subId].code
    {
      var i :| 0 <= i < |r| && r[i] == e;
    }
  }

  lemma ExpiredRowsComplete(rows: map<int, CodeRow<()>>, now: int)
    ensures var r := ExpiredRows(rows, now);
      forall s | s in rows && rows[s].expires < now :: Expired(s, rows[s].code) in r
  {
    var due := set s | s in rows && rows[s].expires < now;
    var ids := Ascending(due);
    var r := ExpiredOf(rows, ids);
    forall s | s in rows && rows[s].expires < now
      ensures Expired(s, rows[s].code) in r
    {
      assert s in due;
      var i :| 0 <= i < |ids| && ids[i] == s;
      assert r[i] == Expired(s, rows[s].code);
    }
  }

  /** selectExpiredRecords: every row of the table whose expiry has passed, one record each. */
  function SelectExpiredRecords(db: Db, k: Kind, now: int): (r: seq<Expired>)
    ensures forall e | e in r ::
      e.subId in db.Rows(k) && db.Rows(k)[e.subId].expires < now && e.code == db.Rows(k)[e.subId].code
    ensures forall s | s in db.Rows(k) && db.Rows(k)[s].expires < now :: Expired(s, db.Rows(k)[s].code) in r
    ensures forall i, j | 0 <= i < j < |r| :: r[i].subId < r[j].subId
  {
    ExpiredRowsSound(db.Rows(k), now);
    ExpiredRowsComplete(db.Rows(k), now);
    ExpiredRows(db.Rows(k), now)
  }

  /** getFreqId: the id of the first frequency row with that descriptor. */
  function FreqId(table: seq<Frequency>, freq: string): (r: Option<int>)
    ensures r.Some? ==> freq != "" && exists i | 0 <= i < |table| :: table[i].descriptor == freq && table[i].id == r.value
    ensures r.None? ==> freq == "" || forall i | 0 <= i < |table| :: table[i].descriptor != freq
  {
    if freq == "" || table == [] then None
    else if table[0].descriptor == freq then Some(table[0].id)
    else
      var r := FreqId(table[1..], freq);
      assert r.Some? ==> table[1..][0] == table[1];
      r
  }

  /** getFreqNumDays: the interval of the first frequency row with that id. */
  function FreqNumDays(table: seq<Frequency>, freqId: int): (r: Option<int>)
    ensures r.Some? ==> freqId != 0 && exists i | 0 <= i < |table| :: table[i].id == freqId && table[i].numDays == r.value
    ensures r.None? ==> freqId == 0 || forall i | 0 <= i < |table| :: table[i].id != freqId
  {
    if freqId == 0 || table == [] then None
    else if table[0].id == freqId then Some(table[0].numDays)
    else FreqNumDays(table[1..], freqId)
  }
}
