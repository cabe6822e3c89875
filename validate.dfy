/**
 * The checks of controller/Validate.js that the routes run before acting on a
 * link: does an id name a subscriber, does a code exist in a table, and does a
 * code belong to a given subscriber. They only read the store.
 */
module Validate {
  import opened Wrappers
  import opened Tables

  /** isValidId: a falsy id is refused without a lookup. */
  function IsValidId(db: Db, id: int): (ok: bool)
    ensures ok <==> id != 0 && id in db.Ids()
  {
    if id == 0 then false else SelectSubscriberById(db, id).Some?
  }

  /** Some row of `rows` holds `code`. */
  predicate HasCode(rows: map<int, CodeRow<()>>, code: int)
  {
    exists s :: s in rows && rows[s].code == code
  }

  /** The lookup by code finds a row exactly when some row holds the code. */
  lemma OwnerFound(db: Db, k: Kind, code: int)
    requires db.Valid() && code != 0
    ensures SelectOwnerByCode(db, k, code).Some? <==> HasCode(db.Rows(k), code)
  {
    var owner := SelectOwnerByCode(db, k, code);
    if owner.Some? {
      var w := owner.value;
      assert w in db.Rows(k) && db.Rows(k)[w].code == code;
      assert HasCode(db.Rows(k), code);
    }
  }

  /**
   * isValidCode: false for a falsy table name or code and for a name that is not
   * one of the four code tables; otherwise whether a row of that table holds `code`.
   */
  function IsValidCode(db: Db, table: string, code: int): (ok: bool)
    requires db.Valid()
    ensures ok <==> code != 0 && KindOfTable(table).Some? && HasCode(db.Rows(KindOfTable(table).value), code)
  {
    if table == "" || code == 0 then false
    else
      var k := KindOfTable(table);
      if k.None? then false
      else
        OwnerFound(db, k.value, code);
        SelectOwnerByCode(db, k.value, code).Some?
  }

  function IsValidConfirmationCode(db: Db, code: int): (ok: bool)
    requires db.Valid()
    ensures ok <==> code != 0 && HasCode(db.Rows(Confirmation), code)
  {
    IsValidCode(db, TableName(Confirmation), code)
  }

  function IsValidUnsubCode(db: Db, code: int): (ok: bool)
    requires db.Valid()
    ensures ok <==> code != 0 && HasCode(db.Rows(Unsubscribe), code)
  {
    IsValidCode(db, TableName(Unsubscribe), code)
  }

  function IsValidUpdateCode(db: Db, code: int): (ok: bool)
    requires db.Valid()
    ensures ok <==> code != 0 && HasCode(db.Rows(Update), code)
  {
    IsValidCode(db, TableName(Update), code)
  }

  function IsValidPendingCode(db: Db, code: int): (ok: bool)
    requires db.Valid()
    ensures ok <==> code != 0 && HasCode(db.Rows(Pending), code)
  {
    IsValidCode(db, TableName(Pending), code)
  }

  /**
   * codeBelongsToSubId: false when any argument is falsy, the table name is
   * unknown or no row holds `code`; otherwise whether that row's sub_id is `id`.
   */
  function CodeBelongsToSubId(db: Db, table: string, code: int, id: int): (ok: bool)
    requires db.Valid()
    ensures ok <==> && code != 0 && id != 0 && KindOfTable(table).Some?
                    && id in db.Rows(KindOfTable(table).value) && db.Rows(KindOfTable(table).value)[id].code == code
  {
    if table == "" || code == 0 || id == 0 then false
    else
      var k := KindOfTable(table);
      if k.None? then false
      else
        CodesOfRows(db, k.value);
        var owner := SelectOwnerByCode(db, k.value, code);
        if owner.None? then false
        else owner.value == id
  }

  function ConfirmationCodeBelongsToSubId(db: Db, code: int, id: int): (ok: bool)
    requires db.Valid()
    ensures ok <==> code != 0 && id != 0 && id in db.Rows(Confirmation) && db.Rows(Confirmation)[id].code == code
  {
    CodeBelongsToSubId(db, TableName(Confirmation), code, id)
  }

  function UpdateCodeBelongsToSubId(db: Db, code: int, id: int): (ok: bool)
    requires db.Valid()
    ensures ok <==> code != 0 && id != 0 && id in db.Rows(Update) && db.Rows(Update)[id].code == code
  {
    CodeBelongsToSubId(db, TableName(Update), code, id)
  }

  function UnsubscribeCodeBelongsToSubId(db: Db, code: int, id: int): (ok: bool)
    requires db.Valid()
    ensures ok <==> code != 0 && id != 0 && id in db.Rows(Unsubscribe) && db.Rows(Unsubscribe)[id].code == code
  {
    CodeBelongsToSubId(db, TableName(Unsubscribe), code, id)
  }

  function PendingCodeBelongsToSubId(db: Db, code: int, id: int): (ok: bool)
    requires db.Valid()
    ensures ok <==> code != 0 && id != 0 && id in db.Rows(Pending) && db.Rows(Pending)[id].code == code
  {
    CodeBelongsToSubId(db, TableName(Pending), code, id)
  }

  /** A code that belongs to a subscriber is a valid code of the same table. */
  lemma BelongsImpliesValid(db: Db, table: string, code: int, id: int)
    requires db.Valid()
    requires CodeBelongsToSubId(db, table, code, id)
    ensures IsValidCode(db, table, code)
  {
    var k := KindOfTable(table).value;
    assert id in db.Rows(k) && db.Rows(k)[id].code == code;
  }

  /** A valid code belongs to exactly one subscriber, and that subscriber exists. */
  lemma ValidCodeHasOneOwner(db: Db, table: string, code: int)
    requires db.Valid()
    requires IsValidCode(db, table, code)
    ensures exists id :: CodeBelongsToSubId(db, table, code, id) && IsValidId(db, id)
    ensures forall a, b | CodeBelongsToSubId(db, table, code, a) && CodeBelongsToSubId(db, table, code, b) :: a == b
  {
    var k := KindOfTable(table).value;
    CodesOfRows(db, k);
    var s :| s in db.Rows(k) && db.Rows(k)[s].code == code;
    assert s in db.Ids();
    assert s != 0 by {
      assert s in db.subscribers.byId;
    }
    assert CodeBelongsToSubId(db, table, code, s);
  }
}
