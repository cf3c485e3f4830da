/** What any sequence of the store's write statements can and cannot do to a
    parcel over its lifetime: numbers are never handed out twice, a row keeps
    its number, client and creation time, only a status update changes a
    status, and a row that has left "registered" keeps its address and cannot
    be deleted. */
module Lifecycle {
  import opened ParcelTable

  /** The write statements the store issues. A statement whose execution
      failed changes nothing, so a run lists only the statements that ran. */
  datatype Statement =
    | Insert(parcel: Parcel)
    | UpdateStatus(number: int, status: string)
    | UpdateAddress(number: int, address: string)
    | Delete(number: int)

  /** The database after one statement has run. An insert takes the
      counter's number and advances the counter. */
  function Execute(db: Db, st: Statement): (r: Db)
    requires Consistent(db)
    ensures Consistent(r)
    ensures db.next <= r.next
  {
    match st
    case Insert(p) => Db(InsertRow(db.rows, db.next, p), db.next + 1)
    case UpdateStatus(n, s) => Db(UpdateStatusRow(db.rows, n, s), db.next)
    case UpdateAddress(n, a) => Db(UpdateAddressRow(db.rows, n, a).rows, db.next)
    case Delete(n) => Db(DeleteRow(db.rows, n).rows, db.next)
  }

  /** The database after the statements have run in order. */
  function Run(db: Db, sts: seq<Statement>): (r: Db)
    requires Consistent(db)
    ensures Consistent(r)
    ensures db.next <= r.next
    decreases |sts|
  {
    if sts == [] then db else Run(Execute(db, sts[0]), sts[1..])
  }

  /** A number below the counter that has no row (it was deleted, or never
      used) never gets a row again. */
  lemma {:induction false} NeverReused(db: Db, sts: seq<Statement>, n: int)
    requires Consistent(db)
    requires n < db.next && n !in db.rows
    ensures n !in Run(db, sts).rows
    decreases |sts|
  {
    if sts != [] {
      NeverReused(Execute(db, sts[0]), sts[1..], n);
    }
  }

  /** A row that is still there after a run kept its number, client and
      creation time. */
  lemma {:induction false} IdentityFieldsFixed(db: Db, sts: seq<Statement>, n: int)
    requires Consistent(db)
    requires n in db.rows && n in Run(db, sts).rows
    ensures Run(db, sts).rows[n].number == db.rows[n].number == n
    ensures Run(db, sts).rows[n].client == db.rows[n].client
    ensures Run(db, sts).rows[n].createdAt == db.rows[n].createdAt
    decreases |sts|
  {
    if sts != [] {
      var db1 := Execute(db, sts[0]);
      if n !in db1.rows {
        NeverReused(db1, sts[1..], n);
      }
      assert n in db1.rows;
      IdentityFieldsFixed(db1, sts[1..], n);
    }
  }

  /** Only a status update on a row changes its status. */
  lemma {:induction false} StatusChangesOnlyBySetStatus(db: Db, sts: seq<Statement>, n: int)
    requires Consistent(db)
    requires n in db.rows && n in Run(db, sts).rows
    requires forall i :: 0 <= i < |sts| ==> !(sts[i].UpdateStatus? && sts[i].number == n)
    ensures Run(db, sts).rows[n].status == db.rows[n].status
    decreases |sts|
  {
    if sts != [] {
      var db1 := Execute(db, sts[0]);
      if n !in db1.rows {
        NeverReused(db1, sts[1..], n);
      }
      assert n in db1.rows;
      StatusChangesOnlyBySetStatus(db1, sts[1..], n);
    }
  }

  /** Once a row has left "registered", no address update and no delete can
      touch it: unless a status update puts it back into "registered", it
      stays in the table, out of "registered", with the same address. */
  lemma {:induction false} FrozenRowStays(db: Db, sts: seq<Statement>, n: int)
    requires Consistent(db)
    requires n in db.rows && db.rows[n].status != Registered
    requires forall i :: 0 <= i < |sts| ==> sts[i] != UpdateStatus(n, Registered)
    ensures n in Run(db, sts).rows
    ensures Run(db, sts).rows[n].status != Registered
    ensures Run(db, sts).rows[n].address == db.rows[n].address
    decreases |sts|
  {
    if sts != [] {
      FrozenRowStays(Execute(db, sts[0]), sts[1..], n);
    }
  }
}
