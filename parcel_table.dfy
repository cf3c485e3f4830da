/** The `parcel` table and the meaning of each SQL statement the parcel store
    sends to it. The relational engine is replaced by an in-memory table: a map
    from parcel number (the primary key) to the row, plus the engine's
    AUTOINCREMENT counter that hands out fresh numbers. */
module ParcelTable {

  /** The only status value the store itself gives a meaning to: address
      changes and deletions are allowed only while a parcel has it. */
  const Registered: string := "registered"

  /** One row of the `parcel` table. */
  datatype Parcel = Parcel(
    number: int,
    client: int,
    status: string,
    address: string,
    createdAt: string)

  /** The rows of the table, keyed by their number. */
  type Table = map<int, Parcel>

  datatype Option<T> = None | Some(value: T)

  /** What a write statement leaves behind: the new rows and the engine's
      affected-row count. */
  datatype Written = Written(rows: Table, affected: nat)

  /** Every row is stored under its own number. */
  ghost predicate WellKeyed(t: Table)
  {
    forall n :: n in t ==> t[n].number == n
  }

  /** The guard of both conditional statements:
      `WHERE number = ? AND status = 'registered'`. */
  predicate IsRegistered(t: Table, n: int)
  {
    n in t && t[n].status == Registered
  }

  // ---------------------------------------------------------------------
  // INSERT INTO parcel (client, status, address, created_at) VALUES (?, ?, ?, ?)
  // ---------------------------------------------------------------------

  /** Insert `p` under the number `id` the engine generated; the number the
      caller put in `p` is ignored, exactly as the INSERT leaves it out. */
  function InsertRow(t: Table, id: int, p: Parcel): (r: Table)
    requires id !in t
    ensures r.Keys == t.Keys + {id}
    ensures r[id].number == id
    ensures r[id].client == p.client && r[id].status == p.status
    ensures r[id].address == p.address && r[id].createdAt == p.createdAt
    ensures forall k :: k in t ==> r[k] == t[k]
    ensures WellKeyed(t) ==> WellKeyed(r)
  {
    t[id := p.(number := id)]
  }

  // ---------------------------------------------------------------------
  // SELECT ... FROM parcel WHERE number = ?
  // ---------------------------------------------------------------------

  /** The row stored under `n`, if there is one. */
  function SelectByNumber(t: Table, n: int): (r: Option<Parcel>)
    ensures r.Some? <==> n in t
    ensures r.Some? ==> r.value == t[n]
  {
    if n in t then Some(t[n]) else None
  }

  // ---------------------------------------------------------------------
  // SELECT ... FROM parcel WHERE client = ?
  // ---------------------------------------------------------------------

  /** The rows a `WHERE client = ?` query yields, without an order. */
  function SelectByClient(t: Table, c: int): (r: set<Parcel>)
    ensures forall p :: p in r ==> p in t.Values && p.client == c
    ensures forall n :: n in t && t[n].client == c ==> t[n] in r
  {
    set n | n in t && t[n].client == c :: t[n]
  }

  /** The client query yields exactly the stored rows of client `c`. */
  lemma SelectByClientExactly(t: Table, c: int)
    requires WellKeyed(t)
    ensures forall p :: p in SelectByClient(t, c) <==>
      (p.number in t && t[p.number] == p && p.client == c)
  {
  }

  /** No row of client `c`: the query yields nothing (an empty answer, not an
      error). */
  lemma SelectByClientEmpty(t: Table, c: int)
    requires forall n :: n in t ==> t[n].client != c
    ensures SelectByClient(t, c) == {}
  {
  }

  /** Rows of different clients never show up in each other's answers. */
  lemma SelectByClientIsolated(t: Table, c1: int, c2: int)
    requires c1 != c2
    ensures SelectByClient(t, c1) !! SelectByClient(t, c2)
  {
  }

  // ---------------------------------------------------------------------
  // UPDATE parcel SET status = ? WHERE number = ?
  // ---------------------------------------------------------------------

  /** Unconditional status update; a missing number matches no row. */
  function UpdateStatusRow(t: Table, n: int, s: string): (r: Table)
    ensures r.Keys == t.Keys
    ensures forall k :: k in t && k != n ==> r[k] == t[k]
    ensures n in t ==>
              && r[n].status == s && r[n].number == t[n].number
              && r[n].client == t[n].client && r[n].address == t[n].address
              && r[n].createdAt == t[n].createdAt
    ensures n !in t ==> r == t
    ensures WellKeyed(t) ==> WellKeyed(r)
  {
    if n in t then t[n := t[n].(status := s)] else t
  }

  /** Setting the same status twice leaves the table as setting it once. */
  lemma UpdateStatusIdempotent(t: Table, n: int, s: string)
    ensures UpdateStatusRow(UpdateStatusRow(t, n, s), n, s) == UpdateStatusRow(t, n, s)
  {
  }

  // ---------------------------------------------------------------------
  // UPDATE parcel SET address = ? WHERE number = ? AND status = 'registered'
  // ---------------------------------------------------------------------

  /** Guarded address update: one affected row exactly when the guard
      holds, and then only that row's address changes. */
  function UpdateAddressRow(t: Table, n: int, a: string): (w: Written)
    ensures w.affected <= 1
    ensures w.affected == 1 <==> IsRegistered(t, n)
    ensures w.affected == 0 ==> w.rows == t
    ensures w.rows.Keys == t.Keys
    ensures forall k :: k in t && k != n ==> w.rows[k] == t[k]
    ensures w.affected == 1 ==> w.rows[n] == t[n].(address := a)
    ensures WellKeyed(t) ==> WellKeyed(w.rows)
  {
    if IsRegistered(t, n) then Written(t[n := t[n].(address := a)], 1)
    else Written(t, 0)
  }

  // ---------------------------------------------------------------------
  // DELETE FROM parcel WHERE number = ? AND status = 'registered'
  // ---------------------------------------------------------------------

  /** Guarded delete: one affected row exactly when the guard holds, and
      then only that row is gone. */
  function DeleteRow(t: Table, n: int): (w: Written)
    ensures w.affected <= 1
    ensures w.affected == 1 <==> IsRegistered(t, n)
    ensures w.affected == 0 ==> w.rows == t
    ensures w.affected == 1 ==> w.rows.Keys == t.Keys - {n}
    ensures forall k :: k in t && k != n ==> k in w.rows && w.rows[k] == t[k]
    ensures WellKeyed(t) ==> WellKeyed(w.rows)
  {
    if IsRegistered(t, n) then Written(t - {n}, 1) else Written(t, 0)
  }

  /** Neither guarded statement can tell a missing row from a row in another
      status: both give zero affected rows and leave the table as it was. */
  lemma GuardCannotTellCauses(t: Table, n: int, a: string)
    requires n !in t || t[n].status != Registered
    ensures UpdateAddressRow(t, n, a) == Written(t, 0)
    ensures DeleteRow(t, n) == Written(t, 0)
  {
  }

  // ---------------------------------------------------------------------
  // The engine's state: rows plus the AUTOINCREMENT counter
  // ---------------------------------------------------------------------

  /** The database as the store sees it: the table and the next number the
      engine will hand out. */
  datatype Db = Db(rows: Table, next: int)

  /** Rows sit under their own numbers, and every number handed out so far
      is below the counter, so the counter is never a taken number. */
  ghost predicate Consistent(db: Db)
  {
    WellKeyed(db.rows) && forall n :: n in db.rows ==> n < db.next
  }

  /** An insert followed by a lookup of the generated number gives back the
      caller's client, status, address and creation time; the number was free
      before the insert. */
  lemma InsertThenSelect(db: Db, p: Parcel)
    requires Consistent(db)
    ensures db.next !in db.rows
    ensures SelectByNumber(InsertRow(db.rows, db.next, p), db.next)
      == Some(Parcel(db.next, p.client, p.status, p.address, p.createdAt))
  {
  }
}
