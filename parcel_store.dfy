/** The parcel store: a thin repository over a shared database handle. Each
    method sends one statement to the database and turns the outcome, and the
    affected-row count where the store reads it, into a result for the
    caller. */
module Store {
  import opened ParcelTable
  import Lifecycle

  /** What the store reports to its caller. `NotFound` comes only from `Get`;
      `GuardFailed` is the single error of a guarded statement that matched no
      row, whether the row is missing or not in "registered"; `Persistence`
      stands for every failure of the database itself. */
  datatype StoreError = NotFound(number: int) | GuardFailed(number: int) | Persistence

  datatype Result<T> = Ok(value: T) | Err(error: StoreError)

  datatype Outcome = Done | Failed(error: StoreError)

  /** How the database call behaves, decided outside the store:
      `StatementFailed` means the statement or query could not run, so nothing
      changed; `ResultFailed` means it ran but its result (generated number,
      affected-row count, scanned rows) could not be read, so its effect
      stands. */
  datatype Fault = Healthy | StatementFailed | ResultFailed

  /** The shared database handle: the `parcel` table and its AUTOINCREMENT
      counter. Its lifetime is the caller's business. */
  class Database {
    var rows: Table
    var next: int

    function Snapshot(): Db
      reads this
    {
      Db(rows, next)
    }

    ghost predicate Valid()
      reads this
    {
      Consistent(Snapshot())
    }

    /** A freshly created, empty `parcel` table. */
    constructor ()
      ensures Valid() && rows == map[] && next == 1
    {
      rows := map[];
      next := 1;
    }
  }

  class ParcelStore {
    const db: Database

    /** Bind a store to a database handle the caller owns. */
    constructor (db: Database)
      ensures this.db == db
    {
      this.db := db;
    }

    /** Insert the caller's client, status, address and creation time as a new
        row and return the number the database generated for it. */
    method Add(p: Parcel, fault: Fault) returns (r: Result<int>)
      requires db.Valid()
      modifies db
      ensures db.Valid()
      ensures fault == StatementFailed ==>
                r == Err(Persistence) && db.Snapshot() == old(db.Snapshot())
      ensures fault != StatementFailed ==>
                db.Snapshot() == Lifecycle.Execute(old(db.Snapshot()), Lifecycle.Insert(p))
      ensures fault == ResultFailed ==> r == Err(Persistence)
      ensures fault == Healthy ==> r == Ok(old(db.next))
      ensures r.Ok? ==>
                && r.value !in old(db.rows)
                && r.value in db.rows
                && db.rows[r.value] == p.(number := r.value)
    {
      if fault == StatementFailed {
        return Err(Persistence);
      }
      var id := db.next;
      db.rows := InsertRow(db.rows, id, p);
      db.next := id + 1;
      if fault == ResultFailed {
        return Err(Persistence);
      }
      return Ok(id);
    }

    /** Look up the parcel with the given number. */
    method Get(number: int, fault: Fault) returns (r: Result<Parcel>)
      requires db.Valid()
      ensures fault != Healthy ==> r == Err(Persistence)
      ensures fault == Healthy ==> (r.Ok? <==> number in db.rows)
      ensures fault == Healthy && number !in db.rows ==> r == Err(NotFound(number))
      ensures r.Ok? ==> number in db.rows && r.value == db.rows[number] && r.value.number == number
    {
      if fault != Healthy {
        return Err(Persistence);
      }
      match SelectByNumber(db.rows, number)
      case None =>
        r := Err(NotFound(number));
      case Some(p) =>
        r := Ok(p);
    }

    /** All parcels of one client, in whatever order the cursor yields them;
        no parcel gives an empty answer, not an error. */
    method GetByClient(client: int, fault: Fault) returns (r: Result<seq<Parcel>>)
      requires db.Valid()
      ensures fault != Healthy ==> r == Err(Persistence)
      ensures fault == Healthy ==> r.Ok? && multiset(r.value) == multiset(SelectByClient(db.rows, client))
      ensures fault == Healthy && SelectByClient(db.rows, client) == {} ==> r == Ok([])
    {
      if fault != Healthy {
        return Err(Persistence);
      }
      var matched := SelectByClient(db.rows, client);
      var cursor := matched;
      var parcels: seq<Parcel> := [];
      while cursor != {}
        invariant cursor <= matched
        invariant multiset(parcels) + multiset(cursor) == multiset(matched)
        decreases cursor
      {
        var p :| p in cursor;
        parcels := parcels + [p];
        cursor := cursor - {p};
      }
      return Ok(parcels);
    }

    /** Overwrite the status of the given parcel. A number without a row is
        not reported: the update matches nothing and the call succeeds. */
    method SetStatus(number: int, status: string, fault: Fault) returns (r: Outcome)
      requires db.Valid()
      modifies db
      ensures db.Valid()
      ensures fault == StatementFailed ==>
                r == Failed(Persistence) && db.Snapshot() == old(db.Snapshot())
      ensures fault != StatementFailed ==>
                && r == Done
                && db.Snapshot()
                   == Lifecycle.Execute(old(db.Snapshot()), Lifecycle.UpdateStatus(number, status))
    {
      if fault == StatementFailed {
        return Failed(Persistence);
      }
      db.rows := UpdateStatusRow(db.rows, number, status);
      return Done;
    }

    /** Change the address of a parcel that is in "registered"; any other
        parcel, and a number without a row, gives the same guard error. */
    method SetAddress(number: int, address: string, fault: Fault) returns (r: Outcome)
      requires db.Valid()
      modifies db
      ensures db.Valid()
      ensures fault == StatementFailed ==>
                r == Failed(Persistence) && db.Snapshot() == old(db.Snapshot())
      ensures fault != StatementFailed ==>
                db.Snapshot()
                == Lifecycle.Execute(old(db.Snapshot()), Lifecycle.UpdateAddress(number, address))
      ensures fault == ResultFailed ==> r == Failed(Persistence)
      ensures fault == Healthy ==> (r == Done <==> IsRegistered(old(db.rows), number))
      ensures fault == Healthy && !IsRegistered(old(db.rows), number) ==>
                r == Failed(GuardFailed(number)) && db.Snapshot() == old(db.Snapshot())
    {
      if fault == StatementFailed {
        return Failed(Persistence);
      }
      var w := UpdateAddressRow(db.rows, number, address);
      db.rows := w.rows;
      if fault == ResultFailed {
        return Failed(Persistence);
      }
      if w.affected == 0 {
        return Failed(GuardFailed(number));
      }
      return Done;
    }

    /** Remove a parcel that is in "registered"; any other parcel, and a number
        without a row, gives the same guard error. */
    method Delete(number: int, fault: Fault) returns (r: Outcome)
      requires db.Valid()
      modifies db
      ensures db.Valid()
      ensures fault == StatementFailed ==>
                r == Failed(Persistence) && db.Snapshot() == old(db.Snapshot())
      ensures fault != StatementFailed ==>
                db.Snapshot() == Lifecycle.Execute(old(db.Snapshot()), Lifecycle.Delete(number))
      ensures fault == ResultFailed ==> r == Failed(Persistence)
      ensures fault == Healthy ==> (r == Done <==> IsRegistered(old(db.rows), number))
      ensures fault == Healthy && !IsRegistered(old(db.rows), number) ==>
                r == Failed(GuardFailed(number)) && db.Snapshot() == old(db.Snapshot())
    {
      if fault == StatementFailed {
        return Failed(Persistence);
      }
      var w := DeleteRow(db.rows, number);
      db.rows := w.rows;
      if fault == ResultFailed {
        return Failed(Persistence);
      }
      if w.affected == 0 {
        return Failed(GuardFailed(number));
      }
      return Done;
    }
  }
}
