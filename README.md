# Parcel store — a verified model

The parcel store is the data-access layer of a small parcel-tracking service.
It keeps one table of parcels. Each parcel has a number, an owning client, a
status, an address and a creation time. The store offers six operations:

- insert a parcel;
- look one up by number;
- list a client's parcels;
- overwrite a status unconditionally;
- change an address, only while the parcel is in `"registered"`;
- delete a parcel, only while it is in `"registered"`.

The Go code in `parcel.go` is SQL over a database handle. All of its behaviour
is in the SQL text and in the checks of the affected-row count. This model
replaces the database engine with an in-memory table and keeps everything the
store itself decides.

Files:

- `parcel_table.dfy`, module `ParcelTable`. It holds the `Parcel` row, the table
  (a map from number to row) and the engine's AUTOINCREMENT counter. It also
  states the meaning of each SQL statement as a function, with its frame
  conditions: what changes, what stays, and the affected-row count.
- `lifecycle.dfy`, module `Lifecycle`. It covers runs of write statements and
  proves the invariants that hold over a parcel's lifetime. A number is never
  handed out twice, assuming an AUTOINCREMENT key. Number, client and creation time never change. Only a
  status update changes a status. A parcel out of `"registered"` keeps its
  address and cannot be deleted.
- `parcel_store.dfy`, module `Store`. The `Database` class is the shared,
  mutable database handle. The `ParcelStore` class holds that handle and has
  one method per Go method. Each method follows the Go control flow: run the
  statement, read the result, turn zero affected rows into the guard error.

Database failures are a `Fault` parameter of every method:

- `StatementFailed`: `Exec` or `Query` fails, or the query behind
  `QueryRow` fails (its error comes out of `Scan`). Nothing changes, and
  the method reports `Persistence`.
- `ResultFailed`: the statement ran, but reading its result fails. That result
  is `LastInsertId`, `RowsAffected`, `Scan` or `rows.Err`. The statement's
  effect stands, and the method still reports `Persistence`. For example, an
  `Add` in this case has inserted the row, but the caller never learns its
  number.

`SetStatus` reads no result, so for it `ResultFailed` is a success.

## Model

| member | source | states |
|---|---|---|
| `ParcelTable.InsertRow` | parcel.go:17-18 | The new row sits under the generated number and carries the caller's client, status, address and creation time. Every existing row is unchanged, and rows stay keyed by their own number. |
| `ParcelTable.InsertThenSelect` | parcel.go:16-44 | The counter's number is free before the insert. Looking up that number afterwards returns the caller's fields under that number. |
| `ParcelTable.SelectByNumber` | parcel.go:32-33 | The lookup finds a row exactly when the number has one, and then returns exactly the stored row. |
| `ParcelTable.SelectByClient` | parcel.go:48-49 | Every row the client query returns is a stored row of client `c`, and every stored row of `c` is returned. |
| `ParcelTable.SelectByClientExactly` | parcel.go:48-63 | The client query returns exactly the stored rows whose client is `c`: no other row, and no row of `c` is missed. |
| `ParcelTable.SelectByClientEmpty` | parcel.go:55-69 | When no row belongs to the client, the answer is the empty set, not an error. |
| `ParcelTable.SelectByClientIsolated` | parcel.go:48 | The answers for two different clients share no parcel. |
| `ParcelTable.UpdateStatusRow` | parcel.go:73-74 | The status update changes only the status of row `n`. The row's other fields and every other row stay the same. A missing `n` leaves the table as it was. |
| `ParcelTable.UpdateStatusIdempotent` | parcel.go:72-79 | Setting the same status twice gives the same table as setting it once. |
| `ParcelTable.UpdateAddressRow` | parcel.go:84-85 | The guarded update affects one row exactly when row `n` exists with status `"registered"`. Then only that row's address changes. Otherwise it affects zero rows and the table is unchanged. |
| `ParcelTable.DeleteRow` | parcel.go:105-106 | The guarded delete affects one row exactly when row `n` exists with status `"registered"`. Then only that row is removed. Otherwise it affects zero rows and the table is unchanged. |
| `ParcelTable.GuardCannotTellCauses` | parcel.go:82-121 | A missing row and a row in another status give the same result in both guarded statements: zero affected rows and an unchanged table. |
| `Lifecycle.Execute` | parcel.go:16-122 | Each write statement keeps the table consistent: rows are keyed by their number, and every number is below the counter. The counter never goes back. |
| `Lifecycle.Run` | parcel.go:16-122 | Any run of write statements keeps the table consistent, and the counter never goes back. |
| `Lifecycle.NeverReused` | parcel.go:17-28 | A number below the counter that has no row never gets one again, so a deleted number is never reused. |
| `Lifecycle.IdentityFieldsFixed` | parcel.go:72-122 | A row still present after any run of write statements has the same number, client and creation time as before. |
| `Lifecycle.StatusChangesOnlyBySetStatus` | parcel.go:72-122 | If a run contains no status update of row `n`, the row's status is the same afterwards. |
| `Lifecycle.FrozenRowStays` | parcel.go:82-122 | Take a row that is not in `"registered"`. If the run never sets it back to `"registered"`, the row is still present afterwards. It keeps its address and stays out of `"registered"`. |
| `Store.ParcelStore.constructor` | parcel.go:12-14 | The store is bound to the given database handle. |
| `Store.ParcelStore.Add` | parcel.go:16-29 | If the statement fails, the method reports `Persistence` and nothing changes. Otherwise the row is inserted under the counter's number and the counter advances. The method returns that number, or `Persistence` if the number cannot be read. A returned number had no row before, and its row now holds the caller's fields. |
| `Store.ParcelStore.Get` | parcel.go:31-45 | A database failure gives `Persistence`. Otherwise the method succeeds exactly when the number has a row and returns that row. A missing number gives `NotFound(number)`. |
| `Store.ParcelStore.GetByClient` | parcel.go:47-70 | A database failure gives `Persistence`. Otherwise the method returns, as a multiset, exactly the rows of the client, each once. If the client has none, the result is the empty sequence. |
| `Store.ParcelStore.SetStatus` | parcel.go:72-80 | If the statement fails, the method reports `Persistence` and nothing changes. Otherwise the status update is applied and the method succeeds, even for a number without a row. |
| `Store.ParcelStore.SetAddress` | parcel.go:82-101 | If the statement fails, the method reports `Persistence` and nothing changes. Otherwise the guarded update is applied. With no fault, the method succeeds iff the row existed in `"registered"`. A missing row and a row in another status both give `GuardFailed(number)` and leave the table unchanged. |
| `Store.ParcelStore.Delete` | parcel.go:103-122 | If the statement fails, the method reports `Persistence` and nothing changes. Otherwise the guarded delete is applied. With no fault, the method succeeds iff the row existed in `"registered"`. A missing row and a row in another status both give `GuardFailed(number)` and leave the table unchanged. |

## Left out

- The database engine: the driver, connections, SQL parsing and closing the
  cursor. Each statement is replaced by its meaning over an in-memory table.
- Why a database call fails. A failure is a `Fault` argument chosen by the
  caller, with one of two effects: nothing happened, or the statement ran but
  its result was lost.
- Concurrency on the shared handle, and the atomicity of single statements.
  The model is sequential, and each statement is one step.
- The text of the error messages. Errors are `NotFound`, `GuardFailed` and
  `Persistence`. The first two carry the parcel number.
- The order of the rows a client query returns. Results are compared as
  multisets.
- The `Parcel` type and the `"registered"` status constant are declared outside
  `parcel.go`. The model declares its own `Parcel` and `Registered`, with only
  the fields and the value that `parcel.go` uses.
- The conversion `int(id)` of the generated number is not modelled. The model
  uses unbounded integers, which agree with a 64-bit `int`.
- The `parcel` table's schema is not part of `parcel.go`. The model assumes
  that `number` is an `INTEGER PRIMARY KEY AUTOINCREMENT` column. It also
  assumes that the affected-row count counts the rows matched, as SQLite's
  does, rather than the rows whose values actually changed.
- Lifecycle.NeverReused: holds only under AUTOINCREMENT. With a plain
  `INTEGER PRIMARY KEY`, the engine may hand out the largest deleted number
  again.
- ParcelTable.UpdateAddressRow: reports one affected row even when the new
  address equals the old one. An engine that counts only changed rows reports
  zero there, and `SetAddress` would then return the guard error.
- The status is not one-way. Any caller can set it back to `"registered"` with
  `SetStatus`, and the code allows this. So `Lifecycle.FrozenRowStays` assumes
  the run never does that, and it states nothing more.
