# Seat reservation core of the flight booking server

This project models, in Dafny, the seat-reservation logic of the flight
booking server `SERVER.js`: a fixed table of seats for one flight, each with
an id, a class (`clase`, where `'primera'` is first class) and a state
(`'libre'`, `'retenido'` or `'vendido'`), and the four socket handlers that
change it:

- `hold-seat` turns a free seat into a held one;
- `release-seat` frees a seat, whatever its state;
- `confirm` buys a list of held seats, all or nothing, for a logged-in user,
  prices them by class and returns a receipt;
- `reset-seats` frees every seat, for an admin only.

It also models the snapshot (`publicState`) that is broadcast after every
change: the flight descriptor and the seats ordered by class descending,
then by the number in the id after its first character.

The MySQL table becomes a `map` from seat id to seat row held by the class
`Reservation.SeatTable`. Each handler is a method of that class and runs as one
atomic step. `Hold` and `Confirm` first call a pure refusal check from
`Checks`, `Reset` tests `Checks.IsAdmin`, `Release` tests only that the id is
truthy, and `Snapshot` only reads. The table is changed only through
`Seats.WithState`, which is the model of
`UPDATE seats SET estado = … WHERE id IN (…)`. The session user
(`socket.user`) is an `Option<User>` parameter. JavaScript falsiness of
`seatId`, `categoria` and `comprador.nombre` is modelled with `Option<string>`:
`None` or `Some("")` is falsy.

Modules: `Seats` (data, errors, flight, receipt), `Ordering` (snapshot order
and sorted insertion), `Checks` (preconditions of the handlers), `Pricing`
(fares and the pricing loop), `Reservation` (the seat table class) and
`Properties` (how the operations relate to one another).

Two behaviours of the source are worth knowing:
- A hold of an id that names no seat is refused with the reason
  'Error de base de datos' (SERVER.js:199-204).
- `release-seat` frees sold seats as well as held ones (SERVER.js:232). The
  lemma `Properties.ReleaseReopensSoldSeat` states this.

## Model

| member | source | states |
|---|---|---|
| `Seats.WithState` | SERVER.js:321 | an `UPDATE … WHERE id IN` keeps the set of seat ids, gives exactly the named existing rows the new state, leaves every other row as it was, and keeps each row filed under its own id |
| `Checks.HoldRefusal` | SERVER.js:192-212 | a hold is refused exactly when the id is falsy, names no seat, or names a seat that is not 'libre'; each cause carries its own reason ('ID de asiento inválido' iff the id is falsy, 'Error de base de datos' iff it names no seat, 'Asiento no disponible' iff the seat exists and is not 'libre'); every refusal is a `hold-seat` error |
| `Checks.FoundCount` | SERVER.js:286-294 | `SELECT … WHERE id IN (ids)` never returns more rows than there are ids, and returns exactly as many iff the ids are distinct and all exist; so the count check rejects duplicate and unknown ids |
| `Checks.FirstNotHeld` | SERVER.js:296 | `rows.find` gives the first row that is not 'retenido', all rows before it being held, or nothing when every row is held |
| `Checks.ConfirmRefusal` | SERVER.js:240-305 | confirm is refused with 'Debe iniciar sesión' iff there is no user, and with 'No hay asientos seleccionados' iff there is a user and the list is empty; a seat named as unavailable is a requested, existing seat that is not 'retenido'; every refusal is a `confirm` error |
| `Checks.ConfirmAcceptsExactly` | SERVER.js:240-305 | confirm passes its checks iff there is a user, the list is non-empty, the ids are distinct, each names a seat, and each seat is 'retenido'; past the user and emptiness checks it fails with 'Asiento inválido' iff an id repeats or names no seat, and names an unavailable seat iff the ids are distinct and known but some seat is not held |
| `Pricing.PriceRows` | SERVER.js:307-319 | the pricing loop's total is the sum of the fares of the rows, which depends on the class alone; the detail list has one entry per row with its id, class, category (defaulting to 'Adulto') and price |
| `Pricing.TotalByClass` | SERVER.js:311-312 | the total is 120000 per 'primera' seat plus 65950 per seat of any other class |
| `Ordering.IdNumberOfNumeral` | SERVER.js:53 | for every id made of one character, the decimal numeral of `n` and a tail that does not start with a digit, `CAST(SUBSTRING(id, 2) AS UNSIGNED)` is `n` |
| `Ordering.LeadingNumberDecimal` | SERVER.js:53 | reading back the decimal numeral of any `n` gives `n` |
| `Ordering.LeadingNumberAppend` | SERVER.js:53 | the numeric conversion reads a run of digits and then continues with what follows on top of that run's value |
| `Ordering.NumericIdOrder` | SERVER.js:51-53 | ids are ordered by number, not text (A2 before A10), and a greater class comes first |
| `Ordering.InOrderTotal` | SERVER.js:51-53 | any two seats are ordered one way or the other by class descending, then id number |
| `Ordering.InOrderTransitive` | SERVER.js:51-53 | the snapshot order is transitive |
| `Ordering.StrLessTotal` | SERVER.js:52 | two different class names are always ordered one way or the other |
| `Ordering.StrLessTransitive` | SERVER.js:52 | the order of class names is transitive |
| `Ordering.StrLessIrreflexive` | SERVER.js:52 | no class name comes strictly before itself |
| `Ordering.Insert` | SERVER.js:51-53 | inserting a seat into the snapshot list adds exactly that seat (as a multiset) |
| `Ordering.InsertMembers` | SERVER.js:51-53 | after an insertion the list is one longer and holds the old seats and the new one, nothing else |
| `Ordering.InsertSorted` | SERVER.js:51-53 | inserting a seat into a list in snapshot order keeps it in snapshot order |
| `Ordering.InsertDistinct` | SERVER.js:51-53 | inserting a seat with a new id keeps the ids of the list distinct |
| `Reservation.SeatTable.Hold` | SERVER.js:191-227 | hold returns the refusal of `HoldRefusal` and changes nothing when refused; otherwise exactly the named seat becomes 'retenido', all else unchanged |
| `Reservation.SeatTable.Release` | SERVER.js:229-237 | a falsy id is a no-op without broadcast; otherwise the named seat, if it exists, becomes 'libre' from any state, no other seat changes, and the snapshot is broadcast |
| `Reservation.SeatTable.Confirm` | SERVER.js:239-367 | refused exactly as `ConfirmRefusal` says, with no seat changed; on success every requested seat becomes 'vendido', no other seat changes, and the receipt carries the flight fields, payment method, buyer (`comprador.nombre` or else the username), seat count, one detail per seat and the class-priced total |
| `Reservation.SeatTable.Reset` | SERVER.js:369-385 | refused with 'No autorizado' and no change unless the session role is 'admin'; otherwise every seat becomes 'libre' and the set of seats is unchanged |
| `Reservation.SeatTable.Snapshot` | SERVER.js:47-58 | the snapshot holds the flight and every seat of the table exactly once (each row as stored, distinct ids, same count), sorted by class descending then id number ascending |
| `Properties.ReleaseUndoesHold` | SERVER.js:229-232 | releasing a seat right after a successful hold restores the table exactly |
| `Properties.ReleaseReopensSoldSeat` | SERVER.js:230-232 | a sold seat cannot be held, but after a release it can be held again |
| `Properties.SecondHoldRefused` | SERVER.js:207-212 | after a successful hold of a seat, a second hold of it is refused as unavailable |
| `Properties.SecondPurchaseRefused` | SERVER.js:296-305 | after a successful purchase, the same purchase is refused, naming the first requested seat, now sold |
| `Properties.NothingPurchasableAfterReset` | SERVER.js:369-377 | after an admin reset no purchase of any selection can pass the confirm checks |
| `Properties.PurchaseTotal` | SERVER.js:307-319 | an accepted purchase costs 120000 per 'primera' seat and 65950 per other seat, and two selections naming the same seats cost the same (the categories never reach `Total`) |

`Properties.TwoClientScenario` (no contract) walks through two clients
using a two-seat table. Client one holds A1. Client two's hold of A1 is refused.
Client one then buys A1 at the first-class fare. An anonymous purchase of B12
is refused, and B12 stays free.

## Left out

- The HTTP routes `/register`, `/login`, `/me`, `/state`, `/health` and the 404 and error handlers (SERVER.js:61-158, 393-406): request plumbing, bcrypt and JWT.
- Token signing and verification and the socket authentication middleware (SERVER.js:31-45, 161-180): `socket.user` is taken as a given `Option<User>`.
- Database failures: a failed SELECT, UPDATE, connection, transaction start or commit. In `hold-seat` and `confirm` each of these sends an `action-error` to the caller and leaves the table as it was (SERVER.js:200-204, 215-220, 258-283, 323-341). In `release-seat` a failed UPDATE is not reported to the client at all (SERVER.js:232-235), and in `reset-seats` it is only logged to the console (SERVER.js:377-380); both then broadcast the snapshot anyway. The model assumes the store never fails.
- Concurrency: connections, transactions, `FOR UPDATE` row locks and rollback. The race between the two queries of `hold-seat` (SERVER.js:199-214) is also left out. Every handler is one atomic sequential step.
- Broadcasting (`io.emit`), the initial `state` emit on connection, and connection and disconnection logging (SERVER.js:182-189, 387-389). A handler broadcasts exactly when it succeeds. `Release` returns that as a flag, and the other handlers return it as the absence of an error.
- The order of the rows that `SELECT … WHERE id IN (…)` returns is unspecified in SQL. Once the count check has passed, the ids are distinct and all exist, and the model takes the rows in request order. That is also how `selSeats[i].categoria` is paired with `rows[i]`.
- MySQL collation: ids are matched exactly, and class names are compared by character code, not case-insensitively.
- `CAST(… AS UNSIGNED)` is modelled as the value of the leading decimal digits, or 0 if there are none. Leading blanks, a sign, and 64-bit saturation are not modelled.
- Seats of the same class and the same id number have no order in the query. `Reservation.SeatTable.Snapshot` promises only the order by class and number, not which of two such seats comes first.
- JavaScript payload shapes other than the ones modelled are left out: a `seats` value that is not an array, a non-string `seatId`, an undefined `metodoPago`.
- `db.js` (connection pool setup), `Scripts/debug_users.js` (a console dump of users) and `Scripts/create_admin.js` (interactive admin creation) are not part of this model.
