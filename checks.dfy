/** The preconditions each handler checks before it writes to the seat
    table, as pure functions of the table and the request. */
module Checks {
  import opened Seats

  /** `hold-seat` refuses a falsy id, an id with no row, and a seat that is
      not 'libre'; otherwise the hold goes ahead. */
  function HoldRefusal(t: Table, seatId: Option<string>): (e: Option<ActionError>)
    ensures e.None? <==> Truthy(seatId) && seatId.value in t && t[seatId.value].estado == Libre
    ensures e.Some? ==> e.value.Type() == "hold-seat"
    ensures e == Some(MissingSeatId) <==> !Truthy(seatId)
    ensures e == Some(SeatLookupFailed) <==> Truthy(seatId) && seatId.value !in t
    ensures e == Some(SeatNotFree) <==>
      Truthy(seatId) && seatId.value in t && t[seatId.value].estado != Libre
  {
    if !Truthy(seatId) then Some(MissingSeatId)
    else if seatId.value !in t then Some(SeatLookupFailed)
    else if t[seatId.value].estado != Libre then Some(SeatNotFree)
    else None
  }

  /** The ids of `ids` that name a row: the rows `WHERE id IN (...)` returns. */
  function Found(t: Table, ids: seq<string>): (found: set<string>) {
    set x | x in ids && x in t
  }

  predicate NoDuplicates(ids: seq<string>) {
    forall i, j :: 0 <= i < j < |ids| ==> ids[i] != ids[j]
  }

  predicate AllKnown(t: Table, ids: seq<string>) {
    forall i :: 0 <= i < |ids| ==> ids[i] in t
  }

  /** The query never returns more rows than ids were asked for, and it
      returns exactly as many when, and only when, the ids are distinct and
      each names a row. */
  lemma {:induction false} FoundCount(t: Table, ids: seq<string>)
    ensures |Found(t, ids)| <= |ids|
    ensures |Found(t, ids)| == |ids| <==> NoDuplicates(ids) && AllKnown(t, ids)
  {
    if ids != [] {
      var a, rest := ids[0], ids[1..];
      FoundCount(t, rest);
      var mine := if a in t then {a} else {};
      assert Found(t, ids) == mine + Found(t, rest) by {
        assert forall x :: x in ids <==> x == a || x in rest by {
          assert ids == [a] + rest;
        }
      }
      assert NoDuplicates(ids) <==> a !in rest && NoDuplicates(rest) by {
        if a in rest {
          var j :| 0 <= j < |rest| && rest[j] == a;
          assert ids[0] == ids[j + 1];
        }
        if NoDuplicates(ids) {
          forall i, j | 0 <= i < j < |rest| ensures rest[i] != rest[j] {
            assert rest[i] == ids[i + 1] && rest[j] == ids[j + 1];
          }
        }
        if a !in rest && NoDuplicates(rest) {
          forall i, j | 0 <= i < j < |ids| ensures ids[i] != ids[j] {
            if i == 0 {
              assert ids[j] == rest[j - 1];
            } else {
              assert ids[i] == rest[i - 1] && ids[j] == rest[j - 1];
            }
          }
        }
      }
      assert AllKnown(t, ids) <==> a in t && AllKnown(t, rest) by {
        if AllKnown(t, ids) {
          forall i | 0 <= i < |rest| ensures rest[i] in t {
            assert rest[i] == ids[i + 1];
          }
        }
        if a in t && AllKnown(t, rest) {
          forall i | 0 <= i < |ids| ensures ids[i] in t {
            if i > 0 { assert ids[i] == rest[i - 1]; }
          }
        }
      }
      if a in t && a !in Found(t, rest) {
        assert |Found(t, ids)| == |Found(t, rest)| + 1;
      } else {
        assert Found(t, ids) == Found(t, rest);
      }
    }
  }

  /** The rows for ids that all name a row, in the order the ids were asked. */
  function Rows(t: Table, ids: seq<string>): (rows: seq<Seat>)
    requires AllKnown(t, ids)
    ensures |rows| == |ids|
    ensures forall i :: 0 <= i < |ids| ==> rows[i] == t[ids[i]]
  {
    seq(|ids|, i requires 0 <= i < |ids| => t[ids[i]])
  }

  /** `rows.find(r => r.estado !== 'retenido')`, as an index. */
  function FirstNotHeld(rows: seq<Seat>): (r: Option<nat>)
    ensures r.Some? ==> r.value < |rows| && rows[r.value].estado != Retenido
    ensures r.Some? ==> forall j :: 0 <= j < r.value ==> rows[j].estado == Retenido
    ensures r.None? ==> forall j :: 0 <= j < |rows| ==> rows[j].estado == Retenido
  {
    if rows == [] then None
    else if rows[0].estado != Retenido then Some(0)
    else match FirstNotHeld(rows[1..])
      case None => None
      case Some(i) => Some(i + 1)
  }

  /** A purchase the table can take: distinct ids, each naming a row, each
      row 'retenido'. */
  predicate Purchasable(t: Table, sel: seq<Selection>) {
    && NoDuplicates(Ids(sel))
    && AllKnown(t, Ids(sel))
    && forall i :: 0 <= i < |sel| ==> t[sel[i].seatId].estado == Retenido
  }

  /** The checks of `confirm`, in the order the handler makes them: a user,
      a non-empty selection, one row per requested id, every row held. */
  function ConfirmRefusal(t: Table, user: Option<User>, sel: seq<Selection>): (e: Option<ActionError>)
    requires WellFormed(t)
    ensures e.Some? ==> e.value.Type() == "confirm"
    ensures e == Some(NotLoggedIn) <==> user.None?
    ensures e == Some(NoSeatsSelected) <==> user.Some? && sel == []
    ensures e.Some? && e.value.SeatNotHeld? ==>
      e.value.seatId in Ids(sel) && e.value.seatId in t && t[e.value.seatId].estado != Retenido
  {
    if user.None? then Some(NotLoggedIn)
    else if sel == [] then Some(NoSeatsSelected)
    else
      var ids := Ids(sel);
      if |Found(t, ids)| != |ids| then Some(InvalidSeat)
      else
        assert AllKnown(t, ids) by { FoundCount(t, ids); }
        var rows := Rows(t, ids);
        match FirstNotHeld(rows)
        case Some(i) => Some(SeatNotHeld(rows[i].id))
        case None => None
  }

  /** Confirm goes through exactly for a logged-in user with a non-empty,
      purchasable selection. Past the user and emptiness checks it is
      refused as an invalid seat exactly when an id repeats or names no
      seat, and as an unavailable seat exactly when all ids are distinct
      and known but some seat is not held. */
  lemma ConfirmAcceptsExactly(t: Table, user: Option<User>, sel: seq<Selection>)
    requires WellFormed(t)
    ensures ConfirmRefusal(t, user, sel).None? <==> user.Some? && sel != [] && Purchasable(t, sel)
    ensures ConfirmRefusal(t, user, sel) == Some(InvalidSeat) <==>
      user.Some? && sel != [] && !(NoDuplicates(Ids(sel)) && AllKnown(t, Ids(sel)))
    ensures (ConfirmRefusal(t, user, sel).Some? && ConfirmRefusal(t, user, sel).value.SeatNotHeld?) <==>
      user.Some? && sel != [] && NoDuplicates(Ids(sel)) && AllKnown(t, Ids(sel)) && !Purchasable(t, sel)
  {
    var ids := Ids(sel);
    FoundCount(t, ids);
    if user.Some? && sel != [] && NoDuplicates(ids) && AllKnown(t, ids) {
      var rows := Rows(t, ids);
      assert forall i :: 0 <= i < |sel| ==> rows[i] == t[sel[i].seatId];
    }
  }

  /** `reset-seats` is open only to a session whose role is 'admin'. */
  predicate IsAdmin(user: Option<User>) {
    user.Some? && user.value.role == "admin"
  }

  /** `comprador?.nombre || socket.user.username` */
  function BuyerName(user: User, nombre: Option<string>): string {
    if Truthy(nombre) then nombre.value else user.username
  }
}
