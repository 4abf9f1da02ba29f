/** The socket handlers `hold-seat`, `release-seat`, `confirm` and
    `reset-seats`, and the snapshot query, as operations on the shared seat
    table. Each handler runs as one atomic step; a successful one is followed
    by a broadcast of the snapshot. */
module Reservation {
  import opened Seats
  import opened Checks
  import opened Pricing
  import opened Ordering

  /** The set of ids a selection names, as `WHERE id IN (...)` uses them. */
  function IdSet(sel: seq<Selection>): (s: set<string>)
    ensures forall i :: 0 <= i < |sel| ==> sel[i].seatId in s
    ensures forall x :: x in s ==> x in Ids(sel)
  {
    set x | x in Ids(sel)
  }

  class SeatTable {
    var seats: Table

    ghost predicate Valid()
      reads this
    {
      WellFormed(seats)
    }

    /** The seats are provisioned outside the core. */
    constructor (initial: Table)
      requires WellFormed(initial)
      ensures Valid() && seats == initial
    {
      seats := initial;
    }

    /** `hold-seat`: a 'libre' seat becomes 'retenido'; anything else is
        refused and the table stays as it was. */
    method Hold(seatId: Option<string>) returns (error: Option<ActionError>)
      requires Valid()
      modifies this
      ensures Valid()
      ensures error == HoldRefusal(old(seats), seatId)
      ensures error.Some? ==> seats == old(seats)
      ensures error.None? ==>
        && seats.Keys == old(seats).Keys
        && seats[seatId.value] == old(seats)[seatId.value].(estado := Retenido)
        && forall k :: k in seats && k != seatId.value ==> seats[k] == old(seats)[k]
    {
      error := HoldRefusal(seats, seatId);
      if error.None? {
        seats := WithState(seats, {seatId.value}, Retenido);
      }
    }

    /** `release-seat`: a falsy id does nothing and broadcasts nothing; any
        other id sets its seat to 'libre' whatever its state (an id with no
        row changes nothing) and is broadcast. */
    method Release(seatId: Option<string>) returns (broadcast: bool)
      requires Valid()
      modifies this
      ensures Valid()
      ensures broadcast == Truthy(seatId)
      ensures !broadcast ==> seats == old(seats)
      ensures broadcast ==>
        && seats.Keys == old(seats).Keys
        && (seatId.value in seats ==> seats[seatId.value] == old(seats)[seatId.value].(estado := Libre))
        && forall k :: k in seats && k != seatId.value ==> seats[k] == old(seats)[k]
    {
      broadcast := Truthy(seatId);
      if broadcast {
        seats := WithState(seats, {seatId.value}, Libre);
      }
    }

    /** `confirm`: all or nothing. A refused purchase leaves every seat as it
        was; an accepted one sells every requested seat, touches no other,
        and returns the receipt priced by class. */
    method Confirm(user: Option<User>, sel: seq<Selection>, metodoPago: string, nombre: Option<string>)
      returns (out: Outcome)
      requires Valid()
      modifies this
      ensures Valid()
      ensures out.Refused? <==> ConfirmRefusal(old(seats), user, sel).Some?
      ensures out.Refused? ==> out.error == ConfirmRefusal(old(seats), user, sel).value && seats == old(seats)
      ensures out.Purchased? ==>
        && user.Some? && sel != [] && Purchasable(old(seats), sel)
        && seats.Keys == old(seats).Keys
        && (forall i :: 0 <= i < |sel| ==>
              seats[sel[i].seatId] == old(seats)[sel[i].seatId].(estado := Vendido))
        && (forall k :: k in seats && k !in Ids(sel) ==> seats[k] == old(seats)[k])
      ensures out.Purchased? ==>
        var r := out.receipt;
        && r.numeroVuelo == FLIGHT.numero && r.origen == FLIGHT.origen
        && r.destino == FLIGHT.destino && r.fecha == FLIGHT.fecha
        && r.hora == FLIGHT.hora && r.lugarSalida == FLIGHT.lugarSalida
        && r.metodoPago == metodoPago
        && r.comprador == BuyerName(user.value, nombre)
        && r.cantidadAsientos == |sel|
        && |r.detalle| == |sel|
        && (forall i :: 0 <= i < |sel| ==>
              var row := old(seats)[sel[i].seatId];
              r.detalle[i] == DetailLine(row.id, row.clase, Category(sel[i].categoria), Price(row.clase)))
        && r.total == Total(Rows(old(seats), Ids(sel)))
    {
      ConfirmAcceptsExactly(seats, user, sel);
      var refusal := ConfirmRefusal(seats, user, sel);
      if refusal.Some? {
        return Refused(refusal.value);
      }
      var ids := Ids(sel);
      var rows := Rows(seats, ids);
      var total, detalle := PriceRows(rows, sel);
      seats := WithState(seats, IdSet(sel), Vendido);
      out := Purchased(Receipt(
        FLIGHT.numero, FLIGHT.origen, FLIGHT.destino, FLIGHT.fecha, FLIGHT.hora, FLIGHT.lugarSalida,
        metodoPago, BuyerName(user.value, nombre), |sel|, detalle, total));
    }

    /** `reset-seats`: only an admin may run it; it frees every seat,
        including sold ones, and keeps the set of seats. */
    method Reset(user: Option<User>) returns (error: Option<ActionError>)
      requires Valid()
      modifies this
      ensures Valid()
      ensures error.None? <==> IsAdmin(user)
      ensures error.Some? ==> error.value == NotAuthorized && seats == old(seats)
      ensures error.None? ==>
        && seats.Keys == old(seats).Keys
        && forall k :: k in seats ==> seats[k] == old(seats)[k].(estado := Libre)
    {
      if !IsAdmin(user) {
        return Some(NotAuthorized);
      }
      seats := WithState(seats, seats.Keys, Libre);
      error := None;
    }

    /** `publicState`: the flight and every seat of the table exactly once,
        class descending, then id number ascending. */
    method Snapshot() returns (st: PublicState)
      requires Valid()
      ensures st.flight == FLIGHT
      ensures Sorted(st.seats)
      ensures DistinctIds(st.seats)
      ensures |st.seats| == |seats|
      ensures forall i :: 0 <= i < |st.seats| ==> st.seats[i].id in seats && seats[st.seats[i].id] == st.seats[i]
      ensures forall k :: k in seats ==> seats[k] in st.seats
    {
      var out: seq<Seat> := [];
      var rest := seats.Keys;
      while rest != {}
        invariant rest <= seats.Keys
        invariant Sorted(out) && DistinctIds(out)
        invariant |out| + |rest| == |seats|
        invariant forall y :: y in out ==> y.id in seats && seats[y.id] == y && y.id !in rest
        invariant forall k :: k in seats && k !in rest ==> seats[k] in out
        decreases rest
      {
        var k :| k in rest;
        var y := seats[k];
        InsertSorted(out, y);
        InsertDistinct(out, y);
        InsertMembers(out, y);
        out := Insert(out, y);
        rest := rest - {k};
      }
      assert |seats.Keys| == |seats|;
      forall i | 0 <= i < |out| ensures out[i].id in seats && seats[out[i].id] == out[i] {
        assert out[i] in out;
      }
      st := PublicState(FLIGHT, out);
    }
  }
}
