/** How the handlers' effects relate to one another: a release undoes a
    hold, a held or sold seat cannot be held again, a sold seat cannot be
    bought twice, and an admin reset frees everything. */
module Properties {
  import opened Seats
  import opened Checks
  import opened Pricing
  import Reservation

  /** Releasing a seat that was just held restores the table exactly. */
  lemma ReleaseUndoesHold(t: Table, id: string)
    requires HoldRefusal(t, Some(id)).None?
    ensures WithState(WithState(t, {id}, Retenido), {id}, Libre) == t
  {
    var t' := WithState(WithState(t, {id}, Retenido), {id}, Libre);
    assert forall k :: k in t ==> t'[k] == t[k];
  }

  /** A release frees a sold seat too, after which anyone may hold it. */
  lemma ReleaseReopensSoldSeat(t: Table, id: string)
    requires id != "" && id in t && t[id].estado == Vendido
    ensures HoldRefusal(t, Some(id)) == Some(SeatNotFree)
    ensures HoldRefusal(WithState(t, {id}, Libre), Some(id)).None?
  {
  }

  /** Of two holds of the same seat, the second is refused as unavailable. */
  lemma SecondHoldRefused(t: Table, id: string)
    requires HoldRefusal(t, Some(id)).None?
    ensures HoldRefusal(WithState(t, {id}, Retenido), Some(id)) == Some(SeatNotFree)
  {
  }

  /** Once a purchase has gone through, the same purchase is refused, naming
      the first requested seat, which is now sold. */
  lemma {:induction false} SecondPurchaseRefused(t: Table, user: Option<User>, sel: seq<Selection>)
    requires WellFormed(t)
    requires ConfirmRefusal(t, user, sel).None?
    ensures WellFormed(WithState(t, Reservation.IdSet(sel), Vendido))
    ensures ConfirmRefusal(WithState(t, Reservation.IdSet(sel), Vendido), user, sel)
            == Some(SeatNotHeld(sel[0].seatId))
  {
    ConfirmAcceptsExactly(t, user, sel);
    var t' := WithState(t, Reservation.IdSet(sel), Vendido);
    var ids := Ids(sel);
    assert Found(t', ids) == Found(t, ids);
    FoundCount(t, ids);
    var rows := Rows(t', ids);
    assert rows[0].estado == Vendido;
    assert FirstNotHeld(rows) == Some(0);
  }

  /** After an admin reset no seat is held or sold, so no purchase of any
      selection can go through until seats are held again. */
  lemma {:induction false} NothingPurchasableAfterReset(t: Table, user: Option<User>, sel: seq<Selection>)
    requires WellFormed(t)
    ensures ConfirmRefusal(WithState(t, t.Keys, Libre), user, sel).Some?
  {
    var t' := WithState(t, t.Keys, Libre);
    ConfirmAcceptsExactly(t', user, sel);
  }

  /** The receipt total of an accepted purchase is 120000 for each 'primera'
      seat and 65950 for each other seat. That the categories sent do not
      change it holds by construction: `Total` sees only the rows, and
      `Pricing.PriceRows` promises `total == Total(rows)`; the second ensures
      records that two selections naming the same seats cost the same. */
  lemma PurchaseTotal(t: Table, sel: seq<Selection>, sel': seq<Selection>)
    requires WellFormed(t) && Purchasable(t, sel)
    requires Ids(sel') == Ids(sel)
    ensures var rows := Rows(t, Ids(sel));
      Total(rows) == FIRST_CLASS_FARE * CountFirst(rows) + STANDARD_FARE * (|sel| - CountFirst(rows))
    ensures Total(Rows(t, Ids(sel))) == Total(Rows(t, Ids(sel')))
  {
    TotalByClass(Rows(t, Ids(sel)));
  }

  /** Two seats, A1 in 'primera' and B12 in another class, both free: a hold
      of A1 succeeds, a second hold of A1 is refused, a logged-in purchase of
      A1 sells it for the first-class fare, and an anonymous purchase of B12
      is refused and leaves B12 free. */
  method TwoClientScenario() {
    var table := new Reservation.SeatTable(map[
      "A1" := Seat("A1", "primera", Libre),
      "B12" := Seat("B12", "turista", Libre)]);
    var error := table.Hold(Some("A1"));
    assert error == None && table.seats["A1"].estado == Retenido;
    error := table.Hold(Some("A1"));
    assert error == Some(SeatNotFree);

    var ana := User(1, "ana", "user");
    var sel := [Selection("A1", Some("Adulto"))];
    assert Found(table.seats, Ids(sel)) == {"A1"};
    var out := table.Confirm(Some(ana), sel, "tarjeta", None);
    assert out.Purchased?;
    assert out.receipt.total == FIRST_CLASS_FARE;
    assert out.receipt.comprador == "ana";
    assert table.seats["A1"].estado == Vendido;

    out := table.Confirm(None, [Selection("B12", Some("Adulto"))], "tarjeta", None);
    assert out == Refused(NotLoggedIn);
    assert table.seats["B12"].estado == Libre;
  }
}
