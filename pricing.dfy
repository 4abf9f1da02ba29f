/** The fare table of a purchase and the loop of `confirm` that prices the
    locked rows and builds the receipt's detail list. */
module Pricing {
  import opened Seats

  const FIRST_CLASS_FARE := 120000
  const STANDARD_FARE := 65950

  /** The fare of one seat: only the class 'primera' costs more. */
  function Price(clase: string): (fare: int) {
    if clase == "primera" then FIRST_CLASS_FARE else STANDARD_FARE
  }

  /** `categoria || 'Adulto'`: the category recorded for a seat. */
  function Category(categoria: Option<string>): (recorded: string) {
    if Truthy(categoria) then categoria.value else "Adulto"
  }

  /** The sum of the fares of `rows`, added up front to back. */
  function Total(rows: seq<Seat>): (sum: int) {
    if rows == [] then 0 else Total(rows[..|rows| - 1]) + Price(rows[|rows| - 1].clase)
  }

  /** The number of first-class seats in `rows`. */
  function CountFirst(rows: seq<Seat>): (n: nat)
    ensures n <= |rows|
  {
    if rows == [] then 0
    else (if rows[0].clase == "primera" then 1 else 0) + CountFirst(rows[1..])
  }

  lemma {:induction false} CountFirstSnoc(rows: seq<Seat>, x: Seat)
    ensures CountFirst(rows + [x]) == CountFirst(rows) + (if x.clase == "primera" then 1 else 0)
  {
    if rows != [] {
      assert (rows + [x])[1..] == rows[1..] + [x];
      CountFirstSnoc(rows[1..], x);
    }
  }

  /** The total is the first-class fare for each 'primera' seat plus the
      standard fare for every other seat. */
  lemma {:induction false} TotalByClass(rows: seq<Seat>)
    ensures Total(rows) == FIRST_CLASS_FARE * CountFirst(rows)
                           + STANDARD_FARE * (|rows| - CountFirst(rows))
  {
    if rows != [] {
      var init, last := rows[..|rows| - 1], rows[|rows| - 1];
      assert rows == init + [last];
      TotalByClass(init);
      CountFirstSnoc(init, last);
    }
  }

  /** The pricing loop of `confirm`: row `i` is paired with selection `i`,
      priced by its class alone, and added to the total and the detail list. */
  method PriceRows(rows: seq<Seat>, sel: seq<Selection>) returns (total: int, detalle: seq<DetailLine>)
    requires |rows| == |sel|
    ensures total == Total(rows)
    ensures |detalle| == |rows|
    ensures forall i :: 0 <= i < |rows| ==>
      detalle[i] == DetailLine(rows[i].id, rows[i].clase, Category(sel[i].categoria), Price(rows[i].clase))
  {
    total, detalle := 0, [];
    var i := 0;
    while i < |rows|
      invariant 0 <= i <= |rows|
      invariant total == Total(rows[..i])
      invariant |detalle| == i
      invariant forall j :: 0 <= j < i ==>
        detalle[j] == DetailLine(rows[j].id, rows[j].clase, Category(sel[j].categoria), Price(rows[j].clase))
    {
      var row := rows[i];
      var categoria := Category(sel[i].categoria);
      var precio := Price(row.clase);
      assert rows[..i + 1][..i] == rows[..i];
      total := total + precio;
      detalle := detalle + [DetailLine(row.id, row.clase, categoria, precio)];
      i := i + 1;
    }
    assert rows[..|rows|] == rows;
  }
}
