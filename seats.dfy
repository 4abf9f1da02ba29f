/** The data of the seat-reservation core: seats and the seat table, the
    session user, a purchase selection, the errors sent back on the
    `action-error` channel, the flight descriptor and the receipt. */
module Seats {

  datatype Option<+T> = None | Some(value: T)

  /** A JavaScript value that may be absent: `undefined`, `null` and the empty
      string are all falsy, which the model writes as `None` or `Some("")`. */
  predicate Truthy(s: Option<string>) {
    s.Some? && s.value != ""
  }

  /** The three values of the `estado` column: 'libre', 'retenido', 'vendido'. */
  datatype SeatState = Libre | Retenido | Vendido

  /** One row of the `seats` table. `clase` is free text; only 'primera'
      is given a price of its own. */
  datatype Seat = Seat(id: string, clase: string, estado: SeatState)

  /** The `seats` table, keyed by its primary key `id`. */
  type Table = map<string, Seat>

  /** Every row is filed under its own id. */
  ghost predicate WellFormed(t: Table) {
    forall k :: k in t ==> t[k].id == k
  }

  /** `UPDATE seats SET estado = s WHERE id IN ids`: the rows whose id is in
      `ids` take state `s`; ids that name no row are ignored. */
  function WithState(t: Table, ids: set<string>, s: SeatState): (t': Table)
    ensures t'.Keys == t.Keys
    ensures forall k :: k in t && k in ids ==> t'[k] == t[k].(estado := s)
    ensures forall k :: k in t && k !in ids ==> t'[k] == t[k]
    ensures WellFormed(t) ==> WellFormed(t')
  {
    map k | k in t :: if k in ids then t[k].(estado := s) else t[k]
  }

  /** `socket.user`, as the authentication middleware attaches it. */
  datatype User = User(id: int, username: string, role: string)

  /** One element of the `seats` array a client sends with `confirm`. */
  datatype Selection = Selection(seatId: string, categoria: Option<string>)

  /** `selSeats.map(s => s.seatId)` */
  function Ids(sel: seq<Selection>): (ids: seq<string>)
    ensures |ids| == |sel|
    ensures forall i :: 0 <= i < |sel| ==> ids[i] == sel[i].seatId
  {
    if sel == [] then [] else [sel[0].seatId] + Ids(sel[1..])
  }

  /** The failures a handler reports to the calling socket only. */
  datatype ActionError =
    | MissingSeatId        // hold-seat without a seat id
    | SeatLookupFailed     // hold-seat: the SELECT found no row
    | SeatNotFree          // hold-seat: the seat is not 'libre'
    | NotLoggedIn          // confirm from an anonymous socket
    | NoSeatsSelected      // confirm with an empty selection
    | InvalidSeat          // confirm: row count differs from id count
    | SeatNotHeld(seatId: string)  // confirm: a locked row is not 'retenido'
    | NotAuthorized        // reset-seats without the admin role
  {
    /** The `type` field of the `action-error` message. */
    function Type(): string {
      match this
      case MissingSeatId | SeatLookupFailed | SeatNotFree => "hold-seat"
      case NotLoggedIn | NoSeatsSelected | InvalidSeat | SeatNotHeld(_) => "confirm"
      case NotAuthorized => "reset"
    }

    /** The `reason` field of the `action-error` message. */
    function Reason(): string {
      match this
      case MissingSeatId => "ID de asiento inválido"
      case SeatLookupFailed => "Error de base de datos"
      case SeatNotFree => "Asiento no disponible"
      case NotLoggedIn => "Debe iniciar sesión"
      case NoSeatsSelected => "No hay asientos seleccionados"
      case InvalidSeat => "Asiento inválido"
      case SeatNotHeld(id) => "Asiento " + id + " no disponible"
      case NotAuthorized => "No autorizado"
    }
  }

  /** The static flight descriptor; the core never changes it. */
  datatype Flight = Flight(
    numero: string, tipo: string, origen: string, destino: string,
    fecha: string, hora: string, lugarSalida: string)

  const FLIGHT := Flight(
    "QTR-0810", "Sencillo", "Ciudad de México (MEX)", "Doha (DOH), Qatar",
    "08/10/25", "20:00", "Terminal 2, Puerta 2")

  /** What a snapshot (`state` message) carries: the flight and the seats in
      display order. */
  datatype PublicState = PublicState(flight: Flight, seats: seq<Seat>)

  /** One entry of the receipt's `detalle` list. */
  datatype DetailLine = DetailLine(seatId: string, clase: string, categoria: string, precio: int)

  /** The `receipt` message sent to the buyer after a committed purchase. */
  datatype Receipt = Receipt(
    numeroVuelo: string, origen: string, destino: string, fecha: string,
    hora: string, lugarSalida: string, metodoPago: string, comprador: string,
    cantidadAsientos: nat, detalle: seq<DetailLine>, total: int)

  /** A confirm either yields a receipt or an error. */
  datatype Outcome = Purchased(receipt: Receipt) | Refused(error: ActionError)
}
