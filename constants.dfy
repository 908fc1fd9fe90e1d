/** The status enumerations and the eligibility radius of the flash-promo
    application (flash_promo/constants.py). */
module Constants {
  import opened Wrappers

  /** Default eligibility radius, in metres. */
  const MINIMUM_DISTANCE: int := 2000

  /** Width of the `status` text columns of FlashPromo and Reservation. */
  const STATUS_MAX_LENGTH: nat := 12

  /** Lifecycle of a flash promo. */
  datatype PromoStatus = Scheduled | Active | Finished {
    /** The stored text value of the choice. */
    function Value(): string {
      match this
      case Scheduled => "SCHEDULED"
      case Active => "ACTIVE"
      case Finished => "FINISHED"
    }

    /** Position in the intended order SCHEDULED < ACTIVE < FINISHED. */
    function Rank(): nat {
      match this
      case Scheduled => 0
      case Active => 1
      case Finished => 2
    }
  }

  /** Lifecycle of a reservation; CANCELED is declared but no code path assigns it. */
  datatype ReservationStatus = Hold | Confirmed | Canceled | Expired {
    function Value(): string {
      match this
      case Hold => "HOLD"
      case Confirmed => "CONFIRMED"
      case Canceled => "CANCELED"
      case Expired => "EXPIRED"
    }

    predicate IsTerminal() {
      this != Hold
    }
  }

  /** Reads a stored promo status back; any other text is not a valid choice. */
  function PromoStatusFromValue(s: string): Option<PromoStatus> {
    if s == "SCHEDULED" then Some(Scheduled)
    else if s == "ACTIVE" then Some(Active)
    else if s == "FINISHED" then Some(Finished)
    else None
  }

  function ReservationStatusFromValue(s: string): Option<ReservationStatus> {
    if s == "HOLD" then Some(Hold)
    else if s == "CONFIRMED" then Some(Confirmed)
    else if s == "CANCELED" then Some(Canceled)
    else if s == "EXPIRED" then Some(Expired)
    else None
  }

  /** Every promo status is stored as a distinct text that fits its column
      and reads back as itself; nothing else reads back as a status. */
  lemma PromoStatusValueRoundTrip(st: PromoStatus, s: string)
    ensures |st.Value()| <= STATUS_MAX_LENGTH
    ensures PromoStatusFromValue(st.Value()) == Some(st)
    ensures PromoStatusFromValue(s) == Some(st) <==> s == st.Value()
  {
  }

  lemma ReservationStatusValueRoundTrip(st: ReservationStatus, s: string)
    ensures |st.Value()| <= STATUS_MAX_LENGTH
    ensures ReservationStatusFromValue(st.Value()) == Some(st)
    ensures ReservationStatusFromValue(s) == Some(st) <==> s == st.Value()
  {
  }
}
