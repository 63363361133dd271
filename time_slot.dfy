/** A bookable time slot (`schema/TimeSlot`): its time label and who, if
    anyone, has booked it. An empty string means "not booked". */
module TimeSlots {

  /** The three fields of a slot, as one value. */
  datatype SlotState = SlotState(time: string, bookedBy: string, bookingId: string)

  function Booked(s: SlotState, bookedBy: string, bookingId: string): SlotState {
    s.(bookedBy := bookedBy, bookingId := bookingId)
  }

  function Cancelled(s: SlotState): SlotState {
    s.(bookedBy := "", bookingId := "")
  }

  /** Booking records the booker and the booking id and keeps the time. */
  lemma BookedRecords(s: SlotState, bookedBy: string, bookingId: string)
    ensures Booked(s, bookedBy, bookingId).bookedBy == bookedBy
    ensures Booked(s, bookedBy, bookingId).bookingId == bookingId
    ensures Booked(s, bookedBy, bookingId).time == s.time
  {
  }

  /** Cancelling twice is cancelling once, and cancelling undoes any booking. */
  lemma CancelIdempotent(s: SlotState, bookedBy: string, bookingId: string)
    ensures Cancelled(Cancelled(s)) == Cancelled(s)
    ensures Cancelled(Booked(s, bookedBy, bookingId)) == Cancelled(s)
    ensures Cancelled(s).time == s.time
  {
  }

  class TimeSlot {
    var time: string
    var bookedBy: string
    var bookingId: string

    function State(): SlotState
      reads this
    {
      SlotState(time, bookedBy, bookingId)
    }

    /** The no-argument constructor: every field empty. */
    constructor Blank()
      ensures State() == SlotState("", "", "")
    {
      time := "";
      bookingId := "";
      bookedBy := "";
    }

    constructor (time: string)
      ensures State() == SlotState(time, "", "")
    {
      this.time := time;
      bookedBy := "";
      bookingId := "";
    }

    method BookTimeSlot(bookedBy: string, bookingId: string)
      modifies this
      ensures State() == Booked(old(State()), bookedBy, bookingId)
    {
      this.bookedBy := bookedBy;
      this.bookingId := bookingId;
    }

    function GetBookedBy(): string
      reads this
    {
      bookedBy
    }

    function GetBookingId(): string
      reads this
    {
      bookingId
    }

    method CancelBooking()
      modifies this
      ensures State() == Cancelled(old(State()))
    {
      bookedBy := "";
      bookingId := "";
    }
  }
}
