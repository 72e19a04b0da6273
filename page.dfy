/** The `Index` page as an object: four fields updated in place by the
    handlers, each handler proved against the transition function of the
    Selection module. UI `disabled` guards become preconditions. */
module Page {
  import opened Catalog
  import opened Selection

  class IndexPage {
    var selectedSpace: Option<Space>
    var selectedDate: Option<int>
    var selectedTime: Option<string>
    var isBookingOpen: bool

    /** The state as a value. */
    function State(): PageState
      reads this
    {
      PageState(selectedSpace, selectedDate, selectedTime, isBookingOpen)
    }

    /** The object invariant: the selection is reachable. */
    predicate Valid()
      reads this
    {
      Inv(State())
    }

    /** Mounting the page; `mountNow` is the clock at mount time. */
    constructor (mountNow: int)
      ensures Valid()
      ensures State() == Initial(mountNow)
      ensures selectedSpace == None && selectedTime == None
      ensures selectedDate == Some(mountNow) && !isBookingOpen
    {
      selectedSpace := None;
      selectedDate := Some(mountNow);
      selectedTime := None;
      isBookingOpen := false;
    }

    /** The dialog's `onOpenChange` for the card of `space`. */
    method OnOpenChange(space: Space, open: bool)
      requires Valid() && space in Spaces()
      modifies this
      ensures Valid()
      ensures State() == OpenChanged(old(State()), space, open)
      ensures isBookingOpen == open
      ensures selectedSpace == if open then Some(space) else old(selectedSpace)
      ensures selectedDate == old(selectedDate) && selectedTime == old(selectedTime)
    {
      isBookingOpen := open;
      if open {
        selectedSpace := Some(space);
      }
    }

    /** The "Book" button's `onClick` on the card of `space`. */
    method OnBookClick(space: Space)
      requires Valid() && space in Spaces()
      modifies this
      ensures Valid()
      ensures State() == BookClicked(old(State()), space)
      ensures selectedSpace == Some(space)
      ensures unchanged(this`selectedDate, this`selectedTime, this`isBookingOpen)
    {
      selectedSpace := Some(space);
    }

    /** The calendar's `onSelect`; an enabled day satisfies the calendar's
        `disabled` guard for the clock `now` of that render. */
    method OnSelectDate(date: Option<int>, now: int)
      requires Valid()
      requires date.Some? ==> DateSelectable(date.value, now)
      modifies this
      ensures Valid()
      ensures State() == DatePicked(old(State()), date)
      ensures selectedDate == date
      ensures unchanged(this`selectedSpace, this`selectedTime, this`isBookingOpen)
    {
      selectedDate := date;
    }

    /** A slot button's `onClick`; only enabled (available) slots can be
        clicked. */
    method OnSelectTime(slot: TimeSlot)
      requires Valid()
      requires slot in TimeSlots() && SlotSelectable(slot)
      modifies this
      ensures Valid()
      ensures State() == TimePicked(old(State()), slot)
      ensures selectedTime == Some(slot.time) && slot.time in AvailableTimes()
      ensures unchanged(this`selectedSpace, this`selectedDate, this`isBookingOpen)
    {
      SlotSelectableIffAvailableLabel(slot);
      selectedTime := Some(slot.time);
    }

    /** `handleBooking`: reports the booking instead of showing an alert. */
    method HandleBooking() returns (booking: Option<Booking>)
      requires Valid()
      modifies this
      ensures Valid()
      ensures Confirmed(old(State())) == Reaction(State(), booking)
      ensures booking.Some? ==> BookingValid(booking.value)
      ensures booking.None? ==> unchanged(this)
      ensures booking.Some? ==>
        && !isBookingOpen && selectedTime == None
        && unchanged(this`selectedSpace, this`selectedDate)
    {
      if selectedSpace.Some? && selectedDate.Some? && selectedTime.Some? && selectedTime.value != "" {
        var space := selectedSpace.value;
        assert space in Spaces();  // the witness of BookingValid
        booking := Some(Booking(space.id, space.name, selectedDate.value, selectedTime.value, space.price));
        isBookingOpen := false;
        selectedTime := None;
      } else {
        booking := None;
      }
    }
  }
}
