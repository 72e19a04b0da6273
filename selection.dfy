/** The booking selection of the page as a value: the four pieces of page
    state, the effect of each handler on them, the guards that read them,
    and the booking record that a confirmation reports. */
module Selection {
  import opened Catalog

  /** The four state variables of the page. */
  datatype PageState = PageState(
    selectedSpace: Option<Space>,
    selectedDate: Option<int>,     // None models `undefined`
    selectedTime: Option<string>,  // None models `null`
    isBookingOpen: bool)

  /** What a confirmation reports: the space, the date, the slot label and
      the hourly price. */
  datatype Booking = Booking(spaceId: int, spaceName: string, date: int, time: string, pricePerHour: nat)

  /** The page state after a handler has run, and the booking it reported, if any. */
  datatype Reaction = Reaction(state: PageState, booking: Option<Booking>)

  /** The state when the page mounts: the date is the mount-time clock. */
  function Initial(mountNow: int): PageState
  {
    PageState(None, Some(mountNow), None, false)
  }

  /** JavaScript truthiness of the selected time: null and "" are falsy. */
  predicate Truthy(time: Option<string>)
  {
    time.Some? && time.value != ""
  }

  /** The dialog of `space` is open when the flag is set and the selected
      space has the same id. */
  predicate DialogOpen(s: PageState, space: Space)
  {
    s.isBookingOpen && s.selectedSpace.Some? && s.selectedSpace.value.id == space.id
  }

  /** Some card's dialog is shown, so its calendar and slot buttons can be
      used: the open flag is set and a space is selected. */
  predicate DialogShown(s: PageState)
  {
    s.isBookingOpen && s.selectedSpace.Some?
  }

  /** The details panel with the confirm button is shown when both a date
      and a time are set. */
  predicate DetailsPanelVisible(s: PageState)
  {
    s.selectedDate.Some? && Truthy(s.selectedTime)
  }

  /** The confirmation acts only when space, date and time are all set. */
  predicate ReadyToConfirm(s: PageState)
  {
    s.selectedSpace.Some? && DetailsPanelVisible(s)
  }

  /** What the page can reach: the selected space comes from the catalog and
      the selected time is the label of an available slot. */
  predicate Inv(s: PageState)
  {
    && (s.selectedSpace.Some? ==> s.selectedSpace.value in Spaces())
    && (s.selectedTime.Some? ==> s.selectedTime.value in AvailableTimes())
  }

  /** A booking names a catalog space, with that space's name and hourly
      price, and the label of an available slot. */
  predicate BookingValid(b: Booking)
  {
    && b.time in AvailableTimes()
    && exists space :: space in Spaces() && space.id == b.spaceId
                       && space.name == b.spaceName && space.price == b.pricePerHour
  }

  /** The dialog of `space` reports that it opens or closes. Closing changes
      only the open flag; opening also selects `space`. */
  function OpenChanged(s: PageState, space: Space, open: bool): (r: PageState)
    ensures r.isBookingOpen == open
    ensures r.selectedDate == s.selectedDate && r.selectedTime == s.selectedTime
    ensures !open ==> r.selectedSpace == s.selectedSpace
    ensures open ==> r.selectedSpace == Some(space) && DialogOpen(r, space)
  {
    if open then s.(isBookingOpen := true, selectedSpace := Some(space))
    else s.(isBookingOpen := false)
  }

  /** The "Book" button of `space` selects that space and nothing else. */
  function BookClicked(s: PageState, space: Space): (r: PageState)
    ensures r.selectedSpace == Some(space)
    ensures r.selectedDate == s.selectedDate && r.selectedTime == s.selectedTime
    ensures r.isBookingOpen == s.isBookingOpen
  {
    s.(selectedSpace := Some(space))
  }

  /** The calendar hands its choice (or `undefined`) straight to the date
      setter. */
  function DatePicked(s: PageState, date: Option<int>): (r: PageState)
    ensures r.selectedDate == date
    ensures r.selectedSpace == s.selectedSpace && r.selectedTime == s.selectedTime
    ensures r.isBookingOpen == s.isBookingOpen
  {
    s.(selectedDate := date)
  }

  /** A slot button stores the slot's label; a previous choice is replaced. */
  function TimePicked(s: PageState, slot: TimeSlot): (r: PageState)
    ensures r.selectedTime == Some(slot.time)
    ensures r.selectedSpace == s.selectedSpace && r.selectedDate == s.selectedDate
    ensures r.isBookingOpen == s.isBookingOpen
  {
    s.(selectedTime := Some(slot.time))
  }

  /** Confirming: with space, date and time all set, the booking is reported,
      the dialog closes and the time is cleared, while space and date stay;
      otherwise nothing happens. */
  function Confirmed(s: PageState): (r: Reaction)
    ensures r.booking.Some? <==> ReadyToConfirm(s)
    ensures r.booking.None? ==> r.state == s
    ensures r.booking.Some? ==>
      && r.state.selectedSpace == s.selectedSpace
      && r.state.selectedDate == s.selectedDate
      && r.state.selectedTime == None
      && !r.state.isBookingOpen
    ensures r.booking.Some? ==>
      && r.booking.value.spaceId == s.selectedSpace.value.id
      && r.booking.value.spaceName == s.selectedSpace.value.name
      && r.booking.value.date == s.selectedDate.value
      && r.booking.value.time == s.selectedTime.value
      && r.booking.value.pricePerHour == s.selectedSpace.value.price
  {
    if ReadyToConfirm(s) then
      var space := s.selectedSpace.value;
      var booking := Booking(space.id, space.name, s.selectedDate.value, s.selectedTime.value, space.price);
      Reaction(s.(isBookingOpen := false, selectedTime := None), Some(booking))
    else
      Reaction(s, None)
  }

  /** In the initial state nothing is selected except the mount-time date,
      no dialog is open and the invariant holds. */
  lemma InitialState(mountNow: int, space: Space)
    ensures Initial(mountNow).selectedSpace == None && Initial(mountNow).selectedTime == None
    ensures Initial(mountNow).selectedDate == Some(mountNow)
    ensures !DialogOpen(Initial(mountNow), space)
    ensures !DetailsPanelVisible(Initial(mountNow)) && !ReadyToConfirm(Initial(mountNow))
    ensures Inv(Initial(mountNow))
  {
  }

  /** Within reachable states the truthiness test on the time is the same as
      "a time is set", because every available label is non-empty. */
  lemma TruthyIsSet(s: PageState)
    requires Inv(s)
    ensures Truthy(s.selectedTime) <==> s.selectedTime.Some?
    ensures ReadyToConfirm(s) <==> s.selectedSpace.Some? && s.selectedDate.Some? && s.selectedTime.Some?
  {
    if s.selectedTime.Some? {
      AvailableTimesNonEmpty(s.selectedTime.value);
    }
  }

  /** At most one dialog is open, because space ids are unique. */
  lemma AtMostOneDialogOpen(s: PageState, a: Space, b: Space)
    requires a in Spaces() && b in Spaces()
    requires DialogOpen(s, a) && DialogOpen(s, b)
    ensures a == b
  {
    SpaceIdsUnique(a, b);
  }

  /** After confirming no dialog is open and the details panel is hidden. */
  lemma ConfirmedClosesEverything(s: PageState, space: Space)
    requires ReadyToConfirm(s)
    ensures !DialogOpen(Confirmed(s).state, space)
    ensures !DetailsPanelVisible(Confirmed(s).state)
  {
  }

  /** Picking a time again for the same space and date after a confirmation
      makes the page ready to confirm again: space and date are kept. */
  lemma ConfirmedKeepsSpaceAndDate(s: PageState, slot: TimeSlot)
    requires ReadyToConfirm(s) && slot.time in AvailableTimes()
    ensures ReadyToConfirm(TimePicked(Confirmed(s).state, slot))
  {
    AvailableTimesNonEmpty(slot.time);
  }
}
