/** A browsing session as a sequence of user events. An event whose UI
    control is disabled does nothing, exactly as a click on a disabled
    button or calendar day does nothing. The lemmas here state what holds
    of every state and every booking reachable from the mounted page. */
module Sessions {
  import opened Catalog
  import opened Selection

  /** The user events the page handles. */
  datatype Event =
    | OpenChange(space: Space, open: bool)       // a card's dialog opens or closes
    | BookClick(space: Space)                    // a card's "Book" button
    | SelectDate(date: Option<int>, now: int)    // a calendar choice, at clock `now`
    | SelectTime(slot: TimeSlot)                 // a slot button
    | Confirm                                    // the confirm button

  /** Whether the control that raises `e` is shown and enabled in state `s`.
      The calendar, the slot buttons and the details panel live inside the
      dialog; the confirm button lives inside the details panel. The
      calendar deselects (hands over `undefined`) only when the selected
      day is clicked again, so that day must be enabled. */
  predicate Enabled(s: PageState, e: Event)
  {
    match e
    case OpenChange(space, _) => space in Spaces()
    case BookClick(space) => space in Spaces()
    case SelectDate(date, now) =>
      && DialogShown(s)
      && (if date.Some? then DateSelectable(date.value, now)
          else s.selectedDate.Some? && DateSelectable(s.selectedDate.value, now))
    case SelectTime(slot) => DialogShown(s) && slot in TimeSlots() && SlotSelectable(slot)
    case Confirm => DialogShown(s) && DetailsPanelVisible(s)
  }

  /** One event: a disabled or hidden control does nothing; only the
      confirm button reports a booking, and it always does when it can be
      clicked. */
  function Step(s: PageState, e: Event): (r: Reaction)
    ensures !Enabled(s, e) ==> r == Reaction(s, None)
    ensures !DialogShown(s) && !e.OpenChange? && !e.BookClick? ==> r == Reaction(s, None)
    ensures r.booking.Some? <==> e.Confirm? && DialogShown(s) && ReadyToConfirm(s)
  {
    if !Enabled(s, e) then Reaction(s, None)
    else match e
      case OpenChange(space, open) => Reaction(OpenChanged(s, space, open), None)
      case BookClick(space) => Reaction(BookClicked(s, space), None)
      case SelectDate(date, _) => Reaction(DatePicked(s, date), None)
      case SelectTime(slot) => Reaction(TimePicked(s, slot), None)
      case Confirm => Confirmed(s)
  }

  /** The final state of a session and the bookings it reported, in order. */
  datatype Trace = Trace(state: PageState, bookings: seq<Booking>)

  function Run(s: PageState, events: seq<Event>): Trace
    decreases |events|
  {
    if events == [] then Trace(s, [])
    else
      var first := Step(s, events[0]);
      var rest := Run(first.state, events[1..]);
      Trace(rest.state, (if first.booking.Some? then [first.booking.value] else []) + rest.bookings)
  }

  /** Every event keeps the invariant, and a booking it reports is valid. */
  lemma StepKeepsInv(s: PageState, e: Event)
    requires Inv(s)
    ensures Inv(Step(s, e).state)
    ensures Step(s, e).booking.Some? ==> BookingValid(Step(s, e).booking.value)
  {
    // Naming the transition of each case keeps the proof small: without
    // these steps the solver unfolds the catalog in every branch.
    if !Enabled(s, e) {
      assert Step(s, e).state == s;
    } else {
      match e
      case OpenChange(space, open) =>
        assert Step(s, e).state == OpenChanged(s, space, open);
      case BookClick(space) =>
        assert Step(s, e).state == BookClicked(s, space);
      case SelectDate(date, _) =>
        assert Step(s, e).state == DatePicked(s, date);
      case SelectTime(slot) =>
        SlotSelectableIffAvailableLabel(slot);
        assert Step(s, e).state == TimePicked(s, slot);
      case Confirm =>
        assert s.selectedSpace.value in Spaces();  // the witness of BookingValid
    }
  }

  /** Every state reachable from a valid state is valid, and every booking
      reported on the way is valid. */
  lemma {:induction false} RunKeepsInv(s: PageState, events: seq<Event>)
    requires Inv(s)
    ensures Inv(Run(s, events).state)
    ensures forall b :: b in Run(s, events).bookings ==> BookingValid(b)
    decreases |events|
  {
    if events != [] {
      StepKeepsInv(s, events[0]);
      RunKeepsInv(Step(s, events[0]).state, events[1..]);
    }
  }

  /** From the mounted page the selected time is never 13:00 or 19:00, and
      no booking is for those slots. */
  lemma NeverUnavailableSlot(mountNow: int, events: seq<Event>)
    ensures Run(Initial(mountNow), events).state.selectedTime !in {Some("13:00"), Some("19:00")}
    ensures forall b :: b in Run(Initial(mountNow), events).bookings ==> b.time != "13:00" && b.time != "19:00"
  {
    RunKeepsInv(Initial(mountNow), events);
    AvailableTimesExactly();
  }

  /** Every calendar choice made while the clock read at least `t`. */
  predicate ClockNotBefore(events: seq<Event>, t: int)
  {
    forall i :: 0 <= i < |events| && events[i].SelectDate? ==> events[i].now >= t
  }

  /** If the date held is not before `t` and the clock never reads before
      `t` when a date is chosen, then no booking is dated before `t`. */
  lemma {:induction false} BookedDatesNotBefore(s: PageState, events: seq<Event>, t: int)
    requires s.selectedDate.Some? ==> s.selectedDate.value >= t
    requires ClockNotBefore(events, t)
    ensures forall b :: b in Run(s, events).bookings ==> b.date >= t
    decreases |events|
  {
    if events != [] {
      var next := Step(s, events[0]).state;
      assert next.selectedDate.Some? ==> next.selectedDate.value >= t by {
        if events[0].SelectDate? && Enabled(s, events[0]) {
          assert events[0].now >= t;
        }
      }
      assert ClockNotBefore(events[1..], t) by {
        forall i | 0 <= i < |events[1..]| && events[1..][i].SelectDate?
          ensures events[1..][i].now >= t
        {
          assert events[1..][i] == events[i + 1];
        }
      }
      BookedDatesNotBefore(next, events[1..], t);
    }
  }

  /** With a clock that never runs back before the mount time, no booking
      is dated before the page was mounted. */
  lemma NoBookingBeforeMount(mountNow: int, events: seq<Event>)
    requires ClockNotBefore(events, mountNow)
    ensures forall b :: b in Run(Initial(mountNow), events).bookings ==> b.date >= mountNow
  {
    BookedDatesNotBefore(Initial(mountNow), events, mountNow);
  }

  /** Clicking "Book" and opening the dialog shows the dialog of that space
      and of no other space, keeping date and time. */
  lemma BookThenOpen(s: PageState, space: Space, other: Space)
    requires space in Spaces() && other in Spaces()
    ensures var r := Run(s, [BookClick(space), OpenChange(space, true)]);
      && r.bookings == []
      && (DialogOpen(r.state, other) <==> other == space)
      && r.state.selectedDate == s.selectedDate && r.state.selectedTime == s.selectedTime
  {
    var events := [BookClick(space), OpenChange(space, true)];
    var r1 := Step(s, events[0]).state;
    assert events[1..] == [OpenChange(space, true)];
    assert Run(r1, events[1..]) == Trace(Step(r1, events[1]).state, []) by {
      assert events[1..][1..] == [];
    }
    SpaceIdsUnique(space, other);
  }

  /** Closing the dialog clears nothing: only the open flag changes, so a
      later "Book" on the same space finds the previous date and time. */
  lemma CloseKeepsSelection(s: PageState, space: Space)
    requires space in Spaces()
    ensures Step(s, OpenChange(space, false)) == Reaction(s.(isBookingOpen := false), None)
  {
  }

  /** Closing the dialog hides the confirm button: a slot picked before
      closing cannot be confirmed until the dialog is opened again. */
  lemma NoConfirmAfterClose(s: PageState, space: Space, slot: TimeSlot)
    requires space in Spaces() && slot in TimeSlots() && SlotSelectable(slot)
    ensures var events := [OpenChange(space, true), SelectTime(slot), OpenChange(space, false), Confirm];
      Run(s, events).bookings == []
  {
    var events := [OpenChange(space, true), SelectTime(slot), OpenChange(space, false), Confirm];
    var s1 := OpenChanged(s, space, true);
    var s2 := TimePicked(s1, slot);
    var s3 := OpenChanged(s2, space, false);
    assert Run(s3, events[3..]) == Trace(s3, []) by {
      assert events[3..] == [Confirm] && events[3..][1..] == [];
    }
    assert Run(s2, events[2..]) == Run(s3, events[3..]) by {
      assert events[2..][0] == OpenChange(space, false) && events[2..][1..] == events[3..];
    }
    assert Run(s1, events[1..]) == Run(s2, events[2..]) by {
      assert events[1..][0] == SelectTime(slot) && events[1..][1..] == events[2..];
    }
  }

  /** A past date and an unavailable slot are refused without any change. */
  lemma RejectedChoices(s: PageState, date: int, now: int)
    requires date < now
    ensures Step(s, SelectDate(Some(date), now)) == Reaction(s, None)
    ensures Step(s, SelectTime(TimeSlot("13:00", false))) == Reaction(s, None)
    ensures Step(s, SelectTime(TimeSlot("19:00", false))) == Reaction(s, None)
  {
  }

  /** The first space, mount-time date, slot 09:00, confirm: the booking
      reports space 1 at 500 per hour, and the page keeps space and date.
      The confirmation does not look at the clock, so the booking carries
      the mount-time date however much later it is confirmed. */
  lemma FirstSpaceScenario(mountNow: int)
    ensures var space := Spaces()[0];
      var events := [BookClick(space), OpenChange(space, true), SelectTime(TimeSlots()[0]), Confirm];
      Run(Initial(mountNow), events) ==
        Trace(PageState(Some(space), Some(mountNow), None, false),
              [Booking(1, space.name, mountNow, "09:00", 500)])
  {
    var space := Spaces()[0];
    var events := [BookClick(space), OpenChange(space, true), SelectTime(TimeSlots()[0]), Confirm];
    var slot := TimeSlots()[0];
    var s0 := Initial(mountNow);
    var s1 := BookClicked(s0, space);
    var s2 := OpenChanged(s1, space, true);
    var s3 := TimePicked(s2, slot);
    var b := Booking(1, space.name, mountNow, "09:00", 500);
    assert Run(Confirmed(s3).state, []) == Trace(Confirmed(s3).state, []);
    assert Run(s3, events[3..]) == Trace(Confirmed(s3).state, [b]) by {
      assert events[3..] == [Confirm] && events[3..][1..] == [];
    }
    assert Run(s2, events[2..]) == Run(s3, events[3..]) by {
      assert events[2..][0] == SelectTime(slot) && events[2..][1..] == events[3..];
    }
    assert Run(s1, events[1..]) == Run(s2, events[2..]) by {
      assert events[1..][0] == OpenChange(space, true) && events[1..][1..] == events[2..];
    }
  }
}
