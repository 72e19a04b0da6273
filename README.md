# Creative Spaces booking page — a verified model

The page `Index` of the Creative Spaces site shows a fixed catalog of three
rentable spaces and one shared schedule of six time slots. A visitor opens the
booking dialog of a space, picks a date on a calendar and a time slot, and
confirms. The page holds four pieces of state: the selected space, the
selected date, the selected time and whether the booking dialog is open. This
project models that state and its handlers, and proves what holds of every
state and every booking a visitor can reach.

Files and modules:

- `catalog.dfy`, module `Catalog`: the `Space` and `TimeSlot` records, the
  `spaces` and `timeSlots` constants, and the two guards the page gives to its
  controls. A date is selectable unless `date < now`. A slot is selectable when
  it is `available`. Dates are integer timestamps in milliseconds, and the
  clock is a parameter.
- `selection.dfy`, module `Selection`: the page state as a value (`PageState`),
  one transition function per handler, the confirmation that reports a
  `Booking`, the dialog-open and details-panel conditions, and the invariant
  `Inv`.
- `page.dfy`, module `Page`: class `IndexPage`. Its four fields mirror the
  page's state variables, and its methods mirror the handlers, updating the
  fields in place. Each method is proved against its transition function. The
  UI's `disabled` guards are its preconditions.
- `sessions.dfy`, module `Sessions`: a session is a sequence of user events.
  A click on a disabled control, or on a control that is not shown (the
  calendar and slot buttons outside an open dialog, the confirm button
  outside the details panel), does nothing. The lemmas here are inductive
  and cover every state and booking reachable from the mounted page.

Notes on what the code does:

- The calendar guard compares full timestamps, not calendar days. The calendar
  offers days as start-of-day timestamps, so today's cell is disabled unless
  the clock reads exactly local midnight (`Catalog.TodayDisabledAfterMidnight`). The
  date that is preselected at mount time is still the mount-time clock.
- Confirming does not check the date or the slot again. It checks only that
  space, date and time are set (JavaScript truthiness). A booking can therefore
  carry the mount-time date even when it is confirmed later
  (`Sessions.FirstSpaceScenario`). The slot of a booking is still always an
  available one, because only enabled slot buttons can set it
  (`Sessions.RunKeepsInv`).
- Closing the dialog changes only the open flag. Confirming clears only the
  time and closes the dialog; it keeps the space and the date. There is no
  reset to an empty selection.
- A refused choice (a disabled day, a disabled slot) is simply not delivered.
  No error value exists in the code, so the model has none.
- Booking a slot does not make it unavailable. There is one schedule for every
  space.

## Model

| member | source | states |
|---|---|---|
| `Catalog.Spaces` | src/pages/Index.tsx:24-52 | the catalog holds three spaces whose ids are 1, 2 and 3 in display order |
| `Catalog.TimeSlots` | src/pages/Index.tsx:54-61 | the shared schedule has six slots |
| `Catalog.SpaceIdsUnique` | src/pages/Index.tsx:24-52 | two catalog spaces have the same id exactly when they are the same space |
| `Catalog.AvailableTimesExactly` | src/pages/Index.tsx:54-61 | the pickable labels are exactly 09:00, 11:00, 15:00 and 17:00; 13:00 and 19:00 are not among them |
| `Catalog.SlotSelectableIffAvailableLabel` | src/pages/Index.tsx:186-187 | a schedule slot's button is enabled exactly when the label it stores is an available label |
| `Catalog.AvailableTimesNonEmpty` | src/pages/Index.tsx:54-61 | every available label is a non-empty string, so it is truthy |
| `Catalog.TodayDisabledAfterMidnight` | src/pages/Index.tsx:176 | with day cells starting at local midnight, later days are enabled, earlier days disabled, and the current day only when the clock reads exactly its midnight |
| `Catalog.SlotSelectable` | src/pages/Index.tsx:186 | a slot button is enabled exactly when its slot is available |
| `Catalog.DateSelectable` | src/pages/Index.tsx:176 | a calendar day is enabled unless its timestamp is strictly earlier than the clock |
| `Selection.Initial` | src/pages/Index.tsx:64-67 | the mount-time state: no space, the mount-time clock as date, no time, dialog closed |
| `Selection.Truthy` | src/pages/Index.tsx:70 | the JavaScript truthiness of the selected time: null and the empty string are false |
| `Selection.DialogOpen` | src/pages/Index.tsx:148 | the dialog of a card is open when the open flag is set and the selected space has that card's id |
| `Selection.DialogShown` | src/pages/Index.tsx:148 | some card's dialog, and with it the calendar and slot buttons, is shown |
| `Selection.DetailsPanelVisible` | src/pages/Index.tsx:195 | the details panel with the confirm button is shown when a date and a truthy time are set |
| `Selection.ReadyToConfirm` | src/pages/Index.tsx:70 | the confirmation acts when a space, a date and a truthy time are set |
| `Selection.BookingValid` | src/pages/Index.tsx:24-71 | a booking names a catalog space with that space's name and hourly price, and an available slot label |
| `Selection.OpenChanged` | src/pages/Index.tsx:148-151 | the open flag becomes the reported value; date and time never change; closing keeps the space; opening selects exactly that space and shows its dialog |
| `Selection.BookClicked` | src/pages/Index.tsx:155 | the "Book" button selects its space and changes nothing else |
| `Selection.DatePicked` | src/pages/Index.tsx:174 | the calendar's choice, or undefined, becomes the date; nothing else changes |
| `Selection.TimePicked` | src/pages/Index.tsx:187 | the slot's label replaces the selected time; nothing else changes |
| `Selection.Confirmed` | src/pages/Index.tsx:69-75 | a booking is reported iff space, date and time are all set; without one the state is unchanged; with one the dialog closes, the time is cleared, space and date are kept, and the booking carries the space id, name, date, time and the space's hourly price |
| `Selection.InitialState` | src/pages/Index.tsx:64-67 | at mount no space and no time are selected, the date is the mount-time clock, no dialog is open, the details panel is hidden and the invariant holds |
| `Selection.TruthyIsSet` | src/pages/Index.tsx:70 | in reachable states the truthiness test on the time equals "a time is set", so the confirm guard means all three fields are present |
| `Selection.AtMostOneDialogOpen` | src/pages/Index.tsx:148 | if the dialogs of two catalog spaces are both open, they are the same space |
| `Selection.ConfirmedClosesEverything` | src/pages/Index.tsx:72-73 | after a successful confirmation no dialog is open and the details panel is hidden |
| `Selection.ConfirmedKeepsSpaceAndDate` | src/pages/Index.tsx:72-73 | after a confirmation, picking an available slot again is enough to be ready to confirm, because space and date were kept |
| `Page.IndexPage.constructor` | src/pages/Index.tsx:64-67 | the page mounts with no space, no time, the dialog closed and the date equal to the mount-time clock |
| `Page.IndexPage.OnOpenChange` | src/pages/Index.tsx:148-151 | sets the open flag; selects the space only when opening; keeps date and time; keeps the invariant |
| `Page.IndexPage.OnBookClick` | src/pages/Index.tsx:155 | selects the space; leaves the other three fields unchanged |
| `Page.IndexPage.OnSelectDate` | src/pages/Index.tsx:171-177 | for a day the guard enables (or undefined) stores it as the date; leaves the other fields unchanged |
| `Page.IndexPage.OnSelectTime` | src/pages/Index.tsx:183-187 | for an enabled slot stores its label, which is an available label; leaves the other fields unchanged |
| `Page.IndexPage.HandleBooking` | src/pages/Index.tsx:69-75 | returns the booking and updates the fields exactly as `Selection.Confirmed` says; a returned booking names a catalog space with its name and price and an available slot; with no booking nothing changes; with one only the open flag and the time change |
| `Sessions.Enabled` | src/pages/Index.tsx:148-205 | which controls can raise an event: cards' buttons for catalog spaces, the calendar and enabled slot buttons only in a shown dialog, the confirm button only in the details panel |
| `Sessions.Step` | src/pages/Index.tsx:148-205 | a disabled or hidden control changes nothing and reports nothing; with no dialog shown only the cards' buttons act; a booking is reported exactly when the confirm button is clicked in a shown dialog with space, date and time set |
| `Sessions.StepKeepsInv` | src/pages/Index.tsx:54-75 | every handler keeps the invariant, and a reported booking names a catalog space with its name and price and an available slot |
| `Sessions.RunKeepsInv` | src/pages/Index.tsx:54-75 | every state reachable from a valid state is valid, and every booking reported on the way is valid |
| `Sessions.NeverUnavailableSlot` | src/pages/Index.tsx:54-61 | from the mounted page the selected time is never 13:00 or 19:00, and no booking is for those slots |
| `Sessions.BookedDatesNotBefore` | src/pages/Index.tsx:174-176 | if the held date is not before t and every date is chosen while the clock reads at least t, no booking is dated before t |
| `Sessions.NoBookingBeforeMount` | src/pages/Index.tsx:65-75 | with a clock that does not run back before mount time, no booking is dated before the page was mounted |
| `Sessions.BookThenOpen` | src/pages/Index.tsx:148-155 | clicking "Book" and opening the dialog shows the dialog of that space and of no other space, keeps date and time, and reports nothing |
| `Sessions.CloseKeepsSelection` | src/pages/Index.tsx:148-151 | closing a dialog changes only the open flag and reports nothing |
| `Sessions.NoConfirmAfterClose` | src/pages/Index.tsx:148-205 | open, pick a slot, close, confirm: nothing is booked, because the confirm button is hidden once the dialog closes |
| `Sessions.RejectedChoices` | src/pages/Index.tsx:176-187 | a date before the clock and the slots 13:00 and 19:00 are refused with the state unchanged |
| `Sessions.FirstSpaceScenario` | src/pages/Index.tsx:24-75 | Book space 1, open, pick 09:00, confirm: one booking (space 1, mount-time date, 09:00, 500 per hour); the page keeps space 1 and the date, with the time cleared and the dialog closed |

## Left out

- Page layout, styling, images, icons, the header buttons that have no handler, and the marketing and footer sections: presentation only.
- The `alert` text and the `ru-RU` date formatting: the confirmation is modelled as a returned `Booking` value that carries the same fields (space name, date, time, hourly price) plus the space id.
- The internals of the calendar, dialog, button and badge components are not part of this model. Only the guards the page passes to them are modelled. The calendar may hand `undefined` to the date setter (a deselection); this appears as `None`. Which days the calendar shows is not modelled.
- A click on the "Book" button also triggers the dialog's own open request. The model has these as two events, `BookClick` followed by `OpenChange(space, true)`; `Sessions.BookThenOpen` covers the pair.
- Sessions.Enabled: a deselection (`undefined` from the calendar) is admitted when the selected date itself passes the guard; the calendar tests the start of that day, which can differ when the selected date is the mount-time clock. A close request is admitted from any catalog card, where the dialog component raises it only for the open one; closing changes only the open flag either way.
- JavaScript `Date` values and the real clock: dates are integer timestamps, and the clock reading is a parameter of each calendar event and of the mount.
- Catalog.TimeSlots: its contract gives only the number of slots; which labels are available is stated by `Catalog.AvailableTimesExactly`.
