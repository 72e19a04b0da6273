/** The static catalog of the booking page: the rentable spaces, the one
    shared schedule of time slots, and the two guards the page hands to the
    calendar and to the slot buttons. Dates are integer timestamps in
    milliseconds; the current time is always passed in. */
module Catalog {

  datatype Option<+T> = None | Some(value: T)

  /** A rentable space; the catalog never changes during a session. */
  datatype Space = Space(
    id: int,
    name: string,
    description: string,
    image: string,
    capacity: nat,
    price: nat,            // price per hour
    amenities: seq<string>)

  /** A time-of-day slot with a fixed "HH:MM" label. */
  datatype TimeSlot = TimeSlot(time: string, available: bool)

  /** Length of one calendar day in timestamp units (milliseconds). */
  const DayMs: int := 86_400_000

  const ImageBase: string := "https://cdn.poehali.dev/projects/8e94811b-c43d-4ee6-9dd2-eae35d78235b/files/"

  /** The three spaces, in display order. */
  function Spaces(): (r: seq<Space>)
    ensures |r| == 3
    ensures forall i :: 0 <= i < |r| ==> r[i].id == i + 1
  {
    [ Space(1, "Коворкинг Лофт",
            "Светлое пространство с панорамными окнами для продуктивной работы",
            ImageBase + "7a9e6c06-eea7-4b0d-83de-a7e896722d04.jpg",
            20, 500, ["Wi-Fi", "Кофе", "Принтер"]),
      Space(2, "Арт-студия",
            "Творческое пространство с высокими потолками для художников",
            ImageBase + "77a33e8d-dbed-4394-8b2e-c6b761e494b8.jpg",
            15, 800, ["Мольберты", "Освещение", "Материалы"]),
      Space(3, "Музыкальная студия",
            "Профессиональная студия звукозаписи с современным оборудованием",
            ImageBase + "0cb2079f-7295-4edb-8df6-2add3e0c4979.jpg",
            8, 1500, ["Микрофоны", "Микшер", "Звукоизоляция"]) ]
  }

  /** The single schedule shown for every space. */
  function TimeSlots(): (r: seq<TimeSlot>)
    ensures |r| == 6
  {
    [ TimeSlot("09:00", true),
      TimeSlot("11:00", true),
      TimeSlot("13:00", false),
      TimeSlot("15:00", true),
      TimeSlot("17:00", true),
      TimeSlot("19:00", false) ]
  }

  /** The labels of the slots a user can pick. */
  function AvailableTimes(): set<string>
  {
    set slot | slot in TimeSlots() && slot.available :: slot.time
  }

  /** A slot button is enabled exactly when the slot is available. */
  predicate SlotSelectable(slot: TimeSlot)
  {
    slot.available
  }

  /** A calendar day is enabled unless its timestamp is strictly earlier
      than the current timestamp (a full timestamp comparison). */
  predicate DateSelectable(date: int, now: int)
  {
    !(date < now)
  }

  /** Space ids identify catalog entries. */
  lemma SpaceIdsUnique(a: Space, b: Space)
    requires a in Spaces() && b in Spaces()
    ensures a.id == b.id <==> a == b
  {
  }

  /** Which labels of the schedule can be picked: 09:00, 11:00, 15:00 and
      17:00, never 13:00 or 19:00. */
  lemma AvailableTimesExactly()
    ensures AvailableTimes() == {"09:00", "11:00", "15:00", "17:00"}
    ensures "13:00" !in AvailableTimes() && "19:00" !in AvailableTimes()
  {
    var s := TimeSlots();
    assert s[0].time == "09:00" && s[1].time == "11:00";
    assert s[3].time == "15:00" && s[4].time == "17:00";
    assert forall slot :: slot in s && slot.available ==> slot in [s[0], s[1], s[3], s[4]];
    assert "13:00" != "09:00" && "13:00" != "11:00" && "13:00" != "15:00" && "13:00" != "17:00";
    assert "19:00" != "09:00" && "19:00" != "11:00" && "19:00" != "15:00" && "19:00" != "17:00";
  }

  /** Picking a slot from the schedule yields a label in AvailableTimes
      exactly when its button is enabled. */
  lemma SlotSelectableIffAvailableLabel(slot: TimeSlot)
    requires slot in TimeSlots()
    ensures SlotSelectable(slot) <==> slot.time in AvailableTimes()
  {
    AvailableTimesExactly();
  }

  /** Every label in the schedule is non-empty, so it is truthy in the page's
      `selectedDate && selectedTime` tests. */
  lemma AvailableTimesNonEmpty(t: string)
    requires t in AvailableTimes()
    ensures t != ""
  {
    AvailableTimesExactly();
  }

  /** Calendar days are offered as timestamps of local midnight: day `d`
      starts at `dayZero + d * DayMs`, where `dayZero` is local midnight of
      day 0 (it absorbs the time-zone offset). Because the guard compares
      full timestamps, the day containing `now` is enabled only when `now`
      is exactly its midnight; every later day is enabled and every earlier
      day is disabled. */
  lemma TodayDisabledAfterMidnight(day: int, dayZero: int, now: int)
    ensures day == (now - dayZero) / DayMs ==>
      (DateSelectable(dayZero + day * DayMs, now) <==> (now - dayZero) % DayMs == 0)
    ensures day > (now - dayZero) / DayMs ==> DateSelectable(dayZero + day * DayMs, now)
    ensures day < (now - dayZero) / DayMs ==> !DateSelectable(dayZero + day * DayMs, now)
  {
    var q, r := (now - dayZero) / DayMs, (now - dayZero) % DayMs;
    assert now - dayZero == q * DayMs + r && 0 <= r < DayMs;
    if day > q {
      assert day * DayMs >= (q + 1) * DayMs;
    } else if day < q {
      assert day * DayMs <= (q - 1) * DayMs;
    }
  }
}
