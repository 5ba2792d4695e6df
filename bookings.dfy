/** The pure side of BookingsController: the slot-conflict rule, pricing,
    the cancellation refund brackets, the calendar slot generator and the
    "my bookings" query. The state changes of CreateBooking and
    CancelBooking are methods of `Club.Club`. */
module Bookings {
  import opened Entities
  import opened Queries

  // ---------------------------------------------------------------------
  // Availability

  /** The conflict test of CreateBooking:
      `existing.Start < new.End && existing.End > new.Start`. */
  predicate Overlaps(existingStart: int, existingEnd: int, start: int, end: int)
  {
    existingStart < end && existingEnd > start
  }

  predicate Within(t: int, start: int, end: int)
  {
    start <= t < end
  }

  /** For two non-empty intervals the test holds exactly when they share a minute;
      it is symmetric, so it does not matter which booking came first. */
  lemma OverlapsIffShareMinute(aStart: int, aEnd: int, bStart: int, bEnd: int)
    requires aStart < aEnd && bStart < bEnd
    ensures Overlaps(aStart, aEnd, bStart, bEnd) <==> exists t :: Within(t, aStart, aEnd) && Within(t, bStart, bEnd)
    ensures Overlaps(aStart, aEnd, bStart, bEnd) == Overlaps(bStart, bEnd, aStart, aEnd)
  {
    if Overlaps(aStart, aEnd, bStart, bEnd) {
      var t := Max(aStart, bStart);
      assert Within(t, aStart, aEnd) && Within(t, bStart, bEnd);
    }
  }

  /** Back-to-back bookings, one ending when the other starts, do not conflict. */
  lemma BackToBackDoNotOverlap(aStart: int, meet: int, bEnd: int)
    ensures !Overlaps(aStart, meet, meet, bEnd)
    ensures !Overlaps(meet, bEnd, aStart, meet)
  {
  }

  /** Only Confirmed and Hold bookings occupy a slot. */
  predicate Blocks(b: Booking)
  {
    b.status == BookingStatus.Confirmed || b.status == BookingStatus.Hold
  }

  predicate ConflictsWith(b: Booking, courtId: int, start: int, end: int)
  {
    b.courtId == courtId && Blocks(b) && Overlaps(b.startTime, b.endTime, start, end)
  }

  /** The `AnyAsync` conflict query of CreateBooking. */
  predicate HasConflict(bookings: seq<Booking>, courtId: int, start: int, end: int)
  {
    exists i :: 0 <= i < |bookings| && ConflictsWith(bookings[i], courtId, start, end)
  }

  /** No two Confirmed or Hold bookings on one court overlap. */
  ghost predicate NoDoubleBooking(bookings: seq<Booking>)
  {
    forall i, j :: 0 <= i < |bookings| && 0 <= j < |bookings| && i != j && Blocks(bookings[i]) ==>
      !ConflictsWith(bookings[j], bookings[i].courtId, bookings[i].startTime, bookings[i].endTime)
  }

  /** A booking that passed the conflict query keeps the table free of double bookings. */
  lemma NoDoubleBookingAppend(bookings: seq<Booking>, b: Booking)
    requires NoDoubleBooking(bookings)
    requires !HasConflict(bookings, b.courtId, b.startTime, b.endTime)
    ensures NoDoubleBooking(bookings + [b])
  {
    var s := bookings + [b];
    var n := |bookings|;
    forall i, j | 0 <= i < |s| && 0 <= j < |s| && i != j && Blocks(s[i])
      ensures !ConflictsWith(s[j], s[i].courtId, s[i].startTime, s[i].endTime)
    {
      if i == n {
        assert s[j] == bookings[j];
      } else if j == n {
        assert s[i] == bookings[i];
      } else {
        assert s[i] == bookings[i] && s[j] == bookings[j];
      }
    }
  }

  /** Cancelling (any status change to a non-blocking one) keeps the table
      free of double bookings. */
  lemma NoDoubleBookingRelease(bookings: seq<Booking>, k: nat, b: Booking)
    requires NoDoubleBooking(bookings) && k < |bookings|
    requires !Blocks(b)
    ensures NoDoubleBooking(bookings[k := b])
  {
  }

  /** At any minute at most one Confirmed or Hold booking occupies a court. */
  lemma AtMostOneBookingPerMinute(bookings: seq<Booking>, i: nat, j: nat, t: int)
    requires NoDoubleBooking(bookings) && i < |bookings| && j < |bookings|
    requires Blocks(bookings[i]) && Blocks(bookings[j])
    requires bookings[i].courtId == bookings[j].courtId
    requires Within(t, bookings[i].startTime, bookings[i].endTime)
    requires Within(t, bookings[j].startTime, bookings[j].endTime)
    ensures i == j
  {
    if i != j {
      assert ConflictsWith(bookings[j], bookings[i].courtId, bookings[i].startTime, bookings[i].endTime);
    }
  }

  // ---------------------------------------------------------------------
  // Pricing and refunds

  /** `(EndTime - StartTime).TotalHours * PricePerHour`. Nothing requires the
      end to come after the start. */
  function Price(start: Time, end: Time, pricePerHour: real): (r: real)
    ensures start <= end && pricePerHour >= 0.0 ==> r >= 0.0
    ensures end < start && pricePerHour > 0.0 ==> r < 0.0
  {
    var hours := (end - start) as real / MinutesPerHour as real;
    assert start <= end ==> hours >= 0.0;
    assert end < start ==> hours < 0.0;
    hours * pricePerHour
  }

  lemma PriceOfOneHour(start: Time, pricePerHour: real)
    ensures Price(start, start + MinutesPerHour, pricePerHour) == pricePerHour
  {
  }

  /** Booking [start, mid) and then [mid, end) costs the same as [start, end). */
  lemma PriceSplits(start: Time, mid: Time, end: Time, pricePerHour: real)
    ensures Price(start, mid, pricePerHour) + Price(mid, end, pricePerHour) == Price(start, end, pricePerHour)
  {
    var a := (mid - start) as real / 60.0;
    var b := (end - mid) as real / 60.0;
    assert a + b == (end - start) as real / 60.0;
    assert a * pricePerHour + b * pricePerHour == (a + b) * pricePerHour;
  }

  /** With the end before the start the price is negative, so the balance check
      `WalletBalance < totalPrice` passes for any non-negative balance and the
      debit `WalletBalance -= totalPrice` raises the balance. */
  lemma NegativeDurationCredits(start: Time, end: Time, pricePerHour: real, balance: real)
    requires end < start && pricePerHour > 0.0 && balance >= 0.0
    ensures !(balance < Price(start, end, pricePerHour))
    ensures balance - Price(start, end, pricePerHour) > balance
  {
  }

  const FullRefundMinutes: int := 24 * MinutesPerHour
  const HalfRefundMinutes: int := 1 * MinutesPerHour

  /** The refund brackets: all of it more than 24 hours ahead, half of it
      more than 1 hour ahead, nothing otherwise. */
  function RefundPercent(minutesUntilStart: int): (r: real)
    ensures 0.0 <= r <= 1.0
    ensures r == 1.0 <==> minutesUntilStart > FullRefundMinutes
    ensures r == 0.0 <==> minutesUntilStart <= HalfRefundMinutes
    ensures r == 0.5 <==> HalfRefundMinutes < minutesUntilStart <= FullRefundMinutes
  {
    if minutesUntilStart > FullRefundMinutes then 1.0
    else if minutesUntilStart > HalfRefundMinutes then 0.5
    else 0.0
  }

  /** Cancelling earlier never refunds less. */
  lemma RefundPercentMonotone(earlier: int, later: int)
    requires later <= earlier
    ensures RefundPercent(later) <= RefundPercent(earlier)
  {
  }

  /** The boundaries fall to the lower bracket: exactly 24 hours gives half,
      exactly 1 hour gives nothing. */
  lemma RefundBoundaries()
    ensures RefundPercent(24 * 60) == 0.5
    ensures RefundPercent(25 * 60) == 1.0
    ensures RefundPercent(60) == 0.0
    ensures RefundPercent(30) == 0.0
  {
  }

  function RefundAmount(totalPrice: real, minutesUntilStart: int): real
  {
    totalPrice * RefundPercent(minutesUntilStart)
  }

  /** For a booking paid with a non-negative price the refund is never more
      than what was paid, so booking and cancelling never leaves a member
      better off. */
  lemma RefundWithinPrice(totalPrice: real, minutesUntilStart: int)
    requires totalPrice >= 0.0
    ensures 0.0 <= RefundAmount(totalPrice, minutesUntilStart) <= totalPrice
  {
    var p := RefundPercent(minutesUntilStart);
    assert p == 0.0 || p == 0.5 || p == 1.0;
  }

  /** A negative-price booking cancelled more than an hour ahead yields a
      negative refund amount. */
  lemma NegativePriceRefundIsDebit(totalPrice: real, minutesUntilStart: int)
    requires totalPrice < 0.0 && minutesUntilStart > HalfRefundMinutes
    ensures RefundAmount(totalPrice, minutesUntilStart) < 0.0
  {
    var p := RefundPercent(minutesUntilStart);
    assert p == 0.5 || p == 1.0;
  }

  // ---------------------------------------------------------------------
  // Calendar

  const OpeningHour: nat := 6
  const ClosingHour: nat := 22
  const SlotsPerDay: nat := ClosingHour - OpeningHour

  datatype CalendarSlot = CalendarSlot(
    courtId: int,
    courtName: string,
    startTime: Time,
    endTime: Time,
    isBooked: bool,
    bookingId: Option<int>,
    memberName: Option<string>,
    isHold: bool)

  /** The bookings the calendar loads: lying within [from, to], Confirmed or
      Hold, and on the requested court when one is given. */
  predicate InCalendarWindow(b: Booking, from: Time, to: Time, courtId: Option<int>)
  {
    b.startTime >= from && b.endTime <= to && Blocks(b) &&
    (courtId.None? || b.courtId == courtId.value)
  }

  function CalendarBookings(bookings: seq<Booking>, from: Time, to: Time, courtId: Option<int>): seq<Booking>
  {
    Filter(bookings, b => InCalendarWindow(b, from, to, courtId))
  }

  function ActiveCourts(courts: seq<Court>): seq<Court>
  {
    Filter(courts, (c: Court) => c.isActive)
  }

  /** `b.CourtId == courtId && b.StartTime <= t && b.EndTime > t`. */
  predicate CoversSlot(b: Booking, courtId: int, t: int)
  {
    b.courtId == courtId && Within(t, b.startTime, b.endTime)
  }

  /** `FirstOrDefault`: the first loaded booking covering minute t of the court. */
  function FirstCovering(window: seq<Booking>, courtId: int, t: int): (r: Option<Booking>)
    ensures r.Some? <==> exists i :: 0 <= i < |window| && CoversSlot(window[i], courtId, t)
    ensures r.Some? ==> exists i :: 0 <= i < |window| && window[i] == r.value && CoversSlot(r.value, courtId, t) &&
                                    forall j :: 0 <= j < i ==> !CoversSlot(window[j], courtId, t)
    decreases |window|
  {
    if window == [] then None
    else if CoversSlot(window[0], courtId, t) then Some(window[0])
    else
      var r := FirstCovering(window[1..], courtId, t);
      assert forall i :: 1 <= i < |window| ==> window[i] == window[1..][i - 1];
      if r.Some? then
        assert exists i :: 0 <= i < |window| - 1 && window[1..][i] == r.value && CoversSlot(r.value, courtId, t) &&
                           forall j :: 0 <= j < i ==> !CoversSlot(window[1..][j], courtId, t);
        var i :| 0 <= i < |window| - 1 && window[1..][i] == r.value && CoversSlot(r.value, courtId, t) &&
                 forall j :: 0 <= j < i ==> !CoversSlot(window[1..][j], courtId, t);
        assert window[i + 1] == r.value;
        assert forall j :: 0 <= j < i + 1 ==> !CoversSlot(window[j], courtId, t) by {
          forall j | 0 <= j < i + 1 ensures !CoversSlot(window[j], courtId, t) {
            if j > 0 { assert window[j] == window[1..][j - 1]; }
          }
        }
        r
      else
        r
  }

  function MemberName(members: seq<Member>, memberId: int): Option<string>
  {
    if 1 <= memberId <= |members| then Some(members[memberId - 1].fullName) else None
  }

  /** The slot of `court` starting at minute t. */
  function Slot(window: seq<Booking>, members: seq<Member>, court: Court, t: Time): CalendarSlot
  {
    var b := FirstCovering(window, court.id, t);
    CalendarSlot(
      court.id, court.name, t, t + MinutesPerHour,
      b.Some?,
      if b.Some? then Some(b.value.id) else None,
      if b.Some? then MemberName(members, b.value.memberId) else None,
      b.Some? && b.value.status == BookingStatus.Hold)
  }

  /** What a slot shows: one hour from t, booked exactly when a loaded booking
      covers t, and then that booking's id and whether it is a Hold. */
  lemma SlotMeaning(window: seq<Booking>, members: seq<Member>, court: Court, t: Time)
    ensures var s := Slot(window, members, court, t);
      s.courtId == court.id && s.startTime == t && s.endTime == t + MinutesPerHour &&
      (s.isBooked <==> exists i :: 0 <= i < |window| && CoversSlot(window[i], court.id, t)) &&
      (s.isHold ==> s.isBooked) &&
      (s.isBooked ==> exists i :: 0 <= i < |window| && CoversSlot(window[i], court.id, t) &&
                                  s.bookingId == Some(window[i].id) &&
                                  s.memberName == MemberName(members, window[i].memberId) &&
                                  (s.isHold <==> window[i].status == BookingStatus.Hold))
  {
  }

  /** `date.AddHours(hour)` for the day numbered `day`. */
  function SlotStart(day: nat, hour: nat): Time
  {
    day * MinutesPerDay + hour * MinutesPerHour
  }

  /** The first n slots of a day: hours OpeningHour .. OpeningHour + n - 1. */
  function DaySlots(window: seq<Booking>, members: seq<Member>, court: Court, day: nat, n: nat): seq<CalendarSlot>
    decreases n
  {
    if n == 0 then []
    else DaySlots(window, members, court, day, n - 1) + [Slot(window, members, court, SlotStart(day, OpeningHour + n - 1))]
  }

  /** All slots of one court on the days firstDay .. firstDay + nDays - 1. */
  function CourtSlots(window: seq<Booking>, members: seq<Member>, court: Court, firstDay: nat, nDays: nat): seq<CalendarSlot>
    decreases nDays
  {
    if nDays == 0 then []
    else CourtSlots(window, members, court, firstDay, nDays - 1) + DaySlots(window, members, court, firstDay + nDays - 1, SlotsPerDay)
  }

  /** All slots of the given courts, court after court. */
  function CalendarSlots(window: seq<Booking>, members: seq<Member>, courts: seq<Court>, firstDay: nat, nDays: nat): seq<CalendarSlot>
    decreases |courts|
  {
    if courts == [] then []
    else CalendarSlots(window, members, courts[..|courts| - 1], firstDay, nDays) +
         CourtSlots(window, members, courts[|courts| - 1], firstDay, nDays)
  }

  /** The number of days `from.Date, from.Date + 1, ..., to.Date`. */
  function DayCount(from: Time, to: Time): nat
  {
    if to / MinutesPerDay >= from / MinutesPerDay then to / MinutesPerDay - from / MinutesPerDay + 1 else 0
  }

  lemma {:induction false} DaySlotsAt(window: seq<Booking>, members: seq<Member>, court: Court, day: nat, n: nat, h: nat)
    requires h < n
    ensures |DaySlots(window, members, court, day, n)| == n
    ensures DaySlots(window, members, court, day, n)[h] == Slot(window, members, court, SlotStart(day, OpeningHour + h))
    decreases n
  {
    if h < n - 1 {
      DaySlotsAt(window, members, court, day, n - 1, h);
    } else if n > 1 {
      DaySlotsAt(window, members, court, day, n - 1, 0);
    }
  }

  lemma {:induction false} CourtSlotsLength(window: seq<Booking>, members: seq<Member>, court: Court, firstDay: nat, nDays: nat)
    ensures |CourtSlots(window, members, court, firstDay, nDays)| == nDays * SlotsPerDay
    decreases nDays
  {
    if nDays > 0 {
      CourtSlotsLength(window, members, court, firstDay, nDays - 1);
      DaySlotsAt(window, members, court, firstDay + nDays - 1, SlotsPerDay, 0);
    }
  }

  lemma MulMonotone(a: nat, b: nat, c: nat)
    requires a <= b
    ensures a * c <= b * c
  {
  }

  lemma MulSucc(a: int, b: int)
    ensures (a + 1) * b == a * b + b
  {
  }

  lemma {:induction false} CourtSlotsAt(window: seq<Booking>, members: seq<Member>, court: Court, firstDay: nat, nDays: nat, d: nat, h: nat)
    requires d < nDays && h < SlotsPerDay
    ensures |CourtSlots(window, members, court, firstDay, nDays)| == nDays * SlotsPerDay
    ensures d * SlotsPerDay + h < nDays * SlotsPerDay
    ensures CourtSlots(window, members, court, firstDay, nDays)[d * SlotsPerDay + h]
         == Slot(window, members, court, SlotStart(firstDay + d, OpeningHour + h))
    decreases nDays
  {
    var prefix := CourtSlots(window, members, court, firstDay, nDays - 1);
    var last := DaySlots(window, members, court, firstDay + nDays - 1, SlotsPerDay);
    assert CourtSlots(window, members, court, firstDay, nDays) == prefix + last;
    CourtSlotsLength(window, members, court, firstDay, nDays - 1);
    CourtSlotsLength(window, members, court, firstDay, nDays);
    DaySlotsAt(window, members, court, firstDay + nDays - 1, SlotsPerDay, h);
    MulMonotone(d + 1, nDays, SlotsPerDay);
    MulSucc(d, SlotsPerDay);
    if d < nDays - 1 {
      MulMonotone(d + 1, nDays - 1, SlotsPerDay);
      CourtSlotsAt(window, members, court, firstDay, nDays - 1, d, h);
    } else {
      assert d * SlotsPerDay + h == |prefix| + h;
    }
  }

  lemma {:induction false} CalendarSlotsLength(window: seq<Booking>, members: seq<Member>, courts: seq<Court>, firstDay: nat, nDays: nat)
    ensures |CalendarSlots(window, members, courts, firstDay, nDays)| == |courts| * (nDays * SlotsPerDay)
    decreases |courts|
  {
    if courts != [] {
      var n := |courts|;
      CalendarSlotsLength(window, members, courts[..n - 1], firstDay, nDays);
      CourtSlotsLength(window, members, courts[n - 1], firstDay, nDays);
      MulSucc(n - 1, nDays * SlotsPerDay);
    }
  }

  /** The calendar holds exactly SlotsPerDay one-hour slots per court per day:
      the slot of court c, day d and hour OpeningHour + h sits at position
      c * (nDays * SlotsPerDay) + d * SlotsPerDay + h. */
  lemma {:induction false} CalendarSlotsAt(window: seq<Booking>, members: seq<Member>, courts: seq<Court>,
                                           firstDay: nat, nDays: nat, c: nat, d: nat, h: nat)
    requires c < |courts| && d < nDays && h < SlotsPerDay
    ensures |CalendarSlots(window, members, courts, firstDay, nDays)| == |courts| * (nDays * SlotsPerDay)
    ensures c * (nDays * SlotsPerDay) + d * SlotsPerDay + h < |courts| * (nDays * SlotsPerDay)
    ensures CalendarSlots(window, members, courts, firstDay, nDays)[c * (nDays * SlotsPerDay) + d * SlotsPerDay + h]
         == Slot(window, members, courts[c], SlotStart(firstDay + d, OpeningHour + h))
    decreases |courts|
  {
    var n := |courts|;
    var perCourt := nDays * SlotsPerDay;
    var init := courts[..n - 1];
    var prefix := CalendarSlots(window, members, init, firstDay, nDays);
    var last := CourtSlots(window, members, courts[n - 1], firstDay, nDays);
    assert CalendarSlots(window, members, courts, firstDay, nDays) == prefix + last;
    CalendarSlotsLength(window, members, courts, firstDay, nDays);
    CalendarSlotsLength(window, members, init, firstDay, nDays);
    MulMonotone(d + 1, nDays, SlotsPerDay);
    MulSucc(d, SlotsPerDay);
    MulSucc(c, perCourt);
    MulMonotone(c + 1, n, perCourt);
    if c < n - 1 {
      MulMonotone(c + 1, n - 1, perCourt);
      CalendarSlotsAt(window, members, init, firstDay, nDays, c, d, h);
      assert init[c] == courts[c];
    } else {
      CourtSlotsAt(window, members, courts[n - 1], firstDay, nDays, d, h);
      assert c * perCourt + d * SlotsPerDay + h == |prefix| + (d * SlotsPerDay + h);
    }
  }

  /** A slot is shown booked exactly when some Confirmed or Hold booking on
      its court, lying within [from, to], covers its start; a booked slot then
      carries such a booking's id, its member's name and whether it is a Hold. */
  ghost predicate ShowsBookings(bookings: seq<Booking>, members: seq<Member>, from: Time, to: Time, courtId: Option<int>,
                                s: CalendarSlot)
  {
    (s.isBooked <==>
       exists i :: 0 <= i < |bookings| && InCalendarWindow(bookings[i], from, to, courtId) &&
                   CoversSlot(bookings[i], s.courtId, s.startTime)) &&
    (!s.isBooked ==> s.bookingId.None? && s.memberName.None? && !s.isHold) &&
    (s.isBooked ==>
       exists i :: 0 <= i < |bookings| && InCalendarWindow(bookings[i], from, to, courtId) &&
                   CoversSlot(bookings[i], s.courtId, s.startTime) &&
                   s.bookingId == Some(bookings[i].id) &&
                   s.memberName == MemberName(members, bookings[i].memberId) &&
                   (s.isHold <==> bookings[i].status == BookingStatus.Hold))
  }

  /** A calendar slot is booked exactly when some Confirmed or Hold booking on
      that court, lying within [from, to], covers the slot's start, and then
      shows that booking. */
  lemma SlotBookedIff(bookings: seq<Booking>, from: Time, to: Time, courtId: Option<int>,
                      members: seq<Member>, court: Court, t: Time)
    ensures ShowsBookings(bookings, members, from, to, courtId, Slot(CalendarBookings(bookings, from, to, courtId), members, court, t))
  {
    var w := CalendarBookings(bookings, from, to, courtId);
    var s := Slot(w, members, court, t);
    SlotMeaning(w, members, court, t);
    if exists i :: 0 <= i < |bookings| && InCalendarWindow(bookings[i], from, to, courtId) && CoversSlot(bookings[i], court.id, t) {
      var i :| 0 <= i < |bookings| && InCalendarWindow(bookings[i], from, to, courtId) && CoversSlot(bookings[i], court.id, t);
      assert bookings[i] in w;
    }
    if s.isBooked {
      var i :| 0 <= i < |w| && CoversSlot(w[i], court.id, t) && s.bookingId == Some(w[i].id) &&
               s.memberName == MemberName(members, w[i].memberId) &&
               (s.isHold <==> w[i].status == BookingStatus.Hold);
      assert w[i] in w;
      var j :| 0 <= j < |bookings| && bookings[j] == w[i];
      assert InCalendarWindow(bookings[j], from, to, courtId);
    }
  }

  ghost predicate AllShowBookings(bookings: seq<Booking>, members: seq<Member>, from: Time, to: Time, courtId: Option<int>, slots: seq<CalendarSlot>)
  {
    forall k :: 0 <= k < |slots| ==> ShowsBookings(bookings, members, from, to, courtId, slots[k])
  }

  lemma AllShowBookingsConcat(bookings: seq<Booking>, members: seq<Member>, from: Time, to: Time, courtId: Option<int>, a: seq<CalendarSlot>, b: seq<CalendarSlot>)
    requires AllShowBookings(bookings, members, from, to, courtId, a) && AllShowBookings(bookings, members, from, to, courtId, b)
    ensures AllShowBookings(bookings, members, from, to, courtId, a + b)
  {
    forall k | 0 <= k < |a + b| ensures ShowsBookings(bookings, members, from, to, courtId, (a + b)[k]) {
      if k >= |a| { assert (a + b)[k] == b[k - |a|]; }
    }
  }

  lemma {:induction false} DayShowsBookings(bookings: seq<Booking>, from: Time, to: Time, courtId: Option<int>,
                                            members: seq<Member>, court: Court, day: nat, n: nat)
    ensures AllShowBookings(bookings, members, from, to, courtId, DaySlots(CalendarBookings(bookings, from, to, courtId), members, court, day, n))
    decreases n
  {
    if n > 0 {
      var w := CalendarBookings(bookings, from, to, courtId);
      DayShowsBookings(bookings, from, to, courtId, members, court, day, n - 1);
      SlotBookedIff(bookings, from, to, courtId, members, court, SlotStart(day, OpeningHour + n - 1));
      AllShowBookingsConcat(bookings, members, from, to, courtId, DaySlots(w, members, court, day, n - 1),
                            [Slot(w, members, court, SlotStart(day, OpeningHour + n - 1))]);
    }
  }

  lemma {:induction false} CourtShowsBookings(bookings: seq<Booking>, from: Time, to: Time, courtId: Option<int>,
                                              members: seq<Member>, court: Court, firstDay: nat, nDays: nat)
    ensures AllShowBookings(bookings, members, from, to, courtId, CourtSlots(CalendarBookings(bookings, from, to, courtId), members, court, firstDay, nDays))
    decreases nDays
  {
    if nDays > 0 {
      var w := CalendarBookings(bookings, from, to, courtId);
      CourtShowsBookings(bookings, from, to, courtId, members, court, firstDay, nDays - 1);
      DayShowsBookings(bookings, from, to, courtId, members, court, firstDay + nDays - 1, SlotsPerDay);
      AllShowBookingsConcat(bookings, members, from, to, courtId, CourtSlots(w, members, court, firstDay, nDays - 1),
                            DaySlots(w, members, court, firstDay + nDays - 1, SlotsPerDay));
    }
  }

  /** Every slot of the calendar is shown booked exactly when a loaded booking covers it. */
  lemma {:induction false} CalendarShowsBookings(bookings: seq<Booking>, from: Time, to: Time, courtId: Option<int>,
                                                 members: seq<Member>, courts: seq<Court>, firstDay: nat, nDays: nat)
    ensures AllShowBookings(bookings, members, from, to, courtId, CalendarSlots(CalendarBookings(bookings, from, to, courtId), members, courts, firstDay, nDays))
    decreases |courts|
  {
    if courts != [] {
      var w := CalendarBookings(bookings, from, to, courtId);
      var n := |courts|;
      CalendarShowsBookings(bookings, from, to, courtId, members, courts[..n - 1], firstDay, nDays);
      CourtShowsBookings(bookings, from, to, courtId, members, courts[n - 1], firstDay, nDays);
      AllShowBookingsConcat(bookings, members, from, to, courtId, CalendarSlots(w, members, courts[..n - 1], firstDay, nDays),
                            CourtSlots(w, members, courts[n - 1], firstDay, nDays));
    }
  }

  /** With no double booking, at most one loaded booking covers a slot, so
      which one `FirstOrDefault` picks does not matter. */
  lemma CalendarBookingUnique(bookings: seq<Booking>, from: Time, to: Time, courtId: Option<int>,
                              court: int, t: int, x: Booking, y: Booking)
    requires NoDoubleBooking(bookings)
    requires x in CalendarBookings(bookings, from, to, courtId) && y in CalendarBookings(bookings, from, to, courtId)
    requires CoversSlot(x, court, t) && CoversSlot(y, court, t)
    ensures x == y
  {
    var i :| 0 <= i < |bookings| && bookings[i] == x;
    var j :| 0 <= j < |bookings| && bookings[j] == y;
    AtMostOneBookingPerMinute(bookings, i, j, t);
  }

  /** The inner loop of `GetCalendar`: one court's slots for one day, hour by hour. */
  method HourSlots(window: seq<Booking>, members: seq<Member>, court: Court, day: nat) returns (slots: seq<CalendarSlot>)
    ensures slots == DaySlots(window, members, court, day, SlotsPerDay)
  {
    slots := [];
    var hour := OpeningHour;
    while hour < ClosingHour
      invariant OpeningHour <= hour <= ClosingHour
      invariant slots == DaySlots(window, members, court, day, hour - OpeningHour)
    {
      var slot := Slot(window, members, court, SlotStart(day, hour));
      slots := slots + [slot];
      hour := hour + 1;
    }
  }

  /** The loops of `GetCalendar`: court after court, day after day, the
      slots of each hour. */
  method FillCalendar(window: seq<Booking>, members: seq<Member>, active: seq<Court>, firstDay: nat, nDays: nat)
    returns (slots: seq<CalendarSlot>)
    ensures slots == CalendarSlots(window, members, active, firstDay, nDays)
  {
    slots := [];
    var c := 0;
    while c < |active|
      invariant 0 <= c <= |active|
      invariant slots == CalendarSlots(window, members, active[..c], firstDay, nDays)
    {
      var court := active[c];
      var courtSlots := [];
      var d := 0;
      while d < nDays
        invariant d <= nDays
        invariant courtSlots == CourtSlots(window, members, court, firstDay, d)
      {
        var daySlots := HourSlots(window, members, court, firstDay + d);
        courtSlots := courtSlots + daySlots;
        d := d + 1;
      }
      slots := slots + courtSlots;
      assert active[..c + 1][..c] == active[..c];
      c := c + 1;
    }
    assert active[..c] == active;
  }

  /** `GetCalendar`: for each active court, each day from `from.Date` to
      `to.Date` and each hour 06:00 .. 21:00, one slot. */
  method GetCalendar(bookings: seq<Booking>, courts: seq<Court>, members: seq<Member>,
                     from: Time, to: Time, courtId: Option<int>) returns (slots: seq<CalendarSlot>)
    ensures slots == CalendarSlots(CalendarBookings(bookings, from, to, courtId), members,
                                   ActiveCourts(courts), from / MinutesPerDay, DayCount(from, to))
    ensures |slots| == |ActiveCourts(courts)| * (DayCount(from, to) * SlotsPerDay)
    ensures AllShowBookings(bookings, members, from, to, courtId, slots)
  {
    var window := CalendarBookings(bookings, from, to, courtId);
    var active := ActiveCourts(courts);
    var firstDay := from / MinutesPerDay;
    var nDays := DayCount(from, to);
    slots := FillCalendar(window, members, active, firstDay, nDays);
    CalendarSlotsLength(window, members, active, firstDay, nDays);
    CalendarShowsBookings(bookings, from, to, courtId, members, active, firstDay, nDays);
  }

  // ---------------------------------------------------------------------
  // GetMyBookings

  predicate InMyRange(b: Booking, memberId: int, from: Option<Time>, to: Option<Time>)
  {
    b.memberId == memberId &&
    (from.None? || b.startTime >= from.value) &&
    (to.None? || b.endTime <= to.value)
  }

  /** The caller's bookings, optionally bounded by from/to, latest start first. */
  function MyBookings(bookings: seq<Booking>, memberId: int, from: Option<Time>, to: Option<Time>): (r: seq<Booking>)
    ensures forall b :: b in r <==> b in bookings && InMyRange(b, memberId, from, to)
    ensures forall i, j :: 0 <= i < j < |r| ==> r[i].startTime >= r[j].startTime
    ensures multiset(r) == multiset(Filter(bookings, b => InMyRange(b, memberId, from, to)))
  {
    SortByDescending(Filter(bookings, b => InMyRange(b, memberId, from, to)), (b: Booking) => b.startTime)
  }
}
