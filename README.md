# Club ledger and booking state machine of the PCM pickleball club backend

This project models the core of the PCM club-management backend in Dafny. The
core is the court booking engine, the wallet ledger, tournament registration,
and the member, notification and news endpoints around them (the ASP.NET
controllers `BookingsController`, `WalletController`/`AdminWalletController`,
`TournamentsController`, `MembersController`, `NotificationsController` and
`NewsController`).

The database is a set of tables held as sequences. Row `i` of a table has
identity `i + 1`, because rows are never deleted in this core. The files are:

- `entities.dfy` (module `Entities`): the entity records (`Member`, `Court`,
  `Booking`, `WalletTransaction`, `Tournament`, `Participant`, `Notification`,
  `News`), the enums of `Enums.cs`, and `Outcome`, the error taxonomy of the
  endpoints.
  - Time is whole minutes since an epoch.
  - Money is `real`, computed exactly. The two-decimal storage of the money
    columns is left out (see below).
  - A description or message records the values the source interpolates into
    its text.
- `queries.dfy` (module `Queries`): the LINQ operators the endpoints use.
  - `Where` is `Filter`.
  - `OrderBy` and `OrderByDescending` are `SortBy` and `SortByDescending`, a
    stable insertion sort.
  - `Skip`, `Take` and the `(page - 1) * pageSize` paging are `Skip`, `Take`,
    `Window` and `Page`.
- `ledger.dfy` (module `Ledger`): the ledger invariant.
  - The wallet balance is meant to be a cache of the ledger: the balance
    equals the sum of the member's Completed transactions.
  - A member's *drift* is the balance minus that sum. Seeded members start
    with a balance and no transactions, so the drift does not start at zero.
    The model proves instead that no endpoint changes any member's drift,
    with the one exception below.
- `bookings.dfy` (module `Bookings`): conflict detection, price, the refund
  policy, the calendar (`GetCalendar`, a nested loop, modelled as methods
  proved against a specification function), and `GetMyBookings`.
- `wallet.dfy` (module `Wallet`): balance lookup, the tier thresholds,
  pending deposits and the paged transaction history.
- `tournaments.dfy` (module `Tournaments`): enum parsing as `Enum.TryParse`
  does it on exact names, participant counts, the tournament list, detail and
  participants.
- `members.dfy` (module `Members`): the member directory, profiles,
  notifications, the unread count, the news feed and the dashboard.
- `club.dfy` (module `Club`): class `Club`, whose fields are the tables.
  - Every endpoint that writes to the database is a method of `Club`. It
    either succeeds, or reports the first guard that failed and changes
    nothing.
  - `Valid()` is preserved by every method. It collects:
    - identity numbering;
    - the foreign keys;
    - no two Confirmed/Hold bookings overlapping on a court;
    - the unique index on (tournament, member) registrations.

The model follows the code, including these behaviours, where the code
departs from that invariant or from what its own comments and names suggest:

- `Deposit` does not check the sign of the amount, and does not check that
  the member exists. An unknown member makes the insert fail on its foreign
  key; that case is modelled as `StorageFailure` with no change.
- `CancelBooking` sends no notification.
- `CreateBooking` checks neither that the court is active nor that the end
  comes after the start. A booking whose end precedes its start has a
  negative price, which passes the balance check and credits the wallet
  (`Bookings.NegativeDurationCredits`).
- Cancelling such a booking more than an hour ahead "refunds" a negative
  amount. That amount is taken from the balance with no ledger entry, so
  the caller's drift moves by the refund (`Club.Club.CancelBooking`,
  `Bookings.NegativePriceRefundIsDebit`, `Ledger.UnrecordedCreditShiftsDrift`).
  Every other path keeps every member's drift unchanged.
- `GetCalendar` lists the slots of every active court even when a `courtId`
  is given; the court filter applies only to which bookings mark a slot as
  booked.
- `ApproveDeposit` does not check that the entry is a Deposit; any Pending
  entry is credited.
- The `tier` parameter of `GetMembers` is accepted and ignored
  (`Members.TierIgnored`).

## Model

| member | source | states |
|---|---|---|
| Queries.Filter | backend/PCM.API/Controllers/MembersController.cs:32-35 | `Where`: exactly the elements passing the test, in their order, no more than there were |
| Queries.SortBy | backend/PCM.API/Controllers/WalletController.cs:109 | `OrderBy`: a permutation of the input, ascending by key |
| Queries.SortByDescending | backend/PCM.API/Controllers/MembersController.cs:38 | `OrderByDescending`: a permutation of the input, descending by key |
| Queries.Skip | backend/PCM.API/Controllers/MembersController.cs:39 | `Skip(n)`: the items after the first n, all of them for n at most 0 |
| Queries.Take | backend/PCM.API/Controllers/MembersController.cs:40 | `Take(n)`: the first n items, or all when there are fewer, none for n at most 0 |
| Queries.PageOf | backend/PCM.API/Controllers/MembersController.cs:39-40 | page `page` is the run beginning at `(page - 1) * pageSize`, as long as what remains up to pageSize |
| Queries.Page | backend/PCM.API/Controllers/MembersController.cs:39-40 | `Skip((page - 1) * pageSize).Take(pageSize)` is that page, and holds at most pageSize items of the list |
| Queries.PagesAdjacent | backend/PCM.API/Controllers/MembersController.cs:39-40 | two consecutive pages are adjacent runs of the list: nothing is skipped or repeated |
| Bookings.OverlapsIffShareMinute | backend/PCM.API/Controllers/BookingsController.cs:113 | for proper intervals, the conflict test holds exactly when the two bookings share a minute, and it is symmetric |
| Bookings.Overlaps | backend/PCM.API/Controllers/BookingsController.cs:113 | the conflict query's test: the existing booking starts before the requested end and ends after the requested start |
| Bookings.Blocks | backend/PCM.API/Controllers/BookingsController.cs:112 | Confirmed and Hold bookings occupy their court; other statuses do not |
| Bookings.ConflictsWith | backend/PCM.API/Controllers/BookingsController.cs:111-113 | a booking of the same court that occupies it and overlaps the requested interval |
| Bookings.HasConflict | backend/PCM.API/Controllers/BookingsController.cs:110-114 | `AnyAsync` of the conflict query: some booking of the table conflicts |
| Bookings.NoDoubleBooking | backend/PCM.API/Controllers/BookingsController.cs:110-117 | the invariant the conflict check keeps: no two occupying bookings of one court overlap |
| Bookings.BackToBackDoNotOverlap | backend/PCM.API/Controllers/BookingsController.cs:113 | a booking ending exactly when another starts is not a conflict, in either order |
| Bookings.NoDoubleBookingAppend | backend/PCM.API/Controllers/BookingsController.cs:110-117 | adding a booking that passed the conflict check keeps Confirmed/Hold bookings of a court pairwise non-overlapping |
| Bookings.NoDoubleBookingRelease | backend/PCM.API/Controllers/BookingsController.cs:247 | a booking changed to a non-blocking status (Cancelled) keeps the table free of double bookings |
| Bookings.AtMostOneBookingPerMinute | backend/PCM.API/Controllers/BookingsController.cs:110-117 | in a table without double bookings, two blocking bookings of one court covering the same minute are the same booking |
| Bookings.Price | backend/PCM.API/Controllers/BookingsController.cs:120-121 | the price is non-negative for a forward interval at a non-negative rate, and negative when the end precedes the start |
| Bookings.PriceOfOneHour | backend/PCM.API/Controllers/BookingsController.cs:120-121 | one hour costs exactly the court's hourly price |
| Bookings.PriceSplits | backend/PCM.API/Controllers/BookingsController.cs:120-121 | the price is additive over adjacent intervals |
| Bookings.NegativeDurationCredits | backend/PCM.API/Controllers/BookingsController.cs:120-144 | an end before the start passes the balance check and raises the balance when charged |
| Bookings.RefundPercent | backend/PCM.API/Controllers/BookingsController.cs:237-243 | 100% exactly when more than 24 hours remain, 50% exactly when more than 1 and at most 24, 0% exactly when at most 1 hour |
| Bookings.RefundPercentMonotone | backend/PCM.API/Controllers/BookingsController.cs:237-243 | cancelling later never yields a larger refund fraction |
| Bookings.RefundBoundaries | backend/PCM.API/Controllers/BookingsController.cs:237-243 | exactly 24 hours ahead gives 50%, 25 hours gives 100%, exactly 1 hour and 30 minutes give 0% |
| Bookings.RefundWithinPrice | backend/PCM.API/Controllers/BookingsController.cs:245 | for a non-negative price the refund lies between zero and the price |
| Bookings.RefundAmount | backend/PCM.API/Controllers/BookingsController.cs:245 | the refund is the booking price times the refund fraction |
| Bookings.NegativePriceRefundIsDebit | backend/PCM.API/Controllers/BookingsController.cs:245-248 | a negative-price booking cancelled more than an hour ahead yields a negative refund |
| Bookings.FirstCovering | backend/PCM.API/Controllers/BookingsController.cs:77-80 | finds a booking exactly when one in the window covers the slot's start on that court, and returns the first such |
| Bookings.InCalendarWindow | backend/PCM.API/Controllers/BookingsController.cs:56-60 | a booking inside [from, to], Confirmed or Hold, and on the requested court when one is given |
| Bookings.CalendarBookings | backend/PCM.API/Controllers/BookingsController.cs:53-62 | the bookings the calendar query loads |
| Bookings.ActiveCourts | backend/PCM.API/Controllers/BookingsController.cs:63 | the active courts, in table order |
| Bookings.CoversSlot | backend/PCM.API/Controllers/BookingsController.cs:78-80 | a booking of the court that starts at or before the slot start and ends after it |
| Bookings.MemberName | backend/PCM.API/Controllers/BookingsController.cs:89 | the full name of the booking's member |
| Bookings.Slot | backend/PCM.API/Controllers/BookingsController.cs:74-91 | one calendar slot, built from the first covering booking |
| Bookings.SlotStart | backend/PCM.API/Controllers/BookingsController.cs:74 | the start of an hour of a day |
| Bookings.DayCount | backend/PCM.API/Controllers/BookingsController.cs:70 | the number of calendar days from the day of `from` to the day of `to`, both included |
| Bookings.DaySlots | backend/PCM.API/Controllers/BookingsController.cs:72-92 | the slots of one court on one day, hour by hour |
| Bookings.CourtSlots | backend/PCM.API/Controllers/BookingsController.cs:70-93 | the slots of one court, day by day |
| Bookings.CalendarSlots | backend/PCM.API/Controllers/BookingsController.cs:68-94 | the slots of all courts, court by court |
| Bookings.ShowsBookings | backend/PCM.API/Controllers/BookingsController.cs:77-91 | a slot is booked iff a loaded booking covers it; a booked slot carries such a booking's id, its member's name and whether it is a Hold, and a free slot carries none of these |
| Bookings.AllShowBookings | backend/PCM.API/Controllers/BookingsController.cs:77-91 | every slot of a list shows the bookings correctly |
| Bookings.SlotMeaning | backend/PCM.API/Controllers/BookingsController.cs:74-91 | a slot is one hour of its court; it is booked iff a window booking covers it, and then carries that booking's id and its member's name, and is Hold iff that booking is Hold |
| Bookings.DaySlotsAt | backend/PCM.API/Controllers/BookingsController.cs:72-92 | the h-th slot of a day is the slot starting at hour 6 + h |
| Bookings.CourtSlotsLength | backend/PCM.API/Controllers/BookingsController.cs:70-93 | a court contributes 16 slots per calendar day |
| Bookings.CourtSlotsAt | backend/PCM.API/Controllers/BookingsController.cs:70-93 | the slot at position d * 16 + h of a court is hour 6 + h of day d |
| Bookings.CalendarSlotsLength | backend/PCM.API/Controllers/BookingsController.cs:68-94 | the calendar has courts × days × 16 slots |
| Bookings.CalendarSlotsAt | backend/PCM.API/Controllers/BookingsController.cs:68-94 | slots are ordered by court, then day, then hour |
| Bookings.SlotBookedIff | backend/PCM.API/Controllers/BookingsController.cs:53-91 | a slot is booked iff some Confirmed or Hold booking inside [from, to] (and on the requested court, when given) covers it; a booked slot carries such a booking's id, its member's name and its Hold status |
| Bookings.DayShowsBookings | backend/PCM.API/Controllers/BookingsController.cs:72-92 | every slot of a day shows the bookings correctly |
| Bookings.CourtShowsBookings | backend/PCM.API/Controllers/BookingsController.cs:70-93 | every slot of a court shows the bookings correctly |
| Bookings.CalendarShowsBookings | backend/PCM.API/Controllers/BookingsController.cs:68-94 | every slot of the calendar shows the bookings correctly |
| Bookings.CalendarBookingUnique | backend/PCM.API/Controllers/BookingsController.cs:77-80 | without double bookings, at most one listed booking covers a slot, so taking the first loses nothing |
| Bookings.HourSlots | backend/PCM.API/Controllers/BookingsController.cs:72-92 | the hour loop builds the day's 16 slots |
| Bookings.FillCalendar | backend/PCM.API/Controllers/BookingsController.cs:68-94 | the court and day loops build the whole calendar |
| Bookings.GetCalendar | backend/PCM.API/Controllers/BookingsController.cs:51-97 | the result is the calendar of the active courts over the days from..to, of the stated length, and every slot shows the bookings correctly |
| Bookings.MyBookings | backend/PCM.API/Controllers/BookingsController.cs:190-220 | exactly the caller's bookings within the optional range, latest start first, each kept once |
| Bookings.InMyRange | backend/PCM.API/Controllers/BookingsController.cs:197-200 | the caller's booking, starting no earlier than `from` and ending no later than `to` when these are given |
| Ledger.PostingKeepsDrift | backend/PCM.API/Controllers/BookingsController.cs:144-157 | crediting a balance by a Completed entry's amount while recording that entry leaves every member's drift unchanged |
| Ledger.Contribution | backend/PCM.Core/Entities/WalletTransaction.cs:12-14 | what one entry adds to its member's completed total: its signed amount when Completed, else nothing |
| Ledger.CompletedSum | backend/PCM.Core/Entities/WalletTransaction.cs:12-14 | the sum of a member's Completed amounts |
| Ledger.CompletedSumAppend | backend/PCM.Core/Entities/WalletTransaction.cs:12-14 | a new entry adds exactly its own contribution |
| Ledger.CompletedSumUpdate | backend/PCM.Core/Entities/WalletTransaction.cs:12-14 | replacing one entry swaps its contribution for the new one's |
| Ledger.Credit | backend/PCM.Core/Entities/Member.cs:17 | the members table with an amount added to one wallet |
| Ledger.Drift | backend/PCM.Core/Entities/Member.cs:16-19 | the balance minus the completed total |
| Ledger.OpenEntryKeepsDrift | backend/PCM.API/Controllers/WalletController.cs:40-51 | recording a Pending entry changes no drift |
| Ledger.SettlingKeepsDrift | backend/PCM.API/Controllers/WalletController.cs:143-148 | completing an open entry while crediting its amount changes no drift |
| Ledger.ReclassifyingKeepsDrift | backend/PCM.API/Controllers/WalletController.cs:193 | moving an open entry to another open status (Rejected) changes no drift |
| Ledger.UnrecordedCreditShiftsDrift | backend/PCM.API/Controllers/BookingsController.cs:248-262 | a balance change without a ledger entry shifts that member's drift by the amount and no one else's |
| Ledger.DriftReadsBalanceOnly | backend/PCM.API/Controllers/MembersController.cs:75-77 | changing member fields other than the balance changes no drift |
| Wallet.Balance | backend/PCM.API/Controllers/WalletController.cs:26-33 | NotFound exactly when no member has the id; otherwise that member's balance |
| Wallet.TierFor | backend/PCM.API/Controllers/WalletController.cs:152-158 | the tier's rank is the number of thresholds reached; Diamond iff ≥ 50,000,000; Standard iff < 5,000,000 |
| Wallet.ThresholdsReached | backend/PCM.API/Controllers/WalletController.cs:152-158 | how many of the three inclusive thresholds a total reaches |
| Wallet.TierMonotone | backend/PCM.API/Controllers/WalletController.cs:152-158 | a larger total spent never gives a lower tier |
| Wallet.TierBoundaries | backend/PCM.API/Controllers/WalletController.cs:152-158 | the thresholds are inclusive lower bounds: 5,000,000 is Silver, 19,999,999 Silver, 20,000,000 Gold, 50,000,000 Diamond |
| Wallet.PendingDeposits | backend/PCM.API/Controllers/WalletController.cs:104-122 | exactly the Pending Deposit entries, oldest first, each kept once |
| Wallet.IsPendingDeposit | backend/PCM.API/Controllers/WalletController.cs:108 | a Deposit entry still Pending |
| Wallet.MemberHistory | backend/PCM.API/Controllers/WalletController.cs:72-74 | exactly the member's entries, newest first, each kept once |
| Wallet.MemberTransactions | backend/PCM.API/Controllers/WalletController.cs:67-89 | a page holds at most pageSize of the member's own entries, newest first |
| Wallet.FirstPageHoldsAll | backend/PCM.API/Controllers/WalletController.cs:72-76 | when the page is large enough, page 1 is the member's whole history |
| Tournaments.ParseStatus | backend/PCM.API/Controllers/TournamentsController.cs:34 | parses exactly the status names, to the status of that name |
| Tournaments.StatusName | backend/PCM.API/Controllers/TournamentsController.cs:47 | `Status.ToString()`: the name of each status |
| Tournaments.FormatName | backend/PCM.API/Controllers/TournamentsController.cs:44 | `Format.ToString()`: the name of each format |
| Tournaments.StatusRoundTrip | backend/PCM.API/Controllers/TournamentsController.cs:34 | every status's name parses back to it |
| Tournaments.ParseFormat | backend/PCM.API/Controllers/TournamentsController.cs:185 | parses exactly the format names, to the format of that name |
| Tournaments.FormatRoundTrip | backend/PCM.API/Controllers/TournamentsController.cs:185-186 | every format's name parses back to it |
| Tournaments.ParticipantCount | backend/PCM.API/Controllers/TournamentsController.cs:49 | the count is zero iff no participant row names the tournament |
| Tournaments.ParticipantCountAppend | backend/PCM.API/Controllers/TournamentsController.cs:136-143 | a new registration raises only its own tournament's count, by one |
| Tournaments.ParticipantCountsAfterJoin | backend/PCM.API/Controllers/TournamentsController.cs:136-143 | the same, for all tournaments at once |
| Tournaments.MapSummaries | backend/PCM.API/Controllers/TournamentsController.cs:39-52 | one summary per tournament, in order, each with its participant count |
| Tournaments.Accepting | backend/PCM.API/Controllers/TournamentsController.cs:105 | Open or Registering, the statuses that take registrations |
| Tournaments.StatusFilter | backend/PCM.API/Controllers/TournamentsController.cs:34 | the filter applies only when the status is present, non-empty and parses |
| Tournaments.Listed | backend/PCM.API/Controllers/TournamentsController.cs:35 | a tournament passes a present filter iff it has that status |
| Tournaments.Summarize | backend/PCM.API/Controllers/TournamentsController.cs:39-52 | a tournament with its participant count |
| Tournaments.ListedByStart | backend/PCM.API/Controllers/TournamentsController.cs:32-38 | exactly the tournaments passing the status filter, latest start first, as many as pass |
| Tournaments.ListTournaments | backend/PCM.API/Controllers/TournamentsController.cs:30-56 | every listed tournament exists and passes the filter, every passing one is listed, counts are correct, latest start first |
| Tournaments.SummariesCover | backend/PCM.API/Controllers/TournamentsController.cs:37-53 | summarising a filtered, sorted list keeps membership, counts and order |
| Tournaments.UnknownStatusListsAll | backend/PCM.API/Controllers/TournamentsController.cs:32-35 | a missing, empty or unparsable status filter lists every tournament |
| Tournaments.FindTournament | backend/PCM.API/Controllers/TournamentsController.cs:58-75 | NotFound iff no tournament has the id; otherwise that tournament with its participant count |
| Tournaments.TournamentParticipants | backend/PCM.API/Controllers/TournamentsController.cs:77-90 | exactly the registrations of the tournament, as many as its count |
| Members.ContainsIff | backend/PCM.API/Controllers/MembersController.cs:35 | the substring test holds iff the pattern occurs at some position of the text |
| Members.ContainsEmpty | backend/PCM.API/Controllers/MembersController.cs:35 | every text contains the empty pattern |
| Members.ListMembers | backend/PCM.API/Controllers/MembersController.cs:26-49 | a page of at most pageSize active members, all matching a non-empty search by name or phone, highest rank first |
| Members.Contains | backend/PCM.API/Controllers/MembersController.cs:35 | ordinal `string.Contains`: the pattern is a prefix of the text or of a suffix of it |
| Members.MatchesSearch | backend/PCM.API/Controllers/MembersController.cs:35 | the search occurs in the full name or in the phone when there is one |
| Members.InDirectory | backend/PCM.API/Controllers/MembersController.cs:32-35 | an active member, matching the search when it is present and non-empty |
| Members.Directory | backend/PCM.API/Controllers/MembersController.cs:32-38 | exactly the members in the directory, highest rank first, each kept once |
| Members.TierIgnored | backend/PCM.API/Controllers/MembersController.cs:28-40 | the tier argument does not affect the result |
| Members.FirstPageListsAllActive | backend/PCM.API/Controllers/MembersController.cs:32-40 | without a search and with a large enough page, page 1 lists every active member |
| Members.FindMember | backend/PCM.API/Controllers/MembersController.cs:53-66 | NotFound iff no member has the id; otherwise that member |
| Members.UnreadCount | backend/PCM.API/Controllers/MembersController.cs:176-184 | the count is zero iff the member has no unread notification |
| Members.UnreadOf | backend/PCM.API/Controllers/MembersController.cs:180 | a notification of the member not yet read |
| Members.UnreadCountUpdate | backend/PCM.API/Controllers/MembersController.cs:196 | replacing one notification changes the count by what that row contributed before and after |
| Members.UnreadCountsAfterRead | backend/PCM.API/Controllers/MembersController.cs:187-200 | marking one notification read lowers only its owner's count, by one if it was unread |
| Members.UnreadCountAppend | backend/PCM.API/Controllers/WalletController.cs:161-167 | a new notification raises only its recipient's count, by one when unread |
| Members.UnreadCountFrame | backend/PCM.API/Controllers/MembersController.cs:206-208 | rows whose unread status for a member is unchanged leave that member's count unchanged |
| Members.MemberNotifications | backend/PCM.API/Controllers/MembersController.cs:157-173 | a page of at most pageSize of the caller's own notifications, newest first |
| Members.NotificationHistory | backend/PCM.API/Controllers/MembersController.cs:162-164 | exactly the member's notifications, newest first, each kept once |
| Members.NewsOrder | backend/PCM.API/Controllers/MembersController.cs:228-230 | a permutation of the news with pinned items first, then newest first |
| Members.NewsBefore | backend/PCM.API/Controllers/MembersController.cs:229-230 | pinned before unpinned, and newer before older within a group |
| Members.NewsFeed | backend/PCM.API/Controllers/MembersController.cs:225-239 | a page of at most pageSize news items in that order |
| Members.FindNews | backend/PCM.API/Controllers/MembersController.cs:241-250 | NotFound iff no item has the id; otherwise that item |
| Members.Upcoming | backend/PCM.API/Controllers/MembersController.cs:98-104 | `Take(5)` of the member's future bookings: min(5, their number) of them, each no more often than it occurs, earliest first; an omitted one means 5 were shown, none starting later than it |
| Members.UpcomingOf | backend/PCM.API/Controllers/MembersController.cs:101 | exactly the member's bookings that start after now |
| Members.UpcomingFor | backend/PCM.API/Controllers/MembersController.cs:101 | the member's booking starting after now |
| Members.IsActiveTournament | backend/PCM.API/Controllers/MembersController.cs:119 | an Open or Ongoing tournament |
| Members.GetDashboard | backend/PCM.API/Controllers/MembersController.cs:90-140 | NotFound iff the member is missing; otherwise their balance, their upcoming bookings with count min(5, number upcoming), unread count, and the number of Open or Ongoing tournaments |
| Club.RegistrationKeepsUnique | backend/PCM.Infrastructure/Data/PcmDbContext.cs:106 | a registration that passed the duplicate check keeps (tournament, member) unique |
| Club.BookingRefs | backend/PCM.Infrastructure/Data/PcmDbContext.cs:68-83 | a booking's court and member exist, as the foreign keys declare; its payment id is a ledger entry, because `CreateBooking` stores the id of the entry it has just inserted (BookingsController.cs line 161) |
| Club.ParticipantRefs | backend/PCM.Infrastructure/Data/PcmDbContext.cs:98-105 | a registration's tournament and member exist |
| Club.IsRegistered | backend/PCM.API/Controllers/TournamentsController.cs:111 | the member already has a registration in the tournament |
| Club.UniqueRegistrations | backend/PCM.Infrastructure/Data/PcmDbContext.cs:106 | no two registrations share tournament and member |
| Club.JoinKnown | backend/PCM.API/Controllers/TournamentsController.cs:102-103 | both the member and the tournament exist |
| Club.MarkedRead | backend/PCM.API/Controllers/MembersController.cs:206-208 | the caller's notifications become read, others stay as they were |
| Club.Club.Valid | backend/PCM.Infrastructure/Data/PcmDbContext.cs:40-107 | identity columns, foreign keys, no double booking and unique registrations |
| Club.Club.constructor | backend/PCM.API/Extensions/DataSeeder.cs:25-173 | a seeded club of members with opening balances, courts, tournaments and news, with no bookings, ledger entries, registrations or notifications, satisfies Valid |
| Club.Club.LedgerKept | backend/PCM.Core/Entities/Member.cs:16-19 | every member's drift is what it was |
| Club.JoinVerdict | backend/PCM.API/Controllers/TournamentsController.cs:102-115 | Ok only when member and tournament exist, the tournament is Open or Registering, not full, the member is not registered, and the balance covers the fee |
| Club.Club.CreateBooking | backend/PCM.API/Controllers/BookingsController.cs:99-187 | each error iff its guard is the first to fail, with no change; on success one Confirmed booking linked to one Completed payment of its price, that price charged, balance not negative, no double booking, drift kept |
| Club.Club.Reserve | backend/PCM.API/Controllers/BookingsController.cs:127-164 | the booking, its payment and the charge, keeping the table free of double bookings and the ledger in step |
| Club.Club.CancelBooking | backend/PCM.API/Controllers/BookingsController.cs:222-267 | NotFound iff not the caller's booking, InvalidState iff not Confirmed; on success Cancelled, refund by the policy credited, a Refund entry iff positive; drift kept except a negative refund |
| Club.Club.Release | backend/PCM.API/Controllers/BookingsController.cs:247 | the booking becomes Cancelled and nothing else changes |
| Club.Club.PayRefund | backend/PCM.API/Controllers/BookingsController.cs:248-262 | the refund credited, a Completed Refund entry iff it is positive, drift shifted only by an unrecorded negative refund |
| Club.Club.Deposit | backend/PCM.API/Controllers/WalletController.cs:35-65 | a Pending Deposit for the amount as given, no balance change; an unknown member fails with no change |
| Club.Club.ApproveDeposit | backend/PCM.API/Controllers/WalletController.cs:124-179 | NotFound, AlreadyProcessed iff not Pending; on success Completed, balance and total spent raised by the amount, tier recomputed, Success notification, drift kept |
| Club.Club.Settle | backend/PCM.API/Controllers/WalletController.cs:142-170 | the settlement of a Pending entry, keeping the ledger in step |
| Club.Club.ApproveTwice | backend/PCM.API/Controllers/WalletController.cs:139-140 | a second approval of the same entry never succeeds, so an entry is credited at most once |
| Club.Club.RejectDeposit | backend/PCM.API/Controllers/WalletController.cs:181-209 | NotFound, AlreadyProcessed iff not Pending; on success Rejected, Warning notification, no balance change |
| Club.Club.JoinTournament | backend/PCM.API/Controllers/TournamentsController.cs:92-155 | the outcome is the first failing guard; on success the fee charged and recorded, the member registered as paid, the count raised by one and within capacity, other counts unchanged |
| Club.Club.Enrol | backend/PCM.API/Controllers/TournamentsController.cs:117-146 | the fee, its ledger entry and the registration, keeping registrations unique and the ledger in step |
| Club.Club.CreateTournament | backend/PCM.API/Controllers/TournamentsController.cs:181-212 | InvalidFormat iff the format does not parse; otherwise a new Open tournament reported with no participants |
| Club.Club.MarkAsRead | backend/PCM.API/Controllers/MembersController.cs:186-200 | NotFound iff not the caller's notification; otherwise only it becomes read and only the caller's unread count drops |
| Club.Club.MarkAllAsRead | backend/PCM.API/Controllers/MembersController.cs:202-211 | every notification of the caller becomes read, the caller's unread count is zero, others' rows and counts are unchanged |
| Club.Club.UpdateProfile | backend/PCM.API/Controllers/MembersController.cs:68-88 | NotFound for an unknown member; otherwise name, phone and avatar replaced when given non-empty, balance, total spent and tier untouched |

## Left out

- Concurrency: every endpoint is one atomic step. The check-then-insert race
  between two concurrent bookings of the same slot is not modelled.
- Database transactions and rollback: a failing path changes nothing. The
  storage exceptions caught by the `catch` blocks are not modelled, except
  the foreign-key failure of `Deposit`.
- The 5-minute expiry of Hold bookings and recurring bookings: no code in
  the core creates or expires them. Hold bookings are treated as occupying
  their slot.
- Matches: `GetMatches` and the dashboard's recent matches. They are read-only
  data outside the ledger; the dashboard model omits the match list.
- Text: the formatted texts of descriptions and notifications are recorded as
  the values they interpolate, not as strings.
- Bookings.Price: computes with exact rationals from whole minutes. It does
  not model the `double` of `TotalHours` converted to `decimal`, or
  sub-minute times.
- Tournaments.ParseStatus: accepts only exact names. `Enum.TryParse` without
  its ignore-case argument is case-sensitive. It also accepts numeric values,
  surrounding whitespace and comma-separated lists of names; those forms are
  not modelled.
- Tournaments.ParseFormat: accepts only exact names, for the same reason.
- Members.Contains, Members.ContainsIff: state an ordinal substring test. The
  SQL Server collation makes `Contains` case-insensitive, which is not
  modelled. The search of Members.MatchesSearch, Members.InDirectory,
  Members.Directory and Members.ListMembers inherits this gap.
- Queries.Skip: a negative offset is clamped to zero as LINQ to Objects
  does. SQL Server rejects a negative OFFSET.
- Queries.Take: a count of zero or less gives an empty list, as LINQ to
  Objects does. The paged queries run on SQL Server, where
  `FETCH NEXT n ROWS ONLY` requires n of at least 1. There a `pageSize` of
  0 or less makes Wallet.MemberTransactions, Members.ListMembers,
  Members.MemberNotifications and Members.NewsFeed fail, while the model
  returns an empty page. That failure is not modelled.
- Queries.Page: `(page - 1) * pageSize` is unbounded; the 32-bit overflow of
  the source is not modelled.
- Wallet.MemberTransactions, Members.ListMembers, Members.MemberNotifications,
  Members.NewsFeed: take `page` and `pageSize` as required arguments. The
  defaults that apply when the query string omits them are not modelled:
  `page = 1, pageSize = 20`, and `pageSize = 10` for GetNews
  (MembersController.cs lines 29-30, 158 and 226; WalletController.cs line 68).
- Bookings.Price, Club.Club.CancelBooking: compute money exactly. Every money
  column is stored as `decimal(18,2)` (PcmDbContext.cs lines 44-91), so saved
  prices, amounts and balances keep two decimals. For example, a 50% refund
  of a 100.01 booking is not stored as 50.005. That rounding on save is not
  modelled.
- The order among rows with equal sort keys: the model's sorts are stable.
  SQL does not specify that order.
- The clock and identity: `DateTime.UtcNow` is a `now` parameter. The
  caller's member id and approver id (from the JWT claims) are parameters.
- Authorization attributes, DTO mapping and HTTP status codes: only the
  outcome is modelled.
- Courts listing (`CourtsController`), authentication and the real-time hub
  are not part of this model.
