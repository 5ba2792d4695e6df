/** The club's records and enumerations (PCM.Core/Entities and PCM.Core/Enums).

    Modelling conventions used throughout:
    - a point in time is a whole number of minutes since an epoch (`Time`);
      "now" is always passed in by the caller;
    - money is `real`, exact like C# `decimal`;
    - every table is a sequence whose row at position i carries id i + 1
      (identity columns; the core never deletes a row);
    - free text that the source builds with string interpolation is kept as
      a small datatype recording what was interpolated. */
module Entities {

  datatype Option<T> = None | Some(value: T)

  /** `!string.IsNullOrEmpty(s)`: an optional text that is present and non-empty. */
  predicate Given(s: Option<string>)
  {
    s.Some? && s.value != ""
  }

  type Time = nat

  const MinutesPerHour: nat := 60
  const MinutesPerDay: nat := 24 * 60

  /** Membership tiers, ordered Standard < Silver < Gold < Diamond. */
  datatype Tier = Standard | Silver | Gold | Diamond

  /** The numeric value of the enum member, which is also its order. */
  function TierRank(t: Tier): (r: nat)
    ensures r <= 3
  {
    match t
    case Standard => 0
    case Silver => 1
    case Gold => 2
    case Diamond => 3
  }

  datatype TransactionType = Deposit | Withdraw | Payment | Refund | Reward

  datatype TransactionStatus = Pending | Completed | Rejected | Failed

  datatype BookingStatus = PendingPayment | Confirmed | Cancelled | Completed | Hold

  datatype TournamentFormat = RoundRobin | Knockout | Hybrid

  datatype TournamentStatus = Open | Registering | DrawCompleted | Ongoing | Finished

  datatype NotificationType = Info | Success | Warning

  /** What a transaction's description text is built from. */
  datatype Description =
    | CourtBookingText(courtName: string, start: Time, end: Time)
    | EntryFeeText(tournamentName: string)
    | DepositRequestText(amount: real)
    | RefundText(percent: real, totalPrice: real)

  /** What a notification's message text is built from. */
  datatype Message =
    | DepositApprovedText(amount: real, newBalance: real)
    | DepositRejectedText(amount: real)

  /** A club member. `rankLevel` stands for the DUPR rating and is used
      only as an ordering key. */
  datatype Member = Member(
    id: int,
    fullName: string,
    rankLevel: int,
    isActive: bool,
    walletBalance: real,
    tier: Tier,
    totalSpent: real,
    avatarUrl: Option<string>,
    phone: Option<string>,
    email: Option<string>)

  datatype Court = Court(id: int, name: string, isActive: bool, pricePerHour: real)

  /** A reservation of `[startTime, endTime)` on one court. */
  datatype Booking = Booking(
    id: int,
    courtId: int,
    memberId: int,
    startTime: Time,
    endTime: Time,
    totalPrice: real,
    transactionId: Option<int>,
    status: BookingStatus,
    createdDate: Time)

  /** A ledger entry; a positive amount credits the wallet, a negative one debits it.
      `relatedId` holds the id that the source writes as a string. */
  datatype WalletTransaction = WalletTransaction(
    id: int,
    memberId: int,
    amount: real,
    kind: TransactionType,
    status: TransactionStatus,
    relatedId: Option<int>,
    description: Description,
    proofImageUrl: Option<string>,
    createdDate: Time,
    processedDate: Option<Time>,
    processedBy: Option<string>)

  datatype Tournament = Tournament(
    id: int,
    name: string,
    startDate: Time,
    endDate: Time,
    format: TournamentFormat,
    entryFee: real,
    prizePool: real,
    status: TournamentStatus,
    description: Option<string>,
    maxParticipants: int,
    createdDate: Time)

  datatype Participant = Participant(
    id: int,
    tournamentId: int,
    memberId: int,
    teamName: Option<string>,
    paymentCompleted: bool,
    registeredDate: Time)

  datatype Notification = Notification(
    id: int,
    memberId: int,
    message: Message,
    kind: NotificationType,
    isRead: bool,
    createdDate: Time)

  datatype News = News(id: int, title: string, content: string, isPinned: bool, createdDate: Time)

  /** How an endpoint ends: success, or the guard that refused it. */
  datatype Outcome =
    | Ok
    | NotFound
    | InvalidState
    | Conflict
    | Insufficient
    | AlreadyProcessed
    | Closed
    | Full
    | AlreadyRegistered
    | InvalidFormat
    | StorageFailure
}
