/** The club's tables and the endpoints that change them: each endpoint of
    BookingsController, WalletController, TournamentsController and
    NotificationsController/MembersController that writes to the database is
    one atomic transition of `Club.Club`, which either succeeds or reports the
    first guard that failed and changes nothing. */
module Club {
  import opened Entities
  import opened Queries
  import opened Ledger
  import opened Bookings
  import opened Wallet
  import opened Tournaments
  import opened Members

  // ---------------------------------------------------------------------
  // Table shapes: identity columns and foreign keys

  predicate MembersNumbered(s: seq<Member>) { forall i :: 0 <= i < |s| ==> s[i].id == i + 1 }
  predicate CourtsNumbered(s: seq<Court>) { forall i :: 0 <= i < |s| ==> s[i].id == i + 1 }
  predicate BookingsNumbered(s: seq<Booking>) { forall i :: 0 <= i < |s| ==> s[i].id == i + 1 }
  predicate TransactionsNumbered(s: seq<WalletTransaction>) { forall i :: 0 <= i < |s| ==> s[i].id == i + 1 }
  predicate TournamentsNumbered(s: seq<Tournament>) { forall i :: 0 <= i < |s| ==> s[i].id == i + 1 }
  predicate ParticipantsNumbered(s: seq<Participant>) { forall i :: 0 <= i < |s| ==> s[i].id == i + 1 }
  predicate NotificationsNumbered(s: seq<Notification>) { forall i :: 0 <= i < |s| ==> s[i].id == i + 1 }
  predicate NewsNumbered(s: seq<News>) { forall i :: 0 <= i < |s| ==> s[i].id == i + 1 }

  /** A booking's member, court and payment exist. */
  predicate BookingRefs(b: Booking, memberCount: int, courtCount: int, txnCount: int)
  {
    1 <= b.memberId <= memberCount && 1 <= b.courtId <= courtCount &&
    (b.transactionId.Some? ==> 1 <= b.transactionId.value <= txnCount)
  }

  predicate ParticipantRefs(p: Participant, tournamentCount: int, memberCount: int)
  {
    1 <= p.tournamentId <= tournamentCount && 1 <= p.memberId <= memberCount
  }

  /** `tournament.Participants.Any(p => p.MemberId == memberId)`. */
  predicate IsRegistered(participants: seq<Participant>, tournamentId: int, memberId: int)
  {
    exists i :: 0 <= i < |participants| && participants[i].tournamentId == tournamentId && participants[i].memberId == memberId
  }

  /** The unique index on (TournamentId, MemberId). */
  predicate UniqueRegistrations(participants: seq<Participant>)
  {
    forall i, j :: 0 <= i < j < |participants| ==>
      participants[i].tournamentId != participants[j].tournamentId || participants[i].memberId != participants[j].memberId
  }

  /** A registration that passed the duplicate check keeps the index unique. */
  lemma RegistrationKeepsUnique(participants: seq<Participant>, p: Participant)
    requires UniqueRegistrations(participants)
    requires !IsRegistered(participants, p.tournamentId, p.memberId)
    ensures UniqueRegistrations(participants + [p])
  {
    var s := participants + [p];
    forall i, j | 0 <= i < j < |s|
      ensures s[i].tournamentId != s[j].tournamentId || s[i].memberId != s[j].memberId
    {
      if j == |participants| {
        assert s[i] == participants[i];
      }
    }
  }

  /** Both the member and the tournament of a registration exist. */
  predicate JoinKnown(members: seq<Member>, tournaments: seq<Tournament>, tournamentId: int, memberId: int)
  {
    1 <= memberId <= |members| && 1 <= tournamentId <= |tournaments|
  }

  /** The guards of JoinTournament in the order the source checks them: the
      first that fails decides the outcome. */
  function JoinVerdict(members: seq<Member>, tournaments: seq<Tournament>, participants: seq<Participant>,
                       tournamentId: int, memberId: int): (r: Outcome)
    ensures r in {Ok, NotFound, Closed, Full, AlreadyRegistered, Insufficient}
    ensures r == NotFound <==> !JoinKnown(members, tournaments, tournamentId, memberId)
    ensures r == Closed <==> (JoinKnown(members, tournaments, tournamentId, memberId) &&
                              !Accepting(tournaments[tournamentId - 1]))
    ensures r == Full <==> (JoinKnown(members, tournaments, tournamentId, memberId) &&
                            Accepting(tournaments[tournamentId - 1]) &&
                            ParticipantCount(participants, tournamentId) >= tournaments[tournamentId - 1].maxParticipants)
    ensures r == AlreadyRegistered <==> (JoinKnown(members, tournaments, tournamentId, memberId) &&
                                         Accepting(tournaments[tournamentId - 1]) &&
                                         ParticipantCount(participants, tournamentId) < tournaments[tournamentId - 1].maxParticipants &&
                                         IsRegistered(participants, tournamentId, memberId))
    ensures r == Insufficient <==> (JoinKnown(members, tournaments, tournamentId, memberId) &&
                                    Accepting(tournaments[tournamentId - 1]) &&
                                    ParticipantCount(participants, tournamentId) < tournaments[tournamentId - 1].maxParticipants &&
                                    !IsRegistered(participants, tournamentId, memberId) &&
                                    members[memberId - 1].walletBalance < tournaments[tournamentId - 1].entryFee)
    ensures r == Ok <==> (JoinKnown(members, tournaments, tournamentId, memberId) &&
                          Accepting(tournaments[tournamentId - 1]) &&
                          ParticipantCount(participants, tournamentId) < tournaments[tournamentId - 1].maxParticipants &&
                          !IsRegistered(participants, tournamentId, memberId) &&
                          members[memberId - 1].walletBalance >= tournaments[tournamentId - 1].entryFee)
  {
    if !JoinKnown(members, tournaments, tournamentId, memberId) then NotFound
    else if !Accepting(tournaments[tournamentId - 1]) then Closed
    else if ParticipantCount(participants, tournamentId) >= tournaments[tournamentId - 1].maxParticipants then Full
    else if IsRegistered(participants, tournamentId, memberId) then AlreadyRegistered
    else if members[memberId - 1].walletBalance < tournaments[tournamentId - 1].entryFee then Insufficient
    else Ok
  }

  /** The state MarkAllAsRead leaves a notification in. */
  function MarkedRead(n: Notification, memberId: int): Notification
  {
    if n.memberId == memberId then n.(isRead := true) else n
  }

  class Club {
    var members: seq<Member>
    var courts: seq<Court>
    var bookings: seq<Booking>
    var transactions: seq<WalletTransaction>
    var tournaments: seq<Tournament>
    var participants: seq<Participant>
    var notifications: seq<Notification>
    var news: seq<News>

    ghost predicate Valid()
      reads this
    {
      MembersNumbered(members) && CourtsNumbered(courts) && BookingsNumbered(bookings) &&
      TransactionsNumbered(transactions) && TournamentsNumbered(tournaments) &&
      ParticipantsNumbered(participants) && NotificationsNumbered(notifications) && NewsNumbered(news) &&
      (forall i :: 0 <= i < |bookings| ==> BookingRefs(bookings[i], |members|, |courts|, |transactions|)) &&
      (forall i :: 0 <= i < |transactions| ==> 1 <= transactions[i].memberId <= |members|) &&
      (forall i :: 0 <= i < |participants| ==> ParticipantRefs(participants[i], |tournaments|, |members|)) &&
      (forall i :: 0 <= i < |notifications| ==> 1 <= notifications[i].memberId <= |members|) &&
      NoDoubleBooking(bookings) &&
      UniqueRegistrations(participants)
    }

    /** A freshly seeded club: members with their opening balances, courts,
        tournaments and news, and no bookings, ledger entries, registrations or
        notifications yet. */
    constructor (members: seq<Member>, courts: seq<Court>, tournaments: seq<Tournament>, news: seq<News>)
      requires MembersNumbered(members) && CourtsNumbered(courts) && TournamentsNumbered(tournaments) && NewsNumbered(news)
      ensures Valid()
      ensures this.members == members && this.courts == courts && this.tournaments == tournaments && this.news == news
      ensures bookings == [] && transactions == [] && participants == [] && notifications == []
    {
      this.members := members;
      this.courts := courts;
      this.tournaments := tournaments;
      this.news := news;
      bookings := [];
      transactions := [];
      participants := [];
      notifications := [];
    }

    /** Every member's drift is the same as in the earlier tables. */
    ghost predicate LedgerKept(oldMembers: seq<Member>, oldTransactions: seq<WalletTransaction>)
      reads this
      requires |members| == |oldMembers|
    {
      forall m :: 1 <= m <= |members| ==> Drift(members, transactions, m) == Drift(oldMembers, oldTransactions, m)
    }

    // -------------------------------------------------------------------
    // BookingsController

    /** CreateBooking: NotFound, Conflict and Insufficient in that order; on
        success one Confirmed booking and one Completed payment of its price,
        linked to each other, and the price taken from the wallet. */
    method CreateBooking(memberId: int, courtId: int, start: Time, end: Time, now: Time) returns (res: Outcome)
      requires Valid()
      modifies this
      ensures Valid()
      ensures res == Ok || res == NotFound || res == Conflict || res == Insufficient
      ensures res == NotFound <==> !(1 <= memberId <= |old(members)| && 1 <= courtId <= |old(courts)|)
      ensures res == Conflict <==> 1 <= memberId <= |old(members)| && 1 <= courtId <= |old(courts)| &&
                                   HasConflict(old(bookings), courtId, start, end)
      ensures res == Insufficient <==> 1 <= memberId <= |old(members)| && 1 <= courtId <= |old(courts)| &&
                                       !HasConflict(old(bookings), courtId, start, end) &&
                                       old(members)[memberId - 1].walletBalance < Price(start, end, old(courts)[courtId - 1].pricePerHour)
      ensures res != Ok ==> unchanged(this)
      ensures res == Ok ==>
        var court := old(courts)[courtId - 1];
        var price := Price(start, end, court.pricePerHour);
        var txnId := |old(transactions)| + 1;
        bookings == old(bookings) + [Booking(|old(bookings)| + 1, courtId, memberId, start, end, price, Some(txnId),
                                             BookingStatus.Confirmed, now)] &&
        transactions == old(transactions) + [WalletTransaction(txnId, memberId, -price, TransactionType.Payment,
                                                               TransactionStatus.Completed, None,
                                                               CourtBookingText(court.name, start, end),
                                                               None, now, Some(now), None)] &&
        members == Credit(old(members), memberId, -price) &&
        members[memberId - 1].walletBalance >= 0.0
      ensures courts == old(courts) && tournaments == old(tournaments) && participants == old(participants) &&
              notifications == old(notifications) && news == old(news)
      ensures |members| == |old(members)| && LedgerKept(old(members), old(transactions))
    {
      if !(1 <= memberId <= |members| && 1 <= courtId <= |courts|) {
        return NotFound;
      }
      if HasConflict(bookings, courtId, start, end) {
        return Conflict;
      }
      var court := courts[courtId - 1];
      var price := Price(start, end, court.pricePerHour);
      if members[memberId - 1].walletBalance < price {
        return Insufficient;
      }
      Reserve(memberId, courtId, start, end, now);
      res := Ok;
    }

    /** The success path of CreateBooking, once every guard has passed: the
        booking and its payment are recorded and the price is charged. */
    method Reserve(memberId: int, courtId: int, start: Time, end: Time, now: Time)
      requires Valid() && 1 <= memberId <= |members| && 1 <= courtId <= |courts|
      requires !HasConflict(bookings, courtId, start, end)
      modifies this
      ensures Valid()
      ensures
        var court := old(courts)[courtId - 1];
        var price := Price(start, end, court.pricePerHour);
        var txnId := |old(transactions)| + 1;
        bookings == old(bookings) + [Booking(|old(bookings)| + 1, courtId, memberId, start, end, price, Some(txnId),
                                             BookingStatus.Confirmed, now)] &&
        transactions == old(transactions) + [WalletTransaction(txnId, memberId, -price, TransactionType.Payment,
                                                               TransactionStatus.Completed, None,
                                                               CourtBookingText(court.name, start, end),
                                                               None, now, Some(now), None)] &&
        members == Credit(old(members), memberId, -price)
      ensures courts == old(courts) && tournaments == old(tournaments) && participants == old(participants) &&
              notifications == old(notifications) && news == old(news)
      ensures |members| == |old(members)| && LedgerKept(old(members), old(transactions))
    {
      var court := courts[courtId - 1];
      var price := Price(start, end, court.pricePerHour);
      var txnId := |transactions| + 1;
      var booking := Booking(|bookings| + 1, courtId, memberId, start, end, price, Some(txnId), BookingStatus.Confirmed, now);
      var payment := WalletTransaction(txnId, memberId, -price, TransactionType.Payment, TransactionStatus.Completed, None,
                                       CourtBookingText(court.name, start, end), None, now, Some(now), None);
      NoDoubleBookingAppend(bookings, booking);
      PostingKeepsDrift(members, transactions, payment);
      bookings := bookings + [booking];
      members := Credit(members, memberId, -price);
      transactions := transactions + [payment];
    }

    /** CancelBooking: NotFound unless the booking is the caller's, then
        InvalidState unless it is Confirmed; on success the booking is
        Cancelled, the refund is added to the wallet and recorded as a
        Completed Refund when it is positive. */
    method CancelBooking(bookingId: int, memberId: int, now: Time) returns (res: Outcome, refund: real, percent: real)
      requires Valid()
      modifies this
      ensures Valid()
      ensures res == Ok || res == NotFound || res == InvalidState
      ensures res == NotFound <==> !(1 <= bookingId <= |old(bookings)| && old(bookings)[bookingId - 1].memberId == memberId)
      ensures res == InvalidState <==> 1 <= bookingId <= |old(bookings)| && old(bookings)[bookingId - 1].memberId == memberId &&
                                       old(bookings)[bookingId - 1].status != BookingStatus.Confirmed
      ensures res != Ok ==> unchanged(this) && refund == 0.0 && percent == 0.0
      ensures res == Ok ==>
        var b := old(bookings)[bookingId - 1];
        percent == RefundPercent(b.startTime - now) &&
        refund == RefundAmount(b.totalPrice, b.startTime - now) &&
        bookings == old(bookings)[bookingId - 1 := b.(status := BookingStatus.Cancelled)] &&
        members == Credit(old(members), memberId, refund) &&
        transactions == old(transactions) +
          (if refund > 0.0
           then [WalletTransaction(|old(transactions)| + 1, memberId, refund, TransactionType.Refund,
                                   TransactionStatus.Completed, None, RefundText(percent, b.totalPrice),
                                   None, now, Some(now), None)]
           else [])
      ensures courts == old(courts) && tournaments == old(tournaments) && participants == old(participants) &&
              notifications == old(notifications) && news == old(news)
      ensures |members| == |old(members)|
      ensures forall m :: 1 <= m <= |members| ==>
        Drift(members, transactions, m) == Drift(old(members), old(transactions), m) + (if m == memberId && refund < 0.0 then refund else 0.0)
    {
      refund, percent := 0.0, 0.0;
      if !(1 <= bookingId <= |bookings| && bookings[bookingId - 1].memberId == memberId) {
        return NotFound, refund, percent;
      }
      var b := bookings[bookingId - 1];
      if b.status != BookingStatus.Confirmed {
        return InvalidState, refund, percent;
      }
      assert BookingRefs(b, |members|, |courts|, |transactions|);
      percent := RefundPercent(b.startTime - now);
      refund := b.totalPrice * percent;
      Release(bookingId - 1);
      PayRefund(memberId, refund, RefundText(percent, b.totalPrice), now);
      res := Ok;
    }

    /** The booking side of a cancellation: the booking is Cancelled and so
        no longer occupies its court. */
    method Release(k: nat)
      requires Valid() && k < |bookings|
      modifies this
      ensures Valid()
      ensures bookings == old(bookings)[k := old(bookings)[k].(status := BookingStatus.Cancelled)]
      ensures members == old(members) && courts == old(courts) && transactions == old(transactions) &&
              tournaments == old(tournaments) && participants == old(participants) &&
              notifications == old(notifications) && news == old(news)
    {
      NoDoubleBookingRelease(bookings, k, bookings[k].(status := BookingStatus.Cancelled));
      bookings := bookings[k := bookings[k].(status := BookingStatus.Cancelled)];
    }

    /** The wallet side of a cancellation: the refund is added to the balance
        and recorded as a Completed Refund only when it is positive. */
    method PayRefund(memberId: int, refund: real, description: Description, now: Time)
      requires Valid() && 1 <= memberId <= |members|
      modifies this
      ensures Valid()
      ensures members == Credit(old(members), memberId, refund)
      ensures transactions == old(transactions) +
        (if refund > 0.0
         then [WalletTransaction(|old(transactions)| + 1, memberId, refund, TransactionType.Refund, TransactionStatus.Completed,
                                 None, description, None, now, Some(now), None)]
         else [])
      ensures courts == old(courts) && bookings == old(bookings) && tournaments == old(tournaments) &&
              participants == old(participants) && notifications == old(notifications) && news == old(news)
      ensures forall m :: 1 <= m <= |members| ==>
        Drift(members, transactions, m) == Drift(old(members), old(transactions), m) + (if m == memberId && refund < 0.0 then refund else 0.0)
    {
      if refund > 0.0 {
        var entry := WalletTransaction(|transactions| + 1, memberId, refund, TransactionType.Refund, TransactionStatus.Completed,
                                       None, description, None, now, Some(now), None);
        PostingKeepsDrift(members, transactions, entry);
        transactions := transactions + [entry];
      } else {
        UnrecordedCreditShiftsDrift(members, transactions, memberId, refund);
      }
      members := Credit(members, memberId, refund);
    }

    // -------------------------------------------------------------------
    // WalletController

    /** Deposit: a Pending Deposit request for the amount as given; no sign
        check and no balance change. An unknown member breaks the foreign
        key of the insert, which fails and writes nothing. */
    method Deposit(memberId: int, amount: real, proofImageUrl: Option<string>, now: Time) returns (res: Outcome)
      requires Valid()
      modifies this
      ensures Valid()
      ensures res == Ok || res == StorageFailure
      ensures res == StorageFailure <==> !(1 <= memberId <= |old(members)|)
      ensures res != Ok ==> unchanged(this)
      ensures res == Ok ==>
        transactions == old(transactions) + [WalletTransaction(|old(transactions)| + 1, memberId, amount, TransactionType.Deposit,
                                                               TransactionStatus.Pending, None, DepositRequestText(amount),
                                                               proofImageUrl, now, None, None)]
      ensures members == old(members) && courts == old(courts) && bookings == old(bookings) &&
              tournaments == old(tournaments) && participants == old(participants) &&
              notifications == old(notifications) && news == old(news)
      ensures LedgerKept(old(members), old(transactions))
    {
      if !(1 <= memberId <= |members|) {
        return StorageFailure;
      }
      var request := WalletTransaction(|transactions| + 1, memberId, amount, TransactionType.Deposit, TransactionStatus.Pending,
                                       None, DepositRequestText(amount), proofImageUrl, now, None, None);
      OpenEntryKeepsDrift(members, transactions, request);
      transactions := transactions + [request];
      res := Ok;
    }

    /** ApproveDeposit: NotFound, then AlreadyProcessed unless Pending (the
        type is not checked); on success the entry is Completed, its amount
        is added to both the balance and the total spent, the tier is
        recomputed from the new total and a Success notification is sent. */
    method ApproveDeposit(txnId: int, approver: Option<string>, now: Time) returns (res: Outcome)
      requires Valid()
      modifies this
      ensures Valid()
      ensures res == Ok || res == NotFound || res == AlreadyProcessed
      ensures res == NotFound <==> !(1 <= txnId <= |old(transactions)|)
      ensures res == AlreadyProcessed <==> 1 <= txnId <= |old(transactions)| &&
                                           old(transactions)[txnId - 1].status != TransactionStatus.Pending
      ensures res != Ok ==> unchanged(this)
      ensures res == Ok ==>
        var t := old(transactions)[txnId - 1];
        1 <= t.memberId <= |old(members)| &&
        var m := old(members)[t.memberId - 1];
        transactions == old(transactions)[txnId - 1 := t.(status := TransactionStatus.Completed,
                                                          processedDate := Some(now), processedBy := approver)] &&
        members == old(members)[t.memberId - 1 := m.(walletBalance := m.walletBalance + t.amount,
                                                     totalSpent := m.totalSpent + t.amount,
                                                     tier := TierFor(m.totalSpent + t.amount))] &&
        notifications == old(notifications) + [Notification(|old(notifications)| + 1, t.memberId,
                                                             DepositApprovedText(t.amount, m.walletBalance + t.amount),
                                                             NotificationType.Success, false, now)]
      ensures res == Ok ==> transactions[txnId - 1].status != TransactionStatus.Pending
      ensures courts == old(courts) && bookings == old(bookings) && tournaments == old(tournaments) &&
              participants == old(participants) && news == old(news)
      ensures |members| == |old(members)| && LedgerKept(old(members), old(transactions))
    {
      if !(1 <= txnId <= |transactions|) {
        return NotFound;
      }
      var t := transactions[txnId - 1];
      if t.status != TransactionStatus.Pending {
        return AlreadyProcessed;
      }
      Settle(txnId - 1, approver, now);
      res := Ok;
    }

    /** The success path of ApproveDeposit for the pending entry at position k. */
    method Settle(k: nat, approver: Option<string>, now: Time)
      requires Valid() && k < |transactions| && transactions[k].status == TransactionStatus.Pending
      modifies this
      ensures Valid()
      ensures
        var t := old(transactions)[k];
        1 <= t.memberId <= |old(members)| &&
        var m := old(members)[t.memberId - 1];
        transactions == old(transactions)[k := t.(status := TransactionStatus.Completed,
                                                  processedDate := Some(now), processedBy := approver)] &&
        members == old(members)[t.memberId - 1 := m.(walletBalance := m.walletBalance + t.amount,
                                                     totalSpent := m.totalSpent + t.amount,
                                                     tier := TierFor(m.totalSpent + t.amount))] &&
        notifications == old(notifications) + [Notification(|old(notifications)| + 1, t.memberId,
                                                             DepositApprovedText(t.amount, m.walletBalance + t.amount),
                                                             NotificationType.Success, false, now)]
      ensures courts == old(courts) && bookings == old(bookings) && tournaments == old(tournaments) &&
              participants == old(participants) && news == old(news)
      ensures |members| == |old(members)| && LedgerKept(old(members), old(transactions))
    {
      var t := transactions[k];
      var settled := t.(status := TransactionStatus.Completed, processedDate := Some(now), processedBy := approver);
      var m := members[t.memberId - 1];
      var total := m.totalSpent + t.amount;
      var credited := Credit(members, t.memberId, t.amount);
      var updated := credited[t.memberId - 1 := credited[t.memberId - 1].(totalSpent := total, tier := TierFor(total))];
      SettlingKeepsDrift(members, transactions, k, settled);
      DriftReadsBalanceOnly(credited, updated, transactions[k := settled]);
      members := updated;
      transactions := transactions[k := settled];
      notifications := notifications + [Notification(|notifications| + 1, t.memberId, DepositApprovedText(t.amount, m.walletBalance + t.amount),
                                                      NotificationType.Success, false, now)];
    }

    /** Approving the same entry a second time always fails, so an entry is
        credited at most once. */
    method ApproveTwice(txnId: int, approver: Option<string>, now: Time) returns (first: Outcome, second: Outcome)
      requires Valid()
      modifies this
      ensures Valid()
      ensures second != Ok
      ensures first == Ok ==> second == AlreadyProcessed
    {
      first := ApproveDeposit(txnId, approver, now);
      second := ApproveDeposit(txnId, approver, now);
    }

    /** RejectDeposit: the same two guards; on success the entry is Rejected,
        no balance moves and a Warning notification is sent. */
    method RejectDeposit(txnId: int, approver: Option<string>, now: Time) returns (res: Outcome)
      requires Valid()
      modifies this
      ensures Valid()
      ensures res == Ok || res == NotFound || res == AlreadyProcessed
      ensures res == NotFound <==> !(1 <= txnId <= |old(transactions)|)
      ensures res == AlreadyProcessed <==> 1 <= txnId <= |old(transactions)| &&
                                           old(transactions)[txnId - 1].status != TransactionStatus.Pending
      ensures res != Ok ==> unchanged(this)
      ensures res == Ok ==>
        var t := old(transactions)[txnId - 1];
        transactions == old(transactions)[txnId - 1 := t.(status := TransactionStatus.Rejected,
                                                          processedDate := Some(now), processedBy := approver)] &&
        notifications == old(notifications) + [Notification(|old(notifications)| + 1, t.memberId,
                                                             DepositRejectedText(t.amount), NotificationType.Warning, false, now)]
      ensures members == old(members) && courts == old(courts) && bookings == old(bookings) &&
              tournaments == old(tournaments) && participants == old(participants) && news == old(news)
      ensures LedgerKept(old(members), old(transactions))
    {
      if !(1 <= txnId <= |transactions|) {
        return NotFound;
      }
      var t := transactions[txnId - 1];
      if t.status != TransactionStatus.Pending {
        return AlreadyProcessed;
      }
      var rejected := t.(status := TransactionStatus.Rejected, processedDate := Some(now), processedBy := approver);
      ReclassifyingKeepsDrift(members, transactions, txnId - 1, rejected);
      transactions := transactions[txnId - 1 := rejected];
      notifications := notifications + [Notification(|notifications| + 1, t.memberId, DepositRejectedText(t.amount),
                                                      NotificationType.Warning, false, now)];
      res := Ok;
    }

    // -------------------------------------------------------------------
    // TournamentsController

    /** JoinTournament: NotFound, Closed, Full, AlreadyRegistered and
        Insufficient in that order; on success the entry fee is taken and
        recorded as a Completed Payment naming the tournament, and the member
        is registered as paid. */
    method JoinTournament(tournamentId: int, memberId: int, teamName: Option<string>, now: Time) returns (res: Outcome)
      requires Valid()
      modifies this
      ensures Valid()
      ensures res == Ok || res == NotFound || res == Closed || res == Full || res == AlreadyRegistered || res == Insufficient
      ensures res == JoinVerdict(old(members), old(tournaments), old(participants), tournamentId, memberId)
      ensures res != Ok ==> unchanged(this)
      ensures res == Ok ==>
        var t := old(tournaments)[tournamentId - 1];
        members == Credit(old(members), memberId, -t.entryFee) &&
        transactions == old(transactions) + [WalletTransaction(|old(transactions)| + 1, memberId, -t.entryFee,
                                                               TransactionType.Payment, TransactionStatus.Completed,
                                                               Some(tournamentId), EntryFeeText(t.name),
                                                               None, now, Some(now), None)] &&
        participants == old(participants) + [Participant(|old(participants)| + 1, tournamentId, memberId, teamName, true, now)] &&
        ParticipantCount(participants, tournamentId) == ParticipantCount(old(participants), tournamentId) + 1 <= t.maxParticipants
      ensures forall id :: id != tournamentId ==> ParticipantCount(participants, id) == ParticipantCount(old(participants), id)
      ensures courts == old(courts) && bookings == old(bookings) && tournaments == old(tournaments) &&
              notifications == old(notifications) && news == old(news)
      ensures |members| == |old(members)| && LedgerKept(old(members), old(transactions))
    {
      res := JoinVerdict(members, tournaments, participants, tournamentId, memberId);
      if res != Ok {
        return;
      }
      var t := tournaments[tournamentId - 1];
      Enrol(t, memberId, teamName, now);
    }

    /** The success path of JoinTournament, once every guard has passed. */
    method Enrol(t: Tournament, memberId: int, teamName: Option<string>, now: Time)
      requires Valid()
      requires 1 <= memberId <= |members| && 1 <= t.id <= |tournaments| && tournaments[t.id - 1] == t
      requires !IsRegistered(participants, t.id, memberId)
      modifies this
      ensures Valid()
      ensures members == Credit(old(members), memberId, -t.entryFee)
      ensures transactions == old(transactions) + [WalletTransaction(|old(transactions)| + 1, memberId, -t.entryFee,
                                                                     TransactionType.Payment, TransactionStatus.Completed,
                                                                     Some(t.id), EntryFeeText(t.name), None, now, Some(now), None)]
      ensures participants == old(participants) + [Participant(|old(participants)| + 1, t.id, memberId, teamName, true, now)]
      ensures forall id :: ParticipantCount(participants, id) == ParticipantCount(old(participants), id) + (if id == t.id then 1 else 0)
      ensures courts == old(courts) && bookings == old(bookings) && tournaments == old(tournaments) &&
              notifications == old(notifications) && news == old(news)
      ensures |members| == |old(members)| && LedgerKept(old(members), old(transactions))
    {
      var fee := WalletTransaction(|transactions| + 1, memberId, -t.entryFee, TransactionType.Payment, TransactionStatus.Completed,
                                   Some(t.id), EntryFeeText(t.name), None, now, Some(now), None);
      var entrant := Participant(|participants| + 1, t.id, memberId, teamName, true, now);
      PostingKeepsDrift(members, transactions, fee);
      ParticipantCountsAfterJoin(participants, entrant);
      RegistrationKeepsUnique(participants, entrant);
      members := Credit(members, memberId, -t.entryFee);
      transactions := transactions + [fee];
      participants := participants + [entrant];
    }

    /** CreateTournament: InvalidFormat for a format that does not parse;
        otherwise a new Open tournament, reported with no participants. */
    method CreateTournament(name: string, startDate: Time, endDate: Time, format: string, entryFee: real, prizePool: real,
                            maxParticipants: int, description: Option<string>, now: Time)
      returns (res: Outcome, created: Option<TournamentSummary>)
      requires Valid()
      modifies this
      ensures Valid()
      ensures res == Ok || res == InvalidFormat
      ensures res == InvalidFormat <==> ParseFormat(format).None?
      ensures res != Ok ==> unchanged(this) && created.None?
      ensures res == Ok ==>
        tournaments == old(tournaments) + [Tournament(|old(tournaments)| + 1, name, startDate, endDate, ParseFormat(format).value,
                                                      entryFee, prizePool, TournamentStatus.Open, description,
                                                      maxParticipants, now)] &&
        created == Some(TournamentSummary(tournaments[|tournaments| - 1], 0)) &&
        ParticipantCount(participants, |tournaments|) == 0
      ensures members == old(members) && courts == old(courts) && bookings == old(bookings) &&
              transactions == old(transactions) && participants == old(participants) &&
              notifications == old(notifications) && news == old(news)
    {
      var parsed := ParseFormat(format);
      if parsed.None? {
        return InvalidFormat, None;
      }
      var t := Tournament(|tournaments| + 1, name, startDate, endDate, parsed.value, entryFee, prizePool, TournamentStatus.Open,
                          description, maxParticipants, now);
      assert forall i :: 0 <= i < |participants| ==> participants[i].tournamentId != t.id by {
        forall i | 0 <= i < |participants| ensures participants[i].tournamentId != t.id {
          assert ParticipantRefs(participants[i], |tournaments|, |members|);
        }
      }
      tournaments := tournaments + [t];
      res, created := Ok, Some(TournamentSummary(t, ParticipantCount(participants, t.id)));
    }

    // -------------------------------------------------------------------
    // NotificationsController and MembersController

    /** MarkAsRead: NotFound unless the notification is the caller's;
        otherwise only that one becomes read. */
    method MarkAsRead(notificationId: int, memberId: int) returns (res: Outcome)
      requires Valid()
      modifies this
      ensures Valid()
      ensures res == Ok || res == NotFound
      ensures res == NotFound <==> !(1 <= notificationId <= |old(notifications)| &&
                                     old(notifications)[notificationId - 1].memberId == memberId)
      ensures res != Ok ==> unchanged(this)
      ensures res == Ok ==>
        notifications == old(notifications)[notificationId - 1 := old(notifications)[notificationId - 1].(isRead := true)] &&
        UnreadCount(notifications, memberId) ==
          UnreadCount(old(notifications), memberId) - (if old(notifications)[notificationId - 1].isRead then 0 else 1)
      ensures forall other :: other != memberId ==> UnreadCount(notifications, other) == UnreadCount(old(notifications), other)
      ensures members == old(members) && courts == old(courts) && bookings == old(bookings) &&
              transactions == old(transactions) && tournaments == old(tournaments) &&
              participants == old(participants) && news == old(news)
    {
      if !(1 <= notificationId <= |notifications| && notifications[notificationId - 1].memberId == memberId) {
        return NotFound;
      }
      var n := notifications[notificationId - 1];
      UnreadCountsAfterRead(notifications, notificationId - 1);
      notifications := notifications[notificationId - 1 := n.(isRead := true)];
      res := Ok;
    }

    /** MarkAllAsRead: every unread notification of the caller becomes read
        and nobody else's changes. */
    method MarkAllAsRead(memberId: int)
      requires Valid()
      modifies this
      ensures Valid()
      ensures |notifications| == |old(notifications)|
      ensures forall i :: 0 <= i < |notifications| ==> notifications[i] == MarkedRead(old(notifications)[i], memberId)
      ensures UnreadCount(notifications, memberId) == 0
      ensures forall other :: other != memberId ==> UnreadCount(notifications, other) == UnreadCount(old(notifications), other)
      ensures members == old(members) && courts == old(courts) && bookings == old(bookings) &&
              transactions == old(transactions) && tournaments == old(tournaments) &&
              participants == old(participants) && news == old(news)
    {
      var marked := notifications;
      var i := 0;
      while i < |marked|
        invariant 0 <= i <= |marked| == |notifications|
        invariant forall k :: 0 <= k < i ==> marked[k] == MarkedRead(notifications[k], memberId)
        invariant forall k :: i <= k < |marked| ==> marked[k] == notifications[k]
      {
        if marked[i].memberId == memberId && !marked[i].isRead {
          marked := marked[i := marked[i].(isRead := true)];
        }
        i := i + 1;
      }
      forall other | other != memberId
        ensures UnreadCount(marked, other) == UnreadCount(notifications, other)
      {
        UnreadCountFrame(notifications, marked, other);
      }
      notifications := marked;
    }

    /** UpdateProfile: NotFound for an unknown member; otherwise the full
        name, phone and avatar are replaced by those given non-empty, and
        nothing else of the member changes. */
    method UpdateProfile(memberId: int, fullName: Option<string>, phone: Option<string>, avatarUrl: Option<string>)
      returns (res: Outcome, profile: Option<Member>)
      requires Valid()
      modifies this
      ensures Valid()
      ensures res == Ok || res == NotFound
      ensures res == NotFound <==> !(1 <= memberId <= |old(members)|)
      ensures res != Ok ==> unchanged(this) && profile.None?
      ensures res == Ok ==>
        var m := old(members)[memberId - 1];
        members == old(members)[memberId - 1 := m.(fullName := if Given(fullName) then fullName.value else m.fullName,
                                                   phone := if Given(phone) then phone else m.phone,
                                                   avatarUrl := if Given(avatarUrl) then avatarUrl else m.avatarUrl)] &&
        profile == Some(members[memberId - 1])
      ensures |members| == |old(members)|
      ensures forall i :: 0 <= i < |members| ==>
        members[i].walletBalance == old(members)[i].walletBalance && members[i].totalSpent == old(members)[i].totalSpent &&
        members[i].tier == old(members)[i].tier
      ensures courts == old(courts) && bookings == old(bookings) && transactions == old(transactions) &&
              tournaments == old(tournaments) && participants == old(participants) &&
              notifications == old(notifications) && news == old(news)
      ensures LedgerKept(old(members), old(transactions))
    {
      if !(1 <= memberId <= |members|) {
        return NotFound, None;
      }
      var m := members[memberId - 1];
      var updated := m.(fullName := if Given(fullName) then fullName.value else m.fullName,
                        phone := if Given(phone) then phone else m.phone,
                        avatarUrl := if Given(avatarUrl) then avatarUrl else m.avatarUrl);
      DriftReadsBalanceOnly(members, members[memberId - 1 := updated], transactions);
      members := members[memberId - 1 := updated];
      res, profile := Ok, Some(updated);
    }
  }
}
