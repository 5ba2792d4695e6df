/** The pure side of WalletController: the membership tier rule applied on
    approval and the two transaction lists. The state changes (Deposit,
    ApproveDeposit, RejectDeposit) are methods of `Club.Club`. */
module Wallet {
  import opened Entities
  import opened Queries
  import opened Members

  /** GetBalance: the member's wallet balance, or nothing for an unknown member. */
  function Balance(members: seq<Member>, memberId: int): (r: Option<real>)
    ensures r.None? <==> forall m :: m in members ==> m.id != memberId
    ensures r.Some? ==> exists m :: m in members && m.id == memberId && m.walletBalance == r.value
  {
    var m := FindMember(members, memberId);
    if m.None? then None else Some(m.value.walletBalance)
  }

  const SilverThreshold: real := 5000000.0
  const GoldThreshold: real := 20000000.0
  const DiamondThreshold: real := 50000000.0

  /** How many of the three tier thresholds a total has reached. */
  function ThresholdsReached(totalSpent: real): nat
  {
    (if totalSpent >= SilverThreshold then 1 else 0) +
    (if totalSpent >= GoldThreshold then 1 else 0) +
    (if totalSpent >= DiamondThreshold then 1 else 0)
  }

  /** The tier `switch` of ApproveDeposit: inclusive thresholds, highest first.
      The tier's rank is the number of thresholds reached. */
  function TierFor(totalSpent: real): (r: Tier)
    ensures TierRank(r) == ThresholdsReached(totalSpent)
    ensures r == Diamond <==> totalSpent >= DiamondThreshold
    ensures r == Standard <==> totalSpent < SilverThreshold
  {
    if totalSpent >= DiamondThreshold then Diamond
    else if totalSpent >= GoldThreshold then Gold
    else if totalSpent >= SilverThreshold then Silver
    else Standard
  }

  /** Spending more never lowers the tier. */
  lemma TierMonotone(less: real, more: real)
    requires less <= more
    ensures TierRank(TierFor(less)) <= TierRank(TierFor(more))
  {
  }

  /** Each threshold belongs to the tier it opens. */
  lemma TierBoundaries()
    ensures TierFor(4999999.0) == Standard
    ensures TierFor(5000000.0) == Silver
    ensures TierFor(19999999.0) == Silver
    ensures TierFor(20000000.0) == Gold
    ensures TierFor(49999999.0) == Gold
    ensures TierFor(50000000.0) == Diamond
  {
  }

  predicate IsPendingDeposit(t: WalletTransaction)
  {
    t.kind == TransactionType.Deposit && t.status == TransactionStatus.Pending
  }

  /** GetPendingDeposits: every Pending Deposit, oldest first. */
  function PendingDeposits(txns: seq<WalletTransaction>): (r: seq<WalletTransaction>)
    ensures forall t :: t in r <==> t in txns && IsPendingDeposit(t)
    ensures forall i, j :: 0 <= i < j < |r| ==> r[i].createdDate <= r[j].createdDate
    ensures multiset(r) == multiset(Filter(txns, IsPendingDeposit))
  {
    SortBy(Filter(txns, IsPendingDeposit), (t: WalletTransaction) => t.createdDate)
  }

  /** The caller's transactions, newest first, before paging. */
  function MemberHistory(txns: seq<WalletTransaction>, memberId: int): (r: seq<WalletTransaction>)
    ensures forall t :: t in r <==> t in txns && t.memberId == memberId
    ensures forall i, j :: 0 <= i < j < |r| ==> r[i].createdDate >= r[j].createdDate
    ensures multiset(r) == multiset(Filter(txns, (t: WalletTransaction) => t.memberId == memberId))
  {
    SortByDescending(Filter(txns, (t: WalletTransaction) => t.memberId == memberId), (t: WalletTransaction) => t.createdDate)
  }

  /** GetTransactions: one page of the caller's history. */
  function MemberTransactions(txns: seq<WalletTransaction>, memberId: int, page: int, pageSize: int): (r: seq<WalletTransaction>)
    ensures |r| <= Max(pageSize, 0)
    ensures forall t :: t in r ==> t in txns && t.memberId == memberId
    ensures forall i, j :: 0 <= i < j < |r| ==> r[i].createdDate >= r[j].createdDate
    ensures PageOf(r, MemberHistory(txns, memberId), page, pageSize)
  {
    var history := MemberHistory(txns, memberId);
    WindowKeepsDescending(history, (page - 1) * pageSize, pageSize, (t: WalletTransaction) => t.createdDate);
    Page(history, page, pageSize)
  }

  /** A first page large enough holds the caller's whole history. */
  lemma FirstPageHoldsAll(txns: seq<WalletTransaction>, memberId: int, pageSize: int)
    requires pageSize >= |MemberHistory(txns, memberId)|
    ensures MemberTransactions(txns, memberId, 1, pageSize) == MemberHistory(txns, memberId)
  {
  }
}
