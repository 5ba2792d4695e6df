/** The wallet ledger: the sum of a member's Completed transactions, which
    is what the cached `WalletBalance` is meant to track. */
module Ledger {
  import opened Entities

  /** What one transaction contributes to a member's completed total. */
  function Contribution(t: WalletTransaction, memberId: int): real
  {
    if t.memberId == memberId && t.status == TransactionStatus.Completed then t.amount else 0.0
  }

  /** The sum of the amounts of `memberId`'s Completed transactions. */
  function CompletedSum(txns: seq<WalletTransaction>, memberId: int): real
    decreases |txns|
  {
    if txns == [] then 0.0
    else CompletedSum(txns[..|txns| - 1], memberId) + Contribution(txns[|txns| - 1], memberId)
  }

  /** Appending a transaction adds exactly its own contribution. */
  lemma CompletedSumAppend(txns: seq<WalletTransaction>, t: WalletTransaction, memberId: int)
    ensures CompletedSum(txns + [t], memberId) == CompletedSum(txns, memberId) + Contribution(t, memberId)
  {
    assert (txns + [t])[..|txns|] == txns;
  }

  /** Replacing one transaction swaps its contribution for the new one's. */
  lemma {:induction false} CompletedSumUpdate(txns: seq<WalletTransaction>, i: nat, t: WalletTransaction, memberId: int)
    requires i < |txns|
    ensures CompletedSum(txns[i := t], memberId)
         == CompletedSum(txns, memberId) - Contribution(txns[i], memberId) + Contribution(t, memberId)
    decreases |txns|
  {
    var n := |txns| - 1;
    var u := txns[i := t];
    if i == n {
      assert u[..n] == txns[..n];
    } else {
      assert u[..n] == txns[..n][i := t];
      CompletedSumUpdate(txns[..n], i, t, memberId);
    }
  }

  /** The balance table with `amount` added to one member's wallet. */
  function Credit(members: seq<Member>, memberId: int, amount: real): (r: seq<Member>)
    requires 1 <= memberId <= |members|
  {
    members[memberId - 1 := members[memberId - 1].(walletBalance := members[memberId - 1].walletBalance + amount)]
  }

  /** How far a member's cached balance is from the sum of the member's
      Completed transactions (members are numbered by position). */
  function Drift(members: seq<Member>, txns: seq<WalletTransaction>, memberId: int): real
    requires 1 <= memberId <= |members|
  {
    members[memberId - 1].walletBalance - CompletedSum(txns, memberId)
  }

  /** Recording a Completed transaction together with the matching balance
      change leaves every member's drift where it was. */
  lemma PostingKeepsDrift(members: seq<Member>, txns: seq<WalletTransaction>, t: WalletTransaction)
    requires 1 <= t.memberId <= |members| && t.status == TransactionStatus.Completed
    ensures forall m :: 1 <= m <= |members| ==>
      Drift(Credit(members, t.memberId, t.amount), txns + [t], m) == Drift(members, txns, m)
  {
    forall m | 1 <= m <= |members|
      ensures Drift(Credit(members, t.memberId, t.amount), txns + [t], m) == Drift(members, txns, m)
    {
      CompletedSumAppend(txns, t, m);
    }
  }

  /** A transaction that is not Completed moves no balance and no drift. */
  lemma OpenEntryKeepsDrift(members: seq<Member>, txns: seq<WalletTransaction>, t: WalletTransaction)
    requires t.status != TransactionStatus.Completed
    ensures forall m :: 1 <= m <= |members| ==> Drift(members, txns + [t], m) == Drift(members, txns, m)
  {
    forall m | 1 <= m <= |members| ensures Drift(members, txns + [t], m) == Drift(members, txns, m) {
      CompletedSumAppend(txns, t, m);
    }
  }

  /** Completing an open transaction together with crediting its amount to
      its member leaves every drift where it was. */
  lemma SettlingKeepsDrift(members: seq<Member>, txns: seq<WalletTransaction>, k: nat, t: WalletTransaction)
    requires k < |txns| && txns[k].status != TransactionStatus.Completed
    requires t.status == TransactionStatus.Completed && t.memberId == txns[k].memberId
    requires 1 <= t.memberId <= |members|
    ensures forall m :: 1 <= m <= |members| ==>
      Drift(Credit(members, t.memberId, t.amount), txns[k := t], m) == Drift(members, txns, m)
  {
    forall m | 1 <= m <= |members|
      ensures Drift(Credit(members, t.memberId, t.amount), txns[k := t], m) == Drift(members, txns, m)
    {
      CompletedSumUpdate(txns, k, t, m);
    }
  }

  /** Changing an open transaction into another open one moves no drift. */
  lemma ReclassifyingKeepsDrift(members: seq<Member>, txns: seq<WalletTransaction>, k: nat, t: WalletTransaction)
    requires k < |txns| && txns[k].status != TransactionStatus.Completed
    requires t.status != TransactionStatus.Completed
    ensures forall m :: 1 <= m <= |members| ==> Drift(members, txns[k := t], m) == Drift(members, txns, m)
  {
    forall m | 1 <= m <= |members| ensures Drift(members, txns[k := t], m) == Drift(members, txns, m) {
      CompletedSumUpdate(txns, k, t, m);
    }
  }

  /** A balance change with no transaction behind it moves that member's
      drift by exactly the change and nobody else's. */
  lemma UnrecordedCreditShiftsDrift(members: seq<Member>, txns: seq<WalletTransaction>, memberId: int, amount: real)
    requires 1 <= memberId <= |members|
    ensures forall m :: 1 <= m <= |members| ==>
      Drift(Credit(members, memberId, amount), txns, m) == Drift(members, txns, m) + (if m == memberId then amount else 0.0)
  {
  }

  /** Drift reads nothing of a member but the wallet balance. */
  lemma DriftReadsBalanceOnly(before: seq<Member>, after: seq<Member>, txns: seq<WalletTransaction>)
    requires |before| == |after|
    requires forall i :: 0 <= i < |before| ==> after[i].walletBalance == before[i].walletBalance
    ensures forall m :: 1 <= m <= |before| ==> Drift(after, txns, m) == Drift(before, txns, m)
  {
  }
}
