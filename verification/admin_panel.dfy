/**
 * The user-management logic of `src/components/AdminPanel.tsx`: suspending,
 * activating and deleting users, clamping an adjusted balance at zero, the
 * search box's filter and the statistics shown at the top of the panel.
 * Each operation works on the stored user list and returns the new list.
 */
module AdminPanel {
  import opened Text
  import opened Seqs
  import opened Records

  datatype UserAction = Suspend | Activate | Delete

  /** The `switch (action)` applied to the matching record. */
  function Retouch(action: UserAction): StoredUser -> StoredUser {
    (u: StoredUser) =>
      match action
      case Suspend => u.(verified := false)
      case Activate => u.(verified := true)
      case Delete => u
  }

  /** The filter that follows the map: a delete drops the records with the id, other actions keep all. */
  function Keep(action: UserAction, id: string): StoredUser -> bool {
    (u: StoredUser) => action != Delete || u.id != id
  }

  /** The records a delete of `id` removes. */
  function HasId(id: string): StoredUser -> bool {
    (u: StoredUser) => u.id == id
  }

  /**
   * `handleUserAction`: suspend and activate flip `verified` on the records
   * with the id and keep everything else; delete drops exactly those records.
   */
  function HandleUserAction(users: seq<StoredUser>, id: string, action: UserAction): (r: seq<StoredUser>)
    ensures action != Delete ==> |r| == |users|
    ensures action != Delete ==> forall i :: 0 <= i < |users| ==>
      if users[i].id == id then r[i] == users[i].(verified := (action == Activate)) else r[i] == users[i]
    ensures action == Delete ==> forall i :: 0 <= i < |r| ==> r[i].id != id
    ensures action == Delete ==> forall i :: 0 <= i < |users| && users[i].id != id ==> users[i] in r
    ensures action == Delete ==> IsSubsequence(r, users)
  {
    var mapped := UpdateWhere(users, id, Retouch(action));
    if action == Delete then
      assert mapped == users;
      FilterIsSubsequence(users, Keep(action, id));
      Filter(mapped, Keep(action, id))
    else
      FilterAll(mapped, Keep(action, id));
      Filter(mapped, Keep(action, id))
  }

  /**
   * Deleting keeps every record without the id, in the original order, and
   * nothing else.
   */
  lemma DeleteKeepsOthersInOrder(users: seq<StoredUser>, id: string)
    ensures var r := HandleUserAction(users, id, Delete);
      exists idx :: Embeds(idx, r, users) && forall i :: 0 <= i < |users| ==> (users[i].id != id <==> i in idx)
  {
    var p := Keep(Delete, id);
    assert UpdateWhere(users, id, Retouch(Delete)) == users;
    FilterSelects(users, p);
    var idx := KeptIndices(users, p);
    assert forall i :: 0 <= i < |users| ==> (users[i].id != id <==> p(users[i]));
    assert Embeds(idx, HandleUserAction(users, id, Delete), users);
  }

  /** The larger of zero and the requested balance. */
  function ClampBalance(newBalance: int): int {
    if newBalance < 0 then 0 else newBalance
  }

  /**
   * `adjustUserBalance`: the records with the id get `max(0, newBalance)` as
   * their balance; no other record or field changes.
   */
  function AdjustUserBalance(users: seq<StoredUser>, id: string, newBalance: int): (r: seq<StoredUser>)
    ensures |r| == |users|
    ensures forall i :: 0 <= i < |users| && users[i].id != id ==> r[i] == users[i]
    ensures forall i :: 0 <= i < |users| && users[i].id == id ==>
      && r[i] == users[i].(balance := r[i].balance)
      && r[i].balance >= 0
      && r[i].balance >= newBalance
      && (r[i].balance == 0 || r[i].balance == newBalance)
  {
    UpdateWhere(users, id, WithBalance(ClampBalance(newBalance)))
  }

  /** Adjusting never makes a balance negative. */
  lemma AdjustKeepsBalancesNonNegative(users: seq<StoredUser>, id: string, newBalance: int)
    requires forall i :: 0 <= i < |users| ==> users[i].balance >= 0
    ensures var r := AdjustUserBalance(users, id, newBalance);
      forall i :: 0 <= i < |r| ==> r[i].balance >= 0
  {
  }

  /**
   * The search box: the lower-cased query occurs in the lower-cased name or
   * email, or the raw query occurs in the account number.
   */
  predicate Matches(u: StoredUser, query: string) {
    || Contains(AsciiLower(u.fullName), AsciiLower(query))
    || Contains(AsciiLower(u.email), AsciiLower(query))
    || Contains(u.accountNumber, query)
  }

  function MatchesQuery(query: string): StoredUser -> bool {
    (u: StoredUser) => Matches(u, query)
  }

  /** `filteredUsers`: the users the search keeps, in list order. */
  function FilteredUsers(users: seq<StoredUser>, query: string): (r: seq<StoredUser>)
    ensures |r| <= |users|
    ensures forall i :: 0 <= i < |r| ==> Matches(r[i], query)
    ensures forall i :: 0 <= i < |users| && Matches(users[i], query) ==> users[i] in r
    ensures IsSubsequence(r, users)
    ensures query == "" ==> r == users
  {
    FilterIsSubsequence(users, MatchesQuery(query));
    if query == "" then
      forall u: StoredUser ensures Matches(u, query) {
        ContainsEmpty(u.accountNumber);
      }
      FilterAll(users, MatchesQuery(query));
      Filter(users, MatchesQuery(query))
    else
      Filter(users, MatchesQuery(query))
  }

  /** Reference meaning of the search, in terms of occurrence offsets. */
  ghost predicate Found(u: StoredUser, query: string) {
    || (exists k :: OccursAt(AsciiLower(u.fullName), AsciiLower(query), k))
    || (exists k :: OccursAt(AsciiLower(u.email), AsciiLower(query), k))
    || (exists k :: OccursAt(u.accountNumber, query, k))
  }

  /** A user is kept exactly when the query is found in one of the three fields. */
  lemma SearchKeepsExactly(users: seq<StoredUser>, query: string)
    ensures var r := FilteredUsers(users, query);
      exists idx :: Embeds(idx, r, users) && forall i :: 0 <= i < |users| ==> (Found(users[i], query) <==> i in idx)
  {
    var p := MatchesQuery(query);
    FilterSelects(users, p);
    forall i | 0 <= i < |users|
      ensures Found(users[i], query) <==> p(users[i])
    {
      var u := users[i];
      ContainsIffOccurs(AsciiLower(u.fullName), AsciiLower(query));
      ContainsIffOccurs(AsciiLower(u.email), AsciiLower(query));
      ContainsIffOccurs(u.accountNumber, query);
    }
    assert Embeds(KeptIndices(users, p), FilteredUsers(users, query), users);
  }

  // ---------------------------------------------------------------------
  // Statistics
  // ---------------------------------------------------------------------

  datatype SystemStats = SystemStats(
    totalUsers: nat,
    totalBalance: int,
    totalSavings: int,
    totalTransactions: int,
    activeUsers: nat)

  function Balance(u: StoredUser): int { u.balance }
  function Savings(u: StoredUser): int { u.savingsBalance }
  function IsVerified(u: StoredUser): bool { u.verified }

  /** The length of the `transactions_<id>` list, or 0 when the key is absent. */
  function LedgerSize<Tx>(ledgers: map<string, seq<Tx>>): StoredUser -> int {
    (u: StoredUser) => if u.id in ledgers then |ledgers[u.id]| else 0
  }

  /**
   * The statistics of `loadSystemData`: user count, summed balances and
   * savings, summed transaction-list lengths and the number of verified users.
   */
  function LoadStats<Tx>(users: seq<StoredUser>, ledgers: map<string, seq<Tx>>): (s: SystemStats)
    ensures s.totalUsers == |users|
    ensures s.activeUsers == |Positions(users, IsVerified)|
    ensures s.totalBalance == Sum(users, Balance)
    ensures s.totalSavings == Sum(users, Savings)
    ensures s.totalTransactions == Sum(users, LedgerSize(ledgers))
    ensures s.activeUsers <= s.totalUsers
    ensures s.activeUsers == s.totalUsers <==> forall i :: 0 <= i < |users| ==> users[i].verified
    ensures s.totalTransactions >= 0
    ensures (forall i :: 0 <= i < |users| ==> users[i].balance >= 0) ==> s.totalBalance >= 0
  {
    StatsFacts(users, ledgers);
    FilterCountsPositions(users, IsVerified);
    SystemStats(
      |users|, Sum(users, Balance), Sum(users, Savings), Sum(users, LedgerSize(ledgers)),
      |Filter(users, IsVerified)|)
  }

  lemma StatsFacts<Tx>(users: seq<StoredUser>, ledgers: map<string, seq<Tx>>)
    ensures |Filter(users, IsVerified)| == |users| <==> forall i :: 0 <= i < |users| ==> users[i].verified
    ensures Sum(users, LedgerSize(ledgers)) >= 0
    ensures (forall i :: 0 <= i < |users| ==> users[i].balance >= 0) ==> Sum(users, Balance) >= 0
  {
    SumNonNegative(users, LedgerSize(ledgers));
    if forall i :: 0 <= i < |users| ==> users[i].balance >= 0 {
      SumNonNegative(users, Balance);
    }
    if forall i :: 0 <= i < |users| ==> users[i].verified {
      FilterAll(users, IsVerified);
    } else {
      var j :| 0 <= j < |users| && !users[j].verified;
      ShorterWhenSomeDropped(users, IsVerified, j);
    }
  }

  /** Filtering out a position makes the result strictly shorter. */
  lemma {:induction false} ShorterWhenSomeDropped<T>(s: seq<T>, p: T -> bool, j: int)
    requires 0 <= j < |s| && !p(s[j])
    ensures |Filter(s, p)| < |s|
    decreases |s|
  {
    var n := |s| - 1;
    if j < n {
      assert s[..n][j] == s[j];
      ShorterWhenSomeDropped(s[..n], p, j);
    }
  }

  /** Suspending or activating leaves every total except the active count alone. */
  lemma StatusChangeKeepsTotals<Tx>(users: seq<StoredUser>, id: string, action: UserAction,
                                   ledgers: map<string, seq<Tx>>)
    requires action != Delete
    ensures var before, after := LoadStats(users, ledgers), LoadStats(HandleUserAction(users, id, action), ledgers);
      && after.totalUsers == before.totalUsers
      && after.totalBalance == before.totalBalance
      && after.totalSavings == before.totalSavings
      && after.totalTransactions == before.totalTransactions
  {
    var r := HandleUserAction(users, id, action);
    SumPointwise(users, r, Balance);
    SumPointwise(users, r, Savings);
    SumPointwise(users, r, LedgerSize(ledgers));
  }

  /** Deleting removes exactly the deleted records' users, balances and savings from the totals. */
  lemma DeleteSubtractsTotals<Tx>(users: seq<StoredUser>, id: string, ledgers: map<string, seq<Tx>>)
    ensures var before, after := LoadStats(users, ledgers), LoadStats(HandleUserAction(users, id, Delete), ledgers);
      var gone := Filter(users, HasId(id));
      && before.totalUsers == after.totalUsers + |gone|
      && before.totalBalance == after.totalBalance + Sum(gone, Balance)
      && before.totalSavings == after.totalSavings + Sum(gone, Savings)
      && before.totalTransactions == after.totalTransactions + Sum(gone, LedgerSize(ledgers))
  {
    var p := Keep(Delete, id);
    assert UpdateWhere(users, id, Retouch(Delete)) == users;
    assert HandleUserAction(users, id, Delete) == Filter(users, p);
    FilterSplitLength(users, p, HasId(id));
    SumSplit(users, p, HasId(id), Balance);
    SumSplit(users, p, HasId(id), Savings);
    SumSplit(users, p, HasId(id), LedgerSize(ledgers));
  }
}
