/**
  The stored results of debt simplification and their invalidation.

  Service calls are atomic steps. The participants table, joined with its splits, changes under
  the cache; `stale` is a ghost record of the wallets whose debts changed since they were last
  invalidated.
 */
module DebtCache {
  import opened Options
  import opened Sums
  import opened Time
  import opened DebtGraph

  const CACHE_TTL_MS := MS_PER_DAY

  const DEFAULT_ASSET := Asset("XLM")

  /** A participant joined with its split. */
  datatype ParticipantRow = ParticipantRow(
    walletAddress: Option<Wallet>,
    amountOwed: int,
    amountPaid: int,
    isPaid: bool,
    isDeleted: bool,
    splitCompleted: bool,
    splitFrozen: bool,
    splitDeleted: bool,
    creatorWalletAddress: Option<Wallet>,
    preferredCurrency: Option<Asset>)
  {
    predicate IsOutstanding() {
      && walletAddress.Some?
      && !isPaid && !splitCompleted && !splitFrozen && !isDeleted && !splitDeleted
      && amountOwed - amountPaid > EPSILON
      && creatorWalletAddress.Some? && creatorWalletAddress.value != Wallet("")
    }

    function Owed(): Debt
      requires IsOutstanding()
    {
      Debt(walletAddress.value, creatorWalletAddress.value, amountOwed - amountPaid,
           if preferredCurrency.Some? then preferredCurrency.value else DEFAULT_ASSET)
    }
  }

  type GroupId = string

  datatype SimplifiedDebt = SimplifiedDebt(
    groupId: Option<GroupId>,
    calculatedForUserIds: seq<Wallet>,
    debts: seq<Debt>,
    expiresAt: int)

  // ----- Loading -----

  /** Every outstanding debt, in table order. */
  function Outstanding(rows: seq<ParticipantRow>): seq<Debt> {
    if rows == [] then []
    else (if rows[0].IsOutstanding() then [rows[0].Owed()] else []) + Outstanding(rows[1..])
  }

  function Among(wallets: seq<Wallet>): Debt -> bool {
    (d: Debt) => d.from in wallets && d.to in wallets
  }

  function RawDebts(rows: seq<ParticipantRow>, wallets: seq<Wallet>): seq<Debt> {
    Filter(Outstanding(rows), Among(wallets))
  }

  method LoadRawDebts(rows: seq<ParticipantRow>, walletAddresses: seq<Wallet>) returns (rawDebts: seq<Debt>)
    ensures rawDebts == RawDebts(rows, walletAddresses)
  {
    rawDebts := [];
    for i := 0 to |rows|
      invariant rawDebts + RawDebts(rows[i..], walletAddresses) == RawDebts(rows, walletAddresses)
    {
      var p := rows[i];
      ghost var before, first := rawDebts, if p.IsOutstanding() then [p.Owed()] else [];
      assert rows[i..][0] == p && rows[i..][1..] == rows[i + 1..];
      FilterConcat(first, Outstanding(rows[i + 1..]), Among(walletAddresses));
      if p.walletAddress.Some? && p.walletAddress.value in walletAddresses
         && !p.isPaid && !p.splitCompleted && !p.splitFrozen && !p.isDeleted && !p.splitDeleted {
        var balance := p.amountOwed - p.amountPaid;
        if balance > EPSILON {
          var creator := p.creatorWalletAddress;
          if creator.Some? && creator.value != Wallet("") && creator.value in walletAddresses {
            var asset := if p.preferredCurrency.Some? then p.preferredCurrency.value else DEFAULT_ASSET;
            rawDebts := rawDebts + [Debt(p.walletAddress.value, creator.value, balance, asset)];
          }
        }
      }
      assert rawDebts == before + Filter(first, Among(walletAddresses));
    }
    assert rows[|rows|..] == [];
    assert rows[0..] == rows;
  }

  // ----- What is loaded, in terms of the rows -----

  /** An open debt between two of the wallets: the participant of the row owes the creator of the split. */
  predicate Owes(p: ParticipantRow, wallets: seq<Wallet>, from: Wallet, to: Wallet, asset: Asset) {
    && !p.isPaid && !p.isDeleted
    && !p.splitCompleted && !p.splitFrozen && !p.splitDeleted
    && p.amountOwed - p.amountPaid > 100
    && p.walletAddress == Some(from) && from in wallets
    && p.creatorWalletAddress == Some(to) && to != Wallet("") && to in wallets
    && (match p.preferredCurrency case Some(currency) => asset == currency case None => asset == Asset("XLM"))
  }

  function OpenAmount(wallets: seq<Wallet>, from: Wallet, to: Wallet, asset: Asset): ParticipantRow -> int {
    (p: ParticipantRow) => if Owes(p, wallets, from, to, asset) then p.amountOwed - p.amountPaid else 0
  }

  function AmountBetween(from: Wallet, to: Wallet, asset: Asset): Debt -> int {
    (d: Debt) => if d.from == from && d.to == to && d.asset == asset then d.amount else 0
  }

  function LoadedOf(p: ParticipantRow, wallets: seq<Wallet>): seq<Debt> {
    if p.IsOutstanding() && Among(wallets)(p.Owed()) then [p.Owed()] else []
  }

  lemma RawDebtsFirst(rows: seq<ParticipantRow>, wallets: seq<Wallet>)
    requires rows != []
    ensures RawDebts(rows, wallets) == LoadedOf(rows[0], wallets) + RawDebts(rows[1..], wallets)
  {
    FilterConcat(if rows[0].IsOutstanding() then [rows[0].Owed()] else [], Outstanding(rows[1..]), Among(wallets));
  }

  lemma RowIsLoaded(p: ParticipantRow, wallets: seq<Wallet>, from: Wallet, to: Wallet, asset: Asset)
    ensures var loaded := LoadedOf(p, wallets);
      && (Owes(p, wallets, from, to, asset) ==> loaded == [Debt(from, to, p.amountOwed - p.amountPaid, asset)])
      && (loaded != [] ==>
        var d := loaded[0];
        Owes(p, wallets, d.from, d.to, d.asset) && loaded == [d] && d.amount == p.amountOwed - p.amountPaid)
      && Sum(loaded, AmountBetween(from, to, asset)) == OpenAmount(wallets, from, to, asset)(p)
  {
  }

  /** For every pair of wallets and asset, the debts loaded add up to what the qualifying rows leave open. */
  lemma {:induction false} LoadedTotals(
    rows: seq<ParticipantRow>, wallets: seq<Wallet>, from: Wallet, to: Wallet, asset: Asset)
    ensures Sum(RawDebts(rows, wallets), AmountBetween(from, to, asset))
         == Sum(rows, OpenAmount(wallets, from, to, asset))
  {
    if rows != [] {
      LoadedTotals(rows[1..], wallets, from, to, asset);
      RawDebtsFirst(rows, wallets);
      RowIsLoaded(rows[0], wallets, from, to, asset);
      SumConcat(LoadedOf(rows[0], wallets), RawDebts(rows[1..], wallets), AmountBetween(from, to, asset));
    }
  }

  /** A debt is loaded exactly for a row that qualifies, from its participant to the creator of its split. */
  lemma {:induction false} LoadedExactly(rows: seq<ParticipantRow>, wallets: seq<Wallet>, d: Debt)
    ensures d in RawDebts(rows, wallets) <==>
      exists p <- rows :: Owes(p, wallets, d.from, d.to, d.asset) && d.amount == p.amountOwed - p.amountPaid
  {
    if rows != [] {
      LoadedExactly(rows[1..], wallets, d);
      RawDebtsFirst(rows, wallets);
      RowIsLoaded(rows[0], wallets, d.from, d.to, d.asset);
    }
  }

  // ----- Keys -----

  predicate LexLe(a: string, b: string) {
    a == [] || (b != [] && (a[0] < b[0] || (a[0] == b[0] && LexLe(a[1..], b[1..]))))
  }

  predicate Le(a: Wallet, b: Wallet) {
    LexLe(a.address, b.address)
  }

  function SortIds(ids: seq<Wallet>): seq<Wallet> {
    if ids == [] then [] else InsertId(ids[0], SortIds(ids[1..]))
  }

  function InsertId(w: Wallet, sorted: seq<Wallet>): seq<Wallet> {
    if sorted == [] || Le(w, sorted[0]) then [w] + sorted
    else [sorted[0]] + InsertId(w, sorted[1..])
  }

  ghost predicate SortedIds(ids: seq<Wallet>) {
    forall i, j :: 0 <= i < j < |ids| ==> Le(ids[i], ids[j])
  }

  lemma {:induction false} LexOrder(a: string, b: string, c: string)
    ensures LexLe(a, b) || LexLe(b, a)
    ensures LexLe(a, b) && LexLe(b, a) ==> a == b
    ensures LexLe(a, b) && LexLe(b, c) ==> LexLe(a, c)
  {
    if a != [] && b != [] && a[0] == b[0] {
      LexOrder(a[1..], b[1..], if c == [] then [] else c[1..]);
      assert a == [a[0]] + a[1..] && b == [b[0]] + b[1..];
    }
  }

  lemma {:induction false} InsertIdKeeps(w: Wallet, sorted: seq<Wallet>)
    requires SortedIds(sorted)
    ensures SortedIds(InsertId(w, sorted))
    ensures multiset(InsertId(w, sorted)) == multiset(sorted) + multiset{w}
  {
    if sorted == [] {
    } else if Le(w, sorted[0]) {
      forall j | 0 <= j < |sorted|
        ensures Le(w, sorted[j])
      {
        LexOrder(w.address, sorted[0].address, sorted[j].address);
      }
    } else {
      var rest := InsertId(w, sorted[1..]);
      InsertIdKeeps(w, sorted[1..]);
      assert sorted == [sorted[0]] + sorted[1..];
      assert multiset(sorted) == multiset{sorted[0]} + multiset(sorted[1..]);
      assert multiset([sorted[0]] + rest) == multiset{sorted[0]} + multiset(rest);
      LexOrder(w.address, sorted[0].address, "");
      forall j | 0 <= j < |rest|
        ensures Le(sorted[0], rest[j])
      {
        assert rest[j] in multiset(rest);
      }
    }
  }

  lemma {:induction false} SortIdsKeeps(ids: seq<Wallet>)
    ensures SortedIds(SortIds(ids)) && multiset(SortIds(ids)) == multiset(ids)
  {
    if ids != [] {
      SortIdsKeeps(ids[1..]);
      InsertIdKeeps(ids[0], SortIds(ids[1..]));
      assert ids == [ids[0]] + ids[1..];
    }
  }

  /** The head of a sorted list is at or before every member. */
  lemma HeadIsLeast(ids: seq<Wallet>, w: Wallet)
    requires SortedIds(ids) && w in multiset(ids)
    ensures Le(ids[0], w)
  {
    var i :| 0 <= i < |ids| && ids[i] == w;
    LexOrder(w.address, w.address, w.address);
  }

  lemma SameHead(a: seq<Wallet>, b: seq<Wallet>)
    requires SortedIds(a) && SortedIds(b) && multiset(a) == multiset(b)
    requires a != [] && b != []
    ensures a[0] == b[0] && multiset(a[1..]) == multiset(b[1..])
  {
    assert b[0] in multiset(a) && a[0] in multiset(b);
    HeadIsLeast(a, b[0]);
    HeadIsLeast(b, a[0]);
    LexOrder(a[0].address, b[0].address, "");
    TailMultiset(a);
    TailMultiset(b);
  }

  lemma TailMultiset(a: seq<Wallet>)
    requires a != []
    ensures multiset(a[1..]) == multiset(a) - multiset{a[0]}
  {
    assert a == [a[0]] + a[1..];
  }

  lemma {:induction false} SortedIdsUnique(a: seq<Wallet>, b: seq<Wallet>)
    requires SortedIds(a) && SortedIds(b) && multiset(a) == multiset(b)
    ensures a == b
  {
    assert |multiset(a)| == |a| && |multiset(b)| == |b|;
    if a != [] {
      SameHead(a, b);
      SortedIdsUnique(a[1..], b[1..]);
      assert a == [a[0]] + a[1..] && b == [b[0]] + b[1..];
    }
  }

  /** The cache key does not depend on the order in which the ids are passed. */
  lemma SortIdsCanonical(ids: seq<Wallet>, ids': seq<Wallet>)
    ensures SortIds(ids) == SortIds(ids') <==> multiset(ids) == multiset(ids')
  {
    SortIdsKeeps(ids);
    SortIdsKeeps(ids');
    if multiset(ids) == multiset(ids') {
      SortedIdsUnique(SortIds(ids), SortIds(ids'));
    }
  }

  // ----- Coherence -----

  ghost predicate Unaffected(rows: seq<ParticipantRow>, rows': seq<ParticipantRow>, wallets: set<Wallet>) {
    Filter(Outstanding(rows), (d: Debt) => d.from !in wallets)
      == Filter(Outstanding(rows'), (d: Debt) => d.from !in wallets)
  }

  ghost predicate Disjoint(ids: seq<Wallet>, wallets: set<Wallet>) {
    forall w <- ids :: w !in wallets
  }

  /** A change to other wallets' debts does not reach a calculation that leaves them out. */
  lemma RawDebtsUnaffected(
    rows: seq<ParticipantRow>, rows': seq<ParticipantRow>, wallets: set<Wallet>, ids: seq<Wallet>)
    requires Unaffected(rows, rows', wallets) && Disjoint(ids, wallets)
    ensures RawDebts(rows, ids) == RawDebts(rows', ids)
  {
    FilterTwice(Outstanding(rows), (d: Debt) => d.from !in wallets, Among(ids));
    FilterTwice(Outstanding(rows'), (d: Debt) => d.from !in wallets, Among(ids));
  }

  lemma {:induction false} FilterTwice<T>(s: seq<T>, p: T -> bool, q: T -> bool)
    requires forall x :: q(x) ==> p(x)
    ensures Filter(Filter(s, p), q) == Filter(s, q)
  {
    if s != [] {
      FilterTwice(s[1..], p, q);
    }
  }

  ghost predicate Fresh(r: SimplifiedDebt, rows: seq<ParticipantRow>) {
    r.debts == Simplified(RawDebts(rows, r.calculatedForUserIds))
  }

  ghost predicate SameKey(r: SimplifiedDebt, s: SimplifiedDebt) {
    r.calculatedForUserIds == s.calculatedForUserIds && r.groupId == s.groupId
  }

  ghost predicate UniqueKeys(records: seq<SimplifiedDebt>) {
    forall i, j :: 0 <= i < j < |records| ==> !SameKey(records[i], records[j])
  }

  /** Every record whose wallets have all been invalidated since their debts changed is fresh. */
  ghost predicate Coherent(records: seq<SimplifiedDebt>, rows: seq<ParticipantRow>, stale: set<Wallet>) {
    forall r <- records :: Disjoint(r.calculatedForUserIds, stale) ==> Fresh(r, rows)
  }

  lemma {:induction false} FilterUniqueKeys(records: seq<SimplifiedDebt>, p: SimplifiedDebt -> bool)
    requires UniqueKeys(records)
    ensures UniqueKeys(Filter(records, p))
    ensures forall r :: r in Filter(records, p) <==> r in records && p(r)
  {
    if records != [] {
      FilterUniqueKeys(records[1..], p);
      var rest := Filter(records[1..], p);
      forall j | 0 <= j < |rest|
        ensures !SameKey(records[0], rest[j])
      {
        assert rest[j] in records[1..];
      }
    }
  }

  class DebtSimplificationService {
    var participants: seq<ParticipantRow>
    var records: seq<SimplifiedDebt>
    ghost var stale: set<Wallet>

    ghost predicate Valid()
      reads this
    {
      UniqueKeys(records) && Coherent(records, participants, stale)
    }

    constructor (participants: seq<ParticipantRow>)
      ensures Valid() && this.participants == participants && stale == {}
    {
      this.participants, records, stale := participants, [], {};
    }

    method FindValidCache(sortedUserIds: seq<Wallet>, groupId: Option<GroupId>, now: int)
      returns (r: Option<SimplifiedDebt>)
      ensures r.Some? ==>
        && r.value in records && r.value.calculatedForUserIds == sortedUserIds
        && r.value.groupId == groupId && r.value.expiresAt > now
      ensures r.None? ==> forall s <- records ::
        s.calculatedForUserIds == sortedUserIds && s.groupId == groupId ==> s.expiresAt <= now
      ensures UniqueKeys(records) && r.Some? ==> forall s <- records ::
        s.calculatedForUserIds == sortedUserIds && s.groupId == groupId ==> s == r.value
    {
      r := None;
      for i := 0 to |records|
        invariant r.Some? ==>
          && r.value in records && r.value.calculatedForUserIds == sortedUserIds
          && r.value.groupId == groupId && r.value.expiresAt > now
        invariant r.None? ==> forall s <- records[..i] ::
          s.calculatedForUserIds == sortedUserIds && s.groupId == groupId ==> s.expiresAt <= now
      {
        var s := records[i];
        if s.calculatedForUserIds == sortedUserIds && s.groupId == groupId && s.expiresAt > now {
          r := Some(s);
        }
      }
      assert records[..|records|] == records;
    }

    /**
      The answer for `userIds` at `now`. It is the fresh simplification unless the debts of one
      of these wallets changed without an invalidation.
     */
    method Calculate(userIds: seq<Wallet>, groupId: Option<GroupId>, now: int) returns (r: SimplifiedDebt)
      requires Valid()
      modifies this`records
      ensures Valid()
      ensures r in records && r.expiresAt > now
      ensures r.calculatedForUserIds == SortIds(userIds) && r.groupId == groupId
      ensures Disjoint(userIds, stale) ==> r.debts == Simplified(RawDebts(participants, SortIds(userIds)))
    {
      var sortedIds := SortIds(userIds);
      SortIdsKeeps(userIds);
      var cached := FindValidCache(sortedIds, groupId, now);
      if cached.Some? {
        r := cached.value;
      } else {
        r := Recalculate(sortedIds, groupId, now);
      }
      forall w | Disjoint(userIds, stale) && w in sortedIds
        ensures w !in stale
      {
        assert w in multiset(userIds);
      }
    }

    method Recalculate(sortedUserIds: seq<Wallet>, groupId: Option<GroupId>, now: int) returns (r: SimplifiedDebt)
      requires Valid()
      modifies this`records
      ensures Valid()
      ensures var debts := Simplified(RawDebts(participants, sortedUserIds));
        r == SimplifiedDebt(groupId, sortedUserIds, debts, now + CACHE_TTL_MS)
      ensures r.expiresAt == now + 24 * 60 * 60 * 1000
      ensures forall s :: s in records <==>
        s == r || (s in old(records) && !(s.calculatedForUserIds == sortedUserIds && s.groupId == groupId))
    {
      var rawDebts := LoadRawDebts(participants, sortedUserIds);
      var graphResult := Simplify(rawDebts);
      InvalidateCacheForUsers(sortedUserIds, groupId);
      r := SimplifiedDebt(groupId, sortedUserIds, graphResult.simplifiedDebts, now + CACHE_TTL_MS);
      records := records + [r];
    }

    method InvalidateCacheForUsers(sortedUserIds: seq<Wallet>, groupId: Option<GroupId>)
      requires Valid()
      modifies this`records
      ensures Valid()
      ensures forall s :: s in records <==>
        s in old(records) && !(s.calculatedForUserIds == sortedUserIds && s.groupId == groupId)
    {
      var p := (s: SimplifiedDebt) => !(s.calculatedForUserIds == sortedUserIds && s.groupId == groupId);
      FilterUniqueKeys(records, p);
      records := Filter(records, p);
    }

    /** Deletes every record that covers one of the wallets; their debts are then no longer stale. */
    method InvalidateForWallets(walletAddresses: seq<Wallet>)
      requires Valid()
      modifies this`records, this`stale
      ensures Valid()
      ensures stale == old(stale) - set w <- walletAddresses
      ensures forall r :: r in records <==>
        r in old(records) && forall w <- walletAddresses :: w !in r.calculatedForUserIds
    {
      for i := 0 to |walletAddresses|
        invariant UniqueKeys(records) && Coherent(records, participants, stale)
        invariant stale == old(stale)
        invariant forall r :: r in records <==>
          r in old(records) && forall w <- walletAddresses[..i] :: w !in r.calculatedForUserIds
      {
        var p := (s: SimplifiedDebt) => walletAddresses[i] !in s.calculatedForUserIds;
        FilterUniqueKeys(records, p);
        assert walletAddresses[..i + 1] == walletAddresses[..i] + [walletAddresses[i]];
        records := Filter(records, p);
      }
      assert walletAddresses[..|walletAddresses|] == walletAddresses;
      stale := stale - set w <- walletAddresses;
    }

    method InvalidateForGroup(groupId: GroupId)
      requires Valid()
      modifies this`records
      ensures Valid()
      ensures forall r :: r in records <==> r in old(records) && r.groupId != Some(groupId)
    {
      var p := (s: SimplifiedDebt) => s.groupId != Some(groupId);
      FilterUniqueKeys(records, p);
      records := Filter(records, p);
    }

    method CleanExpiredCache(now: int) returns (affected: nat)
      requires Valid()
      modifies this`records
      ensures Valid()
      ensures forall r :: r in records <==> r in old(records) && r.expiresAt >= now
      ensures affected + |records| == |old(records)|
    {
      var p := (s: SimplifiedDebt) => s.expiresAt >= now;
      FilterUniqueKeys(records, p);
      FilterShrinks(records, p);
      affected := |records| - |Filter(records, p)|;
      records := Filter(records, p);
    }

    /** The environment: payments, freezes and new splits change the debts of some wallets. */
    method DebtsChange(rows: seq<ParticipantRow>, ghost wallets: set<Wallet>)
      requires Valid()
      requires Unaffected(participants, rows, wallets)
      modifies this`participants, this`stale
      ensures Valid()
      ensures participants == rows && stale == old(stale) + wallets
    {
      forall r | r in records && Disjoint(r.calculatedForUserIds, stale + wallets)
        ensures Fresh(r, rows)
      {
        RawDebtsUnaffected(participants, rows, wallets, r.calculatedForUserIds);
      }
      participants, stale := rows, stale + wallets;
    }
  }

  lemma {:induction false} FilterShrinks<T>(s: seq<T>, p: T -> bool)
    ensures |Filter(s, p)| <= |s|
  {
    if s != [] {
      FilterShrinks(s[1..], p);
    }
  }
}
