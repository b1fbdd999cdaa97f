/**
  The debt simplifier: outstanding debts are netted per wallet and settled by repeatedly
  matching the largest debtor with the largest creditor.

  Amounts are integers counting millionths of a unit, the grain to which emitted amounts are
  rounded. Stored amounts are decimals of scale 2, so they are multiples of CENT here.
 */
module DebtGraph {
  import opened Sums

  datatype Wallet = Wallet(address: string)
  datatype Asset = Asset(code: string)

  /** A raw debt and a simplified edge have the same fields: `from` owes `to`. */
  datatype Debt = Debt(from: Wallet, to: Wallet, amount: int, asset: Asset)

  datatype Balance = Balance(wallet: Wallet, net: int)

  datatype Group = Group(asset: Asset, debts: seq<Debt>)

  const EPSILON := 100      // 0.0001
  const CENT := 10_000      // 0.01

  predicate Grained(debts: seq<Debt>) {
    forall d <- debts :: d.amount % CENT == 0
  }

  function Abs(x: int): nat {
    if x < 0 then -x else x
  }

  function Min(x: int, y: int): int {
    if x <= y then x else y
  }

  function Max(x: int, y: int): int {
    if x >= y then x else y
  }

  // ----- What is measured -----

  /** What debt `d` adds to the balance of wallet `w` in asset `a`. */
  function FlowOf(a: Asset, w: Wallet): Debt -> int {
    (d: Debt) =>
      if d.asset != a then 0
      else (if d.to == w then d.amount else 0) - (if d.from == w then d.amount else 0)
  }

  function AmountIn(a: Asset): Debt -> int {
    (d: Debt) => if d.asset == a then d.amount else 0
  }

  /** Incoming minus outgoing of wallet `w` in asset `a`. */
  function Net(debts: seq<Debt>, a: Asset, w: Wallet): int {
    Sum(debts, FlowOf(a, w))
  }

  /** The amount of asset `a` moved by a list of debts. */
  function Moved(debts: seq<Debt>, a: Asset): int {
    Sum(debts, AmountIn(a))
  }

  function At(w: Wallet): Balance -> int {
    (b: Balance) => if b.wallet == w then b.net else 0
  }

  function Amount(): Balance -> int {
    (b: Balance) => b.net
  }

  function Credit(): Balance -> int {
    (b: Balance) => if b.net > 0 then b.net else 0
  }

  function In(a: Asset): Debt -> bool {
    (d: Debt) => d.asset == a
  }

  function WalletsOf(debts: seq<Debt>): set<Wallet> {
    (set d <- debts :: d.from) + (set d <- debts :: d.to)
  }

  /** The wallets of a list of debts that do not come out even in asset `a`. */
  function Unsettled(debts: seq<Debt>, a: Asset): set<Wallet> {
    set w <- WalletsOf(debts) | Net(debts, a, w) != 0
  }

  // ----- The algorithm as functions -----

  /** `map.set(w, (map.get(w) ?? 0) + delta)` on a map that keeps insertion order. */
  function Post(balance: seq<Balance>, w: Wallet, delta: int): seq<Balance> {
    if balance == [] then [Balance(w, delta)]
    else if balance[0].wallet == w then [Balance(w, balance[0].net + delta)] + balance[1..]
    else [balance[0]] + Post(balance[1..], w, delta)
  }

  function PostDebt(balance: seq<Balance>, d: Debt): seq<Balance> {
    Post(Post(balance, d.from, -d.amount), d.to, d.amount)
  }

  function Balances(debts: seq<Debt>): seq<Balance> {
    if debts == [] then []
    else PostDebt(Balances(debts[..|debts| - 1]), debts[|debts| - 1])
  }

  function Significant(): Balance -> bool {
    (b: Balance) => Abs(b.net) > EPSILON
  }

  /** The stable ascending sort by net. */
  function SortByNet(nets: seq<Balance>): (r: seq<Balance>)
    ensures |r| == |nets|
  {
    if nets == [] then [] else Insert(nets[0], SortByNet(nets[1..]))
  }

  function Insert(b: Balance, sorted: seq<Balance>): (r: seq<Balance>)
    ensures |r| == |sorted| + 1
  {
    if sorted == [] || b.net <= sorted[0].net then [b] + sorted
    else [sorted[0]] + Insert(b, sorted[1..])
  }

  /** The first wallet of a sorted list pays `amount` to the last. */
  function Exchange(nets: seq<Balance>, amount: int): (r: seq<Balance>)
    requires nets != []
    ensures |r| == |nets|
  {
    var last := |nets| - 1;
    var paid := nets[0 := nets[0].(net := nets[0].net + amount)];
    paid[last := paid[last].(net := paid[last].net - amount)]
  }

  /** An end that is settled leaves the list. */
  function DropSettledEnds(nets: seq<Balance>): seq<Balance>
    requires nets != []
  {
    var front := if Abs(nets[0].net) < EPSILON then nets[1..] else nets;
    if Abs(nets[|nets| - 1].net) < EPSILON && front != [] then front[..|front| - 1] else front
  }

  function AfterSettling(nets: seq<Balance>, amount: int): seq<Balance>
    requires nets != []
  {
    DropSettledEnds(Exchange(nets, amount))
  }

  /** The loop goes on: both ends of the sorted list are open and the first one owes. */
  predicate Open(sorted: seq<Balance>) {
    && sorted != []
    && Abs(sorted[0].net) >= EPSILON
    && Abs(sorted[|sorted| - 1].net) >= EPSILON
    && sorted[0].net < 0
  }

  function SettleAmount(sorted: seq<Balance>): int
    requires sorted != []
  {
    Min(Abs(sorted[0].net), sorted[|sorted| - 1].net)
  }

  /** The edges that the settling loop emits from `nets`. */
  function Settle(asset: Asset, nets: seq<Balance>): seq<Debt>
    decreases |nets|
  {
    var sorted := SortByNet(nets);
    if !Open(sorted) then []
    else
      var amount := SettleAmount(sorted);
      var edge := Debt(sorted[0].wallet, sorted[|sorted| - 1].wallet, amount, asset);
      var rest := AfterSettling(sorted, amount);
      if |rest| < 2 then [edge]
      else
        RoundShrinks(sorted);
        [edge] + Settle(asset, rest)
  }

  /** A round either ends the loop or removes a wallet. */
  lemma RoundShrinks(sorted: seq<Balance>)
    requires Open(sorted)
    ensures |AfterSettling(sorted, SettleAmount(sorted))| < Max(|sorted|, 2)
  {
  }

  function SettledAsset(asset: Asset, debts: seq<Debt>): seq<Debt> {
    Settle(asset, Nets(debts))
  }

  function Nets(debts: seq<Debt>): seq<Balance> {
    Filter(Balances(debts), Significant())
  }

  function AddToGroup(groups: seq<Group>, d: Debt): seq<Group> {
    if groups == [] then [Group(d.asset, [d])]
    else if groups[0].asset == d.asset then [Group(d.asset, groups[0].debts + [d])] + groups[1..]
    else [groups[0]] + AddToGroup(groups[1..], d)
  }

  function Grouped(debts: seq<Debt>): seq<Group> {
    if debts == [] then []
    else AddToGroup(Grouped(debts[..|debts| - 1]), debts[|debts| - 1])
  }

  function SettledGroups(groups: seq<Group>): seq<Debt> {
    if groups == [] then []
    else SettledAsset(groups[0].asset, groups[0].debts) + SettledGroups(groups[1..])
  }

  function Simplified(debts: seq<Debt>): seq<Debt> {
    SettledGroups(Grouped(debts))
  }

  // ----- The algorithm as the service runs it -----

  datatype DebtGraphResult = DebtGraphResult(
    simplifiedDebts: seq<Debt>,
    originalTransactionCount: nat,
    simplifiedTransactionCount: nat,
    savingsHundredths: nat)

  /** The saved share of transactions in hundredths of a percent, rounded, and never below zero. */
  function SavingsHundredths(original: nat, simplified: nat): nat {
    if simplified >= original then 0
    else (20_000 * (original - simplified) + original) / (2 * original)
  }

  /** It is as near as a whole number of hundredths gets, and at most 100 percent. */
  lemma SavingsAreRounded(original: nat, simplified: nat)
    ensures simplified <= original ==>
      var share := 20_000 * (original - simplified);
      share - original <= 2 * original * SavingsHundredths(original, simplified) <= share + original
    ensures simplified > original ==> SavingsHundredths(original, simplified) == 0
    ensures SavingsHundredths(original, simplified) <= 10_000
  {
    if simplified < original {
      DivideBounds(20_000 * (original - simplified) + original, 2 * original, 10_000);
    }
  }

  lemma DivideBounds(x: nat, n: nat, max: nat)
    requires n > 0 && x < (max + 1) * n
    ensures n * (x / n) <= x < n * (x / n) + n
    ensures x / n <= max
  {
    assert x == n * (x / n) + x % n;
    if x / n > max {
      assert false;
    }
  }

  method SimplifyAsset(asset: Asset, debts: seq<Debt>) returns (result: seq<Debt>)
    ensures result == SettledAsset(asset, debts)
  {
    var balance := [];
    for i := 0 to |debts|
      invariant balance == Balances(debts[..i])
    {
      assert debts[..i + 1][..i] == debts[..i];
      balance := Post(balance, debts[i].from, -debts[i].amount);
      balance := Post(balance, debts[i].to, debts[i].amount);
    }
    assert debts[..|debts|] == debts;

    result := SettleNets(asset, Filter(balance, Significant()));
  }

  method SettleNets(asset: Asset, participants: seq<Balance>) returns (result: seq<Debt>)
    ensures result == Settle(asset, participants)
  {
    var nets := participants;
    result := [];
    while true
      invariant result + Settle(asset, nets) == Settle(asset, participants)
      decreases |nets|
    {
      ghost var open, emitted := nets, result;
      nets := SortByNet(nets);
      if nets == [] {
        break;
      }
      var debtor, creditor := nets[0], nets[|nets| - 1];
      if Abs(debtor.net) < EPSILON || Abs(creditor.net) < EPSILON {
        break;
      }
      if debtor.net >= 0 {
        break;
      }
      var settleAmount := Min(Abs(debtor.net), creditor.net);
      result := result + [Debt(debtor.wallet, creditor.wallet, settleAmount, asset)];
      RoundShrinks(nets);
      nets := PayAndReceive(nets, settleAmount);
      if |nets| < 2 {
        assert result == emitted + Settle(asset, open);
        break;
      }
      assert result + Settle(asset, nets) == emitted + Settle(asset, open);
    }
  }

  method PayAndReceive(sorted: seq<Balance>, amount: int) returns (nets: seq<Balance>)
    requires sorted != []
    ensures nets == AfterSettling(sorted, amount)
  {
    nets := sorted;
    var last := |nets| - 1;
    nets := nets[0 := nets[0].(net := nets[0].net + amount)];
    nets := nets[last := nets[last].(net := nets[last].net - amount)];
    var creditorSettled := Abs(nets[last].net) < EPSILON;
    if Abs(nets[0].net) < EPSILON {
      nets := nets[1..];
    }
    if creditorSettled && nets != [] {
      nets := nets[..|nets| - 1];
    }
  }

  method Simplify(rawDebts: seq<Debt>) returns (r: DebtGraphResult)
    ensures r.simplifiedDebts == Simplified(rawDebts)
    ensures r.originalTransactionCount == |rawDebts|
    ensures r.simplifiedTransactionCount == |r.simplifiedDebts|
    ensures r.savingsHundredths == SavingsHundredths(|rawDebts|, |r.simplifiedDebts|)
  {
    if |rawDebts| == 0 {
      return DebtGraphResult([], 0, 0, 0);
    }
    var byAsset := [];
    for i := 0 to |rawDebts|
      invariant byAsset == Grouped(rawDebts[..i])
    {
      assert rawDebts[..i + 1][..i] == rawDebts[..i];
      byAsset := AddToGroup(byAsset, rawDebts[i]);
    }
    assert rawDebts[..|rawDebts|] == rawDebts;

    var simplifiedDebts := SettleGroups(byAsset);
    r := DebtGraphResult(
      simplifiedDebts, |rawDebts|, |simplifiedDebts|, SavingsHundredths(|rawDebts|, |simplifiedDebts|));
  }

  method SettleGroups(byAsset: seq<Group>) returns (simplifiedDebts: seq<Debt>)
    ensures simplifiedDebts == SettledGroups(byAsset)
  {
    simplifiedDebts := [];
    for i := 0 to |byAsset|
      invariant simplifiedDebts + SettledGroups(byAsset[i..]) == SettledGroups(byAsset)
    {
      var assetDebts := SimplifyAsset(byAsset[i].asset, byAsset[i].debts);
      SettledGroupsNext(byAsset, i, simplifiedDebts);
      simplifiedDebts := simplifiedDebts + assetDebts;
    }
  }

  lemma SettledGroupsNext(byAsset: seq<Group>, i: nat, settled: seq<Debt>)
    requires i < |byAsset|
    ensures var next := SettledAsset(byAsset[i].asset, byAsset[i].debts);
      settled + SettledGroups(byAsset[i..]) == (settled + next) + SettledGroups(byAsset[i + 1..])
  {
    assert byAsset[i..][1..] == byAsset[i + 1..];
  }
}
