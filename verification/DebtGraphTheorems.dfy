/** What simplification keeps, bounds and minimises, for every list of debts in whole cents. */
module DebtGraphTheorems {
  import opened Sums
  import opened DebtGraph

  // ----- Netting -----

  ghost predicate Fresh(nets: seq<Balance>, w: Wallet) {
    forall b <- nets :: b.wallet != w
  }

  ghost predicate Distinct(nets: seq<Balance>) {
    nets == [] || (Fresh(nets[1..], nets[0].wallet) && Distinct(nets[1..]))
  }

  lemma {:induction false} DistinctByIndex(nets: seq<Balance>)
    ensures Distinct(nets) <==> forall i, j :: 0 <= i < j < |nets| ==> nets[i].wallet != nets[j].wallet
  {
    if nets != [] {
      var tail := nets[1..];
      DistinctByIndex(tail);
      assert forall i :: 0 <= i < |tail| ==> tail[i] == nets[i + 1];
      if Distinct(nets) {
        forall i, j | 0 <= i < j < |nets|
          ensures nets[i].wallet != nets[j].wallet
        {
          assert nets[j] == tail[j - 1] && tail[j - 1] in tail;
          assert i > 0 ==> nets[i] == tail[i - 1];
        }
      } else if Fresh(tail, nets[0].wallet) {
        var i, j :| 0 <= i < j < |tail| && tail[i].wallet == tail[j].wallet;
        assert nets[i + 1].wallet == nets[j + 1].wallet;
      } else {
        var j :| 0 <= j < |tail| && tail[j].wallet == nets[0].wallet;
        assert nets[j + 1].wallet == nets[0].wallet;
      }
    }
  }

  ghost predicate CentBalances(nets: seq<Balance>) {
    forall b <- nets :: b.net % CENT == 0
  }

  lemma {:induction false} PostDistinct(balance: seq<Balance>, w: Wallet, delta: int)
    requires Distinct(balance) && CentBalances(balance) && delta % CENT == 0
    ensures Distinct(Post(balance, w, delta)) && CentBalances(Post(balance, w, delta))
    ensures forall b <- Post(balance, w, delta) :: b.wallet == w || b in balance
  {
    if balance != [] && balance[0].wallet != w {
      PostDistinct(balance[1..], w, delta);
    }
  }

  lemma {:induction false} PostAdds(balance: seq<Balance>, w: Wallet, delta: int, x: Wallet)
    ensures Sum(Post(balance, w, delta), At(x)) == Sum(balance, At(x)) + if x == w then delta else 0
    ensures Sum(Post(balance, w, delta), Amount()) == Sum(balance, Amount()) + delta
  {
    if balance != [] && balance[0].wallet != w {
      PostAdds(balance[1..], w, delta, x);
    }
  }

  lemma PostDebtDistinct(balance: seq<Balance>, d: Debt)
    requires Distinct(balance) && CentBalances(balance) && d.amount % CENT == 0
    ensures Distinct(PostDebt(balance, d)) && CentBalances(PostDebt(balance, d))
  {
    CentsAdd(0, d.amount);
    PostDistinct(balance, d.from, -d.amount);
    PostDistinct(Post(balance, d.from, -d.amount), d.to, d.amount);
  }

  lemma {:induction false} BalancesDistinct(debts: seq<Debt>)
    requires Grained(debts)
    ensures Distinct(Balances(debts)) && CentBalances(Balances(debts))
  {
    if debts != [] {
      var front, d := debts[..|debts| - 1], debts[|debts| - 1];
      assert d in debts && forall e <- front :: e in debts;
      BalancesDistinct(front);
      PostDebtDistinct(Balances(front), d);
    }
  }

  lemma PostDebtAdds(balance: seq<Balance>, d: Debt, w: Wallet)
    ensures Sum(PostDebt(balance, d), At(w)) == Sum(balance, At(w)) + FlowOf(d.asset, w)(d)
    ensures Sum(PostDebt(balance, d), Amount()) == Sum(balance, Amount())
  {
    PostAdds(balance, d.from, -d.amount, w);
    PostAdds(Post(balance, d.from, -d.amount), d.to, d.amount, w);
  }

  lemma {:induction false} BalancesNet(asset: Asset, debts: seq<Debt>, w: Wallet)
    requires forall d <- debts :: d.asset == asset
    ensures Sum(Balances(debts), At(w)) == Net(debts, asset, w)
    ensures Sum(Balances(debts), Amount()) == 0
  {
    if debts != [] {
      var front, d := debts[..|debts| - 1], debts[|debts| - 1];
      assert debts == front + [d];
      BalancesNet(asset, front, w);
      PostDebtAdds(Balances(front), d, w);
      SumAppend(front, d, FlowOf(asset, w));
    }
  }

  // ----- Settling -----

  /** What the settling loop starts from and keeps: open cent balances that cancel out. */
  ghost predicate Settleable(nets: seq<Balance>) {
    && Distinct(nets)
    && CentBalances(nets)
    && (forall b <- nets :: b.net != 0)
    && Sum(nets, Amount()) == 0
  }

  lemma {:induction false} DistinctFilter(nets: seq<Balance>, p: Balance -> bool)
    requires Distinct(nets)
    ensures Distinct(Filter(nets, p))
  {
    if nets != [] {
      DistinctFilter(nets[1..], p);
      FilterMembers(nets[1..], p);
    }
  }

  lemma NetsKeepNet(asset: Asset, debts: seq<Debt>, w: Wallet)
    requires Grained(debts) && forall d <- debts :: d.asset == asset
    ensures Sum(Nets(debts), At(w)) == Net(debts, asset, w)
    ensures Sum(Nets(debts), Amount()) == 0
  {
    BalancesNet(asset, debts, w);
    DroppedAreZero(debts);
    SumFilter(Balances(debts), Significant(), At(w), At(w));
    SumFilter(Balances(debts), Significant(), Amount(), Amount());
  }

  /** On whole cents the filter before the loop drops zero balances only. */
  lemma DroppedAreZero(debts: seq<Debt>)
    requires Grained(debts)
    ensures forall b <- Balances(debts) :: Significant()(b) <==> b.net != 0
  {
    BalancesDistinct(debts);
    forall b | b in Balances(debts)
      ensures Significant()(b) <==> b.net != 0
    {
      CentsAreOpen(b.net);
    }
  }

  /** On whole cents the epsilon test is an exact test for zero. */
  lemma CentsAreOpen(net: int)
    requires net % CENT == 0
    ensures Abs(net) > EPSILON <==> net != 0
    ensures Abs(net) < EPSILON <==> net == 0
  {
  }

  /** The balances that enter the loop are those of more than 0.0001. */
  lemma NetsExactly(debts: seq<Debt>, b: Balance)
    ensures b in Nets(debts) <==> b in Balances(debts) && (b.net > 100 || b.net < -100)
  {
    FilterMembers(Balances(debts), Significant());
  }

  lemma NetsSettleable(asset: Asset, debts: seq<Debt>)
    requires Grained(debts) && forall d <- debts :: d.asset == asset
    ensures Settleable(Nets(debts))
  {
    NetsKeepNet(asset, debts, Wallet(""));
    BalancesDistinct(debts);
    DistinctFilter(Balances(debts), Significant());
    FilterMembers(Balances(debts), Significant());
  }

  ghost predicate Sorted(nets: seq<Balance>) {
    forall i, j :: 0 <= i < j < |nets| ==> nets[i].net <= nets[j].net
  }

  lemma {:induction false} InsertKeeps(b: Balance, sorted: seq<Balance>)
    requires Sorted(sorted)
    ensures Sorted(Insert(b, sorted))
    ensures forall x :: x in Insert(b, sorted) <==> x == b || x in sorted
    ensures Distinct(sorted) && Fresh(sorted, b.wallet) ==> Distinct(Insert(b, sorted))
    ensures forall f: Balance -> int :: Sum(Insert(b, sorted), f) == Sum(sorted, f) + f(b)
  {
    var r := Insert(b, sorted);
    if sorted == [] || b.net <= sorted[0].net {
      assert r[1..] == sorted;
    } else {
      InsertKeeps(b, sorted[1..]);
      var rest := Insert(b, sorted[1..]);
      assert r[1..] == rest && sorted == [sorted[0]] + sorted[1..];
      forall j | 0 <= j < |rest|
        ensures sorted[0].net <= rest[j].net
      {
        assert rest[j] in rest;
      }
    }
  }

  lemma {:induction false} SortKeeps(nets: seq<Balance>)
    ensures Sorted(SortByNet(nets))
    ensures forall x :: x in SortByNet(nets) <==> x in nets
    ensures Distinct(nets) ==> Distinct(SortByNet(nets))
    ensures forall f: Balance -> int :: Sum(SortByNet(nets), f) == Sum(nets, f)
  {
    if nets != [] {
      SortKeeps(nets[1..]);
      InsertKeeps(nets[0], SortByNet(nets[1..]));
    }
  }

  lemma {:induction false} SignOfSum(nets: seq<Balance>)
    requires nets != []
    ensures (forall b <- nets :: b.net > 0) ==> Sum(nets, Amount()) > 0
    ensures (forall b <- nets :: b.net < 0) ==> Sum(nets, Amount()) < 0
  {
    if |nets| > 1 {
      SignOfSum(nets[1..]);
    }
  }

  lemma SortedEnds(sorted: seq<Balance>, b: Balance)
    requires Sorted(sorted) && b in sorted
    ensures sorted[0].net <= b.net <= sorted[|sorted| - 1].net
  {
    var i :| 0 <= i < |sorted| && sorted[i] == b;
  }

  /** Balances that are open and cancel out have a debtor first and a creditor last once sorted. */
  lemma EndsDiffer(sorted: seq<Balance>)
    requires Settleable(sorted) && Sorted(sorted) && sorted != []
    ensures |sorted| >= 2 && sorted[0].net < 0 < sorted[|sorted| - 1].net
    ensures Open(sorted)
  {
    var debtor, creditor := sorted[0], sorted[|sorted| - 1];
    SignOfSum(sorted);
    assert debtor in sorted && creditor in sorted;
    forall b | b in sorted
      ensures debtor.net <= b.net <= creditor.net
    {
      SortedEnds(sorted, b);
    }
    CentsAreOpen(debtor.net);
    CentsAreOpen(creditor.net);
  }

  // ----- One round -----

  lemma ExchangeEnds(sorted: seq<Balance>, amount: int) returns (payer: Balance, payee: Balance)
    requires |sorted| >= 2
    ensures payer == Balance(sorted[0].wallet, sorted[0].net + amount)
    ensures payee == Balance(sorted[|sorted| - 1].wallet, sorted[|sorted| - 1].net - amount)
    ensures Exchange(sorted, amount) == sorted[0 := payer][|sorted| - 1 := payee]
  {
    payer := Balance(sorted[0].wallet, sorted[0].net + amount);
    payee := Balance(sorted[|sorted| - 1].wallet, sorted[|sorted| - 1].net - amount);
  }

  lemma ExchangeSum(sorted: seq<Balance>, amount: int, f: Balance -> int, payer: Balance, payee: Balance)
    requires |sorted| >= 2
    requires Exchange(sorted, amount) == sorted[0 := payer][|sorted| - 1 := payee]
    ensures Sum(Exchange(sorted, amount), f)
        == Sum(sorted, f) + f(payer) - f(sorted[0]) + f(payee) - f(sorted[|sorted| - 1])
  {
    SumUpdate(sorted, 0, payer, f);
    SumUpdate(sorted[0 := payer], |sorted| - 1, payee, f);
  }

  lemma DropSum(nets: seq<Balance>, f: Balance -> int)
    requires |nets| >= 2
    requires Abs(nets[0].net) < EPSILON ==> f(nets[0]) == 0
    requires Abs(nets[|nets| - 1].net) < EPSILON ==> f(nets[|nets| - 1]) == 0
    ensures Sum(DropSettledEnds(nets), f) == Sum(nets, f)
  {
    var front := if Abs(nets[0].net) < EPSILON then nets[1..] else nets;
    assert Sum(front, f) == Sum(nets, f);
    assert front[|front| - 1] == nets[|nets| - 1];
    SumInit(front, f);
  }

  /** A round keeps the remaining wallets in order and drops exactly the settled ends. */
  lemma RoundWallets(sorted: seq<Balance>, amount: int) returns (k: nat)
    requires |sorted| >= 2
    ensures var mid, rest := Exchange(sorted, amount), AfterSettling(sorted, amount);
      && (forall i :: 0 <= i < |mid| ==> mid[i].wallet == sorted[i].wallet)
      && (forall i :: 0 < i < |mid| - 1 ==> mid[i] == sorted[i])
      && k == (if Abs(mid[0].net) < EPSILON then 1 else 0)
      && |rest| + k == |mid| - (if Abs(mid[|mid| - 1].net) < EPSILON then 1 else 0)
      && rest == mid[k..k + |rest|]
  {
    k := if Abs(Exchange(sorted, amount)[0].net) < EPSILON then 1 else 0;
  }

  lemma RoundDistinct(sorted: seq<Balance>, amount: int)
    requires |sorted| >= 2 && Distinct(sorted)
    ensures Distinct(AfterSettling(sorted, amount))
  {
    var k := RoundWallets(sorted, amount);
    DistinctByIndex(sorted);
    DistinctByIndex(AfterSettling(sorted, amount));
  }

  /** One round moves `SettleAmount` from the first wallet to the last and changes nothing else. */
  lemma RoundNet(sorted: seq<Balance>, w: Wallet)
    requires Settleable(sorted) && Sorted(sorted) && sorted != []
    ensures var amount := SettleAmount(sorted);
      && amount > 0
      && Sum(AfterSettling(sorted, amount), At(w))
         == Sum(sorted, At(w)) + (if w == sorted[0].wallet then amount else 0)
            - if w == sorted[|sorted| - 1].wallet then amount else 0
  {
    EndsDiffer(sorted);
    RoundCents(sorted);
    var payer, payee := ExchangeEnds(sorted, SettleAmount(sorted));
    ExchangeSum(sorted, SettleAmount(sorted), At(w), payer, payee);
    DropSum(Exchange(sorted, SettleAmount(sorted)), At(w));
  }

  lemma SettleAmountCents(debt: int, credit: int)
    requires debt % CENT == 0 && credit % CENT == 0
    ensures Min(Abs(debt), credit) % CENT == 0
  {
  }

  lemma CentsAdd(x: int, y: int)
    requires x % CENT == 0 && y % CENT == 0
    ensures (x + y) % CENT == 0 && (x - y) % CENT == 0
  {
    var a, b := x / CENT, y / CENT;
    assert x == CENT * a && y == CENT * b;
    CentMultiple(a + b);
    CentMultiple(a - b);
  }

  lemma CentMultiple(k: int)
    ensures (CENT * k) % CENT == 0
  {
  }

  lemma RoundCents(sorted: seq<Balance>)
    requires Settleable(sorted) && Sorted(sorted) && sorted != []
    ensures forall b <- Exchange(sorted, SettleAmount(sorted)) ::
      b.net % CENT == 0 && (Abs(b.net) < EPSILON <==> b.net == 0)
  {
    EndsDiffer(sorted);
    var debtor, creditor := sorted[0], sorted[|sorted| - 1];
    assert debtor in sorted && creditor in sorted;
    var amount := SettleAmount(sorted);
    SettleAmountCents(debtor.net, creditor.net);
    CentsAdd(debtor.net, amount);
    CentsAdd(creditor.net, amount);
    var payer, payee := ExchangeEnds(sorted, amount);
    forall b | b in Exchange(sorted, amount)
      ensures b.net % CENT == 0 && (Abs(b.net) < EPSILON <==> b.net == 0)
    {
      assert b == payer || b == payee || b in sorted;
      CentsAreOpen(b.net);
    }
  }

  lemma RoundSums(sorted: seq<Balance>)
    requires Settleable(sorted) && Sorted(sorted) && sorted != []
    ensures var amount := SettleAmount(sorted);
      var rest := AfterSettling(sorted, amount);
      && Sum(rest, Amount()) == 0
      && Sum(rest, Credit()) == Sum(sorted, Credit()) - amount
  {
    EndsDiffer(sorted);
    RoundCents(sorted);
    var amount := SettleAmount(sorted);
    var payer, payee := ExchangeEnds(sorted, amount);
    ExchangeSum(sorted, amount, Amount(), payer, payee);
    DropSum(Exchange(sorted, amount), Amount());
    ExchangeSum(sorted, amount, Credit(), payer, payee);
    DropSum(Exchange(sorted, amount), Credit());
  }

  /** What is left after a round is open again, and one wallet alone never is. */
  lemma RoundOpen(sorted: seq<Balance>)
    requires Settleable(sorted) && Sorted(sorted) && sorted != []
    ensures var rest := AfterSettling(sorted, SettleAmount(sorted));
      |rest| < |sorted| && forall b <- rest :: b.net != 0 && b.net % CENT == 0
  {
    EndsDiffer(sorted);
    RoundCents(sorted);
    var amount := SettleAmount(sorted);
    var k := RoundWallets(sorted, amount);
    var payer, payee := ExchangeEnds(sorted, amount);
    var mid, rest := Exchange(sorted, amount), AfterSettling(sorted, amount);
    forall i | 0 <= i < |rest|
      ensures rest[i].net != 0 && rest[i].net % CENT == 0
    {
      assert rest[i] == mid[i + k] && mid[i + k] in mid;
      assert 0 < i + k < |sorted| - 1 ==> sorted[i + k] in sorted;
    }
  }

  lemma RoundSettleable(sorted: seq<Balance>)
    requires Settleable(sorted) && Sorted(sorted) && sorted != []
    ensures var rest := AfterSettling(sorted, SettleAmount(sorted));
      Settleable(rest) && |rest| < |sorted| && (|rest| < 2 ==> rest == [])
  {
    EndsDiffer(sorted);
    RoundDistinct(sorted, SettleAmount(sorted));
    RoundSums(sorted);
    RoundOpen(sorted);
  }

  // ----- The whole loop -----

  lemma {:induction false} SumAtWallet(nets: seq<Balance>, b: Balance)
    requires Distinct(nets)
    ensures Fresh(nets, b.wallet) ==> Sum(nets, At(b.wallet)) == 0
    ensures b in nets ==> Sum(nets, At(b.wallet)) == b.net
  {
    if nets != [] {
      SumAtWallet(nets[1..], b);
    }
  }

  lemma SettleUnfolds(asset: Asset, nets: seq<Balance>)
    requires Open(SortByNet(nets))
    ensures var sorted := SortByNet(nets);
      var rest := AfterSettling(sorted, SettleAmount(sorted));
      var edge := Debt(sorted[0].wallet, sorted[|sorted| - 1].wallet, SettleAmount(sorted), asset);
      |rest| != 1 ==> Settle(asset, nets) == [edge] + Settle(asset, rest)
  {
  }

  /** The first edge and the balances it leaves. */
  lemma FirstRound(asset: Asset, nets: seq<Balance>) returns (sorted: seq<Balance>, edge: Debt, rest: seq<Balance>)
    requires Settleable(nets) && nets != []
    ensures sorted == SortByNet(nets) && Settleable(sorted) && Sorted(sorted) && |sorted| == |nets| >= 2
    ensures forall f: Balance -> int :: Sum(sorted, f) == Sum(nets, f)
    ensures sorted[0].net < 0 < sorted[|sorted| - 1].net
    ensures edge == Debt(sorted[0].wallet, sorted[|sorted| - 1].wallet, SettleAmount(sorted), asset)
    ensures rest == AfterSettling(sorted, SettleAmount(sorted)) && Settleable(rest) && |rest| < |nets|
    ensures Settle(asset, nets) == [edge] + Settle(asset, rest)
  {
    sorted := SortByNet(nets);
    SortKeeps(nets);
    EndsDiffer(sorted);
    RoundSettleable(sorted);
    edge := Debt(sorted[0].wallet, sorted[|sorted| - 1].wallet, SettleAmount(sorted), asset);
    rest := AfterSettling(sorted, SettleAmount(sorted));
    SettleUnfolds(asset, nets);
  }

  lemma {:induction false} SettleKeepsNet(asset: Asset, nets: seq<Balance>, w: Wallet)
    requires Settleable(nets)
    ensures Net(Settle(asset, nets), asset, w) == Sum(nets, At(w))
    decreases |nets|
  {
    if nets != [] {
      var sorted, edge, rest := FirstRound(asset, nets);
      RoundNet(sorted, w);
      SettleKeepsNet(asset, rest, w);
      SumConcat([edge], Settle(asset, rest), FlowOf(asset, w));
    }
  }

  lemma {:induction false} SettleMovesCredit(asset: Asset, nets: seq<Balance>)
    requires Settleable(nets)
    ensures Moved(Settle(asset, nets), asset) == Sum(nets, Credit())
    ensures |Settle(asset, nets)| <= if nets == [] then 0 else |nets| - 1
    decreases |nets|
  {
    if nets != [] {
      var sorted, edge, rest := FirstRound(asset, nets);
      RoundSums(sorted);
      SettleMovesCredit(asset, rest);
      SumConcat([edge], Settle(asset, rest), AmountIn(asset));
    }
  }

  /** Every edge is positive and runs from a wallet that owes to a wallet that is owed. */
  lemma {:induction false} SettleDirects(asset: Asset, nets: seq<Balance>, e: Debt)
    requires Settleable(nets) && e in Settle(asset, nets)
    ensures e.amount > 0 && e.asset == asset
    ensures Sum(nets, At(e.from)) < 0 < Sum(nets, At(e.to))
    decreases |nets|
  {
    if nets != [] {
      var sorted, edge, rest := FirstRound(asset, nets);
      var d, c := sorted[0], sorted[|sorted| - 1];
      SumAtWallet(sorted, d);
      SumAtWallet(sorted, c);
      RoundNet(sorted, e.from);
      RoundNet(sorted, e.to);
      if e != edge {
        SettleDirects(asset, rest, e);
      }
    }
  }

  lemma LargestEnds(nets: seq<Balance>, b: Balance)
    requires b in nets
    ensures var sorted := SortByNet(nets);
      && sorted[0] in nets && sorted[|sorted| - 1] in nets
      && sorted[0].net <= b.net <= sorted[|sorted| - 1].net
  {
    var sorted := SortByNet(nets);
    SortKeeps(nets);
    assert sorted[0] in sorted && sorted[|sorted| - 1] in sorted;
    SortedEnds(sorted, b);
  }

  lemma FirstEdge(asset: Asset, nets: seq<Balance>) returns (debtor: Balance, creditor: Balance, rest: seq<Balance>)
    requires Settleable(nets) && nets != []
    ensures debtor == SortByNet(nets)[0] && creditor == SortByNet(nets)[|nets| - 1]
    ensures debtor.net < 0 < creditor.net
    ensures |rest| < |nets|
    ensures Settle(asset, nets)
      == [Debt(debtor.wallet, creditor.wallet, Min(Abs(debtor.net), creditor.net), asset)] + Settle(asset, rest)
  {
    var sorted, edge, left := FirstRound(asset, nets);
    debtor, creditor, rest := sorted[0], sorted[|sorted| - 1], left;
  }

  /** Each edge settles the largest debt still open against the largest credit, as far as both go. */
  lemma SettlesLargest(asset: Asset, nets: seq<Balance>, b: Balance)
    returns (debtor: Balance, creditor: Balance, rest: seq<Balance>)
    requires Settleable(nets) && b in nets
    ensures debtor in nets && creditor in nets && debtor.net <= b.net <= creditor.net
    ensures |rest| < |nets|
    ensures var amount := if -debtor.net <= creditor.net then -debtor.net else creditor.net;
      Settle(asset, nets) == [Debt(debtor.wallet, creditor.wallet, amount, asset)] + Settle(asset, rest)
  {
    debtor, creditor, rest := FirstEdge(asset, nets);
    LargestEnds(nets, b);
  }

  // ----- Grouping by asset -----

  function DebtsOf(groups: seq<Group>, a: Asset): seq<Debt> {
    if groups == [] then []
    else if groups[0].asset == a then groups[0].debts
    else DebtsOf(groups[1..], a)
  }

  function AssetsOf(groups: seq<Group>): seq<Asset> {
    if groups == [] then [] else [groups[0].asset] + AssetsOf(groups[1..])
  }

  /** The assets of the debts in the order of their first mention. */
  function Mentions(debts: seq<Debt>): seq<Asset> {
    if debts == [] then []
    else
      var front, a := Mentions(debts[..|debts| - 1]), debts[|debts| - 1].asset;
      if a in front then front else front + [a]
  }

  lemma {:induction false} AddToGroupAssets(groups: seq<Group>, d: Debt)
    ensures AssetsOf(AddToGroup(groups, d))
      == if d.asset in AssetsOf(groups) then AssetsOf(groups) else AssetsOf(groups) + [d.asset]
  {
    if groups != [] {
      AddToGroupAssets(groups[1..], d);
    }
  }

  /** Assets are settled in the order in which the debts first mention them. */
  lemma {:induction false} GroupsInOrder(debts: seq<Debt>)
    ensures AssetsOf(Grouped(debts)) == Mentions(debts)
  {
    if debts != [] {
      GroupsInOrder(debts[..|debts| - 1]);
      AddToGroupAssets(Grouped(debts[..|debts| - 1]), debts[|debts| - 1]);
    }
  }

  ghost predicate NoGroup(groups: seq<Group>, a: Asset) {
    forall g <- groups :: g.asset != a
  }

  ghost predicate DistinctAssets(groups: seq<Group>) {
    groups == [] || (NoGroup(groups[1..], groups[0].asset) && DistinctAssets(groups[1..]))
  }

  lemma {:induction false} AddToGroupAdds(groups: seq<Group>, d: Debt, a: Asset)
    ensures DebtsOf(AddToGroup(groups, d), a) == DebtsOf(groups, a) + if d.asset == a then [d] else []
  {
    if groups != [] {
      AddToGroupAdds(groups[1..], d, a);
    }
  }

  lemma {:induction false} AddToGroupDistinct(groups: seq<Group>, d: Debt)
    requires DistinctAssets(groups)
    ensures DistinctAssets(AddToGroup(groups, d))
    ensures forall g <- AddToGroup(groups, d) :: g.asset == d.asset || g in groups
  {
    if groups != [] && groups[0].asset != d.asset {
      AddToGroupDistinct(groups[1..], d);
    }
  }

  lemma {:induction false} GroupedCollects(debts: seq<Debt>, a: Asset)
    ensures DebtsOf(Grouped(debts), a) == Filter(debts, In(a))
    ensures DistinctAssets(Grouped(debts))
  {
    if debts != [] {
      var front, d := debts[..|debts| - 1], debts[|debts| - 1];
      assert debts == front + [d];
      GroupedCollects(front, a);
      AddToGroupAdds(Grouped(front), d, a);
      AddToGroupDistinct(Grouped(front), d);
      FilterConcat(front, [d], In(a));
    }
  }

  lemma {:induction false} SettleAsset(asset: Asset, nets: seq<Balance>, a: Asset)
    ensures Filter(Settle(asset, nets), In(a)) == if a == asset then Settle(asset, nets) else []
    decreases |nets|
  {
    var sorted := SortByNet(nets);
    if Open(sorted) {
      var rest := AfterSettling(sorted, SettleAmount(sorted));
      RoundShrinks(sorted);
      if |rest| >= 2 {
        SettleAsset(asset, rest, a);
        var edge := Debt(sorted[0].wallet, sorted[|sorted| - 1].wallet, SettleAmount(sorted), asset);
        FilterConcat([edge], Settle(asset, rest), In(a));
      }
    }
  }

  lemma {:induction false} SettledGroupsFilter(groups: seq<Group>, a: Asset)
    requires DistinctAssets(groups)
    ensures Filter(SettledGroups(groups), In(a)) == SettledAsset(a, DebtsOf(groups, a))
  {
    if groups != [] {
      var g := groups[0];
      SettledGroupsFilter(groups[1..], a);
      SettleAsset(g.asset, Nets(g.debts), a);
      FilterConcat(SettledAsset(g.asset, g.debts), SettledGroups(groups[1..]), In(a));
      if g.asset == a {
        NoGroupNoDebts(groups[1..], a);
      }
    }
  }

  lemma {:induction false} NoGroupNoDebts(groups: seq<Group>, a: Asset)
    requires NoGroup(groups, a)
    ensures DebtsOf(groups, a) == []
  {
    if groups != [] {
      NoGroupNoDebts(groups[1..], a);
    }
  }

  /** Simplification treats each asset on its own: the edges of an asset settle exactly its debts. */
  lemma SimplifiedPerAsset(debts: seq<Debt>, a: Asset)
    requires Grained(debts)
    ensures Filter(Simplified(debts), In(a)) == SettledAsset(a, Filter(debts, In(a)))
    ensures Grained(Filter(debts, In(a))) && forall d <- Filter(debts, In(a)) :: d.asset == a
  {
    GroupedCollects(debts, a);
    SettledGroupsFilter(Grouped(debts), a);
    FilterMembers(debts, In(a));
  }

  // ----- Main results -----

  /** No wallet's balance in any asset changes, whatever the mix of assets and self-debts. */
  lemma SimplifyKeepsNets(debts: seq<Debt>, a: Asset, w: Wallet)
    requires Grained(debts)
    ensures Net(Simplified(debts), a, w) == Net(debts, a, w)
  {
    var mine := Filter(debts, In(a));
    SimplifiedPerAsset(debts, a);
    NetsSettleable(a, mine);
    NetsKeepNet(a, mine, w);
    SettleKeepsNet(a, Nets(mine), w);
    SumFilter(debts, In(a), FlowOf(a, w), FlowOf(a, w));
    SumFilter(Simplified(debts), In(a), FlowOf(a, w), FlowOf(a, w));
  }

  /** Every edge is positive and runs from a wallet that owes on balance to one that is owed. */
  lemma SimplifyDirects(debts: seq<Debt>, e: Debt)
    requires Grained(debts) && e in Simplified(debts)
    ensures e.amount > 0
    ensures Net(debts, e.asset, e.from) < 0 < Net(debts, e.asset, e.to)
  {
    var a := e.asset;
    var mine := Filter(debts, In(a));
    SimplifiedPerAsset(debts, a);
    FilterMembers(Simplified(debts), In(a));
    NetsSettleable(a, mine);
    SettleDirects(a, Nets(mine), e);
    NetsKeepNet(a, mine, e.from);
    NetsKeepNet(a, mine, e.to);
    SumFilter(debts, In(a), FlowOf(a, e.from), FlowOf(a, e.from));
    SumFilter(debts, In(a), FlowOf(a, e.to), FlowOf(a, e.to));
  }

  /** So no wallet both pays and receives in one asset. */
  lemma NoWalletPaysAndReceives(debts: seq<Debt>, e: Debt, e': Debt)
    requires Grained(debts) && e in Simplified(debts) && e' in Simplified(debts) && e.asset == e'.asset
    ensures e.from != e'.to
  {
    SimplifyDirects(debts, e);
    SimplifyDirects(debts, e');
  }

  // ----- The least that can be moved -----

  function ReceivedBy(a: Asset, ws: set<Wallet>): Debt -> int {
    (d: Debt) => if d.asset == a && d.to in ws then d.amount else 0
  }

  function WalletSet(nets: seq<Balance>): set<Wallet> {
    set b <- nets :: b.wallet
  }

  /** Whoever leaves these balances must at least hand every creditor its credit. */
  lemma {:induction false} CreditMustMove(nets: seq<Balance>, other: seq<Debt>, a: Asset)
    requires Distinct(nets)
    requires forall d <- other :: d.amount >= 0
    requires forall b <- nets :: Net(other, a, b.wallet) == b.net
    ensures Sum(nets, Credit()) <= Sum(other, ReceivedBy(a, WalletSet(nets)))
  {
    if nets == [] {
      SumNonnegative(other, ReceivedBy(a, WalletSet(nets)));
    } else {
      var b, rest := nets[0], nets[1..];
      CreditMustMove(rest, other, a);
      assert WalletSet(nets) == {b.wallet} + WalletSet(rest);
      assert b.wallet !in WalletSet(rest);
      SumSplit(other, ReceivedBy(a, {b.wallet}), ReceivedBy(a, WalletSet(rest)), ReceivedBy(a, WalletSet(nets)));
      SumAtMost(other, FlowOf(a, b.wallet), ReceivedBy(a, {b.wallet}));
      SumNonnegative(other, ReceivedBy(a, {b.wallet}));
    }
  }

  /**
    The total moved in an asset is the sum of the positive balances, and no list of
    non-negative debts that leaves every wallet where it was moves less.
   */
  lemma SimplifyMovesLeast(debts: seq<Debt>, other: seq<Debt>, a: Asset)
    requires Grained(debts)
    requires forall d <- other :: d.amount >= 0
    requires forall w :: Net(other, a, w) == Net(debts, a, w)
    ensures Moved(Simplified(debts), a) == Sum(Nets(Filter(debts, In(a))), Credit())
    ensures Moved(Simplified(debts), a) <= Moved(other, a)
  {
    var mine := Filter(debts, In(a));
    var nets := Nets(mine);
    SimplifiedPerAsset(debts, a);
    NetsSettleable(a, mine);
    SettleMovesCredit(a, nets);
    SumFilter(Simplified(debts), In(a), AmountIn(a), AmountIn(a));
    forall b | b in nets
      ensures Net(other, a, b.wallet) == b.net
    {
      NetOfBalance(debts, a, b);
    }
    CreditMustMove(nets, other, a);
    SumAtMost(other, ReceivedBy(a, WalletSet(nets)), AmountIn(a));
  }

  lemma NetOfBalance(debts: seq<Debt>, a: Asset, b: Balance)
    requires Grained(debts) && b in Nets(Filter(debts, In(a)))
    ensures Net(debts, a, b.wallet) == b.net != 0
  {
    var mine := Filter(debts, In(a));
    FilterMembers(debts, In(a));
    NetsSettleable(a, mine);
    NetsKeepNet(a, mine, b.wallet);
    SumAtWallet(Nets(mine), b);
    SumFilter(debts, In(a), FlowOf(a, b.wallet), FlowOf(a, b.wallet));
  }

  lemma {:induction false} DistinctFits(nets: seq<Balance>, ws: set<Wallet>)
    requires Distinct(nets) && WalletSet(nets) <= ws
    ensures |nets| <= |ws|
  {
    if nets != [] {
      var w := nets[0].wallet;
      assert nets[0] in nets && forall b <- nets[1..] :: b in nets;
      DistinctFits(nets[1..], ws - {w});
    }
  }

  /** With N unsettled wallets in an asset, at most N - 1 edges are emitted, and none if N = 0. */
  lemma SimplifyEdgeBound(debts: seq<Debt>, a: Asset)
    requires Grained(debts)
    ensures |Filter(Simplified(debts), In(a))| <= Max(|Unsettled(debts, a)| - 1, 0)
  {
    var nets := Nets(Filter(debts, In(a)));
    SimplifiedPerAsset(debts, a);
    NetsSettleable(a, Filter(debts, In(a)));
    SettleMovesCredit(a, nets);
    forall b | b in nets
      ensures b.wallet in Unsettled(debts, a)
    {
      NetOfBalance(debts, a, b);
      if b.wallet !in WalletsOf(debts) {
        SumZero(debts, FlowOf(a, b.wallet));
      }
    }
    DistinctFits(nets, Unsettled(debts, a));
  }

  // ----- Limits -----

  /**
    Below the grain of a cent the result is lost: two debts of 0.00008 are dropped as settled on
    the creditors' side only, and the debtor left alone is made to pay itself a negative amount.
   */
  lemma UngrainedSelfEdge(a: Asset, x: Wallet, y: Wallet, z: Wallet)
    requires x != y && x != z && y != z
    ensures SettledAsset(a, [Debt(x, y, 80, a), Debt(x, z, 80, a)]) == [Debt(x, x, -160, a)]
  {
    var d, e := Debt(x, y, 80, a), Debt(x, z, 80, a);
    var atX, atY, atZ := Balance(x, -80), Balance(y, 80), Balance(z, 80);
    BalancesOfTwo(d, e);
    assert Post([], x, -80) == [atX];
    assert Post([atX], y, 80) == [atX] + Post([], y, 80) == [atX, atY];
    var owing := Balance(x, -160);
    assert Post([atX, atY], x, -80) == [owing, atY];
    assert [owing, atY][1..] == [atY];
    assert Post([owing, atY], z, 80) == [owing] + Post([atY], z, 80) == [owing, atY, atZ];
    assert [owing, atY, atZ][1..] == [atY, atZ] && [atY, atZ][1..] == [atZ];
    assert !Significant()(atY) && !Significant()(atZ);
    assert Filter([atZ], Significant()) == [];
    assert Filter([atY, atZ], Significant()) == [];
    assert Nets([d, e]) == [owing];
    assert SortByNet([owing]) == [owing];
  }

  lemma BalancesOfTwo(d: Debt, e: Debt)
    ensures Balances([d, e]) == PostDebt(PostDebt([], d), e)
  {
    assert [d, e][..1] == [d] && [d][..0] == [];
    assert Balances([d]) == PostDebt([], d);
  }
}
