/** The bank as the module sees it: balances, recorded supply and denom metadata, with the
    contracts of the expected bank keeper. Zero entries are not kept. */
module Bank {
  import opened Varint
  import opened Chain

  type Balances = map<(Address, Denom), nat>

  datatype Bank = Bank(balances: Balances, supply: map<Denom, nat>, metadata: map<Denom, Metadata>)

  function Entry<K>(m: map<K, nat>, k: K): nat
  {
    if k in m then m[k] else 0
  }

  function SetEntry<K(!new)>(m: map<K, nat>, k: K, v: nat): (r: map<K, nat>)
    ensures Entry(r, k) == v
    ensures forall k' :: k' != k ==> Entry(r, k') == Entry(m, k')
  {
    if v == 0 then m - {k} else m[k := v]
  }

  function BalanceOf(b: Bank, a: Address, d: Denom): nat
  {
    Entry(b.balances, (a, d))
  }

  function SupplyOf(b: Bank, d: Denom): nat
  {
    Entry(b.supply, d)
  }

  predicate NonNegative(coins: seq<Coin>)
  {
    forall coin: Coin :: coin in coins ==> coin.amount >= 0
  }

  /** `sdk.NewCoins` of one coin drops it when it is zero. */
  function NewCoins(coin: Coin): seq<Coin>
  {
    if coin.amount == 0 then [] else [coin]
  }

  /** The amount of one denom in a list of coins. */
  function AmountIn(coins: seq<Coin>, d: Denom): int
  {
    if coins == [] then 0
    else (if coins[0].denom == d then coins[0].amount else 0) + AmountIn(coins[1..], d)
  }

  function AddTo(m: Balances, a: Address, coins: seq<Coin>): Balances
    requires NonNegative(coins)
    decreases |coins|
  {
    if coins == [] then m else
    var k := (a, coins[0].denom);
    AddTo(SetEntry(m, k, Entry(m, k) + coins[0].amount), a, coins[1..])
  }

  function TakeFrom(m: Balances, a: Address, coins: seq<Coin>): Option<Balances>
    decreases |coins|
  {
    if coins == [] then Some(m) else
    var k := (a, coins[0].denom);
    if coins[0].amount < 0 || Entry(m, k) < coins[0].amount then None
    else TakeFrom(SetEntry(m, k, Entry(m, k) - coins[0].amount), a, coins[1..])
  }

  function AddSupply(m: map<Denom, nat>, coins: seq<Coin>): map<Denom, nat>
    requires NonNegative(coins)
    decreases |coins|
  {
    if coins == [] then m else
    var d := coins[0].denom;
    AddSupply(SetEntry(m, d, Entry(m, d) + coins[0].amount), coins[1..])
  }

  function TakeSupply(m: map<Denom, nat>, coins: seq<Coin>): Option<map<Denom, nat>>
    decreases |coins|
  {
    if coins == [] then Some(m) else
    var d := coins[0].denom;
    if coins[0].amount < 0 || Entry(m, d) < coins[0].amount then None
    else TakeSupply(SetEntry(m, d, Entry(m, d) - coins[0].amount), coins[1..])
  }

  lemma {:induction false} TakenCoins(m: Balances, a: Address, coins: seq<Coin>)
    ensures TakeFrom(m, a, coins).Some? ==> NonNegative(coins)
    decreases |coins|
  {
    if coins != [] && TakeFrom(m, a, coins).Some? {
      TakenCoins(SetEntry(m, (a, coins[0].denom), Entry(m, (a, coins[0].denom)) - coins[0].amount), a, coins[1..]);
      assert coins == [coins[0]] + coins[1..];
    }
  }

  function SendCoins(b: Bank, from: Address, to: Address, coins: seq<Coin>): Option<Bank>
  {
    TakenCoins(b.balances, from, coins);
    match TakeFrom(b.balances, from, coins)
    case None => None
    case Some(m) => Some(b.(balances := AddTo(m, to, coins)))
  }

  function MintCoins(b: Bank, account: Address, coins: seq<Coin>): Bank
    requires NonNegative(coins)
  {
    b.(balances := AddTo(b.balances, account, coins), supply := AddSupply(b.supply, coins))
  }

  function BurnCoins(b: Bank, account: Address, coins: seq<Coin>): Option<Bank>
  {
    match (TakeFrom(b.balances, account, coins), TakeSupply(b.supply, coins))
    case (Some(m), Some(s)) => Some(b.(balances := m, supply := s))
    case _ => None
  }

  // ---------------------------------------------------------------- conservation

  /** The sum over all accounts of what they hold of `d`. */
  ghost function Total(m: Balances, d: Denom): nat
    decreases |m|
  {
    if m == map[] then 0 else
    var k :| k in m;
    (if k.1 == d then m[k] else 0) + Total(m - {k}, d)
  }

  /** How far the balances of `d` are from its recorded supply. */
  ghost function Gap(b: Bank, d: Denom): int
  {
    Total(b.balances, d) - SupplyOf(b, d)
  }

  /** Every coin in circulation was minted: balances add up to the recorded supply. */
  ghost predicate Conserved(b: Bank)
  {
    forall d :: Gap(b, d) == 0
  }

  lemma {:induction false} TotalWithout(m: Balances, k: (Address, Denom), d: Denom)
    requires k in m
    ensures Total(m, d) == (if k.1 == d then m[k] else 0) + Total(m - {k}, d)
    decreases |m|
  {
    var p :| p in m && Total(m, d) == (if p.1 == d then m[p] else 0) + Total(m - {p}, d);
    if p != k {
      TotalWithout(m - {p}, k, d);
      TotalWithout(m - {k}, p, d);
      assert m - {p} - {k} == m - {k} - {p};
    }
  }

  lemma TotalOfSet(m: Balances, k: (Address, Denom), v: nat, d: Denom)
    ensures Total(SetEntry(m, k, v), d) == Total(m, d) + (if k.1 == d then v - Entry(m, k) else 0)
  {
    var r := SetEntry(m, k, v);
    assert r - {k} == m - {k};
    if k in m { TotalWithout(m, k, d); } else { assert m - {k} == m; }
    if k in r { TotalWithout(r, k, d); } else { assert r - {k} == r; }
  }

  lemma {:induction false} TotalOfAdd(m: Balances, a: Address, coins: seq<Coin>, d: Denom)
    requires NonNegative(coins)
    ensures Total(AddTo(m, a, coins), d) == Total(m, d) + AmountIn(coins, d)
    decreases |coins|
  {
    if coins != [] {
      var k := (a, coins[0].denom);
      var v := Entry(m, k) + coins[0].amount;
      TotalOfSet(m, k, v, d);
      TotalOfAdd(SetEntry(m, k, v), a, coins[1..], d);
    }
  }

  lemma {:induction false} TotalOfTake(m: Balances, a: Address, coins: seq<Coin>, d: Denom)
    requires TakeFrom(m, a, coins).Some?
    ensures Total(TakeFrom(m, a, coins).value, d) == Total(m, d) - AmountIn(coins, d)
    decreases |coins|
  {
    if coins != [] {
      var k := (a, coins[0].denom);
      var v := Entry(m, k) - coins[0].amount;
      TotalOfSet(m, k, v, d);
      TotalOfTake(SetEntry(m, k, v), a, coins[1..], d);
    }
  }

  lemma {:induction false} SupplyAfterAdd(m: map<Denom, nat>, coins: seq<Coin>, d: Denom)
    requires NonNegative(coins)
    ensures Entry(AddSupply(m, coins), d) == Entry(m, d) + AmountIn(coins, d)
    decreases |coins|
  {
    if coins != [] {
      var e := coins[0].denom;
      SupplyAfterAdd(SetEntry(m, e, Entry(m, e) + coins[0].amount), coins[1..], d);
    }
  }

  lemma {:induction false} SupplyAfterTake(m: map<Denom, nat>, coins: seq<Coin>, d: Denom)
    requires TakeSupply(m, coins).Some?
    ensures Entry(TakeSupply(m, coins).value, d) == Entry(m, d) - AmountIn(coins, d)
    decreases |coins|
  {
    if coins != [] {
      var e := coins[0].denom;
      SupplyAfterTake(SetEntry(m, e, Entry(m, e) - coins[0].amount), coins[1..], d);
    }
  }

  lemma {:induction false} BalanceAfterAdd(m: Balances, a: Address, coins: seq<Coin>, x: Address, d: Denom)
    requires NonNegative(coins)
    ensures Entry(AddTo(m, a, coins), (x, d)) == Entry(m, (x, d)) + (if x == a then AmountIn(coins, d) else 0)
    decreases |coins|
  {
    if coins != [] {
      var k := (a, coins[0].denom);
      BalanceAfterAdd(SetEntry(m, k, Entry(m, k) + coins[0].amount), a, coins[1..], x, d);
    }
  }

  lemma {:induction false} BalanceAfterTake(m: Balances, a: Address, coins: seq<Coin>, x: Address, d: Denom)
    requires TakeFrom(m, a, coins).Some?
    ensures Entry(TakeFrom(m, a, coins).value, (x, d)) == Entry(m, (x, d)) - (if x == a then AmountIn(coins, d) else 0)
    decreases |coins|
  {
    if coins != [] {
      var k := (a, coins[0].denom);
      BalanceAfterTake(SetEntry(m, k, Entry(m, k) - coins[0].amount), a, coins[1..], x, d);
    }
  }

  /** A transfer moves exactly the coins, from one account to the other, also to itself. */
  lemma SendMoves(b: Bank, from: Address, to: Address, coins: seq<Coin>, x: Address, d: Denom)
    requires SendCoins(b, from, to, coins).Some?
    ensures BalanceOf(SendCoins(b, from, to, coins).value, x, d)
         == BalanceOf(b, x, d) - (if x == from then AmountIn(coins, d) else 0)
            + (if x == to then AmountIn(coins, d) else 0)
  {
    TakenCoins(b.balances, from, coins);
    BalanceAfterTake(b.balances, from, coins, x, d);
    BalanceAfterAdd(TakeFrom(b.balances, from, coins).value, to, coins, x, d);
  }

  lemma SendConserves(b: Bank, from: Address, to: Address, coins: seq<Coin>, d: Denom)
    requires SendCoins(b, from, to, coins).Some?
    ensures Gap(SendCoins(b, from, to, coins).value, d) == Gap(b, d)
  {
    TakenCoins(b.balances, from, coins);
    TotalOfTake(b.balances, from, coins, d);
    TotalOfAdd(TakeFrom(b.balances, from, coins).value, to, coins, d);
  }

  lemma MintConserves(b: Bank, account: Address, coins: seq<Coin>, d: Denom)
    requires NonNegative(coins)
    ensures Gap(MintCoins(b, account, coins), d) == Gap(b, d)
    ensures SupplyOf(MintCoins(b, account, coins), d) == SupplyOf(b, d) + AmountIn(coins, d)
  {
    TotalOfAdd(b.balances, account, coins, d);
    SupplyAfterAdd(b.supply, coins, d);
  }

  lemma BurnConserves(b: Bank, account: Address, coins: seq<Coin>, d: Denom)
    requires BurnCoins(b, account, coins).Some?
    ensures Gap(BurnCoins(b, account, coins).value, d) == Gap(b, d)
    ensures SupplyOf(BurnCoins(b, account, coins).value, d) == SupplyOf(b, d) - AmountIn(coins, d)
  {
    TotalOfTake(b.balances, account, coins, d);
    SupplyAfterTake(b.supply, coins, d);
  }

  // ---------------------------------------------------------------- payability

  lemma {:induction false} AmountsAreNonNegative(coins: seq<Coin>, d: Denom)
    requires NonNegative(coins)
    ensures AmountIn(coins, d) >= 0
  {
    if coins != [] { AmountsAreNonNegative(coins[1..], d); }
  }

  /** Coins, repeated denoms included, can be taken one after the other exactly when none is
      negative and the account holds their sum in every denom. */
  lemma {:induction false} TakenExactly(m: Balances, a: Address, coins: seq<Coin>)
    ensures TakeFrom(m, a, coins).Some?
       <==> NonNegative(coins) && forall d :: AmountIn(coins, d) <= Entry(m, (a, d))
    decreases |coins|
  {
    if coins != [] {
      var coin, rest := coins[0], coins[1..];
      assert coins == [coin] + rest;
      assert coin in coins;
      if coin.amount >= 0 && coin.amount <= Entry(m, (a, coin.denom)) {
        var k := (a, coin.denom);
        var m' := SetEntry(m, k, Entry(m, k) - coin.amount);
        TakenExactly(m', a, rest);
        forall d
          ensures AmountIn(coins, d) <= Entry(m, (a, d)) <==> AmountIn(rest, d) <= Entry(m', (a, d))
        {
          assert d != coin.denom ==> (a, d) != k;
        }
      } else if NonNegative(coins) {
        AmountsAreNonNegative(rest, coin.denom);
        assert AmountIn(coins, coin.denom) > Entry(m, (a, coin.denom));
      }
    }
  }
}
