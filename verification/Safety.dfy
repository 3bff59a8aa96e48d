/** What holds of every run of messages: records and index agree, coins are conserved,
    every act on a denom was its admin's, and a renounced denom is frozen. */
module Safety {
  import opened Bits
  import opened Varint
  import opened Chain
  import opened Denoms
  import opened Bank
  import opened Ledger

  // ------------------------------------------------------------------ coherence

  predicate AdminTextOk(c: Chain, admin: Bytes)
  {
    admin == [] || c.parse(admin).Some?
  }

  predicate OwnCreator(c: Chain, creator: Bytes, d: Denom)
  {
    creator == Segment(d) || (IsFactoryDenom(c, d) && creator == DeconstructDenom(c, d).creator)
  }

  /** Records, index and metadata agree: every record is a well-formed factory denom with
      bank metadata and a usable or empty admin, and it is indexed under exactly one
      creator, its own creator segment or that segment's canonical spelling. */
  ghost predicate Coherent(c: Chain, l: Ledger)
  {
    && (forall d :: d in l.admins ==>
          IsFactoryDenom(c, d) && d in l.bank.metadata && AdminTextOk(c, l.admins[d]))
    && (forall creator, d :: (creator, d) in l.index ==> d in l.admins && OwnCreator(c, creator, d))
    && (forall d :: d in l.admins ==> exists creator :: (creator, d) in l.index)
    && (forall creator, other, d :: (creator, d) in l.index && (other, d) in l.index ==> creator == other)
  }

  /** The denom a message acts on. */
  function Target(m: Msg): Denom
  {
    match m
    case CreateDenom(sender, subdenom) => JoinDenom(sender, subdenom)
    case Mint(_, amount, _) => amount.denom
    case Burn(_, amount, _) => amount.denom
    case ForceTransfer(_, amount, _, _) => amount.denom
    case ChangeAdmin(_, d, _) => d
    case SetDenomMetadata(_, metadata) => metadata.base
  }

  /** An accepted creation is of a new factory denom, and leaves these records, index,
      metadata, supply and parameters; what the fee moves is in `BalanceEffect`. */
  lemma CreationEffect(c: Chain, l: Ledger, m: Msg)
    requires m.CreateDenom? && Accepted(c, l, m)
    ensures var l', d := Handle(c, l, m).ledger, Target(m);
            && d !in l.bank.metadata && IsFactoryDenom(c, d) && Segment(d) == m.sender
            && l'.admins == l.admins[d := m.sender]
            && l'.index == l.index + {(m.sender, d)}
            && l'.bank.metadata == l.bank.metadata[d := Metadata(d, [DenomUnit(d, 0)], [])]
            && l'.bank.supply == l.bank.supply
            && l'.params == l.params
  {
    PrintThenParse(c, m.sender, m.subdenom);
  }

  lemma EmptyIsNoAddress(c: Chain)
    requires Lawful(c)
    ensures c.parse([]) == None
  {
  }

  ghost predicate KeepsRest(l: Ledger, l': Ledger)
  {
    l'.admins == l.admins && l'.index == l.index && l'.params == l.params && l'.bank.metadata == l.bank.metadata
  }

  lemma SendKeepsRest()
    ensures forall b: Bank, from: Address, to: Address, coins: seq<Coin> :: SendCoins(b, from, to, coins).Some? ==>
              && SendCoins(b, from, to, coins).value.metadata == b.metadata
              && SendCoins(b, from, to, coins).value.supply == b.supply
  {
  }

  lemma MintKeepsRest()
    ensures forall b: Bank, a: Address, coins: seq<Coin> :: NonNegative(coins) ==>
              MintCoins(b, a, coins).metadata == b.metadata
  {
  }

  lemma BurnKeepsRest()
    ensures forall b: Bank, a: Address, coins: seq<Coin> :: BurnCoins(b, a, coins).Some? ==>
              BurnCoins(b, a, coins).value.metadata == b.metadata
  {
  }

  /** The bank actions change balances and supply only. */
  lemma BankStepsKeepRest(c: Chain, l: Ledger, amount: Coin, text: Bytes, to: Bytes)
    ensures KeepsRest(l, MintStep(c, l, amount, text).ledger)
    ensures KeepsRest(l, BurnStep(c, l, amount, text).ledger)
    ensures KeepsRest(l, MoveByForce(c, l, amount, text, to).ledger)
  {
    hide DeconstructDenom, SendCoins, MintCoins, BurnCoins;
    SendKeepsRest();
    MintKeepsRest();
    BurnKeepsRest();
  }

  /** Any other accepted message was sent by the denom's admin. It changes no other denom's
      record or metadata, and neither index nor parameters. */
  lemma AdminEffect(c: Chain, l: Ledger, m: Msg)
    requires Lawful(c) && !m.CreateDenom? && Accepted(c, l, m)
    ensures var l', d := Handle(c, l, m).ledger, Target(m);
            && d in l.admins && l.admins[d] == m.sender && m.sender != []
            && l'.index == l.index && l'.params == l.params
            && l'.admins == (if m.ChangeAdmin? then l.admins[d := m.newAdmin] else l.admins)
            && (m.ChangeAdmin? ==> AdminTextOk(c, m.newAdmin))
            && l'.bank.metadata == (if m.SetDenomMetadata? then l.bank.metadata[d := m.metadata] else l.bank.metadata)
  {
    hide Lawful, MintStep, BurnStep, MoveByForce;
    EmptyIsNoAddress(c);
    match m
    case Mint(sender, amount, to) => BankStepsKeepRest(c, l, amount, OrElse(to, sender), to);
    case Burn(sender, amount, from) => BankStepsKeepRest(c, l, amount, OrElse(from, sender), from);
    case ForceTransfer(_, amount, from, to) => BankStepsKeepRest(c, l, amount, from, to);
    case _ =>
  }

  /** A new factory denom with its record, index entry and metadata. */
  lemma NewRecordCoherent(c: Chain, l: Ledger, l': Ledger, creator: Bytes, d: Denom, admin: Bytes)
    requires Coherent(c, l) && d !in l.admins
    requires IsFactoryDenom(c, d) && OwnCreator(c, creator, d) && AdminTextOk(c, admin)
    requires l'.admins == l.admins[d := admin] && l'.index == l.index + {(creator, d)}
    requires d in l'.bank.metadata && l.bank.metadata.Keys <= l'.bank.metadata.Keys
    ensures Coherent(c, l')
  {
    hide IsFactoryDenom, OwnCreator, AdminTextOk;
    forall d' | d' in l'.admins
      ensures exists creator' :: (creator', d') in l'.index
    {
      if d' == d {
        assert (creator, d') in l'.index;
      } else {
        var creator' :| (creator', d') in l.index;
        assert (creator', d') in l'.index;
      }
    }
  }

  lemma SameRecordsCoherent(c: Chain, l: Ledger, l': Ledger)
    requires Coherent(c, l)
    requires l'.admins.Keys == l.admins.Keys && l'.index == l.index && l.bank.metadata.Keys <= l'.bank.metadata.Keys
    requires forall d :: d in l'.admins ==> AdminTextOk(c, l'.admins[d])
    ensures Coherent(c, l')
  {
    hide IsFactoryDenom, OwnCreator, AdminTextOk;
  }

  lemma SubmitKeepsCoherent(c: Chain, l: Ledger, m: Msg)
    requires Lawful(c) && Coherent(c, l)
    ensures Coherent(c, Submit(c, l, m))
  {
    hide Handle, DeconstructDenom, JoinDenom, Segment, Lawful;
    if Accepted(c, l, m) {
      var l' := Handle(c, l, m).ledger;
      if m.CreateDenom? {
        CreationEffect(c, l, m);
        NewRecordCoherent(c, l, l', m.sender, Target(m), m.sender);
      } else {
        AdminEffect(c, l, m);
        SameRecordsCoherent(c, l, l');
      }
    }
  }

  lemma AdvanceKeepsCoherent(c: Chain, l: Ledger, s: Step)
    requires Lawful(c) && Coherent(c, l)
    ensures Coherent(c, Advance(c, l, s))
  {
    hide Submit, SendCoins, Lawful;
    match s
    case Call(m) => SubmitKeepsCoherent(c, l, m);
    case Transfer(from, to, coins) =>
      SendKeepsRest();
      SameRecordsCoherent(c, l, Transferred(l, from, to, coins));
  }

  /** In every reachable state records, index and metadata agree. */
  lemma {:induction false} RunKeepsCoherent(c: Chain, l: Ledger, ss: seq<Step>)
    requires Lawful(c) && Coherent(c, l)
    ensures Coherent(c, Run(c, l, ss))
    decreases |ss|
  {
    hide Advance, Coherent;
    if ss != [] {
      AdvanceKeepsCoherent(c, l, ss[0]);
      RunKeepsCoherent(c, Advance(c, l, ss[0]), ss[1..]);
    }
  }

  // ---------------------------------------------------------------- conservation

  lemma ChargeConserves(c: Chain, l: Ledger, creator: Bytes, d: Denom)
    ensures Gap(Charge(c, l, creator).ledger.bank, d) == Gap(l.bank, d)
  {
    hide SendCoins, Gap;
    if l.params.denomCreationFee.Some? && c.parse(creator).Some? {
      var fee, payer := l.params.denomCreationFee.value, c.parse(creator).value;
      if SendCoins(l.bank, payer, c.pool, fee).Some? { SendConserves(l.bank, payer, c.pool, fee, d); }
    }
  }

  lemma MintToConserves(c: Chain, l: Ledger, amount: Coin, to: Bytes, d: Denom)
    ensures Gap(MintStep(c, l, amount, to).ledger.bank, d) == Gap(l.bank, d)
  {
    hide SendCoins, MintCoins, DeconstructDenom, Gap;
    if amount.amount >= 0 {
      var coins := NewCoins(amount);
      MintConserves(l.bank, c.moduleAccount, coins, d);
      var minted := MintCoins(l.bank, c.moduleAccount, coins);
      if c.parse(to).Some? && SendCoins(minted, c.moduleAccount, c.parse(to).value, coins).Some? {
        SendConserves(minted, c.moduleAccount, c.parse(to).value, coins, d);
      }
    }
  }

  lemma BurnFromConserves(c: Chain, l: Ledger, amount: Coin, from: Bytes, d: Denom)
    ensures Gap(BurnStep(c, l, amount, from).ledger.bank, d) == Gap(l.bank, d)
  {
    hide SendCoins, BurnCoins, DeconstructDenom, Gap;
    var coins := NewCoins(amount);
    if c.parse(from).Some? && SendCoins(l.bank, c.parse(from).value, c.moduleAccount, coins).Some? {
      SendConserves(l.bank, c.parse(from).value, c.moduleAccount, coins, d);
      var b := SendCoins(l.bank, c.parse(from).value, c.moduleAccount, coins).value;
      if BurnCoins(b, c.moduleAccount, coins).Some? { BurnConserves(b, c.moduleAccount, coins, d); }
    }
  }

  lemma MetadataConserves(b: Bank, d: Denom)
    ensures forall metadata :: Gap(b.(metadata := metadata), d) == Gap(b, d)
  {
  }

  /** In any state, no handler changes how far balances are from supply, for any denom, not
      even one that fails half-way. */
  lemma HandleConserves(c: Chain, l: Ledger, m: Msg, d: Denom)
    ensures Gap(Handle(c, l, m).ledger.bank, d) == Gap(l.bank, d)
  {
    hide SendCoins, MintCoins, BurnCoins, DeconstructDenom, Gap, ValidateCreate;
    match m
    case CreateDenom(sender, subdenom) =>
      ChargeConserves(c, l, sender, d);
      MetadataConserves(Charge(c, l, sender).ledger.bank, d);
    case Mint(sender, amount, to) => MintToConserves(c, l, amount, OrElse(to, sender), d);
    case Burn(sender, amount, from) => BurnFromConserves(c, l, amount, OrElse(from, sender), d);
    case ForceTransfer(_, amount, from, to) =>
      if c.parse(from).Some? && c.parse(to).Some? {
        var a, b := c.parse(from).value, c.parse(to).value;
        if SendCoins(l.bank, a, b, NewCoins(amount)).Some? {
          SendConserves(l.bank, a, b, NewCoins(amount), d);
        }
      }
    case ChangeAdmin(_, _, _) =>
    case SetDenomMetadata(_, _) => MetadataConserves(l.bank, d);
  }

  /** Over every run the difference between the balances of all accounts and the recorded
      supply stays what it was, for every denom. */
  lemma {:induction false} RunKeepsGap(c: Chain, l: Ledger, ss: seq<Step>, d: Denom)
    ensures Gap(Run(c, l, ss).bank, d) == Gap(l.bank, d)
    decreases |ss|
  {
    hide Handle, Gap, SendCoins;
    if ss != [] {
      match ss[0] {
        case Call(m) => HandleConserves(c, l, m, d);
        case Transfer(from, to, coins) =>
          if SendCoins(l.bank, from, to, coins).Some? { SendConserves(l.bank, from, to, coins, d); }
      }
      RunKeepsGap(c, Advance(c, l, ss[0]), ss[1..], d);
    }
  }

  /** In every reachable state, for every denom, the balances of all accounts add up to the
      recorded supply. */
  lemma RunConserves(c: Chain, l: Ledger, ss: seq<Step>)
    requires Conserved(l.bank)
    ensures Conserved(Run(c, l, ss).bank)
  {
    hide Gap, Run;
    forall d ensures Gap(Run(c, l, ss).bank, d) == 0 {
      RunKeepsGap(c, l, ss, d);
    }
  }

  // ---------------------------------------------------------------- balances

  function Portion(amount: Coin, d: Denom): int
  {
    if amount.denom == d then amount.amount else 0
  }

  /** What an accepted message does to one account's balance of one denom: the recipient of
      a mint gains, the target of a burn loses (the address named, or the sender when none
      is), a forced transfer moves, and the creation fee goes from the creator to the
      community pool. Nobody else is touched, the module account included. */
  function Change(c: Chain, l: Ledger, m: Msg, x: Address, d: Denom): int
  {
    match m
    case CreateDenom(sender, _) =>
      var fee := if l.params.denomCreationFee.Some? then AmountIn(l.params.denomCreationFee.value, d) else 0;
      (if c.pool == x then fee else 0) - (if c.parse(sender) == Some(x) then fee else 0)
    case Mint(sender, amount, to) =>
      if c.parse(if to != [] then to else sender) == Some(x) then Portion(amount, d) else 0
    case Burn(sender, amount, from) =>
      if c.parse(if from != [] then from else sender) == Some(x) then -Portion(amount, d) else 0
    case ForceTransfer(_, amount, from, to) =>
      (if c.parse(to) == Some(x) then Portion(amount, d) else 0)
      - (if c.parse(from) == Some(x) then Portion(amount, d) else 0)
    case ChangeAdmin(_, _, _) => 0
    case SetDenomMetadata(_, _) => 0
  }

  lemma NewCoinsPortion(amount: Coin, d: Denom)
    ensures AmountIn(NewCoins(amount), d) == Portion(amount, d)
    ensures amount.amount >= 0 ==> NonNegative(NewCoins(amount))
  {
  }

  lemma MintBalances(c: Chain, l: Ledger, amount: Coin, to: Bytes, x: Address, d: Denom)
    requires MintStep(c, l, amount, to).error == None
    ensures BalanceOf(MintStep(c, l, amount, to).ledger.bank, x, d)
         == BalanceOf(l.bank, x, d) + (if c.parse(to) == Some(x) then Portion(amount, d) else 0)
  {
    hide SendCoins, DeconstructDenom, AddTo, AmountIn;
    var coins := NewCoins(amount);
    NewCoinsPortion(amount, d);
    BalanceAfterAdd(l.bank.balances, c.moduleAccount, coins, x, d);
    SendMoves(MintCoins(l.bank, c.moduleAccount, coins), c.moduleAccount, c.parse(to).value, coins, x, d);
  }

  lemma BurnBalances(c: Chain, l: Ledger, amount: Coin, from: Bytes, x: Address, d: Denom)
    requires BurnStep(c, l, amount, from).error == None
    ensures BalanceOf(BurnStep(c, l, amount, from).ledger.bank, x, d)
         == BalanceOf(l.bank, x, d) - (if c.parse(from) == Some(x) then Portion(amount, d) else 0)
  {
    hide SendCoins, DeconstructDenom, TakeFrom, AmountIn;
    var coins, a := NewCoins(amount), c.parse(from).value;
    NewCoinsPortion(amount, d);
    SendMoves(l.bank, a, c.moduleAccount, coins, x, d);
    BalanceAfterTake(SendCoins(l.bank, a, c.moduleAccount, coins).value.balances, c.moduleAccount, coins, x, d);
  }

  lemma BalanceEffect(c: Chain, l: Ledger, m: Msg, x: Address, d: Denom)
    requires Accepted(c, l, m)
    ensures BalanceOf(Handle(c, l, m).ledger.bank, x, d) == BalanceOf(l.bank, x, d) + Change(c, l, m, x, d)
  {
    hide SendCoins, DeconstructDenom, AmountIn, MintStep, BurnStep, ValidateCreate, Entry;
    match m
    case CreateDenom(sender, _) =>
      if l.params.denomCreationFee.Some? {
        SendMoves(l.bank, c.parse(sender).value, c.pool, l.params.denomCreationFee.value, x, d);
      }
    case Mint(sender, amount, to) => MintBalances(c, l, amount, OrElse(to, sender), x, d);
    case Burn(sender, amount, from) => BurnBalances(c, l, amount, OrElse(from, sender), x, d);
    case ForceTransfer(_, amount, from, to) =>
      NewCoinsPortion(amount, d);
      SendMoves(l.bank, c.parse(from).value, c.parse(to).value, NewCoins(amount), x, d);
    case ChangeAdmin(_, _, _) =>
    case SetDenomMetadata(_, _) =>
  }

  // ------------------------------------------------- when the bank actions succeed

  lemma CanTake(m: Balances, a: Address, amount: Coin)
    requires amount.amount >= 0
    ensures TakeFrom(m, a, NewCoins(amount)).Some? <==> amount.amount <= Entry(m, (a, amount.denom))
  {
    var coins := NewCoins(amount);
    if amount.amount > 0 {
      assert coins[1..] == [];
      assert forall r: Balances :: TakeFrom(r, a, []) == Some(r);
    }
  }

  lemma CanSend(b: Bank, from: Address, to: Address, amount: Coin)
    requires amount.amount >= 0
    ensures SendCoins(b, from, to, NewCoins(amount)).Some? <==> amount.amount <= BalanceOf(b, from, amount.denom)
  {
    CanTake(b.balances, from, amount);
  }

  /** The denom's record holds `who`; a denom without a record reads as held by nobody. */
  predicate IsAdmin(l: Ledger, d: Denom, who: Bytes)
  {
    (d in l.admins && l.admins[d] == who) || (d !in l.admins && who == [])
  }

  predicate MayReceive(c: Chain, text: Bytes)
  {
    c.parse(text).Some? && !c.blocked(c.parse(text).value)
  }

  /** Freshly minted coins can always be paid out: a mint fails only for the reasons the
      module checks. The recipient is the address named, or the sender when none is. */
  lemma MintSucceedsExactly(c: Chain, l: Ledger, m: Msg)
    requires m.Mint? && c.parse(m.sender).Some?
    ensures Accepted(c, l, m) <==>
              && m.amount.denom in l.bank.metadata && IsAdmin(l, m.amount.denom, m.sender)
              && IsFactoryDenom(c, m.amount.denom) && m.amount.amount >= 0
              && (m.mintToAddress != [] ==> MayReceive(c, m.mintToAddress))
              && (m.mintToAddress == [] ==> MayReceive(c, m.sender))
  {
    hide DeconstructDenom, SendCoins, AddTo;
    var coins := NewCoins(m.amount);
    if m.amount.amount >= 0 {
      NewCoinsPortion(m.amount, m.amount.denom);
      BalanceAfterAdd(l.bank.balances, c.moduleAccount, coins, c.moduleAccount, m.amount.denom);
      var to := c.parse(OrElse(m.mintToAddress, m.sender));
      if to.Some? {
        CanSend(MintCoins(l.bank, c.moduleAccount, coins), c.moduleAccount, to.value, m.amount);
      }
    }
  }

  lemma CanTakeSupply(m: map<Denom, nat>, amount: Coin)
    requires amount.amount >= 0
    ensures TakeSupply(m, NewCoins(amount)).Some? <==> amount.amount <= Entry(m, amount.denom)
  {
    var coins := NewCoins(amount);
    if amount.amount > 0 {
      assert coins[1..] == [];
      assert forall r: map<Denom, nat> :: TakeSupply(r, []) == Some(r);
    }
  }

  lemma SupplyCovers(b: Bank, a: Address, d: Denom)
    requires Gap(b, d) == 0
    ensures BalanceOf(b, a, d) <= SupplyOf(b, d)
  {
    if (a, d) in b.balances { TotalWithout(b.balances, (a, d), d); }
  }

  lemma CanBurn(c: Chain, b: Bank, a: Address, amount: Coin)
    requires Conserved(b) && amount.amount >= 0
    ensures SendCoins(b, a, c.moduleAccount, NewCoins(amount)).Some? <==> amount.amount <= BalanceOf(b, a, amount.denom)
    ensures SendCoins(b, a, c.moduleAccount, NewCoins(amount)).Some? ==>
              BurnCoins(SendCoins(b, a, c.moduleAccount, NewCoins(amount)).value,
                        c.moduleAccount, NewCoins(amount)).Some?
  {
    hide Gap, SendCoins, TakeFrom, TakeSupply, AddTo;
    var coins := NewCoins(amount);
    CanSend(b, a, c.moduleAccount, amount);
    if SendCoins(b, a, c.moduleAccount, coins).Some? {
      var sent := SendCoins(b, a, c.moduleAccount, coins).value;
      SendMoves(b, a, c.moduleAccount, coins, c.moduleAccount, amount.denom);
      SendConserves(b, a, c.moduleAccount, coins, amount.denom);
      NewCoinsPortion(amount, amount.denom);
      SupplyCovers(sent, c.moduleAccount, amount.denom);
      SupplyCovers(b, a, amount.denom);
      CanTake(sent.balances, c.moduleAccount, amount);
      CanTakeSupply(sent.supply, amount);
      SendKeepsRest();
    }
  }

  predicate CanLose(c: Chain, b: Bank, text: Bytes, amount: Coin)
  {
    c.parse(text).Some? && amount.amount <= BalanceOf(b, c.parse(text).value, amount.denom)
  }

  /** In a conserved state a burn fails only for the reasons the module checks or for lack
      of funds: the supply it is taken from is never too small. The target is the address
      named, or the sender when none is. */
  lemma BurnSucceedsExactly(c: Chain, l: Ledger, m: Msg)
    requires m.Burn? && c.parse(m.sender).Some? && Conserved(l.bank)
    ensures Accepted(c, l, m) <==>
              && IsAdmin(l, m.amount.denom, m.sender) && IsFactoryDenom(c, m.amount.denom) && m.amount.amount >= 0
              && (m.burnFromAddress != [] ==>
                    !c.moduleText(m.burnFromAddress) && CanLose(c, l.bank, m.burnFromAddress, m.amount))
              && (m.burnFromAddress == [] ==> !c.moduleText(m.sender) && CanLose(c, l.bank, m.sender, m.amount))
  {
    hide DeconstructDenom, Conserved, Total;
    var from := c.parse(OrElse(m.burnFromAddress, m.sender));
    if from.Some? && m.amount.amount >= 0 {
      CanBurn(c, l.bank, from.value, m.amount);
    }
  }

  /** A forced transfer fails only for the reasons the module checks or for lack of funds. */
  lemma ForceTransferSucceedsExactly(c: Chain, l: Ledger, m: Msg)
    requires m.ForceTransfer? && c.parse(m.sender).Some?
    ensures Accepted(c, l, m) <==>
              && IsAdmin(l, m.amount.denom, m.sender) && IsFactoryDenom(c, m.amount.denom) && m.amount.amount >= 0
              && CanLose(c, l.bank, m.transferFromAddress, m.amount) && c.parse(m.transferToAddress).Some?
  {
    hide DeconstructDenom, SendCoins;
    var from, to := c.parse(m.transferFromAddress), c.parse(m.transferToAddress);
    if from.Some? && to.Some? && m.amount.amount >= 0 {
      CanSend(l.bank, from.value, to.value, m.amount);
    }
  }

  /** The admin, and nobody else, hands a denom to any address, or to nobody. */
  lemma ChangeAdminSucceedsExactly(c: Chain, l: Ledger, m: Msg)
    requires m.ChangeAdmin? && c.parse(m.sender).Some?
    ensures Accepted(c, l, m) <==>
              IsAdmin(l, m.denom, m.sender) && (m.newAdmin == [] || c.parse(m.newAdmin).Some?)
    ensures Accepted(c, l, m) ==> Handle(c, l, m).ledger == l.(admins := l.admins[m.denom := m.newAdmin])
  {
  }

  /** The admin, and nobody else, sets any valid metadata. */
  lemma SetDenomMetadataSucceedsExactly(c: Chain, l: Ledger, m: Msg)
    requires m.SetDenomMetadata? && c.parse(m.sender).Some?
    ensures Accepted(c, l, m) <==> c.metadataOk(m.metadata) && IsAdmin(l, m.metadata.base, m.sender)
    ensures var described := l.bank.metadata[m.metadata.base := m.metadata];
            Accepted(c, l, m) ==> Handle(c, l, m).ledger == l.(bank := l.bank.(metadata := described))
  {
  }

  /** A creation is accepted exactly when the subdenom is no circulating denom, the parts
      are within the caps and print to a valid denom without metadata, and the creator holds
      the fee in every denom. */
  lemma CreationSucceedsExactly(c: Chain, l: Ledger, m: Msg)
    requires m.CreateDenom? && c.parse(m.sender).Some?
    ensures var d, fee := JoinDenom(m.sender, m.subdenom), l.params.denomCreationFee;
            Accepted(c, l, m) <==>
              && SupplyOf(l.bank, m.subdenom) == 0
              && |m.subdenom| <= 44 && |m.sender| <= 75 && SLASH !in m.sender
              && c.denomOk(d) && d !in l.bank.metadata
              && (fee.Some? ==> NonNegative(fee.value) && forall e ::
                    AmountIn(fee.value, e) <= BalanceOf(l.bank, c.parse(m.sender).value, e))
  {
    hide JoinDenom, TakeFrom, AmountIn, Entry;
    var fee := l.params.denomCreationFee;
    if fee.Some? {
      TakenExactly(l.bank.balances, c.parse(m.sender).value, fee.value);
      assert forall e ::
        BalanceOf(l.bank, c.parse(m.sender).value, e) == Entry(l.bank.balances, (c.parse(m.sender).value, e));
    }
  }

  ghost predicate Affords(b: Bank, a: Address, coins: seq<Coin>)
  {
    NonNegative(coins) && forall d :: AmountIn(coins, d) <= BalanceOf(b, a, d)
  }

  function DenomRefusal(c: Chain, d: Denom): Option<LedgerError>
  {
    if !c.denomOk(d) then Some(BadDenom) else if !IsFactoryDenom(c, d) then Some(InvalidDenom) else None
  }

  /** The first objection to a message from an address, read off the state before it. */
  ghost function Refusal(c: Chain, l: Ledger, m: Msg): Option<LedgerError>
    requires c.parse(m.sender).Some?
  {
    match m
    case CreateDenom(sender, subdenom) =>
      var fee := l.params.denomCreationFee;
      if SupplyOf(l.bank, subdenom) > 0 then Some(NativeSubdenom)
      else if |subdenom| > 44 then Some(SubdenomTooLong)
      else if |sender| > 75 then Some(CreatorTooLong)
      else if SLASH in sender then Some(InvalidCreator)
      else if !c.denomOk(JoinDenom(sender, subdenom)) then Some(BadDenom)
      else if JoinDenom(sender, subdenom) in l.bank.metadata then Some(DenomExists)
      else if fee.Some? && !Affords(l.bank, c.parse(sender).value, fee.value) then Some(InsufficientFunds)
      else None
    case Mint(sender, amount, named) =>
      var to := if named != [] then named else sender;
      if amount.denom !in l.bank.metadata then Some(DenomDoesNotExist)
      else if !IsAdmin(l, amount.denom, sender) then Some(Unauthorized)
      else if DenomRefusal(c, amount.denom).Some? then DenomRefusal(c, amount.denom)
      else if amount.amount < 0 then Some(Panicked)
      else if c.parse(to).None? then Some(InvalidAddress)
      else if !MayReceive(c, to) then Some(BlockedRecipient)
      else None
    case Burn(sender, amount, named) =>
      var from := if named != [] then named else sender;
      if !IsAdmin(l, amount.denom, sender) then Some(Unauthorized)
      else if c.moduleText(from) then Some(BurnFromModuleAccount)
      else if DenomRefusal(c, amount.denom).Some? then DenomRefusal(c, amount.denom)
      else if c.parse(from).None? then Some(InvalidAddress)
      else if amount.amount < 0 then Some(Panicked)
      else if !CanLose(c, l.bank, from, amount) then Some(InsufficientFunds)
      else None
    case ForceTransfer(sender, amount, from, to) =>
      if !IsAdmin(l, amount.denom, sender) then Some(Unauthorized)
      else if DenomRefusal(c, amount.denom).Some? then DenomRefusal(c, amount.denom)
      else if c.parse(from).None? || c.parse(to).None? then Some(InvalidAddress)
      else if amount.amount < 0 then Some(Panicked)
      else if !CanLose(c, l.bank, from, amount) then Some(InsufficientFunds)
      else None
    case ChangeAdmin(sender, d, newAdmin) =>
      if !IsAdmin(l, d, sender) then Some(Unauthorized)
      else if !AdminTextOk(c, newAdmin) then Some(InvalidAddress)
      else None
    case SetDenomMetadata(sender, metadata) =>
      if !c.metadataOk(metadata) then Some(InvalidMetadata)
      else if !IsAdmin(l, metadata.base, sender) then Some(Unauthorized)
      else None
  }

  lemma DenomErrorsAre(c: Chain, d: Denom)
    ensures DeconstructDenom(c, d).Rejected? <==> DenomRefusal(c, d).Some?
    ensures DeconstructDenom(c, d).Rejected? ==> DenomRefusal(c, d) == Some(DeconstructDenom(c, d).error)
  {
  }

  lemma CreationRefusal(c: Chain, l: Ledger, m: Msg)
    requires m.CreateDenom? && c.parse(m.sender).Some?
    ensures Handle(c, l, m).error == Refusal(c, l, m)
    ensures Refusal(c, l, m).Some? ==> Handle(c, l, m).ledger == l
  {
    hide JoinDenom, TakeFrom, AmountIn, Entry;
    var fee := l.params.denomCreationFee;
    if fee.Some? {
      var payer := c.parse(m.sender).value;
      TakenExactly(l.bank.balances, payer, fee.value);
      assert forall e :: BalanceOf(l.bank, payer, e) == Entry(l.bank.balances, (payer, e));
    }
  }

  lemma MintRefusal(c: Chain, l: Ledger, m: Msg)
    requires m.Mint? && c.parse(m.sender).Some?
    ensures Handle(c, l, m).error == Refusal(c, l, m)
    ensures Refusal(c, l, m).Some? && Refusal(c, l, m).value !in {InvalidAddress, BlockedRecipient} ==>
              Handle(c, l, m).ledger == l
  {
    hide DeconstructDenom, SendCoins, AddTo;
    DenomErrorsAre(c, m.amount.denom);
    MintSucceedsExactly(c, l, m);
  }

  /** The half-way state of a refused recipient: minted, and not paid out. */
  lemma RefusedMintEffect(c: Chain, l: Ledger, m: Msg, x: Address, d: Denom)
    requires m.Mint? && c.parse(m.sender).Some?
    requires Refusal(c, l, m) in {Some(InvalidAddress), Some(BlockedRecipient)}
    ensures var b := Handle(c, l, m).ledger.bank;
            && BalanceOf(b, x, d)
               == BalanceOf(l.bank, x, d) + (if x == c.moduleAccount then Portion(m.amount, d) else 0)
            && SupplyOf(b, d) == SupplyOf(l.bank, d) + Portion(m.amount, d)
            && KeepsRest(l, Handle(c, l, m).ledger)
  {
    hide DeconstructDenom, SendCoins, AddTo, AddSupply, AmountIn;
    DenomErrorsAre(c, m.amount.denom);
    var coins := NewCoins(m.amount);
    NewCoinsPortion(m.amount, d);
    BalanceAfterAdd(l.bank.balances, c.moduleAccount, coins, x, d);
    SupplyAfterAdd(l.bank.supply, coins, d);
  }

  /** In a conserved state every handler returns the first objection, no error arising along
      the way; and a failed handler leaves the state as it was, but for a mint whose
      recipient is refused, which leaves the new coins on the module account. */
  lemma RefusesExactly(c: Chain, l: Ledger, m: Msg)
    requires c.parse(m.sender).Some? && Conserved(l.bank)
    ensures Handle(c, l, m).error == Refusal(c, l, m)
    ensures Refusal(c, l, m).Some? && !(m.Mint? && Refusal(c, l, m).value in {InvalidAddress, BlockedRecipient}) ==>
              Handle(c, l, m).ledger == l
  {
    hide DeconstructDenom, Conserved, SendCoins, JoinDenom, MintCoins, BurnCoins, AmountIn, TakeFrom;
    DenomErrorsAre(c, Target(m));
    match m
    case CreateDenom(_, _) => CreationRefusal(c, l, m);
    case Mint(_, _, _) => MintRefusal(c, l, m);
    case Burn(sender, amount, named) =>
      var from := c.parse(OrElse(named, sender));
      if from.Some? && amount.amount >= 0 { CanBurn(c, l.bank, from.value, amount); }
    case ForceTransfer(_, amount, from, to) =>
      var a, b := c.parse(from), c.parse(to);
      if a.Some? && b.Some? && amount.amount >= 0 { CanSend(l.bank, a.value, b.value, amount); }
    case _ =>
  }

  lemma RecordedIsFactory(c: Chain, l: Ledger, d: Denom)
    requires Coherent(c, l) && d in l.admins
    ensures DeconstructDenom(c, d).Parsed? && c.denomOk(d)
  {
    assert IsFactoryDenom(c, d);
  }

  /** What each message must look like to reach its handler. */
  lemma BasicChecksExactly(c: Chain, m: Msg)
    ensures ValidateBasic(c, m) == None <==>
              && c.parse(m.sender).Some?
              && match m
                 case CreateDenom(sender, subdenom) =>
                   |subdenom| <= 44 && |sender| <= 75 && SLASH !in sender && c.denomOk(JoinDenom(sender, subdenom))
                 case Mint(_, amount, _) => c.denomOk(amount.denom) && amount.amount > 0
                 case Burn(_, amount, _) => c.denomOk(amount.denom) && amount.amount > 0
                 case ForceTransfer(_, amount, from, to) =>
                   c.parse(from).Some? && c.parse(to).Some? && c.denomOk(amount.denom) && amount.amount >= 0
                 case ChangeAdmin(_, d, newAdmin) => c.parse(newAdmin).Some? && IsFactoryDenom(c, d)
                 case SetDenomMetadata(_, metadata) => c.metadataOk(metadata) && IsFactoryDenom(c, metadata.base)
  {
    hide DeconstructDenom, JoinDenom;
  }

  /** Which error the basic checks give for what. */
  lemma BasicErrorsExactly(c: Chain, m: Msg)
    ensures c.parse(m.sender).None? ==> ValidateBasic(c, m) == Some(InvalidAddress)
    ensures c.parse(m.sender).Some? ==>
              var e := ValidateBasic(c, m);
              match m
              case CreateDenom(_, _) => e.Some? ==> e == Some(InvalidDenom)
              case Mint(_, _, _) => e.Some? ==> e == Some(InvalidCoins)
              case Burn(_, _, _) => e.Some? ==> e == Some(InvalidCoins)
              case ForceTransfer(_, _, from, to) =>
                e.Some? ==> e == Some(if c.parse(from).None? || c.parse(to).None? then InvalidAddress else InvalidCoins)
              case ChangeAdmin(_, d, newAdmin) =>
                e.Some? ==> e == if c.parse(newAdmin).None? then Some(InvalidAddress) else DenomRefusal(c, d)
              case SetDenomMetadata(_, metadata) =>
                e.Some? ==>
                  e == if !c.metadataOk(metadata) then Some(InvalidMetadata) else DenomRefusal(c, metadata.base)
  {
    hide DeconstructDenom, JoinDenom;
    DenomErrorsAre(c, Target(m));
  }

  /** Of what the handlers would accept, the basic checks turn away exactly the mints and
      burns of nothing and the handover to nobody. */
  lemma DeliveryTurnsAwayExactly(c: Chain, l: Ledger, m: Msg)
    requires Lawful(c) && Coherent(c, l) && Accepted(c, l, m)
    ensures ValidateBasic(c, m).Some?
       <==> ((m.Mint? || m.Burn?) && m.amount.amount == 0) || (m.ChangeAdmin? && m.newAdmin == [])
  {
    hide Lawful, Coherent, DeconstructDenom, SendCoins, BurnCoins, MintCoins, JoinDenom;
    EmptyIsNoAddress(c);
    if !m.CreateDenom? {
      AdminEffect(c, l, m);
      RecordedIsFactory(c, l, Target(m));
    }
  }

  lemma DenomErrors(c: Chain, d: Denom)
    ensures DeconstructDenom(c, d).Rejected? ==> DeconstructDenom(c, d).error in {BadDenom, InvalidDenom}
  {
  }

  /** What passes the basic checks never panics in a handler: no negative coin reaches the
      bank, and no burn exceeds the supply. */
  lemma DeliveryNeverPanics(c: Chain, l: Ledger, m: Msg)
    requires Conserved(l.bank) && ValidateBasic(c, m) == None
    ensures Handle(c, l, m).error != Some(Panicked)
  {
    hide DeconstructDenom, Conserved, SendCoins, BurnCoins, MintCoins;
    DenomErrors(c, Target(m));
    if m.Burn? {
      var from := c.parse(OrElse(m.burnFromAddress, m.sender));
      if from.Some? { CanBurn(c, l.bank, from.value, m.amount); }
    }
  }

  // ------------------------------------------------------------------ history

  /** What an accepted message leaves on record. */
  datatype Event =
    | Created(sender: Bytes, denom: Denom)
    | Minted(sender: Bytes, denom: Denom, amount: int)
    | Burned(sender: Bytes, denom: Denom, amount: int)
    | Moved(sender: Bytes, denom: Denom)
    | HandedOver(sender: Bytes, denom: Denom, newAdmin: Bytes)
    | Described(sender: Bytes, denom: Denom)

  function EventOf(m: Msg): (e: Event)
    ensures e.denom == Target(m) && e.sender == m.sender
  {
    match m
    case CreateDenom(sender, subdenom) => Created(sender, Target(m))
    case Mint(sender, amount, _) => Minted(sender, amount.denom, amount.amount)
    case Burn(sender, amount, _) => Burned(sender, amount.denom, amount.amount)
    case ForceTransfer(sender, amount, _, _) => Moved(sender, amount.denom)
    case ChangeAdmin(sender, d, newAdmin) => HandedOver(sender, d, newAdmin)
    case SetDenomMetadata(sender, metadata) => Described(sender, metadata.base)
  }

  function EventsOf(c: Chain, l: Ledger, s: Step): seq<Event>
  {
    if s.Call? && Accepted(c, l, s.msg) then [EventOf(s.msg)] else []
  }

  function Log(c: Chain, l: Ledger, ss: seq<Step>): seq<Event>
    decreases |ss|
  {
    if ss == [] then [] else EventsOf(c, l, ss[0]) + Log(c, Advance(c, l, ss[0]), ss[1..])
  }

  /** An auditor who follows one denom and sees only the log. */
  datatype Book = Book(admin: Option<Bytes>, supply: int)

  function BookOf(l: Ledger, d: Denom): Book
  {
    Book(if d in l.admins then Some(l.admins[d]) else None, SupplyOf(l.bank, d))
  }

  /** A denom is created once and every later act is its admin's; `None` is an objection. */
  function Enter(d: Denom, b: Book, e: Event): Option<Book>
  {
    if e.denom != d then Some(b)
    else if e.Created? then if b.admin == None then Some(b.(admin := Some(e.sender))) else None
    else if b.admin != Some(e.sender) then None
    else
      match e
      case Minted(_, _, n) => if n >= 0 then Some(b.(supply := b.supply + n)) else None
      case Burned(_, _, n) => if 0 <= n <= b.supply then Some(b.(supply := b.supply - n)) else None
      case HandedOver(_, _, newAdmin) => Some(b.(admin := Some(newAdmin)))
      case _ => Some(b)
  }

  function Audit(d: Denom, b: Book, log: seq<Event>): Option<Book>
    decreases |log|
  {
    if log == [] then Some(b) else
    match Enter(d, b, log[0])
    case None => None
    case Some(b') => Audit(d, b', log[1..])
  }

  lemma MintSupply(c: Chain, l: Ledger, amount: Coin, to: Bytes, d: Denom)
    requires MintStep(c, l, amount, to).error == None
    ensures amount.amount >= 0
    ensures SupplyOf(MintStep(c, l, amount, to).ledger.bank, d)
         == SupplyOf(l.bank, d) + (if amount.denom == d then amount.amount else 0)
  {
    hide DeconstructDenom, SendCoins;
    SendKeepsRest();
    SupplyAfterAdd(l.bank.supply, NewCoins(amount), d);
  }

  lemma BurnSupply(c: Chain, l: Ledger, amount: Coin, from: Bytes, d: Denom)
    requires BurnStep(c, l, amount, from).error == None
    ensures amount.amount >= 0
    ensures SupplyOf(BurnStep(c, l, amount, from).ledger.bank, d)
         == SupplyOf(l.bank, d) - (if amount.denom == d then amount.amount else 0)
  {
    hide DeconstructDenom, SendCoins;
    SendKeepsRest();
    SupplyAfterTake(l.bank.supply, NewCoins(amount), d);
  }

  /** How the supply of any denom changes in an accepted message. */
  lemma SupplyEffect(c: Chain, l: Ledger, m: Msg, d: Denom)
    requires Accepted(c, l, m)
    ensures var s, s' := SupplyOf(l.bank, d), SupplyOf(Handle(c, l, m).ledger.bank, d);
            if m.Mint? && m.amount.denom == d then m.amount.amount >= 0 && s' == s + m.amount.amount
            else if m.Burn? && m.amount.denom == d then 0 <= m.amount.amount <= s && s' == s - m.amount.amount
            else s' == s
  {
    hide DeconstructDenom, ValidateCreate, SendCoins, MintStep, BurnStep;
    SendKeepsRest();
    match m
    case Mint(sender, amount, to) => MintSupply(c, l, amount, OrElse(to, sender), d);
    case Burn(sender, amount, from) => BurnSupply(c, l, amount, OrElse(from, sender), d);
    case _ =>
  }

  lemma AuditStep(c: Chain, l: Ledger, m: Msg, d: Denom)
    requires Lawful(c) && Coherent(c, l) && Accepted(c, l, m)
    ensures Enter(d, BookOf(l, d), EventOf(m)) == Some(BookOf(Submit(c, l, m), d))
  {
    hide Handle, IsFactoryDenom, Segment, JoinDenom, OwnCreator;
    SupplyEffect(c, l, m, d);
    if m.CreateDenom? {
      CreationEffect(c, l, m);
    } else {
      AdminEffect(c, l, m);
    }
  }

  ghost predicate SameFor(d: Denom, l: Ledger, l': Ledger)
  {
    && (d in l'.admins <==> d in l.admins)
    && (d in l.admins ==> l'.admins[d] == l.admins[d])
    && SupplyOf(l'.bank, d) == SupplyOf(l.bank, d)
    && (d in l'.bank.metadata <==> d in l.bank.metadata)
    && (d in l.bank.metadata ==> l'.bank.metadata[d] == l.bank.metadata[d])
    && (forall creator :: (creator, d) in l'.index <==> (creator, d) in l.index)
  }

  lemma TransferIsSilent(l: Ledger, from: Address, to: Address, coins: seq<Coin>, d: Denom)
    ensures SameFor(d, l, Transferred(l, from, to, coins))
  {
    hide SendCoins;
    SendKeepsRest();
  }

  lemma RejectedChangesNothing(c: Chain, l: Ledger, m: Msg)
    requires !Accepted(c, l, m)
    ensures Submit(c, l, m) == l
  {
  }

  /** The log of any run satisfies the auditor, who ends with the true admin and supply. */
  lemma {:induction false} LogPassesAudit(c: Chain, l: Ledger, ss: seq<Step>, d: Denom)
    requires Lawful(c) && Coherent(c, l)
    ensures Audit(d, BookOf(l, d), Log(c, l, ss)) == Some(BookOf(Run(c, l, ss), d))
    decreases |ss|
  {
    hide Accepted, Submit, Transferred, Coherent, Enter;
    if ss != [] {
      var l' := Advance(c, l, ss[0]);
      AdvanceKeepsCoherent(c, l, ss[0]);
      LogPassesAudit(c, l', ss[1..], d);
      var rest := Log(c, l', ss[1..]);
      match ss[0] {
        case Transfer(from, to, coins) =>
          TransferIsSilent(l, from, to, coins, d);
          assert [] + rest == rest;
        case Call(m) =>
          if Accepted(c, l, m) {
            AuditStep(c, l, m, d);
            assert ([EventOf(m)] + rest)[1..] == rest;
          } else {
            RejectedChangesNothing(c, l, m);
            assert [] + rest == rest;
          }
      }
    }
  }

  function Issued(d: Denom, log: seq<Event>): int
  {
    if log == [] then 0 else
    (if log[0].denom != d then 0
     else match log[0]
          case Minted(_, _, n) => n
          case Burned(_, _, n) => -n
          case _ => 0) + Issued(d, log[1..])
  }

  /** The admin after a log: the creator, or whoever the denom was last handed to. */
  function AdminAfter(d: Denom, start: Option<Bytes>, log: seq<Event>): Option<Bytes>
    decreases |log|
  {
    if log == [] then start else
    var e := log[|log| - 1];
    if e.denom == d && e.Created? then Some(e.sender)
    else if e.denom == d && e.HandedOver? then Some(e.newAdmin)
    else AdminAfter(d, start, log[..|log| - 1])
  }

  lemma {:induction false} AdminAfterFront(d: Denom, start: Option<Bytes>, e: Event, log: seq<Event>)
    ensures AdminAfter(d, start, [e] + log) == AdminAfter(d, AdminAfter(d, start, [e]), log)
    decreases |log|
  {
    if log == [] {
      assert [e] + log == [e];
    } else {
      var all := [e] + log;
      assert all[..|all| - 1] == [e] + log[..|log| - 1];
      AdminAfterFront(d, start, e, log[..|log| - 1]);
    }
  }

  lemma EnterAdmin(d: Denom, b: Book, e: Event)
    requires Enter(d, b, e).Some?
    ensures Enter(d, b, e).value.admin == AdminAfter(d, b.admin, [e])
    ensures Enter(d, b, e).value.supply == b.supply + Issued(d, [e])
  {
    assert [e][..0] == [];
    assert [e][1..] == [];
  }

  lemma EnterObjects(d: Denom, b: Book, e: Event)
    requires Enter(d, b, e).Some? && e.denom == d
    ensures b.admin == if e.Created? then None else Some(e.sender)
  {
  }

  lemma {:induction false} AuditMeans(d: Denom, b: Book, log: seq<Event>)
    requires Audit(d, b, log).Some?
    ensures Audit(d, b, log).value.admin == AdminAfter(d, b.admin, log)
    ensures Audit(d, b, log).value.supply == b.supply + Issued(d, log)
    ensures forall k :: 0 <= k < |log| && log[k].denom == d ==>
              AdminAfter(d, b.admin, log[..k]) == if log[k].Created? then None else Some(log[k].sender)
    decreases |log|
  {
    hide Enter;
    if log != [] {
      var e, rest := log[0], log[1..];
      assert log == [e] + rest;
      var b' := Enter(d, b, e).value;
      EnterAdmin(d, b, e);
      AuditMeans(d, b', rest);
      AdminAfterFront(d, b.admin, e, rest);
      forall k | 0 <= k < |log| && log[k].denom == d
        ensures AdminAfter(d, b.admin, log[..k]) == if log[k].Created? then None else Some(log[k].sender)
      {
        if k == 0 {
          EnterObjects(d, b, e);
        } else {
          assert log[..k] == [e] + rest[..k - 1];
          AdminAfterFront(d, b.admin, e, rest[..k - 1]);
        }
      }
    }
  }

  /** The history of a denom over any run: its supply is the starting supply plus what was
      minted minus what was burned, its admin is its creator or the last one it was handed
      to, and each act on it was sent by the admin of that moment. */
  lemma SupplyAndAdminHistory(c: Chain, l: Ledger, ss: seq<Step>, d: Denom)
    requires Lawful(c) && Coherent(c, l)
    ensures var log, l', start := Log(c, l, ss), Run(c, l, ss), BookOf(l, d).admin;
            && SupplyOf(l'.bank, d) == SupplyOf(l.bank, d) + Issued(d, log)
            && BookOf(l', d).admin == AdminAfter(d, start, log)
            && forall k :: 0 <= k < |log| && log[k].denom == d ==>
                 AdminAfter(d, start, log[..k]) == if log[k].Created? then None else Some(log[k].sender)
  {
    hide Audit, Log, Run;
    LogPassesAudit(c, l, ss, d);
    AuditMeans(d, BookOf(l, d), Log(c, l, ss));
  }

  lemma {:induction false} AdminStays(d: Denom, start: Option<Bytes>, log: seq<Event>, k: nat)
    requires k <= |log| && AdminAfter(d, start, log[..k]).Some?
    ensures AdminAfter(d, start, log).Some?
    decreases |log|
  {
    if k < |log| {
      assert log[..|log| - 1][..k] == log[..k];
      AdminStays(d, start, log[..|log| - 1], k);
    } else {
      assert log[..k] == log;
    }
  }

  lemma AdminKnownAt(d: Denom, start: Option<Bytes>, log: seq<Event>, j: nat, k: nat)
    requires j < k <= |log| && log[j].denom == d && log[j].Created?
    ensures AdminAfter(d, start, log[..k]).Some?
  {
    assert log[..j + 1][..j] == log[..j];
    assert AdminAfter(d, start, log[..j + 1]) == Some(log[j].sender);
    assert log[..k][..j + 1] == log[..j + 1];
    AdminStays(d, start, log[..k], j + 1);
  }

  lemma NoEventsNoChange(d: Denom, start: Option<Bytes>, log: seq<Event>)
    ensures AdminAfter(d, start, log[..0]) == start
  {
  }

  /** No run creates a denom twice, nor one that has a record already. */
  lemma CreatedOnce(c: Chain, l: Ledger, ss: seq<Step>, d: Denom)
    requires Lawful(c) && Coherent(c, l)
    ensures var log := Log(c, l, ss);
            forall k :: 0 <= k < |log| && log[k].denom == d && log[k].Created? ==>
              d !in l.admins && forall j :: 0 <= j < k && log[j].denom == d ==> !log[j].Created?
  {
    hide Log, Run, Lawful, Coherent, AdminAfter;
    var log, start := Log(c, l, ss), BookOf(l, d).admin;
    SupplyAndAdminHistory(c, l, ss, d);
    forall k | 0 <= k < |log| && log[k].denom == d && log[k].Created?
      ensures d !in l.admins && forall j :: 0 <= j < k && log[j].denom == d ==> !log[j].Created?
    {
      if d in l.admins {
        NoEventsNoChange(d, start, log[..k]);
        AdminStays(d, start, log[..k], 0);
      }
      forall j | 0 <= j < k && log[j].denom == d
        ensures !log[j].Created?
      {
        if log[j].Created? { AdminKnownAt(d, start, log, j, k); }
      }
    }
  }

  // ---------------------------------------------------------------- renunciation

  /** A message about another denom leaves a denom's record, supply, metadata and index alone. */
  lemma OthersUntouched(c: Chain, l: Ledger, m: Msg, d: Denom)
    requires Lawful(c) && Accepted(c, l, m) && Target(m) != d
    ensures SameFor(d, l, Submit(c, l, m))
  {
    hide Handle, IsFactoryDenom, Segment, JoinDenom;
    SupplyEffect(c, l, m, d);
    if m.CreateDenom? {
      CreationEffect(c, l, m);
    } else {
      AdminEffect(c, l, m);
    }
  }

  lemma FrozenRejects(c: Chain, l: Ledger, m: Msg, d: Denom)
    requires Lawful(c) && Coherent(c, l) && d in l.admins && l.admins[d] == [] && Accepted(c, l, m)
    ensures Target(m) != d
  {
    hide Handle, Segment, JoinDenom, IsFactoryDenom, OwnCreator;
    if m.CreateDenom? {
      CreationEffect(c, l, m);
    } else {
      AdminEffect(c, l, m);
    }
  }

  /** Once a record holds the empty admin, no run changes the denom's admin, supply,
      metadata or index, and the log shows no act on it: no transfer by force, no second
      creation. */
  lemma {:induction false} RenouncedIsFrozen(c: Chain, l: Ledger, ss: seq<Step>, d: Denom)
    requires Lawful(c) && Coherent(c, l) && d in l.admins && l.admins[d] == []
    ensures SameFor(d, l, Run(c, l, ss))
    ensures forall k :: 0 <= k < |Log(c, l, ss)| ==> Log(c, l, ss)[k].denom != d
    decreases |ss|
  {
    hide Accepted, Submit, Transferred, Coherent;
    if ss != [] {
      var l' := Advance(c, l, ss[0]);
      AdvanceKeepsCoherent(c, l, ss[0]);
      match ss[0] {
        case Transfer(from, to, coins) => TransferIsSilent(l, from, to, coins, d);
        case Call(m) =>
          if Accepted(c, l, m) {
            FrozenRejects(c, l, m, d);
            OthersUntouched(c, l, m, d);
          } else {
            RejectedChangesNothing(c, l, m);
          }
      }
      RenouncedIsFrozen(c, l', ss[1..], d);
    }
  }

  /** Any accepted message but a creation touches one denom only: of every other, record,
      index, supply, metadata and all balances stay the same. */
  lemma ActsOnOneDenom(c: Chain, l: Ledger, m: Msg, d: Denom)
    requires Lawful(c) && Accepted(c, l, m) && !m.CreateDenom? && d != Target(m)
    ensures SameFor(d, l, Submit(c, l, m))
    ensures forall x :: BalanceOf(Submit(c, l, m).bank, x, d) == BalanceOf(l.bank, x, d)
  {
    hide Handle, Entry;
    OthersUntouched(c, l, m, d);
    forall x ensures BalanceOf(Submit(c, l, m).bank, x, d) == BalanceOf(l.bank, x, d) {
      BalanceEffect(c, l, m, x, d);
    }
  }

  lemma DeliveredKeepsAdmin(c: Chain, l: Ledger, m: Msg, d: Denom)
    requires Lawful(c) && Coherent(c, l) && d in l.admins && l.admins[d] != []
    ensures DeliverStep(c, l, m) == l || DeliverStep(c, l, m) == Submit(c, l, m)
    ensures d in DeliverStep(c, l, m).admins && DeliverStep(c, l, m).admins[d] != []
  {
    hide Handle, Segment, JoinDenom, IsFactoryDenom, OwnCreator;
    if Accepted(c, l, m) {
      if m.CreateDenom? { CreationEffect(c, l, m); } else { AdminEffect(c, l, m); }
    }
  }

  /** The handler lets an admin renounce by an empty new admin, but delivery does not get
      there: no delivered run ever empties a record that holds an admin. */
  lemma {:induction false} DeliveryNeverRenounces(c: Chain, l: Ledger, ss: seq<Step>, d: Denom)
    requires Lawful(c) && Coherent(c, l) && d in l.admins && l.admins[d] != []
    ensures d in DeliverAll(c, l, ss).admins && DeliverAll(c, l, ss).admins[d] != []
    decreases |ss|
  {
    hide Accepted, Submit, Transferred, Coherent, ValidateBasic, DeliverStep;
    if ss != [] {
      var l' := if ss[0].Call? then DeliverStep(c, l, ss[0].msg) else Advance(c, l, ss[0]);
      AdvanceKeepsCoherent(c, l, ss[0]);
      match ss[0] {
        case Transfer(from, to, coins) => TransferIsSilent(l, from, to, coins, d);
        case Call(m) => DeliveredKeepsAdmin(c, l, m, d);
      }
      DeliveryNeverRenounces(c, l', ss[1..], d);
    }
  }

  lemma HandlerRenounces(c: Chain, l: Ledger, sender: Bytes, d: Denom)
    requires Lawful(c) && d in l.admins && l.admins[d] == sender && c.parse(sender).Some?
    ensures Submit(c, l, ChangeAdmin(sender, d, [])).admins == l.admins[d := []]
    ensures DeliverStep(c, l, ChangeAdmin(sender, d, [])) == l
  {
  }
}
