/** The module on plain maps: denom to admin, creator to denoms, and the bank. Each handler
    yields the state it reaches, also when it fails half-way, and its error. */
module Ledger {
  import opened Bits
  import opened Varint
  import opened Chain
  import opened Denoms
  import opened Bank

  /** `None` is Go's nil slice, which charges nothing and skips the address check. */
  datatype ModuleParams = ModuleParams(denomCreationFee: Option<seq<Coin>>, denomCreationGasConsume: uint64)

  datatype Ledger = Ledger(
    admins: map<Denom, Bytes>,
    index: set<(Bytes, Denom)>,
    bank: Bank,
    params: ModuleParams)

  datatype Outcome = Outcome(ledger: Ledger, error: Option<LedgerError>)

  datatype Msg =
    | CreateDenom(sender: Bytes, subdenom: Bytes)
    | Mint(sender: Bytes, amount: Coin, mintToAddress: Bytes)
    | Burn(sender: Bytes, amount: Coin, burnFromAddress: Bytes)
    | ForceTransfer(sender: Bytes, amount: Coin, transferFromAddress: Bytes, transferToAddress: Bytes)
    | ChangeAdmin(sender: Bytes, denom: Denom, newAdmin: Bytes)
    | SetDenomMetadata(sender: Bytes, metadata: Metadata)

  function Done(l: Ledger): Outcome { Outcome(l, None) }

  function Fail(l: Ledger, e: LedgerError): Outcome { Outcome(l, Some(e)) }

  /** A denom without a record reads as having the empty admin. */
  function AdminOf(l: Ledger, d: Denom): Bytes
  {
    if d in l.admins then l.admins[d] else []
  }

  function DenomsOf(l: Ledger, creator: Bytes): set<Denom>
  {
    set p | p in l.index && p.0 == creator :: p.1
  }

  // ------------------------------------------------------------------ keeper steps

  function SetAuthority(c: Chain, l: Ledger, d: Denom, admin: Bytes): Outcome
  {
    if admin != [] && c.parse(admin).None? then Fail(l, InvalidAddress)
    else Done(l.(admins := l.admins[d := admin]))
  }

  function NewMetadata(d: Denom): Metadata
  {
    Metadata(d, [DenomUnit(d, 0)], [])
  }

  function CreateAfterValidation(c: Chain, l: Ledger, creator: Bytes, d: Denom): Outcome
  {
    var described := if d in l.bank.metadata then l
                     else l.(bank := l.bank.(metadata := l.bank.metadata[d := NewMetadata(d)]));
    var o := SetAuthority(c, described, d, creator);
    if o.error.Some? then o else Done(o.ledger.(index := o.ledger.index + {(creator, d)}))
  }

  function ValidateCreate(c: Chain, l: Ledger, creator: Bytes, subdenom: Bytes): Printed
  {
    if SupplyOf(l.bank, subdenom) > 0 then Refused(NativeSubdenom) else
    var p := GetTokenDenom(c, creator, subdenom);
    if p.Printed? && p.denom in l.bank.metadata then Refused(DenomExists) else p
  }

  function Charge(c: Chain, l: Ledger, creator: Bytes): Outcome
  {
    match l.params.denomCreationFee
    case None => Done(l)
    case Some(fee) =>
      match c.parse(creator)
      case None => Fail(l, InvalidAddress)
      case Some(payer) =>
        match SendCoins(l.bank, payer, c.pool, fee)
        case None => Fail(l, InsufficientFunds)
        case Some(b) => Done(l.(bank := b))
  }

  function CreateStep(c: Chain, l: Ledger, creator: Bytes, subdenom: Bytes): Outcome
  {
    match ValidateCreate(c, l, creator, subdenom)
    case Refused(e) => Fail(l, e)
    case Printed(d) =>
      var charged := Charge(c, l, creator);
      if charged.error.Some? then charged else CreateAfterValidation(c, charged.ledger, creator, d)
  }

  /** Mints to the module account before the recipient's address is looked at. */
  function MintStep(c: Chain, l: Ledger, amount: Coin, to: Bytes): Outcome
  {
    match DeconstructDenom(c, amount.denom)
    case Rejected(e) => Fail(l, e)
    case Parsed(_, _) =>
      if amount.amount < 0 then Fail(l, Panicked) else
      var coins := NewCoins(amount);
      var minted := l.(bank := MintCoins(l.bank, c.moduleAccount, coins));
      match c.parse(to)
      case None => Fail(minted, InvalidAddress)
      case Some(a) =>
        if c.blocked(a) then Fail(minted, BlockedRecipient) else
        match SendCoins(minted.bank, c.moduleAccount, a, coins)
        case None => Fail(minted, InsufficientFunds)
        case Some(b) => Done(minted.(bank := b))
  }

  function BurnStep(c: Chain, l: Ledger, amount: Coin, from: Bytes): Outcome
  {
    match DeconstructDenom(c, amount.denom)
    case Rejected(e) => Fail(l, e)
    case Parsed(_, _) =>
      match c.parse(from)
      case None => Fail(l, InvalidAddress)
      case Some(a) =>
        if amount.amount < 0 then Fail(l, Panicked) else
        var coins := NewCoins(amount);
        match SendCoins(l.bank, a, c.moduleAccount, coins)
        case None => Fail(l, InsufficientFunds)
        case Some(b) =>
          match BurnCoins(b, c.moduleAccount, coins)
          case None => Fail(l.(bank := b), Panicked)
          case Some(b') => Done(l.(bank := b'))
  }

  function MoveByForce(c: Chain, l: Ledger, amount: Coin, from: Bytes, to: Bytes): Outcome
  {
    match DeconstructDenom(c, amount.denom)
    case Rejected(e) => Fail(l, e)
    case Parsed(_, _) =>
      match (c.parse(from), c.parse(to))
      case (Some(a), Some(b)) =>
        if amount.amount < 0 then Fail(l, Panicked) else
        (match SendCoins(l.bank, a, b, NewCoins(amount))
         case None => Fail(l, InsufficientFunds)
         case Some(bank) => Done(l.(bank := bank)))
      case _ => Fail(l, InvalidAddress)
  }

  // ------------------------------------------------------------------ the six messages

  function OrElse(text: Bytes, default: Bytes): Bytes
  {
    if text == [] then default else text
  }

  function Handle(c: Chain, l: Ledger, m: Msg): Outcome
  {
    match m
    case CreateDenom(sender, subdenom) => CreateStep(c, l, sender, subdenom)
    case Mint(sender, amount, to) =>
      if amount.denom !in l.bank.metadata then Fail(l, DenomDoesNotExist)
      else if sender != AdminOf(l, amount.denom) then Fail(l, Unauthorized)
      else MintStep(c, l, amount, OrElse(to, sender))
    case Burn(sender, amount, from) =>
      if sender != AdminOf(l, amount.denom) then Fail(l, Unauthorized)
      else if c.moduleText(OrElse(from, sender)) then Fail(l, BurnFromModuleAccount)
      else BurnStep(c, l, amount, OrElse(from, sender))
    case ForceTransfer(sender, amount, from, to) =>
      if sender != AdminOf(l, amount.denom) then Fail(l, Unauthorized)
      else MoveByForce(c, l, amount, from, to)
    case ChangeAdmin(sender, d, newAdmin) =>
      if sender != AdminOf(l, d) then Fail(l, Unauthorized)
      else SetAuthority(c, l, d, newAdmin)
    case SetDenomMetadata(sender, metadata) =>
      if !c.metadataOk(metadata) then Fail(l, InvalidMetadata)
      else if sender != AdminOf(l, metadata.base) then Fail(l, Unauthorized)
      else Done(l.(bank := l.bank.(metadata := l.bank.metadata[metadata.base := metadata])))
  }

  predicate CoinOk(c: Chain, coin: Coin)
  {
    c.denomOk(coin.denom) && coin.amount >= 0
  }

  function DenomError(c: Chain, d: Denom): Option<LedgerError>
  {
    match DeconstructDenom(c, d)
    case Rejected(e) => Some(e)
    case Parsed(_, _) => None
  }

  function ValidateBasic(c: Chain, m: Msg): Option<LedgerError>
  {
    if c.parse(m.sender).None? then Some(InvalidAddress) else
    match m
    case CreateDenom(sender, subdenom) =>
      if GetTokenDenom(c, sender, subdenom).Refused? then Some(InvalidDenom) else None
    case Mint(_, amount, _) =>
      if !CoinOk(c, amount) || amount.amount == 0 then Some(InvalidCoins) else None
    case Burn(_, amount, _) =>
      if !CoinOk(c, amount) || amount.amount == 0 then Some(InvalidCoins) else None
    case ForceTransfer(_, amount, from, to) =>
      if c.parse(from).None? || c.parse(to).None? then Some(InvalidAddress)
      else if !CoinOk(c, amount) then Some(InvalidCoins) else None
    case ChangeAdmin(_, d, newAdmin) =>
      if c.parse(newAdmin).None? then Some(InvalidAddress)
      else DenomError(c, d)
    case SetDenomMetadata(_, metadata) =>
      if !c.metadataOk(metadata) then Some(InvalidMetadata)
      else DenomError(c, metadata.base)
  }

  // ------------------------------------------------------------------ transactions

  /** The handler works on a copy that is kept only when it succeeds. */
  function Commit(l: Ledger, o: Outcome): Ledger
  {
    if o.error.None? then o.ledger else l
  }

  /** A message as the chain delivers it. */
  function DeliverStep(c: Chain, l: Ledger, m: Msg): Ledger
  {
    if ValidateBasic(c, m).Some? then l else Commit(l, Handle(c, l, m))
  }

  predicate Accepted(c: Chain, l: Ledger, m: Msg)
  {
    c.parse(m.sender).Some? && Handle(c, l, m).error.None?
  }

  /** A message put to the handler directly, with nothing checked but the sender's address:
      all that delivery can do, and renouncing by an empty new admin besides. */
  function Submit(c: Chain, l: Ledger, m: Msg): Ledger
  {
    if Accepted(c, l, m) then Handle(c, l, m).ledger else l
  }

  /** One step of the chain around the module: a message, or holders moving coins between
      accounts through the bank, which refuses what is not there. */
  datatype Step = Call(msg: Msg) | Transfer(from: Address, to: Address, coins: seq<Coin>)

  function Transferred(l: Ledger, from: Address, to: Address, coins: seq<Coin>): Ledger
  {
    match SendCoins(l.bank, from, to, coins)
    case None => l
    case Some(b) => l.(bank := b)
  }

  function Advance(c: Chain, l: Ledger, s: Step): Ledger
  {
    match s
    case Call(m) => Submit(c, l, m)
    case Transfer(from, to, coins) => Transferred(l, from, to, coins)
  }

  function Run(c: Chain, l: Ledger, ss: seq<Step>): Ledger
    decreases |ss|
  {
    if ss == [] then l else Run(c, Advance(c, l, ss[0]), ss[1..])
  }

  /** The same steps with every message delivered, that is, checked first. */
  function DeliverAll(c: Chain, l: Ledger, ss: seq<Step>): Ledger
    decreases |ss|
  {
    if ss == [] then l else
    var l' := if ss[0].Call? then DeliverStep(c, l, ss[0].msg) else Advance(c, l, ss[0]);
    DeliverAll(c, l', ss[1..])
  }

  predicate PassesChecks(c: Chain, s: Step)
  {
    s.Call? ==> ValidateBasic(c, s.msg).None?
  }

  function Admitted(c: Chain, ss: seq<Step>): seq<Step>
  {
    if ss == [] then []
    else (if PassesChecks(c, ss[0]) then [ss[0]] else []) + Admitted(c, ss[1..])
  }

  /** Delivered runs are among the submitted ones: leave out what `ValidateBasic` rejects. */
  lemma {:induction false} DeliveryIsARun(c: Chain, l: Ledger, ss: seq<Step>)
    ensures DeliverAll(c, l, ss) == Run(c, l, Admitted(c, ss))
    decreases |ss|
  {
    hide Handle, SendCoins;
    if ss != [] {
      var rest := Admitted(c, ss[1..]);
      if PassesChecks(c, ss[0]) {
        assert ([ss[0]] + rest)[1..] == rest;
        DeliveryIsARun(c, Advance(c, l, ss[0]), ss[1..]);
      } else {
        assert [] + rest == rest;
        DeliveryIsARun(c, l, ss[1..]);
      }
    }
  }
}
