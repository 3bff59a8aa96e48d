/** The keeper and its message server on the byte store, each method proved against the
    plain-map step it is meant to be. */
module Keeper {
  import opened Bits
  import opened Varint
  import opened Text
  import opened Messages
  import opened Codec
  import opened Chain
  import opened Denoms
  import opened Keys
  import opened Bank
  import opened Ledger
  import opened Safety
  import opened Genesis
  import opened Store

  /** The bank behind the module, by its contracts. */
  class BankKeeper {
    var balances: Balances
    var supply: map<Denom, nat>
    var metadata: map<Denom, Metadata>

    function View(): Bank
      reads this
    {
      Bank(balances, supply, metadata)
    }

    method SetDenomMetaData(m: Metadata)
      modifies this
      ensures View() == old(View()).(metadata := old(metadata)[m.base := m])
    {
      metadata := metadata[m.base := m];
    }

    method Mint(account: Address, coins: seq<Coin>)
      requires NonNegative(coins)
      modifies this
      ensures View() == MintCoins(old(View()), account, coins)
    {
      balances, supply := AddTo(balances, account, coins), AddSupply(supply, coins);
    }

    method Burn(account: Address, coins: seq<Coin>) returns (ok: bool)
      modifies this
      ensures ok == BurnCoins(old(View()), account, coins).Some?
      ensures View() == if ok then BurnCoins(old(View()), account, coins).value else old(View())
    {
      var b := BurnCoins(View(), account, coins);
      ok := b.Some?;
      if ok { balances, supply := b.value.balances, b.value.supply; }
    }

    method Send(from: Address, to: Address, coins: seq<Coin>) returns (ok: bool)
      modifies this
      ensures ok == SendCoins(old(View()), from, to, coins).Some?
      ensures View() == if ok then SendCoins(old(View()), from, to, coins).value else old(View())
    {
      var b := SendCoins(View(), from, to, coins);
      ok := b.Some?;
      if ok { balances := b.value.balances; }
    }
  }

  lemma CreatedHasNoBar(c: Chain, l: Ledger, creator: Bytes, subdenom: Bytes)
    requires Lawful(c) && ValidateCreate(c, l, creator, subdenom).Printed?
    ensures BAR !in creator && BAR !in ValidateCreate(c, l, creator, subdenom).denom
    ensures ValidateCreate(c, l, creator, subdenom).denom == JoinDenom(creator, subdenom)
  {
    JoinThree(creator, subdenom);
    assert forall b :: b in creator ==> b in JoinDenom(creator, subdenom);
  }

  lemma ParsedHaveNoBar(c: Chain, d: Denom)
    requires Lawful(c) && DeconstructDenom(c, d).Parsed?
    ensures BAR !in DeconstructDenom(c, d).creator && BAR !in d
  {
    PartsOfDenom(c, d);
  }

  lemma RecordFits(c: Chain, admin: Bytes)
    requires Lawful(c) && AdminTextOk(c, admin)
    ensures |RecordOf(admin)| < TWO_63
  {
    if admin != [] { SizeIsDigitCount(|admin|); }
  }

  class Keeper {
    const chain: Chain
    const bank: BankKeeper
    var store: Store
    var params: ModuleParams
    ghost var plain: Ledger

    /** The bytes in the store, with the bank and the parameters, are the plain state. */
    ghost predicate Valid()
      reads this, bank
    {
      && Lawful(chain)
      && plain.bank == bank.View() && plain.params == params
      && Represents(store, plain.admins, plain.index) && NoBars(plain.index)
      && forall d :: d in plain.admins ==> AdminTextOk(chain, plain.admins[d])
    }

    /** A keeper over an empty module store. */
    constructor (chain: Chain, bank: BankKeeper, params: ModuleParams)
      requires Lawful(chain)
      ensures Valid() && EmptyStore(plain) && this.chain == chain && this.bank == bank
      ensures plain.bank == bank.View() && plain.params == params
    {
      this.chain, this.bank, this.params := chain, bank, params;
      store := map[];
      plain := Ledger(map[], {}, bank.View(), params);
    }

    // ---------------------------------------------------------------- records

    method GetAuthorityMetadata(denom: Denom) returns (metadata: DenomAuthorityMetadata, err: Option<LedgerError>)
      requires Valid()
      ensures err == None && metadata.admin == AdminOf(plain, denom)
    {
      hide AuthorityKey, CreatorKey, DecodeAuthority, LenField;
      ReadRecord(store, plain.admins, plain.index, denom);
      RecordFits(chain, AdminOf(plain, denom));
      AuthorityRoundTrip(DenomAuthorityMetadata(AdminOf(plain, denom)), EMPTY_AUTHORITY);
      var bz := Get(store, AuthorityKey(denom));
      var m := new AuthorityMessage(EMPTY_AUTHORITY);
      var failed := m.Unmarshal(bz);
      if failed.Some? { return EMPTY_AUTHORITY, Some(CorruptRecord); }
      return m.Value(), None;
    }

    method SetAuthorityMetadata(denom: Denom, metadata: DenomAuthorityMetadata) returns (err: Option<LedgerError>)
      requires Valid()
      modifies this
      ensures Valid() && Outcome(plain, err) == SetAuthority(chain, old(plain), denom, metadata.admin)
    {
      hide AuthorityKey, CreatorKey, EncodeAuthority, Represents, NoBars, Lawful;
      if metadata.admin != [] && chain.parse(metadata.admin).None? { return Some(InvalidAddress); }
      RecordFits(chain, metadata.admin);
      var m := new AuthorityMessage(metadata);
      assert metadata == DenomAuthorityMetadata(metadata.admin);
      var bz := m.Marshal();
      StoreRecord(store, plain.admins, plain.index, denom, metadata.admin);
      store := store[AuthorityKey(denom) := bz[..]];
      plain := plain.(admins := plain.admins[denom := metadata.admin]);
      err := None;
    }

    method SetAdmin(denom: Denom, admin: Bytes) returns (err: Option<LedgerError>)
      requires Valid()
      modifies this
      ensures Valid() && Outcome(plain, err) == SetAuthority(chain, old(plain), denom, admin)
    {
      hide SetAuthority, Valid;
      var metadata;
      metadata, err := GetAuthorityMetadata(denom);
      if err.Some? { return; }
      metadata := metadata.(admin := admin);
      err := SetAuthorityMetadata(denom, metadata);
    }

    // ---------------------------------------------------------------- creator index

    method AddDenomFromCreator(creator: Bytes, denom: Denom)
      requires Valid() && BAR !in creator && BAR !in denom
      modifies this
      ensures Valid() && plain == old(plain).(index := old(plain).index + {(creator, denom)})
    {
      hide AuthorityKey, CreatorKey, RecordOf, Represents, NoBars, Lawful;
      StoreEntry(store, plain.admins, plain.index, creator, denom);
      store := store[CreatorKey(creator, denom) := denom];
      plain := plain.(index := plain.index + {(creator, denom)});
    }

    /** The keys of a prefix store, prefix stripped, in the order its iterator yields them. */
    method Iterator(p: Bytes) returns (keys: seq<Bytes>)
      ensures Enumerates(keys, SubKeys(store, p))
    {
      keys := [];
      var todo := store.Keys;
      ghost var done: set<Bytes> := {};
      while todo != {}
        invariant todo <= store.Keys
        invariant Enumerates(keys, done)
        invariant forall q :: q in done <==> p + q in store.Keys - todo
        decreases |todo|
      {
        var k :| k in todo;
        if p <= k {
          var q := k[|p|..];
          assert p + q == k;
          InsertEnumerates(keys, done, q);
          keys, done := Insert(keys, q), done + {q};
          assert forall r :: p + r == k ==> r == (p + r)[|p|..] == q;
        } else {
          assert forall q :: p <= p + q;
        }
        todo := todo - {k};
      }
      assert done == SubKeys(store, p) by {
        forall q ensures q in done <==> q in SubKeys(store, p) {
          assert (p + q)[|p|..] == q;
          if q in SubKeys(store, p) {
            var k :| k in store && p <= k && k[|p|..] == q;
            assert k == p + q;
          }
        }
      }
    }

    /** The denoms recorded for a text, in order and each once; none of another creator's,
        whatever the text. */
    method GetDenomsFromCreator(creator: Bytes) returns (denoms: seq<Denom>)
      requires Valid()
      ensures denoms == InOrder(DenomsOf(plain, creator))
    {
      hide AuthorityKey, CreatorKey, RecordOf, Represents, NoBars, Lawful, InOrder;
      KeysUnderCreator(store, plain.admins, plain.index, creator);
      var keys := Iterator(GetCreatorPrefix(creator));
      denoms := [];
      for i := 0 to |keys|
        invariant denoms == keys[..i]
      {
        denoms := denoms + [keys[i]];
      }
      EnumerationIsUnique(denoms, InOrder(DenomsOf(plain, creator)), DenomsOf(plain, creator));
    }

    // ---------------------------------------------------------------- creation

    method CreateDenomAfterValidation(creator: Bytes, denom: Denom) returns (err: Option<LedgerError>)
      requires Valid() && BAR !in creator && BAR !in denom
      modifies this, bank
      ensures Valid() && Outcome(plain, err) == CreateAfterValidation(chain, old(plain), creator, denom)
    {
      hide Represents, NoBars, Lawful, SetAuthority;
      if denom !in bank.metadata {
        bank.SetDenomMetaData(NewMetadata(denom));
        plain := plain.(bank := bank.View());
      }
      err := SetAuthorityMetadata(denom, DenomAuthorityMetadata(creator));
      if err.Some? { return; }
      AddDenomFromCreator(creator, denom);
    }

    method ValidateCreateDenom(creator: Bytes, subdenom: Bytes) returns (r: Printed)
      requires Valid()
      ensures r == ValidateCreate(chain, plain, creator, subdenom)
    {
      hide Represents, NoBars, Lawful, GetTokenDenom;
      if SupplyOf(bank.View(), subdenom) > 0 { return Refused(NativeSubdenom); }
      r := GetTokenDenom(chain, creator, subdenom);
      if r.Refused? { return; }
      if r.denom in bank.metadata { return Refused(DenomExists); }
    }

    method ChargeForCreateDenom(creator: Bytes) returns (err: Option<LedgerError>)
      requires Valid()
      modifies this, bank
      ensures Valid() && Outcome(plain, err) == Charge(chain, old(plain), creator)
    {
      hide Represents, NoBars, Lawful, SendCoins;
      if params.denomCreationFee.Some? {
        var accAddr := chain.parse(creator);
        if accAddr.None? { return Some(InvalidAddress); }
        var ok := bank.Send(accAddr.value, chain.pool, params.denomCreationFee.value);
        if !ok { return Some(InsufficientFunds); }
        plain := plain.(bank := bank.View());
      }
      err := None;
    }

    method CreateDenom(creator: Bytes, subdenom: Bytes) returns (denom: Denom, err: Option<LedgerError>)
      requires Valid()
      modifies this, bank
      ensures Valid() && Outcome(plain, err) == CreateStep(chain, old(plain), creator, subdenom)
      ensures err == None ==> denom == JoinDenom(creator, subdenom)
    {
      hide Represents, NoBars, Lawful, ValidateCreate, Charge, CreateAfterValidation;
      denom := [];
      var r := ValidateCreateDenom(creator, subdenom);
      if r.Refused? { return denom, Some(r.error); }
      CreatedHasNoBar(chain, plain, creator, subdenom);
      err := ChargeForCreateDenom(creator);
      if err.Some? { return; }
      denom := r.denom;
      err := CreateDenomAfterValidation(creator, denom);
    }

    // ---------------------------------------------------------------- bank actions

    method MintTo(amount: Coin, mintTo: Bytes) returns (err: Option<LedgerError>)
      requires Valid()
      modifies this, bank
      ensures Valid() && Outcome(plain, err) == MintStep(chain, old(plain), amount, mintTo)
    {
      hide Represents, NoBars, Lawful, SendCoins, MintCoins, DeconstructDenom;
      var parsed := DeconstructDenom(chain, amount.denom);
      if parsed.Rejected? { return Some(parsed.error); }
      if amount.amount < 0 { return Some(Panicked); }
      bank.Mint(chain.moduleAccount, NewCoins(amount));
      plain := plain.(bank := bank.View());
      var addr := chain.parse(mintTo);
      if addr.None? { return Some(InvalidAddress); }
      if chain.blocked(addr.value) { return Some(BlockedRecipient); }
      var ok := bank.Send(chain.moduleAccount, addr.value, NewCoins(amount));
      if !ok { return Some(InsufficientFunds); }
      plain := plain.(bank := bank.View());
      err := None;
    }

    method BurnFrom(amount: Coin, burnFrom: Bytes) returns (err: Option<LedgerError>)
      requires Valid()
      modifies this, bank
      ensures Valid() && Outcome(plain, err) == BurnStep(chain, old(plain), amount, burnFrom)
    {
      hide Represents, NoBars, Lawful, SendCoins, BurnCoins, DeconstructDenom;
      var parsed := DeconstructDenom(chain, amount.denom);
      if parsed.Rejected? { return Some(parsed.error); }
      var addr := chain.parse(burnFrom);
      if addr.None? { return Some(InvalidAddress); }
      if amount.amount < 0 { return Some(Panicked); }
      var ok := bank.Send(addr.value, chain.moduleAccount, NewCoins(amount));
      if !ok { return Some(InsufficientFunds); }
      plain := plain.(bank := bank.View());
      ok := bank.Burn(chain.moduleAccount, NewCoins(amount));
      if !ok { return Some(Panicked); }
      plain := plain.(bank := bank.View());
      err := None;
    }

    method ForceTransfer(amount: Coin, fromAddr: Bytes, toAddr: Bytes) returns (err: Option<LedgerError>)
      requires Valid()
      modifies this, bank
      ensures Valid() && Outcome(plain, err) == MoveByForce(chain, old(plain), amount, fromAddr, toAddr)
    {
      hide Represents, NoBars, Lawful, SendCoins, DeconstructDenom;
      var parsed := DeconstructDenom(chain, amount.denom);
      if parsed.Rejected? { return Some(parsed.error); }
      var from := chain.parse(fromAddr);
      if from.None? { return Some(InvalidAddress); }
      var to := chain.parse(toAddr);
      if to.None? { return Some(InvalidAddress); }
      if amount.amount < 0 { return Some(Panicked); }
      var ok := bank.Send(from.value, to.value, NewCoins(amount));
      if !ok { return Some(InsufficientFunds); }
      plain := plain.(bank := bank.View());
      err := None;
    }

    // ---------------------------------------------------------------- genesis

    /** Loads a genesis; `panicked` stands for Go's panic, after which nothing is promised. */
    method InitGenesis(g: ModuleGenesis) returns (panicked: bool)
      requires Valid()
      modifies this, bank
      ensures panicked <==> LoadGenesis(chain, old(plain), g).None?
      ensures !panicked ==> Valid() && plain == LoadGenesis(chain, old(plain), g).value
    {
      hide Represents, NoBars, CreateAfterValidation, SetAuthority, DeconstructDenom;
      var fee := if g.params.denomCreationFee.None? then [] else g.params.denomCreationFee.value;
      if !chain.feeOk(fee) { return true; }
      params := g.params.(denomCreationFee := Some(fee));
      plain := plain.(params := params);
      ghost var start := plain;
      var i := 0;
      while i < |g.factoryDenoms|
        invariant 0 <= i <= |g.factoryDenoms| && Valid()
        invariant InitDenoms(chain, start, g.factoryDenoms) == InitDenoms(chain, plain, g.factoryDenoms[i..])
      {
        ghost var rest := g.factoryDenoms[i..];
        assert rest[0] == g.factoryDenoms[i] && rest[1..] == g.factoryDenoms[i + 1..];
        var genDenom := g.factoryDenoms[i];
        var parsed := DeconstructDenom(chain, genDenom.denom);
        if parsed.Rejected? { return true; }
        ParsedHaveNoBar(chain, genDenom.denom);
        var err := CreateDenomAfterValidation(parsed.creator, genDenom.denom);
        if err.Some? { return true; }
        err := SetAuthorityMetadata(genDenom.denom, genDenom.authorityMetadata);
        if err.Some? { return true; }
        i := i + 1;
      }
      panicked := false;
    }

    method ExportGenesis() returns (g: ModuleGenesis)
      requires Valid()
      ensures g == ExportedGenesis(plain)
    {
      hide Represents, NoBars, Lawful, InOrder, EntryAt, GetCreatorsPrefix;
      KeysUnderCreators(store, plain.admins, plain.index);
      var keys := Iterator(GetCreatorsPrefix());
      EnumerationIsUnique(keys, InOrder(IndexKeys(plain.index)), IndexKeys(plain.index));
      var genDenoms: seq<GenesisDenom> := [];
      for i := 0 to |keys|
        invariant |genDenoms| == i
        invariant forall j :: 0 <= j < i ==>
                  keys[j] in IndexKeys(plain.index) && genDenoms[j] == RecordAt(plain, keys[j])
      {
        assert keys[i] in keys;
        var denom := Get(store, GetCreatorsPrefix() + keys[i]);
        var metadata, err := GetAuthorityMetadata(denom);
        genDenoms := genDenoms + [GenesisDenom(denom, metadata)];
      }
      g := ModuleGenesis(params, genDenoms);
    }
  }

  // ------------------------------------------------------------------ message server

  class MsgServer {
    const keeper: Keeper

    constructor (keeper: Keeper)
      ensures this.keeper == keeper
    {
      this.keeper := keeper;
    }

    method CreateDenom(sender: Bytes, subdenom: Bytes) returns (err: Option<LedgerError>)
      requires keeper.Valid()
      modifies keeper, keeper.bank
      ensures keeper.Valid()
      ensures Outcome(keeper.plain, err) == Handle(keeper.chain, old(keeper.plain), Msg.CreateDenom(sender, subdenom))
    {
      var denom;
      denom, err := keeper.CreateDenom(sender, subdenom);
    }

    method Mint(sender: Bytes, amount: Coin, mintToAddress: Bytes) returns (err: Option<LedgerError>)
      requires keeper.Valid()
      modifies keeper, keeper.bank
      ensures keeper.Valid()
      ensures Outcome(keeper.plain, err)
         == Handle(keeper.chain, old(keeper.plain), Msg.Mint(sender, amount, mintToAddress))
    {
      hide Represents, NoBars, Lawful, MintStep;
      if amount.denom !in keeper.bank.metadata { return Some(DenomDoesNotExist); }
      var authority;
      authority, err := keeper.GetAuthorityMetadata(amount.denom);
      if err.Some? { return; }
      if sender != authority.admin { return Some(Unauthorized); }
      var to := mintToAddress;
      if to == [] { to := sender; }
      err := keeper.MintTo(amount, to);
    }

    method Burn(sender: Bytes, amount: Coin, burnFromAddress: Bytes) returns (err: Option<LedgerError>)
      requires keeper.Valid()
      modifies keeper, keeper.bank
      ensures keeper.Valid()
      ensures Outcome(keeper.plain, err)
         == Handle(keeper.chain, old(keeper.plain), Msg.Burn(sender, amount, burnFromAddress))
    {
      hide Represents, NoBars, Lawful, BurnStep;
      var authority;
      authority, err := keeper.GetAuthorityMetadata(amount.denom);
      if err.Some? { return; }
      if sender != authority.admin { return Some(Unauthorized); }
      var from := burnFromAddress;
      if from == [] { from := sender; }
      if keeper.chain.moduleText(from) { return Some(BurnFromModuleAccount); }
      err := keeper.BurnFrom(amount, from);
    }

    method ForceTransfer(sender: Bytes, amount: Coin, from: Bytes, to: Bytes) returns (err: Option<LedgerError>)
      requires keeper.Valid()
      modifies keeper, keeper.bank
      ensures keeper.Valid()
      ensures Outcome(keeper.plain, err)
         == Handle(keeper.chain, old(keeper.plain), Msg.ForceTransfer(sender, amount, from, to))
    {
      hide Represents, NoBars, Lawful, MoveByForce;
      var authority;
      authority, err := keeper.GetAuthorityMetadata(amount.denom);
      if err.Some? { return; }
      if sender != authority.admin { return Some(Unauthorized); }
      err := keeper.ForceTransfer(amount, from, to);
    }

    method ChangeAdmin(sender: Bytes, denom: Denom, newAdmin: Bytes) returns (err: Option<LedgerError>)
      requires keeper.Valid()
      modifies keeper, keeper.bank
      ensures keeper.Valid()
      ensures Outcome(keeper.plain, err)
         == Handle(keeper.chain, old(keeper.plain), Msg.ChangeAdmin(sender, denom, newAdmin))
    {
      hide Represents, NoBars, Lawful, SetAuthority;
      var authority;
      authority, err := keeper.GetAuthorityMetadata(denom);
      if err.Some? { return; }
      if sender != authority.admin { return Some(Unauthorized); }
      err := keeper.SetAdmin(denom, newAdmin);
    }

    method SetDenomMetadata(sender: Bytes, metadata: Metadata) returns (err: Option<LedgerError>)
      requires keeper.Valid()
      modifies keeper, keeper.bank
      ensures keeper.Valid()
      ensures Outcome(keeper.plain, err)
         == Handle(keeper.chain, old(keeper.plain), Msg.SetDenomMetadata(sender, metadata))
    {
      hide Represents, NoBars, Lawful;
      if !keeper.chain.metadataOk(metadata) { return Some(InvalidMetadata); }
      var authority;
      authority, err := keeper.GetAuthorityMetadata(metadata.base);
      if err.Some? { return; }
      if sender != authority.admin { return Some(Unauthorized); }
      keeper.bank.SetDenomMetaData(metadata);
      keeper.plain := keeper.plain.(bank := keeper.bank.View());
    }

    method Dispatch(m: Msg) returns (err: Option<LedgerError>)
      requires keeper.Valid()
      modifies keeper, keeper.bank
      ensures keeper.Valid() && Outcome(keeper.plain, err) == Handle(keeper.chain, old(keeper.plain), m)
    {
      hide Handle, Keeper.Valid;
      match m
      case CreateDenom(sender, subdenom) => err := CreateDenom(sender, subdenom);
      case Mint(sender, amount, to) => err := Mint(sender, amount, to);
      case Burn(sender, amount, from) => err := Burn(sender, amount, from);
      case ForceTransfer(sender, amount, from, to) => err := ForceTransfer(sender, amount, from, to);
      case ChangeAdmin(sender, denom, newAdmin) => err := ChangeAdmin(sender, denom, newAdmin);
      case SetDenomMetadata(sender, metadata) => err := SetDenomMetadata(sender, metadata);
    }

    /** A delivered message: the basic checks, then the handler on state that is put back
        as it was when the handler fails. */
    method Deliver(m: Msg) returns (err: Option<LedgerError>)
      requires keeper.Valid()
      modifies keeper, keeper.bank
      ensures keeper.Valid() && keeper.plain == DeliverStep(keeper.chain, old(keeper.plain), m)
      ensures err == if ValidateBasic(keeper.chain, m).Some? then ValidateBasic(keeper.chain, m)
                     else Handle(keeper.chain, old(keeper.plain), m).error
    {
      hide Handle, ValidateBasic, Represents, NoBars, Lawful;
      err := ValidateBasic(keeper.chain, m);
      if err.Some? { return; }
      var store, params, bank := keeper.store, keeper.params, keeper.bank.View();
      ghost var plain := keeper.plain;
      err := Dispatch(m);
      if err.Some? {
        keeper.store, keeper.params, keeper.plain := store, params, plain;
        keeper.bank.balances, keeper.bank.supply, keeper.bank.metadata := bank.balances, bank.supply, bank.metadata;
      }
    }
  }

  /** Holders move coins through the bank, past the module; its state follows. */
  method TransferCoins(keeper: Keeper, from: Address, to: Address, coins: seq<Coin>) returns (ok: bool)
    requires keeper.Valid()
    modifies keeper, keeper.bank
    ensures keeper.Valid() && keeper.plain == Transferred(old(keeper.plain), from, to, coins)
    ensures ok == SendCoins(old(keeper.plain).bank, from, to, coins).Some?
  {
    hide Represents, NoBars, Lawful, SendCoins;
    ok := keeper.bank.Send(from, to, coins);
    keeper.plain := keeper.plain.(bank := keeper.bank.View());
  }

  /** Any number of delivered messages and transfers: the bytes represent the delivered run. */
  method DeliverSteps(server: MsgServer, ss: seq<Step>)
    requires server.keeper.Valid()
    modifies server.keeper, server.keeper.bank
    ensures server.keeper.Valid()
    ensures server.keeper.plain == DeliverAll(server.keeper.chain, old(server.keeper.plain), ss)
  {
    hide Keeper.Valid, DeliverStep, SendCoins;
    var keeper := server.keeper;
    var i := 0;
    assert ss[0..] == ss;
    while i < |ss|
      invariant 0 <= i <= |ss| && keeper.Valid()
      invariant DeliverAll(keeper.chain, keeper.plain, ss[i..]) == DeliverAll(keeper.chain, old(keeper.plain), ss)
    {
      assert ss[i..][1..] == ss[i + 1..];
      match ss[i] {
        case Call(m) =>
          var _ := server.Deliver(m);
        case Transfer(from, to, coins) =>
          var _ := TransferCoins(keeper, from, to, coins);
      }
      i := i + 1;
    }
  }

  /** `GenesisState.Validate`: the loop and its map of seen denoms. */
  method ValidateGenesis(c: Chain, g: ModuleGenesis) returns (err: Option<LedgerError>)
    ensures err == Validate(c, g)
  {
    hide DeconstructDenom, AdminTextOk;
    if !c.feeOk(FeeOf(g.params)) { return Some(InvalidParams); }
    var seenDenoms: map<Denom, bool> := map[];
    var i := 0;
    assert g.factoryDenoms[0..] == g.factoryDenoms && seenDenoms.Keys == {};
    while i < |g.factoryDenoms|
      invariant 0 <= i <= |g.factoryDenoms|
      invariant forall d :: d in seenDenoms ==> seenDenoms[d]
      invariant ValidateDenoms(c, g.factoryDenoms, {}) == ValidateDenoms(c, g.factoryDenoms[i..], seenDenoms.Keys)
    {
      ghost var rest := g.factoryDenoms[i..];
      assert rest[0] == g.factoryDenoms[i] && rest[1..] == g.factoryDenoms[i + 1..];
      var x := g.factoryDenoms[i];
      if x.denom in seenDenoms && seenDenoms[x.denom] { return Some(InvalidGenesis); }
      assert seenDenoms[x.denom := true].Keys == seenDenoms.Keys + {x.denom};
      seenDenoms := seenDenoms[x.denom := true];
      var parsed := DeconstructDenom(c, x.denom);
      if parsed.Rejected? { return Some(parsed.error); }
      if !AdminTextOk(c, x.authorityMetadata.admin) { return Some(InvalidAuthorityMetadata); }
      i := i + 1;
    }
    err := None;
  }
}
