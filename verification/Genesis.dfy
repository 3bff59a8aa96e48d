/** Genesis: validation, loading into an empty store, exporting, and how the two undo
    each other. */
module Genesis {
  import opened Bits
  import opened Varint
  import opened Text
  import opened Messages
  import opened Chain
  import opened Denoms
  import opened Keys
  import opened Bank
  import opened Ledger
  import opened Safety

  datatype ModuleGenesis = ModuleGenesis(params: ModuleParams, factoryDenoms: seq<GenesisDenom>)

  function FeeOf(p: ModuleParams): seq<Coin>
  {
    if p.denomCreationFee.Some? then p.denomCreationFee.value else []
  }

  function ValidateDenoms(c: Chain, ds: seq<GenesisDenom>, seen: set<Denom>): Option<LedgerError>
    decreases |ds|
  {
    if ds == [] then None
    else if ds[0].denom in seen then Some(InvalidGenesis)
    else
      match DeconstructDenom(c, ds[0].denom)
      case Rejected(e) => Some(e)
      case Parsed(_, _) =>
        if !AdminTextOk(c, ds[0].authorityMetadata.admin) then Some(InvalidAuthorityMetadata)
        else ValidateDenoms(c, ds[1..], seen + {ds[0].denom})
  }

  function Validate(c: Chain, g: ModuleGenesis): Option<LedgerError>
  {
    if !c.feeOk(FeeOf(g.params)) then Some(InvalidParams) else ValidateDenoms(c, g.factoryDenoms, {})
  }

  function InitDenoms(c: Chain, l: Ledger, ds: seq<GenesisDenom>): Option<Ledger>
    decreases |ds|
  {
    if ds == [] then Some(l) else
    match DeconstructDenom(c, ds[0].denom)
    case Rejected(_) => None
    case Parsed(creator, _) =>
      var created := CreateAfterValidation(c, l, creator, ds[0].denom);
      if created.error.Some? then None else
      var recorded := SetAuthority(c, created.ledger, ds[0].denom, ds[0].authorityMetadata.admin);
      if recorded.error.Some? then None else InitDenoms(c, recorded.ledger, ds[1..])
  }

  /** `None` is a panic. Nil fees become empty fees. */
  function LoadGenesis(c: Chain, l: Ledger, g: ModuleGenesis): Option<Ledger>
  {
    var params := g.params.(denomCreationFee := Some(FeeOf(g.params)));
    if !c.feeOk(FeeOf(g.params)) then None else InitDenoms(c, l.(params := params), g.factoryDenoms)
  }

  // ------------------------------------------------------------------ export

  ghost function IndexKeys(index: set<(Bytes, Denom)>): set<Bytes>
  {
    set p | p in index :: IndexKey(p.0, p.1)
  }

  ghost function EntryAt(index: set<(Bytes, Denom)>, k: Bytes): (p: (Bytes, Denom))
    requires k in IndexKeys(index)
    ensures p in index && IndexKey(p.0, p.1) == k
  {
    var p :| p in index && IndexKey(p.0, p.1) == k;
    p
  }

  ghost function RecordAt(l: Ledger, k: Bytes): GenesisDenom
    requires k in IndexKeys(l.index)
  {
    var d := EntryAt(l.index, k).1;
    GenesisDenom(d, DenomAuthorityMetadata(AdminOf(l, d)))
  }

  ghost function RecordsAt(l: Ledger, ks: seq<Bytes>): (out: seq<GenesisDenom>)
    requires forall k :: k in ks ==> k in IndexKeys(l.index)
    ensures |out| == |ks|
    ensures forall i :: 0 <= i < |ks| ==> out[i] == RecordAt(l, ks[i])
  {
    if ks == [] then [] else [RecordAt(l, ks[0])] + RecordsAt(l, ks[1..])
  }

  /** One entry per index entry, in the order of the store keys `creator|denom`. */
  ghost function ExportDenoms(l: Ledger): seq<GenesisDenom>
  {
    RecordsAt(l, InOrder(IndexKeys(l.index)))
  }

  ghost function ExportedGenesis(l: Ledger): ModuleGenesis
  {
    ModuleGenesis(l.params, ExportDenoms(l))
  }

  // ------------------------------------------------------------------ validation

  ghost predicate ListedOnce(ds: seq<GenesisDenom>)
  {
    forall i, j :: 0 <= i < j < |ds| ==> ds[i].denom != ds[j].denom
  }

  ghost predicate ValidEntry(c: Chain, x: GenesisDenom)
  {
    IsFactoryDenom(c, x.denom) && AdminTextOk(c, x.authorityMetadata.admin)
  }

  lemma ListedOnceSplit(ds: seq<GenesisDenom>)
    requires ds != []
    ensures ListedOnce(ds) <==> ListedOnce(ds[1..]) && forall x :: x in ds[1..] ==> x.denom != ds[0].denom
  {
    var rest := ds[1..];
    assert forall i :: 0 <= i < |rest| ==> rest[i] == ds[i + 1];
    if ListedOnce(ds) {
      forall x | x in rest ensures x.denom != ds[0].denom {
        var i :| 0 <= i < |rest| && rest[i] == x;
        assert ds[i + 1] == x;
      }
    }
    if ListedOnce(rest) && forall x :: x in rest ==> x.denom != ds[0].denom {
      forall i, j | 0 <= i < j < |ds| ensures ds[i].denom != ds[j].denom {
        assert ds[j] == rest[j - 1];
        if i > 0 { assert ds[i] == rest[i - 1]; } else { assert rest[j - 1] in rest; }
      }
    }
  }

  /** The loop with its map of seen denoms accepts exactly the duplicate-free lists of
      valid entries. */
  lemma {:induction false} ValidationMeans(c: Chain, ds: seq<GenesisDenom>, seen: set<Denom>)
    ensures ValidateDenoms(c, ds, seen) == None
       <==> ListedOnce(ds) && forall x :: x in ds ==> ValidEntry(c, x) && x.denom !in seen
    decreases |ds|
  {
    hide DeconstructDenom, AdminTextOk;
    if ds != [] {
      var first, rest := ds[0], ds[1..];
      assert first in ds;
      ValidationMeans(c, rest, seen + {first.denom});
      assert ListedOnce(ds) <==> ListedOnce(rest) && forall x :: x in rest ==> x.denom != first.denom by {
        ListedOnceSplit(ds);
      }
      assert forall x :: x in ds <==> x == first || x in rest;
    }
  }

  /** Whether the creation fee is valid; a nil one is as good as an empty one. */
  predicate FeesOk(c: Chain, p: ModuleParams)
  {
    match p.denomCreationFee
    case None => c.feeOk([])
    case Some(fee) => c.feeOk(fee)
  }

  function NilAsEmpty(p: ModuleParams): ModuleParams
  {
    if p.denomCreationFee == None then p.(denomCreationFee := Some([])) else p
  }

  lemma {:induction false} ValidationErrors(c: Chain, ds: seq<GenesisDenom>, seen: set<Denom>)
    ensures ValidateDenoms(c, ds, seen) != Some(InvalidParams)
    decreases |ds|
  {
    hide AdminTextOk;
    if ds != [] { ValidationErrors(c, ds[1..], seen + {ds[0].denom}); }
  }

  lemma ValidateExactly(c: Chain, g: ModuleGenesis)
    ensures Validate(c, g) == None
       <==> FeesOk(c, g.params) && ListedOnce(g.factoryDenoms) && forall x :: x in g.factoryDenoms ==> ValidEntry(c, x)
    ensures Validate(c, g) == Some(InvalidParams) <==> !FeesOk(c, g.params)
  {
    hide DeconstructDenom, AdminTextOk;
    ValidationMeans(c, g.factoryDenoms, {});
    ValidationErrors(c, g.factoryDenoms, {});
  }

  ghost predicate Repeats(ds: seq<GenesisDenom>, k: nat)
    requires k < |ds|
  {
    exists j :: 0 <= j < k && ds[j].denom == ds[k].denom
  }

  /** The first bad entry decides the error: a denom listed before, a denom that does not
      parse, or an admin that is neither empty nor an address, in this order. */
  lemma {:induction false} FirstBadEntry(c: Chain, ds: seq<GenesisDenom>, seen: set<Denom>, k: nat)
    requires k < |ds| && ListedOnce(ds[..k]) && forall x :: x in ds[..k] ==> ValidEntry(c, x) && x.denom !in seen
    requires !(ValidEntry(c, ds[k]) && !Repeats(ds, k) && ds[k].denom !in seen)
    ensures ValidateDenoms(c, ds, seen)
         == if Repeats(ds, k) || ds[k].denom in seen then Some(InvalidGenesis)
            else if DenomRefusal(c, ds[k].denom).Some? then DenomRefusal(c, ds[k].denom)
            else Some(InvalidAuthorityMetadata)
    decreases |ds|
  {
    hide DeconstructDenom, AdminTextOk;
    if k == 0 {
      DenomErrorsAre(c, ds[0].denom);
    } else {
      var rest := ds[1..];
      assert ds[..k][0] == ds[0] && ds[..k][1..] == rest[..k - 1];
      ListedOnceSplit(ds[..k]);
      assert ds[0] in ds[..k] && forall x :: x in rest[..k - 1] ==> x in ds[..k];
      assert Repeats(ds, k) || ds[k].denom in seen
        <==> Repeats(rest, k - 1) || rest[k - 1].denom in seen + {ds[0].denom} by {
        if Repeats(ds, k) {
          var j :| 0 <= j < k && ds[j].denom == ds[k].denom;
          if j > 0 { assert rest[j - 1].denom == rest[k - 1].denom; }
        }
        if Repeats(rest, k - 1) {
          var j :| 0 <= j < k - 1 && rest[j].denom == rest[k - 1].denom;
          assert ds[j + 1].denom == ds[k].denom;
        }
      }
      FirstBadEntry(c, rest, seen + {ds[0].denom}, k - 1);
    }
  }

  // ------------------------------------------------------------------ loading

  function CreatorOf(c: Chain, d: Denom): Bytes
  {
    match DeconstructDenom(c, d)
    case Parsed(creator, _) => creator
    case Rejected(_) => []
  }

  ghost predicate Names(ds: seq<GenesisDenom>, d: Denom)
  {
    exists x :: x in ds && x.denom == d
  }

  /** What loading `ds` adds to `l`, and that it keeps everything else. */
  ghost predicate Loaded(c: Chain, l: Ledger, l': Ledger, ds: seq<GenesisDenom>)
  {
    && (forall d :: d in l'.admins <==> d in l.admins || Names(ds, d))
    && (forall x :: x in ds ==> x.denom in l'.admins && l'.admins[x.denom] == x.authorityMetadata.admin)
    && (forall d :: d in l.admins ==> l'.admins[d] == l.admins[d])
    && (forall creator, d :: (creator, d) in l'.index <==>
          (creator, d) in l.index || (creator == CreatorOf(c, d) && Names(ds, d)))
    && l'.bank.balances == l.bank.balances && l'.bank.supply == l.bank.supply && l'.params == l.params
    && (forall d :: d in l.bank.metadata ==> d in l'.bank.metadata && l'.bank.metadata[d] == l.bank.metadata[d])
    && (forall d :: d in l'.bank.metadata && d !in l.bank.metadata ==>
          Names(ds, d) && l'.bank.metadata[d] == Metadata(d, [DenomUnit(d, 0)], []))
  }

  lemma CreateThenSet(c: Chain, l: Ledger, creator: Bytes, d: Denom, admin: Bytes) returns (l': Ledger)
    requires AdminTextOk(c, creator) && AdminTextOk(c, admin)
    ensures CreateAfterValidation(c, l, creator, d).error == None
    ensures SetAuthority(c, CreateAfterValidation(c, l, creator, d).ledger, d, admin) == Done(l')
    ensures l'.admins == l.admins[d := admin] && l'.index == l.index + {(creator, d)} && l'.params == l.params
    ensures l'.bank.balances == l.bank.balances && l'.bank.supply == l.bank.supply
    ensures l'.bank.metadata == (if d in l.bank.metadata then l.bank.metadata
                                 else l.bank.metadata[d := Metadata(d, [DenomUnit(d, 0)], [])])
  {
    l' := SetAuthority(c, CreateAfterValidation(c, l, creator, d).ledger, d, admin).ledger;
    assert l.admins[d := creator][d := admin] == l.admins[d := admin];
  }

  /** The admin of the last entry for a denom. */
  function LastAdmin(ds: seq<GenesisDenom>, d: Denom): Option<Bytes>
    decreases |ds|
  {
    if ds == [] then None
    else if LastAdmin(ds[1..], d).Some? then LastAdmin(ds[1..], d)
    else if ds[0].denom == d then Some(ds[0].authorityMetadata.admin)
    else None
  }

  ghost predicate LoadedAdmins(l: Ledger, l': Ledger, ds: seq<GenesisDenom>)
  {
    forall d :: BookOf(l', d).admin == if LastAdmin(ds, d).Some? then LastAdmin(ds, d) else BookOf(l, d).admin
  }

  ghost predicate LoadedIndex(c: Chain, l: Ledger, l': Ledger, ds: seq<GenesisDenom>)
  {
    forall creator, d ::
      (creator, d) in l'.index <==> (creator, d) in l.index || (creator == CreatorOf(c, d) && LastAdmin(ds, d).Some?)
  }

  ghost predicate LoadedMetadata(m: map<Denom, Metadata>, m': map<Denom, Metadata>, ds: seq<GenesisDenom>)
  {
    && (forall d :: d in m' <==> d in m || LastAdmin(ds, d).Some?)
    && (forall d :: d in m' ==> m'[d] == if d in m then m[d] else Metadata(d, [DenomUnit(d, 0)], []))
  }

  /** What loading any entries in turn does, repeated denoms and recorded ones included: the
      last admin stands, metadata is added where there is none, and all else is kept. */
  ghost predicate LoadedInTurn(c: Chain, l: Ledger, l': Ledger, ds: seq<GenesisDenom>)
  {
    && LoadedAdmins(l, l', ds) && LoadedIndex(c, l, l', ds)
    && LoadedMetadata(l.bank.metadata, l'.bank.metadata, ds)
    && l'.bank.balances == l.bank.balances && l'.bank.supply == l.bank.supply && l'.params == l.params
  }

  lemma LastAdminOfCons(x: GenesisDenom, rest: seq<GenesisDenom>, d: Denom)
    ensures LastAdmin([x] + rest, d)
         == if LastAdmin(rest, d).Some? then LastAdmin(rest, d)
            else if x.denom == d then Some(x.authorityMetadata.admin) else None
  {
    assert ([x] + rest)[1..] == rest;
  }

  lemma AdminsInTurn(l: Ledger, l1: Ledger, l': Ledger, x: GenesisDenom, rest: seq<GenesisDenom>)
    requires l1.admins == l.admins[x.denom := x.authorityMetadata.admin] && LoadedAdmins(l1, l', rest)
    ensures LoadedAdmins(l, l', [x] + rest)
  {
    hide LastAdmin;
    forall d { LastAdminOfCons(x, rest, d); }
  }

  lemma IndexInTurn(c: Chain, l: Ledger, l1: Ledger, l': Ledger, x: GenesisDenom, rest: seq<GenesisDenom>)
    requires l1.index == l.index + {(CreatorOf(c, x.denom), x.denom)} && LoadedIndex(c, l1, l', rest)
    ensures LoadedIndex(c, l, l', [x] + rest)
  {
    hide LastAdmin, CreatorOf;
    forall d { LastAdminOfCons(x, rest, d); }
  }

  lemma MetadataInTurn(m: map<Denom, Metadata>, m': map<Denom, Metadata>, x: GenesisDenom, rest: seq<GenesisDenom>)
    requires var d := x.denom;
             LoadedMetadata(if d in m then m else m[d := Metadata(d, [DenomUnit(d, 0)], [])], m', rest)
    ensures LoadedMetadata(m, m', [x] + rest)
  {
    hide LastAdmin;
    forall d { LastAdminOfCons(x, rest, d); }
  }

  lemma LoadedNothingInTurn(c: Chain, l: Ledger)
    ensures LoadedInTurn(c, l, l, [])
  {
  }

  /** Loading panics exactly when some denom does not parse or some admin is neither empty nor
      an address, and else loads every entry in turn. */
  lemma {:induction false} LoadsExactly(c: Chain, l: Ledger, ds: seq<GenesisDenom>)
    requires Lawful(c)
    ensures InitDenoms(c, l, ds).Some? <==> forall x :: x in ds ==> ValidEntry(c, x)
    ensures InitDenoms(c, l, ds).Some? ==> LoadedInTurn(c, l, InitDenoms(c, l, ds).value, ds)
    decreases |ds|
  {
    hide LoadedAdmins, LoadedIndex, LoadedMetadata, CreateAfterValidation, DeconstructDenom;
    if ds == [] {
      LoadedNothingInTurn(c, l);
    } else {
      var x, rest := ds[0], ds[1..];
      assert ds == [x] + rest && x in ds;
      if IsFactoryDenom(c, x.denom) {
        PartsOfDenom(c, x.denom);
        if AdminTextOk(c, x.authorityMetadata.admin) {
          var l1 := CreateThenSet(c, l, CreatorOf(c, x.denom), x.denom, x.authorityMetadata.admin);
          LoadsExactly(c, l1, rest);
          if InitDenoms(c, l1, rest).Some? {
            var l' := InitDenoms(c, l1, rest).value;
            AdminsInTurn(l, l1, l', x, rest);
            IndexInTurn(c, l, l1, l', x, rest);
            MetadataInTurn(l.bank.metadata, l'.bank.metadata, x, rest);
          }
        }
      }
    }
  }

  lemma {:induction false} LastAdminOfNamed(ds: seq<GenesisDenom>, d: Denom)
    ensures LastAdmin(ds, d).Some? <==> Names(ds, d)
    ensures ListedOnce(ds) ==>
              forall x :: x in ds && x.denom == d ==> LastAdmin(ds, d) == Some(x.authorityMetadata.admin)
    decreases |ds|
  {
    if ds != [] {
      LastAdminOfNamed(ds[1..], d);
      ListedOnceSplit(ds);
      assert forall x :: x in ds <==> x == ds[0] || x in ds[1..];
    }
  }

  lemma NotNamed(l: Ledger, ds: seq<GenesisDenom>, d: Denom)
    requires d in l.admins && forall x :: x in ds ==> x.denom !in l.admins
    ensures !Names(ds, d)
  {
  }

  lemma LoadedOnce(c: Chain, l: Ledger, l': Ledger, ds: seq<GenesisDenom>)
    requires LoadedInTurn(c, l, l', ds) && ListedOnce(ds) && forall x :: x in ds ==> x.denom !in l.admins
    ensures Loaded(c, l, l', ds)
  {
    hide CreatorOf, LastAdmin, Names, ListedOnce;
    forall d
      ensures LastAdmin(ds, d).Some? <==> Names(ds, d)
      ensures d in l'.admins <==> d in l.admins || Names(ds, d)
    {
      LastAdminOfNamed(ds, d);
      assert BookOf(l', d).admin.Some? <==> d in l'.admins;
    }
    forall x | x in ds ensures x.denom in l'.admins && l'.admins[x.denom] == x.authorityMetadata.admin {
      LastAdminOfNamed(ds, x.denom);
      assert BookOf(l', x.denom).admin == LastAdmin(ds, x.denom);
    }
    forall d | d in l.admins ensures l'.admins[d] == l.admins[d] {
      NotNamed(l, ds, d);
      LastAdminOfNamed(ds, d);
      assert BookOf(l', d).admin == BookOf(l, d).admin;
    }
  }

  lemma NamedIsValid(c: Chain, ds: seq<GenesisDenom>, d: Denom)
    requires Names(ds, d) && forall x :: x in ds ==> ValidEntry(c, x)
    ensures exists x :: x in ds && x.denom == d && AdminTextOk(c, x.authorityMetadata.admin)
  {
    hide AdminTextOk, IsFactoryDenom;
    var x :| x in ds && x.denom == d;
    assert ValidEntry(c, x);
  }

  lemma CreatorIsOwn(c: Chain, ds: seq<GenesisDenom>, d: Denom)
    requires Names(ds, d) && forall x :: x in ds ==> ValidEntry(c, x)
    ensures IsFactoryDenom(c, d) && OwnCreator(c, CreatorOf(c, d), d)
  {
  }

  lemma LoadedCoherent(c: Chain, l: Ledger, l': Ledger, ds: seq<GenesisDenom>)
    requires Coherent(c, l) && Loaded(c, l, l', ds) && LoadedInTurn(c, l, l', ds)
    requires forall x :: x in ds ==> ValidEntry(c, x) && x.denom !in l.admins
    ensures Coherent(c, l')
  {
    hide IsFactoryDenom, OwnCreator, CreatorOf, AdminTextOk, LastAdmin, Names;
    forall d | d in l'.admins
      ensures IsFactoryDenom(c, d) && d in l'.bank.metadata && AdminTextOk(c, l'.admins[d])
      ensures exists creator :: (creator, d) in l'.index
    {
      LastAdminOfNamed(ds, d);
      if d in l.admins {
        var creator :| (creator, d) in l.index;
        assert (creator, d) in l'.index;
      } else {
        CreatorIsOwn(c, ds, d);
        NamedIsValid(c, ds, d);
        assert (CreatorOf(c, d), d) in l'.index;
      }
    }
    forall creator, d | (creator, d) in l'.index
      ensures d in l'.admins && OwnCreator(c, creator, d)
      ensures (creator, d) in l.index || (d !in l.admins && creator == CreatorOf(c, d))
    {
      if (creator, d) !in l.index {
        CreatorIsOwn(c, ds, d);
        if d in l.admins { NotNamed(l, ds, d); }
      }
    }
  }

  lemma LoadAll(c: Chain, l: Ledger, ds: seq<GenesisDenom>)
    requires Lawful(c) && Coherent(c, l) && ListedOnce(ds)
    requires forall x :: x in ds ==> ValidEntry(c, x) && x.denom !in l.admins
    ensures InitDenoms(c, l, ds).Some?
    ensures Coherent(c, InitDenoms(c, l, ds).value) && Loaded(c, l, InitDenoms(c, l, ds).value, ds)
  {
    hide Coherent, Loaded, LoadedInTurn, ValidEntry;
    LoadsExactly(c, l, ds);
    var l' := InitDenoms(c, l, ds).value;
    LoadedOnce(c, l, l', ds);
    LoadedCoherent(c, l, l', ds);
  }

  lemma LoadGenesisSucceedsExactly(c: Chain, l: Ledger, g: ModuleGenesis)
    requires Lawful(c)
    ensures LoadGenesis(c, l, g).Some?
       <==> FeesOk(c, g.params) && forall x :: x in g.factoryDenoms ==> ValidEntry(c, x)
    ensures LoadGenesis(c, l, g).Some? ==>
              LoadedInTurn(c, l.(params := NilAsEmpty(g.params)), LoadGenesis(c, l, g).value, g.factoryDenoms)
  {
    LoadsExactly(c, l.(params := g.params.(denomCreationFee := Some(FeeOf(g.params)))), g.factoryDenoms);
  }

  ghost predicate EmptyStore(l: Ledger)
  {
    l.admins == map[] && l.index == {}
  }

  // ------------------------------------------------------- what an export lists

  /** `out` lists exactly the records of `l`, each once, in the order of their store keys. */
  ghost predicate ListsRecords(l: Ledger, out: seq<GenesisDenom>)
  {
    && (forall x: GenesisDenom :: x in out <==> x.denom in l.admins && l.admins[x.denom] == x.authorityMetadata.admin)
    && ListedOnce(out)
    && (forall i, j, creator, other :: 0 <= i < j < |out|
          && (creator, out[i].denom) in l.index && (other, out[j].denom) in l.index
          ==> Less(IndexKey(creator, out[i].denom), IndexKey(other, out[j].denom)))
  }

  lemma IndexedHaveNoBar(c: Chain, l: Ledger, creator: Bytes, d: Denom)
    requires Lawful(c) && Coherent(c, l) && (creator, d) in l.index
    ensures BAR !in creator && BAR !in d && d in l.admins
  {
    PartsOfDenom(c, d);
  }

  lemma EntryIsUnique(c: Chain, l: Ledger, creator: Bytes, d: Denom)
    requires Lawful(c) && Coherent(c, l) && (creator, d) in l.index
    ensures IndexKey(creator, d) in IndexKeys(l.index) && EntryAt(l.index, IndexKey(creator, d)) == (creator, d)
  {
    var p := EntryAt(l.index, IndexKey(creator, d));
    assert (p.0, p.1) in l.index;
    IndexedHaveNoBar(c, l, creator, d);
    IndexedHaveNoBar(c, l, p.0, p.1);
    IndexKeyInjective(creator, d, p.0, p.1);
  }

  lemma ExportListsRecords(c: Chain, l: Ledger)
    requires Lawful(c) && Coherent(c, l)
    ensures ListsRecords(l, ExportDenoms(l))
  {
    var ks := InOrder(IndexKeys(l.index));
    var out := ExportDenoms(l);
    forall i | 0 <= i < |out|
      ensures out[i].denom in l.admins && l.admins[out[i].denom] == out[i].authorityMetadata.admin
      ensures exists creator :: (creator, out[i].denom) in l.index && IndexKey(creator, out[i].denom) == ks[i]
    {
      assert ks[i] in ks;
      var p := EntryAt(l.index, ks[i]);
      assert (p.0, p.1) in l.index;
    }
    forall x: GenesisDenom | x.denom in l.admins && l.admins[x.denom] == x.authorityMetadata.admin
      ensures x in out
    {
      var creator :| (creator, x.denom) in l.index;
      EntryIsUnique(c, l, creator, x.denom);
      var i :| 0 <= i < |ks| && ks[i] == IndexKey(creator, x.denom);
      assert out[i] == x;
    }
    forall i, j, creator, other | 0 <= i < j < |out|
      && (creator, out[i].denom) in l.index && (other, out[j].denom) in l.index
      ensures Less(IndexKey(creator, out[i].denom), IndexKey(other, out[j].denom))
    {
      var a :| (a, out[i].denom) in l.index && IndexKey(a, out[i].denom) == ks[i];
      var b :| (b, out[j].denom) in l.index && IndexKey(b, out[j].denom) == ks[j];
    }
    forall i, j | 0 <= i < j < |out|
      ensures out[i].denom != out[j].denom
    {
      var a :| (a, out[i].denom) in l.index && IndexKey(a, out[i].denom) == ks[i];
      var b :| (b, out[j].denom) in l.index && IndexKey(b, out[j].denom) == ks[j];
      LessIrreflexive(ks[i]);
    }
  }

  // ------------------------------------------------------------------ round trips

  lemma EmptyIsCoherent(c: Chain, l: Ledger)
    requires EmptyStore(l)
    ensures Coherent(c, l)
  {
  }

  /** `out` is a permutation of `ds` without repetitions, ordered by canonical creator and denom. */
  ghost predicate ListsGenesis(c: Chain, out: seq<GenesisDenom>, ds: seq<GenesisDenom>)
  {
    && (forall x :: x in out <==> x in ds)
    && ListedOnce(out) && |out| == |ds|
    && (forall i, j :: 0 <= i < j < |out| ==>
          Less(IndexKey(CreatorOf(c, out[i].denom), out[i].denom), IndexKey(CreatorOf(c, out[j].denom), out[j].denom)))
  }

  lemma {:induction false} CountOnce(a: seq<GenesisDenom>)
    requires ListedOnce(a)
    ensures |set x | x in a| == |a|
  {
    if a != [] {
      ListedOnceSplit(a);
      CountOnce(a[1..]);
      assert (set x | x in a) == {a[0]} + set x | x in a[1..];
    }
  }

  lemma SameMembersSameLength(a: seq<GenesisDenom>, b: seq<GenesisDenom>)
    requires ListedOnce(a) && ListedOnce(b) && forall x :: x in a <==> x in b
    ensures |a| == |b|
  {
    CountOnce(a);
    CountOnce(b);
    assert (set x | x in a) == set x | x in b;
  }

  lemma SameListing(c: Chain, l: Ledger, l': Ledger, out: seq<GenesisDenom>, ds: seq<GenesisDenom>)
    requires EmptyStore(l) && Loaded(c, l, l', ds) && ListedOnce(ds) && ListsRecords(l', out)
    ensures ListsGenesis(c, out, ds)
  {
    hide CreatorOf, IndexKey, Less;
    forall x ensures x in out <==> x in ds {
      if x in out {
        var y :| y in ds && y.denom == x.denom;
        assert x == y;
      }
    }
    forall i | 0 <= i < |out| ensures (CreatorOf(c, out[i].denom), out[i].denom) in l'.index {
      assert out[i] in ds;
    }
    SameMembersSameLength(out, ds);
  }

  /** Load then export. A genesis that passes validation loads into an empty store without
      a panic and keeps the bank's metadata; exporting gives back its (denom, admin) pairs,
      each once, in the order of the canonical store keys. */
  lemma LoadThenExport(c: Chain, l: Ledger, g: ModuleGenesis)
    requires Lawful(c) && EmptyStore(l) && Validate(c, g) == None
    ensures LoadGenesis(c, l, g).Some?
    ensures var l' := LoadGenesis(c, l, g).value;
            && Coherent(c, l')
            && l'.bank.balances == l.bank.balances && l'.bank.supply == l.bank.supply
            && (forall d :: d in l.bank.metadata ==> d in l'.bank.metadata && l'.bank.metadata[d] == l.bank.metadata[d])
            && ListsGenesis(c, ExportDenoms(l'), g.factoryDenoms)
            && ExportedGenesis(l').params == NilAsEmpty(g.params)
  {
    hide Coherent, ListsRecords;
    var start := l.(params := g.params.(denomCreationFee := Some(FeeOf(g.params))));
    EmptyIsCoherent(c, start);
    ValidationMeans(c, g.factoryDenoms, {});
    LoadAll(c, start, g.factoryDenoms);
    var l' := LoadGenesis(c, l, g).value;
    ExportListsRecords(c, l');
    SameListing(c, start, l', ExportDenoms(l'), g.factoryDenoms);
  }

  /** The index a reloaded export ends up with: every denom under its canonical creator. */
  ghost function CanonicalIndex(c: Chain, l: Ledger): set<(Bytes, Denom)>
  {
    set d | d in l.admins :: (CreatorOf(c, d), d)
  }

  lemma RecordsAreValid(c: Chain, l: Ledger, ds: seq<GenesisDenom>)
    requires Coherent(c, l) && ListsRecords(l, ds)
    ensures ListedOnce(ds) && forall x :: x in ds ==> ValidEntry(c, x)
  {
  }

  lemma ReloadedRecords(c: Chain, l: Ledger, start: Ledger, l': Ledger, ds: seq<GenesisDenom>)
    requires EmptyStore(start) && ListsRecords(l, ds) && Loaded(c, start, l', ds)
    ensures l'.admins == l.admins && l'.index == CanonicalIndex(c, l)
  {
    hide CreatorOf, IndexKey, Less;
    forall d ensures Names(ds, d) <==> d in l.admins {
      if d in l.admins {
        assert GenesisDenom(d, DenomAuthorityMetadata(l.admins[d])) in ds;
      }
    }
    forall d | d in l.admins ensures d in l'.admins && l'.admins[d] == l.admins[d] {
      assert GenesisDenom(d, DenomAuthorityMetadata(l.admins[d])) in ds;
    }
    forall p: (Bytes, Denom) ensures p in l'.index <==> p in CanonicalIndex(c, l) {
      assert p == (p.0, p.1);
    }
  }

  lemma SameIndexIff(c: Chain, l: Ledger)
    requires Lawful(c) && Coherent(c, l)
    ensures CanonicalIndex(c, l) == l.index <==> forall creator, d :: (creator, d) in l.index ==> Canonical(c, creator)
  {
    forall creator, d | (creator, d) in l.index
      ensures Canonical(c, creator) <==> creator == CreatorOf(c, d)
    {
      PartsOfDenom(c, d);
    }
    if forall creator, d :: (creator, d) in l.index ==> Canonical(c, creator) {
      forall p: (Bytes, Denom) ensures p in CanonicalIndex(c, l) <==> p in l.index {
        assert p == (p.0, p.1);
        if p in CanonicalIndex(c, l) {
          var creator :| (creator, p.1) in l.index;
        }
      }
    }
  }

  /** Export then load. The export of a coherent state with valid fees passes validation, and
      loading it over an empty store restores every authority record and indexes each denom
      under its canonical creator; the index is the old one exactly when every recorded
      creator was spelled canonically. */
  lemma ExportThenLoad(c: Chain, l: Ledger, blank: Ledger)
    requires Lawful(c) && Coherent(c, l) && FeesOk(c, l.params) && EmptyStore(blank)
    ensures Validate(c, ExportedGenesis(l)) == None
    ensures LoadGenesis(c, blank, ExportedGenesis(l)).Some?
    ensures var l' := LoadGenesis(c, blank, ExportedGenesis(l)).value;
            && Coherent(c, l') && l'.admins == l.admins && l'.index == CanonicalIndex(c, l)
            && l'.params == NilAsEmpty(l.params)
            && (l'.index == l.index <==> forall creator, d :: (creator, d) in l.index ==> Canonical(c, creator))
  {
    hide Coherent, ListsRecords, InOrder;
    var ds := ExportDenoms(l);
    ExportListsRecords(c, l);
    RecordsAreValid(c, l, ds);
    ValidationMeans(c, ds, {});
    var start := blank.(params := l.params.(denomCreationFee := Some(FeeOf(l.params))));
    EmptyIsCoherent(c, start);
    LoadAll(c, start, ds);
    var l' := InitDenoms(c, start, ds).value;
    ReloadedRecords(c, l, start, l', ds);
    SameIndexIff(c, l);
  }

  lemma ExportDependsOnStore(l: Ledger, l': Ledger)
    requires l'.admins == l.admins && l'.index == l.index
    ensures ExportDenoms(l') == ExportDenoms(l)
  {
    var ks := InOrder(IndexKeys(l.index));
    assert forall k :: k in IndexKeys(l.index) ==> RecordAt(l', k) == RecordAt(l, k);
    assert forall i :: 0 <= i < |ks| ==> ks[i] in ks;
  }

  /** From the first reload on nothing changes: records, index, parameters and the export
      itself are what they were. */
  lemma SecondRoundIsIdle(c: Chain, l: Ledger, blank: Ledger)
    requires Lawful(c) && Coherent(c, l) && FeesOk(c, l.params) && EmptyStore(blank)
    ensures LoadGenesis(c, blank, ExportedGenesis(l)).Some?
    ensures var once := LoadGenesis(c, blank, ExportedGenesis(l)).value;
            && LoadGenesis(c, blank, ExportedGenesis(once)).Some?
            && var twice := LoadGenesis(c, blank, ExportedGenesis(once)).value;
               && twice.admins == once.admins && twice.index == once.index && twice.params == once.params
               && ExportedGenesis(twice) == ExportedGenesis(once)
  {
    hide Coherent, LoadGenesis, InOrder;
    ExportThenLoad(c, l, blank);
    var once := LoadGenesis(c, blank, ExportedGenesis(l)).value;
    ExportThenLoad(c, once, blank);
    var twice := LoadGenesis(c, blank, ExportedGenesis(once)).value;
    assert CanonicalIndex(c, once) == CanonicalIndex(c, l);
    ExportDependsOnStore(once, twice);
  }

  // ------------------------------------------------------------- reachable states

  lemma BalancesConserve(b: Bank, b': Bank)
    requires Conserved(b) && b'.balances == b.balances && b'.supply == b.supply
    ensures Conserved(b')
  {
    assert forall d :: Gap(b', d) == Gap(b, d);
  }

  lemma {:induction false} RunKeepsParams(c: Chain, l: Ledger, ss: seq<Step>)
    requires Lawful(c) && Coherent(c, l)
    ensures Run(c, l, ss).params == l.params
    decreases |ss|
  {
    hide Handle, Coherent, SendCoins;
    if ss != [] {
      AdvanceKeepsCoherent(c, l, ss[0]);
      if ss[0].Call? && Accepted(c, l, ss[0].msg) {
        if ss[0].msg.CreateDenom? { CreationEffect(c, l, ss[0].msg); } else { AdminEffect(c, l, ss[0].msg); }
      }
      RunKeepsParams(c, Advance(c, l, ss[0]), ss[1..]);
    }
  }

  /** A chain's life: genesis into an empty store, then messages and transfers between
      holders in any order. Records, index and metadata agree and coins are conserved
      throughout, and the exported genesis is always one that can be loaded. */
  lemma ReachableStates(c: Chain, l: Ledger, g: ModuleGenesis, ss: seq<Step>)
    requires Lawful(c) && EmptyStore(l) && Validate(c, g) == None && Conserved(l.bank)
    ensures LoadGenesis(c, l, g).Some?
    ensures var l' := Run(c, LoadGenesis(c, l, g).value, ss);
            && Coherent(c, l') && Conserved(l'.bank) && Validate(c, ExportedGenesis(l')) == None
  {
    hide Coherent, Conserved, LoadGenesis, Run, ExportDenoms, ListsGenesis;
    LoadThenExport(c, l, g);
    var l0 := LoadGenesis(c, l, g).value;
    BalancesConserve(l.bank, l0.bank);
    RunKeepsCoherent(c, l0, ss);
    RunConserves(c, l0, ss);
    RunKeepsParams(c, l0, ss);
    ExportThenLoad(c, Run(c, l0, ss), l);
  }
}
