/** What the module expects from the chain around it: the address codec, denom and
    metadata validation, and the accounts it does not own. */
module Chain {
  import opened Bits
  import opened Varint

  /** A non-empty sdk.AccAddress: 1 to 255 raw bytes. */
  type Address = a: Bytes | 1 <= |a| <= 255 witness [0]
  type Denom = Bytes

  const SLASH: byte := 0x2f
  const BAR: byte := 0x7c

  datatype Coin = Coin(denom: Denom, amount: int)

  datatype DenomUnit = DenomUnit(denom: Denom, exponent: nat)

  /** Bank metadata; `display` stands for all its descriptive texts. */
  datatype Metadata = Metadata(base: Denom, units: seq<DenomUnit>, display: seq<Bytes>)

  datatype LedgerError =
    | SubdenomTooLong
    | CreatorTooLong
    | InvalidCreator
    | BadDenom
    | InvalidDenom
    | InvalidAddress
    | InvalidCoins
    | InvalidMetadata
    | InvalidParams
    | InvalidGenesis
    | InvalidAuthorityMetadata
    | DenomExists
    | DenomDoesNotExist
    | NativeSubdenom
    | Unauthorized
    | BurnFromModuleAccount
    | BlockedRecipient
    | InsufficientFunds
    | CorruptRecord
    | Panicked

  datatype Chain = Chain(
    parse: Bytes -> Option<Address>,     // sdk.AccAddressFromBech32
    format: Address -> Bytes,            // sdk.AccAddress.String
    denomOk: Bytes -> bool,              // sdk.ValidateDenom
    metadataOk: Metadata -> bool,        // banktypes.Metadata.Validate
    feeOk: seq<Coin> -> bool,            // sdk.Coins.Validate
    blocked: Address -> bool,            // accounts that refuse coins from modules
    moduleText: Bytes -> bool,           // the burn guard's account lookup
    moduleAccount: Address,              // the tokenfactory module account
    pool: Address)                       // the community pool's account

  /** The laws taken from BIP-0173 and the SDK: printing is inverted by parsing, printed
      addresses are free of both separators, the empty text is no address, address texts
      fit in memory, and a valid denom has no `|`. */
  ghost predicate Lawful(c: Chain)
  {
    && (forall a :: c.parse(c.format(a)) == Some(a))
    && (forall a :: c.format(a) != [] && SLASH !in c.format(a) && BAR !in c.format(a))
    && c.parse([]) == None
    && (forall t :: c.parse(t).Some? ==> |t| < 0x4000_0000_0000_0000)
    && (forall d :: c.denomOk(d) ==> BAR !in d)
  }

  /** A text is canonical when it is how its address is printed. */
  predicate Canonical(c: Chain, t: Bytes)
  {
    c.parse(t).Some? && c.format(c.parse(t).value) == t
  }

  // ------------------------------------------------------ the laws can be met

  function Hex(a: Bytes): (t: Bytes)
    ensures |t| == 1 + 2 * |a| && SLASH !in t && BAR !in t
  {
    if a == [] then [0x61] else [0x61 + a[0] / 16, 0x61 + a[0] % 16] + Hex(a[1..])
  }

  lemma {:induction false} HexIsInjective(a: Bytes, b: Bytes)
    requires Hex(a) == Hex(b)
    ensures a == b
  {
    if a != [] {
      assert |a| == |b|;
      assert Hex(a)[0] == Hex(b)[0] && Hex(a)[1] == Hex(b)[1];
      assert Hex(a)[2..] == Hex(a[1..]) && Hex(b)[2..] == Hex(b[1..]);
      HexIsInjective(a[1..], b[1..]);
      assert a == [a[0]] + a[1..] && b == [b[0]] + b[1..];
    }
  }

  ghost function Unhex(t: Bytes): Option<Address>
  {
    if exists a: Address :: Hex(a) == t then var a: Address :| Hex(a) == t; Some(a) else None
  }

  lemma LawsAreConsistent()
    ensures exists c: Chain :: Lawful(c)
  {
    var c := Chain(t => Unhex(t), a => Hex(a), d => BAR !in d, m => true, fee => true,
                   a => false, t => false, [0], [0]);
    forall a: Address ensures c.parse(c.format(a)) == Some(a) {
      assert Hex(a) == c.format(a);
      HexIsInjective(a, Unhex(Hex(a)).value);
    }
    assert Lawful(c);
  }
}
