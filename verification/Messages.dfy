/** The four messages of the genesis format as values: what their bytes are, and what
    decoding bytes into an existing value yields. */
module Messages {
  import opened Bits
  import opened Varint
  import opened Wire
  import opened Records
  import opened Grammar

  datatype Result<+T> = Ok(value: T) | Err(error: Error)

  datatype DenomAuthorityMetadata = DenomAuthorityMetadata(admin: Bytes)

  /** Coins are kept as their encoded payloads. */
  datatype Params = Params(denomCreationFee: seq<Bytes>, denomCreationGasConsume: uint64)

  datatype GenesisDenom = GenesisDenom(denom: Bytes, authorityMetadata: DenomAuthorityMetadata)

  datatype GenesisState = GenesisState(params: Params, factoryDenoms: seq<GenesisDenom>)

  const EMPTY_AUTHORITY := DenomAuthorityMetadata([])
  const EMPTY_DENOM := GenesisDenom([], EMPTY_AUTHORITY)
  const EMPTY_PARAMS := Params([], 0)
  const EMPTY_STATE := GenesisState(EMPTY_PARAMS, [])

  // ------------------------------------------------------------------ encoding

  function LenField(tag: byte, payload: Bytes): Bytes
  {
    [tag] + (Digits(|payload|) + payload)
  }

  function EncodeAuthority(m: DenomAuthorityMetadata): Bytes
  {
    if m.admin == [] then [] else LenField(0xa, m.admin)
  }

  function EncodeFees(fees: seq<Bytes>): Bytes
  {
    if fees == [] then [] else LenField(0xa, fees[0]) + EncodeFees(fees[1..])
  }

  function EncodeGas(gas: uint64): Bytes
  {
    if gas == 0 then [] else [0x10] + Digits(gas)
  }

  function EncodeParams(m: Params): Bytes
  {
    EncodeFees(m.denomCreationFee) + EncodeGas(m.denomCreationGasConsume)
  }

  function EncodeDenom(m: GenesisDenom): Bytes
  {
    (if m.denom == [] then [] else LenField(0xa, m.denom))
    + LenField(0x12, EncodeAuthority(m.authorityMetadata))
  }

  function EncodeDenoms(ds: seq<GenesisDenom>): Bytes
  {
    if ds == [] then [] else LenField(0x12, EncodeDenom(ds[0])) + EncodeDenoms(ds[1..])
  }

  function EncodeState(m: GenesisState): Bytes
  {
    LenField(0xa, EncodeParams(m.params)) + EncodeDenoms(m.factoryDenoms)
  }

  // ------------------------------------------------------------------ decoding

  const AUTHORITY_SHAPE := Shape({1}, {})
  const PARAMS_SHAPE := Shape({1}, {2})
  const DENOM_SHAPE := Shape({1, 2}, {})
  const STATE_SHAPE := Shape({1, 2}, {})

  function Fold<M>(take: (M, Field) -> Result<M>, m: M, fields: seq<Field>): Result<M>
  {
    if fields == [] then Ok(m) else
    match take(m, fields[0])
    case Err(e) => Err(e)
    case Ok(m') => Fold(take, m', fields[1..])
  }

  /** The fields before the place where the scan gave up are taken first. */
  function Finish<M>(take: (M, Field) -> Result<M>, m: M, s: Scanned): Result<M>
  {
    match Fold(take, m, s.fields)
    case Err(e) => Err(e)
    case Ok(m') => if s.error.Some? then Err(s.error.value) else Ok(m')
  }

  function Decode<M>(shape: Shape, take: (M, Field) -> Result<M>, m: M, data: Slice): Result<M>
  {
    Finish(take, m, Scan(shape, data, 0))
  }

  function TakeAuthority(m: DenomAuthorityMetadata, f: Field): Result<DenomAuthorityMetadata>
  {
    match f
    case Payload(_, bytes) => Ok(m.(admin := bytes))
    case Scalar(_, _) => Ok(m)
  }

  function TakeParams(m: Params, f: Field): Result<Params>
  {
    match f
    case Payload(_, bytes) => Ok(m.(denomCreationFee := m.denomCreationFee + [bytes]))
    case Scalar(_, value) => Ok(m.(denomCreationGasConsume := value))
  }

  function TakeDenom(m: GenesisDenom, f: Field): Result<GenesisDenom>
  {
    match f
    case Scalar(_, _) => Ok(m)
    case Payload(num, bytes) =>
      if num == 1 then Ok(m.(denom := bytes)) else
      match Decode(AUTHORITY_SHAPE, TakeAuthority, m.authorityMetadata, bytes)
      case Err(e) => Err(e)
      case Ok(a) => Ok(m.(authorityMetadata := a))
  }

  function TakeState(m: GenesisState, f: Field): Result<GenesisState>
  {
    match f
    case Scalar(_, _) => Ok(m)
    case Payload(num, bytes) =>
      if num == 1 then
        match Decode(PARAMS_SHAPE, TakeParams, m.params, bytes)
        case Err(e) => Err(e)
        case Ok(p) => Ok(m.(params := p))
      else
        match Decode(DENOM_SHAPE, TakeDenom, EMPTY_DENOM, bytes)
        case Err(e) => Err(e)
        case Ok(d) => Ok(m.(factoryDenoms := m.factoryDenoms + [d]))
  }

  function DecodeAuthority(m: DenomAuthorityMetadata, data: Slice): Result<DenomAuthorityMetadata>
  {
    Decode(AUTHORITY_SHAPE, TakeAuthority, m, data)
  }

  function DecodeParams(m: Params, data: Slice): Result<Params>
  {
    Decode(PARAMS_SHAPE, TakeParams, m, data)
  }

  function DecodeDenom(m: GenesisDenom, data: Slice): Result<GenesisDenom>
  {
    Decode(DENOM_SHAPE, TakeDenom, m, data)
  }

  function DecodeState(m: GenesisState, data: Slice): Result<GenesisState>
  {
    Decode(STATE_SHAPE, TakeState, m, data)
  }

  // ------------------------------------------------------- decoding is a merge

  /** Both succeed with the same value, or both fail. */
  ghost predicate Same<M(!new)>(r: Result<M>, s: Result<M>)
  {
    (r.Ok? <==> s.Ok?) && (r.Ok? ==> r.value == s.value)
  }

  lemma {:induction false} FoldAppend<M>(take: (M, Field) -> Result<M>, m: M, f: seq<Field>, g: seq<Field>)
    ensures Fold(take, m, f + g)
         == match Fold(take, m, f) case Err(e) => Err(e) case Ok(m') => Fold(take, m', g)
  {
    if f == [] {
      assert f + g == g;
    } else {
      assert (f + g)[1..] == f[1..] + g;
      var r := take(m, f[0]);
      if r.Ok? {
        FoldAppend(take, r.value, f[1..], g);
      }
    }
  }

  /** Decoding `a + b` into `m` is decoding `b` into the result of decoding `a` into `m`. */
  lemma DecodeIsMerge<M(!new)>(shape: Shape, take: (M, Field) -> Result<M>, m: M, a: Slice, b: Slice)
    requires |a + b| < TWO_63 && Decode(shape, take, m, a).Ok?
    ensures Same(Decode(shape, take, m, a + b), Decode(shape, take, Decode(shape, take, m, a).value, b))
  {
    hide Scan, Fold;
    ScanAppend(shape, a, b, 0);
    FoldAppend(take, m, Scan(shape, a, 0).fields, Scan(shape, b, 0).fields);
  }

  lemma UnknownTreeScan(shape: Shape, u: Tree)
    requires WellFormed(u) && NumberOf(u) > 0 && NumberOf(u) !in shape.payloads + shape.scalars
    requires |Encode(u)| < TWO_63
    ensures Scan(shape, Encode(u), 0) == Scanned([], None)
  {
    hide WellFormed, Encode, Scan, NumberOf;
    var f := Cons(u, Empty);
    assert EncodeAll(f) == Encode(u) + EncodeAll(Empty) == Encode(u);
    assert Encode(u)[0..] == Encode(u);
    assert KnownAll(shape, f) == [];
    ScanOfForest(shape, Encode(u), 0, f);
  }

  /** A field tree whose number the message does not know changes nothing, between any
      cleanly decoded bytes and any bytes at all. */
  lemma UnknownFieldIsTransparent<M(!new)>(shape: Shape, take: (M, Field) -> Result<M>, m: M,
                                           a: Slice, u: Tree, b: Slice)
    requires WellFormed(u) && NumberOf(u) > 0 && NumberOf(u) !in shape.payloads + shape.scalars
    requires |a + Encode(u) + b| < TWO_63 && Decode(shape, take, m, a).Ok?
    ensures Same(Decode(shape, take, m, a + Encode(u) + b), Decode(shape, take, m, a + b))
  {
    hide Scan, Fold, Encode, WellFormed, NumberOf;
    var unknown := Encode(u);
    assert a + unknown + b == a + (unknown + b);
    UnknownTreeScan(shape, u);
    ScanAppend(shape, unknown, b, 0);
    ScanAppend(shape, a, unknown + b, 0);
    ScanAppend(shape, a, b, 0);
    assert [] + Scan(shape, b, 0).fields == Scan(shape, b, 0).fields;
  }

  lemma GenesisStateMerges(m: GenesisState, a: Slice, b: Slice)
    requires |a + b| < TWO_63 && DecodeState(m, a).Ok?
    ensures Same(DecodeState(m, a + b), DecodeState(DecodeState(m, a).value, b))
  {
    hide Decode;
    DecodeIsMerge(STATE_SHAPE, TakeState, m, a, b);
  }

  lemma GenesisStateIgnoresUnknown(m: GenesisState, a: Slice, u: Tree, b: Slice)
    requires WellFormed(u) && NumberOf(u) > 2
    requires |a + Encode(u) + b| < TWO_63 && DecodeState(m, a).Ok?
    ensures Same(DecodeState(m, a + Encode(u) + b), DecodeState(m, a + b))
  {
    hide Decode, WellFormed, Encode, NumberOf;
    UnknownFieldIsTransparent(STATE_SHAPE, TakeState, m, a, u, b);
  }

  lemma TagIsKey(tag: byte)
    requires tag < 0x80
    ensures IsKey([tag], tag % 8) && WordOf([tag]) == tag
  {
    assert DigitSum([tag][1..]) == 0;
  }

  lemma DecodeNothing<M>(shape: Shape, take: (M, Field) -> Result<M>, m: M)
    ensures Decode(shape, take, m, []) == Ok(m)
  {
  }

  /** For instance, a group of field number 3 around a varint field, in front of anything. */
  lemma UnknownGroupIsIgnored(m: GenesisState, b: Slice)
    requires |b| < TWO_63 - 4
    ensures Same(DecodeState(m, [0x1b, 0x20, 0x05, 0x1c] + b), DecodeState(m, b))
  {
    hide Decode, DigitSum;
    TagIsKey(0x1b);
    TagIsKey(0x20);
    TagIsKey(0x1c);
    var field := VarintField([0x20], [0x05]);
    var u := Group([0x1b], Cons(field, Empty), [0x1c]);
    assert EncodeAll(Cons(field, Empty)) == Encode(field) + EncodeAll(Empty) == [0x20, 0x05];
    assert Encode(u) == [0x1b, 0x20, 0x05, 0x1c];
    assert NumberOf(u) == 3;
    DecodeNothing(STATE_SHAPE, TakeState, m);
    GenesisStateIgnoresUnknown(m, [], u, b);
    assert [] + Encode(u) + b == Encode(u) + b && [] + b == b;
  }

  lemma FoldOne<M>(take: (M, Field) -> Result<M>, m: M, f: Field)
    ensures Fold(take, m, [f]) == take(m, f)
  {
  }

  lemma FoldTwo<M>(take: (M, Field) -> Result<M>, m: M, f: Field, g: Field)
    ensures Fold(take, m, [f] + [g]) == match take(m, f) case Err(e) => Err(e) case Ok(m') => take(m', g)
  {
    FoldAppend(take, m, [f], [g]);
    FoldOne(take, m, f);
    if take(m, f).Ok? { FoldOne(take, take(m, f).value, g); }
  }

  lemma TagNumbers()
    ensures FieldNumber(0xa) == 1 && FieldNumber(0x12) == 2 && FieldNumber(0x10) == 2
  {
  }

  lemma ScanOneTree(shape: Shape, t: Tree)
    requires WellFormed(t) && Legal(shape, t) && |Encode(t)| < TWO_63
    ensures Scan(shape, Encode(t), 0) == Scanned(OptionToSeq(Known(shape, t)), None)
  {
    hide WellFormed, Encode, Scan, Legal, Known;
    var f := Cons(t, Empty);
    assert EncodeAll(f) == Encode(t) + EncodeAll(Empty) == Encode(t);
    assert Encode(t)[0..] == Encode(t);
    assert KnownAll(shape, f) == OptionToSeq(Known(shape, t)) + KnownAll(shape, Empty);
    ScanOfForest(shape, Encode(t), 0, f);
  }

  lemma ScanLenField(shape: Shape, num: int, tag: byte, payload: Slice)
    requires (tag == 0xa && num == 1) || (tag == 0x12 && num == 2)
    requires num in shape.payloads && |LenField(tag, payload)| < TWO_63
    ensures Scan(shape, LenField(tag, payload), 0) == Scanned([Payload(num, payload)], None)
  {
    hide Scan, IsVarint, DigitSum, Digits, FieldNumber;
    TagIsKey(tag);
    TagNumbers();
    DigitsAreVarint(|payload|);
    ScanOneTree(shape, Delimited([tag], Digits(|payload|), payload));
  }

  lemma LenFieldLonger(tag: byte, payload: Bytes)
    ensures |LenField(tag, payload)| > |payload|
  {
  }

  /** Two consecutive `Params` sub-messages act as one with the concatenated payload. */
  lemma SubMessagesConcatenate(m: GenesisState, p: Slice, q: Slice)
    requires |LenField(0xa, p) + LenField(0xa, q)| < TWO_63 && |LenField(0xa, p + q)| < TWO_63
    requires DecodeParams(m.params, p).Ok?
    ensures Same(DecodeState(m, LenField(0xa, p) + LenField(0xa, q)), DecodeState(m, LenField(0xa, p + q)))
  {
    hide Scan, Fold, LenField;
    LenFieldLonger(0xa, p + q);
    ScanLenField(STATE_SHAPE, 1, 0xa, p);
    ScanLenField(STATE_SHAPE, 1, 0xa, q);
    ScanLenField(STATE_SHAPE, 1, 0xa, p + q);
    ScanAppend(STATE_SHAPE, LenField(0xa, p), LenField(0xa, q), 0);
    FoldTwo(TakeState, m, Payload(1, p), Payload(1, q));
    FoldOne(TakeState, m, Payload(1, p + q));
    DecodeIsMerge(PARAMS_SHAPE, TakeParams, m.params, p, q);
  }

  // ---------------------------------------------------------------- round trip

  lemma ScanGasField(shape: Shape, gas: uint64)
    requires 2 in shape.scalars && 2 !in shape.payloads
    ensures |[0x10] + Digits(gas)| < TWO_63
    ensures Scan(shape, [0x10] + Digits(gas), 0) == Scanned([Scalar(2, gas)], None)
  {
    hide Scan, IsVarint, DigitSum, Digits, FieldNumber;
    TagIsKey(0x10);
    TagNumbers();
    DigitsAreVarint(gas);
    SizeIsDigitCount(gas);
    ScanOneTree(shape, VarintField([0x10], Digits(gas)));
  }

  /** A sub-message in front: take it, then decode the rest. */
  lemma DecodeLenField<M(!new)>(shape: Shape, take: (M, Field) -> Result<M>, m: M,
                                num: int, tag: byte, payload: Slice, rest: Slice)
    requires (tag == 0xa && num == 1) || (tag == 0x12 && num == 2)
    requires num in shape.payloads && |LenField(tag, payload) + rest| < TWO_63
    requires take(m, Payload(num, payload)).Ok?
    ensures Same(Decode(shape, take, m, LenField(tag, payload) + rest),
                 Decode(shape, take, take(m, Payload(num, payload)).value, rest))
  {
    hide Scan, Fold, LenField;
    ScanLenField(shape, num, tag, payload);
    FoldOne(take, m, Payload(num, payload));
    DecodeIsMerge(shape, take, m, LenField(tag, payload), rest);
  }

  lemma AuthorityRoundTrip(m: DenomAuthorityMetadata, into: DenomAuthorityMetadata)
    requires |EncodeAuthority(m)| < TWO_63
    ensures DecodeAuthority(into, EncodeAuthority(m)) == Ok(if m.admin == [] then into else m)
  {
    hide Decode, LenField;
    DecodeNothing(AUTHORITY_SHAPE, TakeAuthority, m);
    if m.admin == [] {
      DecodeNothing(AUTHORITY_SHAPE, TakeAuthority, into);
    } else {
      LenFieldLonger(0xa, m.admin);
      assert LenField(0xa, m.admin) + [] == LenField(0xa, m.admin);
      DecodeLenField(AUTHORITY_SHAPE, TakeAuthority, into, 1, 0xa, m.admin, []);
    }
  }

  lemma GasRoundTrip(gas: uint64, into: Params)
    ensures |EncodeGas(gas)| < TWO_63
    ensures DecodeParams(into, EncodeGas(gas))
         == Ok(into.(denomCreationGasConsume := if gas == 0 then into.denomCreationGasConsume else gas))
  {
    hide Scan, Fold, Digits;
    if gas == 0 {
      DecodeNothing(PARAMS_SHAPE, TakeParams, into);
    } else {
      ScanGasField(PARAMS_SHAPE, gas);
      FoldOne(TakeParams, into, Scalar(2, gas));
    }
  }

  lemma {:induction false} ParamsRoundTrip(m: Params, into: Params)
    requires |EncodeParams(m)| < TWO_63
    ensures DecodeParams(into, EncodeParams(m))
         == Ok(Params(into.denomCreationFee + m.denomCreationFee,
                      if m.denomCreationGasConsume == 0 then into.denomCreationGasConsume
                      else m.denomCreationGasConsume))
    decreases |m.denomCreationFee|
  {
    hide Decode, LenField;
    var fees, gas := m.denomCreationFee, m.denomCreationGasConsume;
    if fees == [] {
      GasRoundTrip(gas, into);
      assert EncodeParams(m) == EncodeGas(gas);
      assert into.denomCreationFee + fees == into.denomCreationFee;
    } else {
      var rest := Params(fees[1..], gas);
      assert EncodeParams(m) == LenField(0xa, fees[0]) + EncodeParams(rest);
      LenFieldLonger(0xa, fees[0]);
      DecodeLenField(PARAMS_SHAPE, TakeParams, into, 1, 0xa, fees[0], EncodeParams(rest));
      ParamsRoundTrip(rest, into.(denomCreationFee := into.denomCreationFee + [fees[0]]));
      assert into.denomCreationFee + [fees[0]] + fees[1..] == into.denomCreationFee + fees;
    }
  }

  /** Decoding an encoded denom into any record: its denom replaces the old one, its admin
      the old admin, and what is empty leaves the record as it was. */
  lemma DenomRoundTrip(m: GenesisDenom, into: GenesisDenom)
    requires |EncodeDenom(m)| < TWO_63
    ensures DecodeDenom(into, EncodeDenom(m))
         == Ok(GenesisDenom(if m.denom == [] then into.denom else m.denom,
                            if m.authorityMetadata.admin == [] then into.authorityMetadata else m.authorityMetadata))
  {
    hide Decode, LenField, EncodeAuthority;
    var a := EncodeAuthority(m.authorityMetadata);
    var tail := LenField(0x12, a);
    LenFieldLonger(0x12, a);
    AuthorityRoundTrip(m.authorityMetadata, into.authorityMetadata);
    var named := if m.denom == [] then into else into.(denom := m.denom);
    var all := if m.authorityMetadata.admin == [] then named else named.(authorityMetadata := m.authorityMetadata);
    assert tail + [] == tail;
    DecodeNothing(DENOM_SHAPE, TakeDenom, all);
    DecodeLenField(DENOM_SHAPE, TakeDenom, named, 2, 0x12, a, []);
    if m.denom == [] {
      assert EncodeDenom(m) == tail;
    } else {
      LenFieldLonger(0xa, m.denom);
      DecodeLenField(DENOM_SHAPE, TakeDenom, into, 1, 0xa, m.denom, tail);
    }
  }

  lemma {:induction false} DenomsRoundTrip(ds: seq<GenesisDenom>, into: GenesisState)
    requires |EncodeDenoms(ds)| < TWO_63
    ensures DecodeState(into, EncodeDenoms(ds)) == Ok(into.(factoryDenoms := into.factoryDenoms + ds))
    decreases |ds|
  {
    hide Decode, LenField, EncodeDenom;
    if ds == [] {
      DecodeNothing(STATE_SHAPE, TakeState, into);
      assert into.factoryDenoms + ds == into.factoryDenoms;
    } else {
      var next := into.(factoryDenoms := into.factoryDenoms + [ds[0]]);
      LenFieldLonger(0x12, EncodeDenom(ds[0]));
      DenomRoundTrip(ds[0], EMPTY_DENOM);
      DecodeLenField(STATE_SHAPE, TakeState, into, 2, 0x12, EncodeDenom(ds[0]), EncodeDenoms(ds[1..]));
      DenomsRoundTrip(ds[1..], next);
      assert into.factoryDenoms + [ds[0]] + ds[1..] == into.factoryDenoms + ds;
    }
  }

  /** The whole nested format, decoded into any state: fees and denoms are appended, and the
      gas is replaced unless it is zero. */
  lemma GenesisStateMergeTrip(m: GenesisState, into: GenesisState)
    requires |EncodeState(m)| < TWO_63
    ensures DecodeState(into, EncodeState(m))
         == Ok(GenesisState(
                 Params(into.params.denomCreationFee + m.params.denomCreationFee,
                        if m.params.denomCreationGasConsume == 0 then into.params.denomCreationGasConsume
                        else m.params.denomCreationGasConsume),
                 into.factoryDenoms + m.factoryDenoms))
  {
    hide Decode, LenField, EncodeParams, EncodeDenoms;
    var p := EncodeParams(m.params);
    LenFieldLonger(0xa, p);
    ParamsRoundTrip(m.params, into.params);
    var next := into.(params := DecodeParams(into.params, p).value);
    DecodeLenField(STATE_SHAPE, TakeState, into, 1, 0xa, p, EncodeDenoms(m.factoryDenoms));
    DenomsRoundTrip(m.factoryDenoms, next);
  }

  /** In particular, decoding a marshalled state into an empty one restores it. */
  lemma GenesisStateRoundTrip(m: GenesisState)
    requires |EncodeState(m)| < TWO_63
    ensures DecodeState(EMPTY_STATE, EncodeState(m)) == Ok(m)
  {
    hide DecodeState, EncodeState;
    GenesisStateMergeTrip(m, EMPTY_STATE);
    assert [] + m.params.denomCreationFee == m.params.denomCreationFee;
    assert [] + m.factoryDenoms == m.factoryDenoms;
  }

  // ------------------------------------------------------ what one field does

  lemma DecodeOneField<M>(shape: Shape, take: (M, Field) -> Result<M>, m: M, num: int, tag: byte, payload: Slice)
    requires (tag == 0xa && num == 1) || (tag == 0x12 && num == 2)
    requires num in shape.payloads && |LenField(tag, payload)| < TWO_63
    ensures Decode(shape, take, m, LenField(tag, payload)) == take(m, Payload(num, payload))
  {
    hide Scan, Fold, LenField;
    ScanLenField(shape, num, tag, payload);
    FoldOne(take, m, Payload(num, payload));
  }

  lemma GasFieldWins(p: Params, gas: uint64)
    ensures |[0x10] + Digits(gas)| < TWO_63
    ensures DecodeParams(p, [0x10] + Digits(gas)) == Ok(Params(p.denomCreationFee, gas))
  {
    hide Scan, Fold, Digits;
    ScanGasField(PARAMS_SHAPE, gas);
    FoldOne(TakeParams, p, Scalar(2, gas));
  }

  /** A text field replaces the old text, also by an empty one, a gas value the old value, also
      by zero, and a fee is appended: whatever was there, the last one wins. */
  lemma LastOneWins(a: DenomAuthorityMetadata, p: Params, d: GenesisDenom, payload: Slice, gas: uint64)
    requires |LenField(0xa, payload)| < TWO_63
    ensures |[0x10] + Digits(gas)| < TWO_63
    ensures DecodeAuthority(a, LenField(0xa, payload)) == Ok(DenomAuthorityMetadata(payload))
    ensures DecodeDenom(d, LenField(0xa, payload)) == Ok(GenesisDenom(payload, d.authorityMetadata))
    ensures DecodeParams(p, LenField(0xa, payload))
         == Ok(Params(p.denomCreationFee + [payload], p.denomCreationGasConsume))
    ensures DecodeParams(p, [0x10] + Digits(gas)) == Ok(Params(p.denomCreationFee, gas))
  {
    hide Decode, Scan, LenField, Digits;
    DecodeOneField(AUTHORITY_SHAPE, TakeAuthority, a, 1, 0xa, payload);
    DecodeOneField(DENOM_SHAPE, TakeDenom, d, 1, 0xa, payload);
    DecodeOneField(PARAMS_SHAPE, TakeParams, p, 1, 0xa, payload);
    GasFieldWins(p, gas);
  }

  /** An embedded sub-message is merged into the one that is there; a repeated one is decoded
      into an empty one and appended. */
  lemma SubMessageEffects(d: GenesisDenom, m: GenesisState, payload: Slice)
    requires |LenField(0x12, payload)| < TWO_63 && |LenField(0xa, payload)| < TWO_63
    ensures DecodeDenom(d, LenField(0x12, payload))
         == match DecodeAuthority(d.authorityMetadata, payload)
            case Err(e) => Err(e)
            case Ok(a) => Ok(GenesisDenom(d.denom, a))
    ensures DecodeState(m, LenField(0xa, payload))
         == match DecodeParams(m.params, payload)
            case Err(e) => Err(e)
            case Ok(p) => Ok(GenesisState(p, m.factoryDenoms))
    ensures DecodeState(m, LenField(0x12, payload))
         == match DecodeDenom(EMPTY_DENOM, payload)
            case Err(e) => Err(e)
            case Ok(x) => Ok(GenesisState(m.params, m.factoryDenoms + [x]))
  {
    hide Decode, LenField;
    DecodeOneField(DENOM_SHAPE, TakeDenom, d, 2, 0x12, payload);
    DecodeOneField(STATE_SHAPE, TakeState, m, 1, 0xa, payload);
    DecodeOneField(STATE_SHAPE, TakeState, m, 2, 0x12, payload);
  }

  // -------------------------------------------- the fields of an encoding, in order

  lemma ScanNothing(shape: Shape)
    ensures Scan(shape, [], 0) == Scanned([], None)
  {
  }

  /** A sub-message in front is the first field found. */
  lemma ScanFirst(shape: Shape, num: int, tag: byte, payload: Slice, rest: Slice)
    requires (tag == 0xa && num == 1) || (tag == 0x12 && num == 2)
    requires num in shape.payloads && |LenField(tag, payload) + rest| < TWO_63
    ensures var s, t := Scan(shape, LenField(tag, payload) + rest, 0), Scan(shape, rest, 0);
            s.fields == [Payload(num, payload)] + t.fields && (s.error == None <==> t.error == None)
  {
    hide Scan, LenField;
    ScanLenField(shape, num, tag, payload);
    ScanAppend(shape, LenField(tag, payload), rest, 0);
  }

  /** An encoded authority record is one field 1, or none for the empty admin. */
  lemma FieldsOfAuthority(m: DenomAuthorityMetadata)
    requires |EncodeAuthority(m)| < TWO_63
    ensures |m.admin| < TWO_63
    ensures Scan(AUTHORITY_SHAPE, EncodeAuthority(m), 0)
         == Scanned(if m.admin == [] then [] else [Payload(1, m.admin)], None)
  {
    hide Scan, LenField;
    if m.admin == [] {
      ScanNothing(AUTHORITY_SHAPE);
    } else {
      LenFieldLonger(0xa, m.admin);
      ScanLenField(AUTHORITY_SHAPE, 1, 0xa, m.admin);
    }
  }

  /** Encoded params are a field 1 for each fee, in order, and then the gas as field 2 unless
      it is zero. */
  lemma {:induction false} FieldsOfParams(m: Params)
    requires |EncodeParams(m)| < TWO_63
    ensures var n, gas := |m.denomCreationFee|, m.denomCreationGasConsume;
            var s := Scan(PARAMS_SHAPE, EncodeParams(m), 0);
            && s.error == None && |s.fields| == n + (if gas == 0 then 0 else 1)
            && (forall i :: 0 <= i < n ==>
                  s.fields[i].Payload? && s.fields[i].num == 1 && s.fields[i].bytes == m.denomCreationFee[i])
            && (gas != 0 ==> s.fields[n] == Scalar(2, gas))
    decreases |m.denomCreationFee|
  {
    hide Scan, LenField, Digits;
    var fees, gas := m.denomCreationFee, m.denomCreationGasConsume;
    if fees == [] {
      assert EncodeParams(m) == EncodeGas(gas);
      if gas == 0 { ScanNothing(PARAMS_SHAPE); } else { ScanGasField(PARAMS_SHAPE, gas); }
    } else {
      var rest := Params(fees[1..], gas);
      assert EncodeParams(m) == LenField(0xa, fees[0]) + EncodeParams(rest);
      LenFieldLonger(0xa, fees[0]);
      FieldsOfParams(rest);
      ScanFirst(PARAMS_SHAPE, 1, 0xa, fees[0], EncodeParams(rest));
    }
  }

  /** An encoded genesis denom is its denom as field 1, unless it is empty, and then always its
      authority record as field 2. */
  lemma FieldsOfDenom(m: GenesisDenom)
    requires |EncodeDenom(m)| < TWO_63
    ensures |m.denom| < TWO_63 && |EncodeAuthority(m.authorityMetadata)| < TWO_63
    ensures Scan(DENOM_SHAPE, EncodeDenom(m), 0)
         == Scanned((if m.denom == [] then [] else [Payload(1, m.denom)])
                    + [Payload(2, EncodeAuthority(m.authorityMetadata))], None)
  {
    hide Scan, LenField, EncodeAuthority;
    var a := EncodeAuthority(m.authorityMetadata);
    LenFieldLonger(0x12, a);
    ScanLenField(DENOM_SHAPE, 2, 0x12, a);
    if m.denom == [] {
      assert EncodeDenom(m) == LenField(0x12, a);
    } else {
      LenFieldLonger(0xa, m.denom);
      ScanFirst(DENOM_SHAPE, 1, 0xa, m.denom, LenField(0x12, a));
    }
  }

  lemma {:induction false} FieldsOfDenoms(ds: seq<GenesisDenom>)
    requires |EncodeDenoms(ds)| < TWO_63
    ensures var s := Scan(STATE_SHAPE, EncodeDenoms(ds), 0);
            && s.error == None && |s.fields| == |ds|
            && forall i :: 0 <= i < |ds| ==>
                 s.fields[i].Payload? && s.fields[i].num == 2 && s.fields[i].bytes == EncodeDenom(ds[i])
    decreases |ds|
  {
    hide Scan, LenField, EncodeDenom;
    if ds == [] {
      ScanNothing(STATE_SHAPE);
    } else {
      LenFieldLonger(0x12, EncodeDenom(ds[0]));
      FieldsOfDenoms(ds[1..]);
      ScanFirst(STATE_SHAPE, 2, 0x12, EncodeDenom(ds[0]), EncodeDenoms(ds[1..]));
    }
  }

  /** An encoded state is its params as field 1, empty or not, and then each genesis denom, in
      order, as field 2. */
  lemma FieldsOfState(m: GenesisState)
    requires |EncodeState(m)| < TWO_63
    ensures var s := Scan(STATE_SHAPE, EncodeState(m), 0);
            && s.error == None && |s.fields| == 1 + |m.factoryDenoms|
            && s.fields[0].Payload? && s.fields[0].num == 1 && s.fields[0].bytes == EncodeParams(m.params)
            && forall i :: 0 <= i < |m.factoryDenoms| ==>
                 && s.fields[i + 1].Payload? && s.fields[i + 1].num == 2
                 && s.fields[i + 1].bytes == EncodeDenom(m.factoryDenoms[i])
  {
    hide Scan, LenField, EncodeParams, EncodeDenoms, EncodeDenom;
    LenFieldLonger(0xa, EncodeParams(m.params));
    FieldsOfDenoms(m.factoryDenoms);
    ScanFirst(STATE_SHAPE, 1, 0xa, EncodeParams(m.params), EncodeDenoms(m.factoryDenoms));
  }

  lemma ExampleParams()
    ensures EncodeParams(Params([[0x01]], 5)) == [0x0a, 0x01, 0x01, 0x10, 0x05]
  {
    assert EncodeFees([[0x01]]) == LenField(0x0a, [0x01]) + EncodeFees([]) == [0x0a, 0x01, 0x01];
  }

  lemma ExampleDenom()
    ensures EncodeDenom(GenesisDenom([0x61], DenomAuthorityMetadata([0x62])))
         == [0x0a, 0x01, 0x61, 0x12, 0x03, 0x0a, 0x01, 0x62]
  {
    assert EncodeAuthority(DenomAuthorityMetadata([0x62])) == [0x0a, 0x01, 0x62];
    hide EncodeAuthority;
    assert LenField(0x12, [0x0a, 0x01, 0x62]) == [0x12, 0x03, 0x0a, 0x01, 0x62];
  }

  /** The bytes of one state: a fee coin `01`, gas 5, and the denom "a" with the admin "b". */
  lemma ExampleBytes()
    ensures EncodeState(GenesisState(Params([[0x01]], 5), [GenesisDenom([0x61], DenomAuthorityMetadata([0x62]))]))
         == [0x0a, 0x05, 0x0a, 0x01, 0x01, 0x10, 0x05,
             0x12, 0x08, 0x0a, 0x01, 0x61, 0x12, 0x03, 0x0a, 0x01, 0x62]
  {
    hide EncodeParams, EncodeDenom;
    var denom := GenesisDenom([0x61], DenomAuthorityMetadata([0x62]));
    ExampleParams();
    ExampleDenom();
    assert EncodeDenoms([denom]) == LenField(0x12, EncodeDenom(denom)) + EncodeDenoms([]);
  }

  // ------------------------------------------------- what the format accepts

  ghost predicate AllGood(fields: seq<Field>, good: Field -> bool)
  {
    forall x :: x in fields ==> good(x)
  }

  /** The buffer encodes a legal forest whose known fields are all good. */
  ghost predicate Form(shape: Shape, data: Slice, good: Field -> bool)
  {
    exists f: Forest ::
      WellFormedAll(f) && LegalAll(shape, f) && EncodeAll(f) == data && AllGood(KnownAll(shape, f), good)
  }

  ghost predicate AuthorityForm(data: Slice)
  {
    Form(AUTHORITY_SHAPE, data, _ => true)
  }

  ghost predicate ParamsForm(data: Slice)
  {
    Form(PARAMS_SHAPE, data, _ => true)
  }

  /** Every field 2 is an authority record in its turn. */
  ghost predicate GoodInDenom(x: Field)
  {
    x.Payload? && x.num != 1 ==> AuthorityForm(x.bytes)
  }

  ghost predicate DenomForm(data: Slice)
  {
    Form(DENOM_SHAPE, data, GoodInDenom)
  }

  /** Every field 1 is a `Params`, every field 2 a genesis denom. */
  ghost predicate GoodInState(x: Field)
  {
    x.Payload? ==> if x.num == 1 then ParamsForm(x.bytes) else DenomForm(x.bytes)
  }

  ghost predicate StateForm(data: Slice)
  {
    Form(STATE_SHAPE, data, GoodInState)
  }

  /** `take` succeeds on the good fields and on no others, whatever it is given to change. */
  ghost predicate Decides<M(!new)>(take: (M, Field) -> Result<M>, good: Field -> bool)
  {
    forall m: M, x: Field :: take(m, x).Ok? <==> good(x)
  }

  lemma {:induction false} FoldOkExactly<M(!new)>(take: (M, Field) -> Result<M>, good: Field -> bool,
                                                  m: M, fields: seq<Field>)
    requires Decides(take, good)
    ensures Fold(take, m, fields).Ok? <==> AllGood(fields, good)
  {
    if fields == [] {
    } else {
      assert fields == [fields[0]] + fields[1..];
      assert take(m, fields[0]).Ok? <==> good(fields[0]);
      if take(m, fields[0]).Ok? {
        FoldOkExactly(take, good, take(m, fields[0]).value, fields[1..]);
      }
    }
  }

  lemma FormOfScan(shape: Shape, data: Slice, good: Field -> bool)
    ensures Form(shape, data, good)
       <==> Scan(shape, data, 0).error == None && AllGood(Scan(shape, data, 0).fields, good)
  {
    hide Scan, WellFormedAll, LegalAll, EncodeAll, KnownAll, AllGood;
    var s := Scan(shape, data, 0);
    assert data[0..] == data;
    if s.error == None {
      var f := ForestOfScan(shape, data, 0);
      ScanOfForest(shape, data, 0, f);
    }
    forall f: Forest | WellFormedAll(f) && LegalAll(shape, f) && EncodeAll(f) == data
      ensures s == Scanned(KnownAll(shape, f), None)
    {
      ScanOfForest(shape, data, 0, f);
    }
  }

  lemma DecodeOkExactly<M(!new)>(shape: Shape, take: (M, Field) -> Result<M>, good: Field -> bool, m: M, data: Slice)
    requires Decides(take, good)
    ensures Decode(shape, take, m, data).Ok? <==> Form(shape, data, good)
  {
    hide Scan, Fold, Form, Decides;
    FormOfScan(shape, data, good);
    FoldOkExactly(take, good, m, Scan(shape, data, 0).fields);
  }

  lemma TakeDenomDecides()
    ensures Decides(TakeDenom, GoodInDenom)
  {
    hide Decode, Form;
    forall m: GenesisDenom, x: Field
      ensures TakeDenom(m, x).Ok? <==> GoodInDenom(x)
    {
      if x.Payload? {
        DecodeOkExactly(AUTHORITY_SHAPE, TakeAuthority, _ => true, m.authorityMetadata, x.bytes);
      }
    }
  }

  lemma TakeStateDecides()
    ensures Decides(TakeState, GoodInState)
  {
    hide Decode, Form;
    TakeDenomDecides();
    forall m: GenesisState, x: Field
      ensures TakeState(m, x).Ok? <==> GoodInState(x)
    {
      if x.Payload? {
        DecodeOkExactly(PARAMS_SHAPE, TakeParams, _ => true, m.params, x.bytes);
        DecodeOkExactly(DENOM_SHAPE, TakeDenom, GoodInDenom, EMPTY_DENOM, x.bytes);
      }
    }
  }

  /** A genesis state is decoded, into any state at all, if and only if the buffer is a legal
      forest whose known payloads are legal forests of the sub-messages, down to the
      authority records. */
  lemma AcceptedExactly(m: GenesisState, data: Slice)
    ensures DecodeState(m, data).Ok? <==> StateForm(data)
  {
    hide Decode, Form;
    TakeStateDecides();
    DecodeOkExactly(STATE_SHAPE, TakeState, GoodInState, m, data);
  }
}
