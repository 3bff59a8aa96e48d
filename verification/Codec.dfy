/** The generated code itself: buffers filled from the end towards the start, and decoding
    loops that update the receiver field by field. Each message is a class with the fields
    of the Go struct; an embedded struct is a value, addressed through an object of its own
    class for the length of a call. */
module Codec {
  import opened Bits
  import opened Varint
  import opened Wire
  import opened Records
  import opened Messages

  // ------------------------------------------------------------ buffer writing

  lemma WrittenTwice(s: Bytes, t: Bytes, u: Bytes, end: nat, back: Bytes, front: Bytes)
    requires WrittenBefore(s, t, end, back)
    requires |back| <= end && WrittenBefore(t, u, end - |back|, front)
    ensures WrittenBefore(s, u, end, front + back)
  {
    var mid := end - |back|;
    assert t[..mid - |front|] == s[..mid - |front|];
    assert t[mid..] == back + s[end..];
    assert u == s[..mid - |front|] + front + (back + s[end..]);
  }

  lemma WrittenNothing(s: Bytes, end: nat)
    requires end <= |s|
    ensures WrittenBefore(s, s, end, [])
  {
  }

  lemma WrittenWhole(s: Bytes, t: Bytes, bs: Bytes)
    requires |s| == |bs| && WrittenBefore(s, t, |s|, bs)
    ensures t == bs
  {
  }

  method PutByte(dAtA: array<byte>, i: nat, b: byte)
    requires i < dAtA.Length
    modifies dAtA
    ensures WrittenBefore(old(dAtA[..]), dAtA[..], i + 1, [b])
  {
    dAtA[i] := b;
  }

  /** `copy(dAtA[i:], bs)` */
  method CopyInto(dAtA: array<byte>, i: nat, bs: Bytes)
    requires i + |bs| <= dAtA.Length
    modifies dAtA
    ensures WrittenBefore(old(dAtA[..]), dAtA[..], i + |bs|, bs)
  {
    forall k | 0 <= k < |bs| {
      dAtA[i + k] := bs[k];
    }
    WrittenPointwise(old(dAtA[..]), dAtA[..], i + |bs|, bs);
  }

  /** A varint and the tag in front of it: the head of an embedded field, or a scalar field. */
  method PutHeader(dAtA: array<byte>, end: nat, tag: byte, payload: uint64) returns (i: nat)
    requires |[tag] + Digits(payload)| <= end <= dAtA.Length
    modifies dAtA
    ensures i == end - |[tag] + Digits(payload)|
    ensures WrittenBefore(old(dAtA[..]), dAtA[..], end, [tag] + Digits(payload))
  {
    i := EncodeVarint(dAtA, end, payload);
    label written:
    i := i - 1;
    PutByte(dAtA, i, tag);
    WrittenTwice(old(dAtA[..]), old@written(dAtA[..]), dAtA[..], end, Digits(payload), [tag]);
  }

  lemma Regroup(a: Bytes, b: Bytes, c: Bytes, d: Bytes)
    ensures (a + b) + (c + d) == (a + (b + c)) + d
  {
  }

  lemma WrittenLenField(s: Bytes, t: Bytes, u: Bytes, end: nat, tag: byte, payload: Bytes, back: Bytes)
    requires WrittenBefore(s, t, end, payload + back)
    requires |payload + back| <= end && WrittenBefore(t, u, end - |payload + back|, [tag] + Digits(|payload|))
    ensures WrittenBefore(s, u, end, LenField(tag, payload) + back)
  {
    hide WrittenBefore, Digits;
    WrittenTwice(s, t, u, end, payload + back, [tag] + Digits(|payload|));
    Regroup([tag], Digits(|payload|), payload, back);
  }

  /** An embedded field's header, once its payload stands in front of `back`. */
  method PutHeaderOf(dAtA: array<byte>, at: nat, end: nat, tag: byte, ghost payload: Bytes, size: nat,
                     ghost original: Bytes, ghost back: Bytes) returns (i: nat)
    requires size == |payload| < TWO_63 && end <= dAtA.Length
    requires |LenField(tag, payload) + back| <= end && at == end - |payload + back|
    requires WrittenBefore(original, dAtA[..], end, payload + back)
    modifies dAtA
    ensures i == end - |LenField(tag, payload) + back|
    ensures WrittenBefore(original, dAtA[..], end, LenField(tag, payload) + back)
  {
    i := PutHeader(dAtA, at, tag, size);
    WrittenLenField(original, old(dAtA[..]), dAtA[..], end, tag, payload, back);
  }

  /** A whole length-delimited field in front of `back`. */
  method PutField(dAtA: array<byte>, at: nat, end: nat, tag: byte, payload: Bytes,
                  ghost original: Bytes, ghost back: Bytes) returns (i: nat)
    requires |payload| < TWO_63 && end <= dAtA.Length
    requires |LenField(tag, payload) + back| <= end && at == end - |back|
    requires WrittenBefore(original, dAtA[..], end, back)
    modifies dAtA
    ensures i == end - |LenField(tag, payload) + back|
    ensures WrittenBefore(original, dAtA[..], end, LenField(tag, payload) + back)
  {
    i := at - |payload|;
    CopyInto(dAtA, i, payload);
    WrittenTwice(original, old(dAtA[..]), dAtA[..], end, back, payload);
    i := PutHeaderOf(dAtA, i, end, tag, payload, |payload|, original, back);
  }

  /** `1 + l + sov(l)`: what an embedded field adds to a size. */
  function FieldSize(l: nat): nat
    requires l < TWO_63
  {
    1 + l + Sov(l)
  }

  lemma FieldSizeIsLength(tag: byte, payload: Bytes)
    requires |payload| < TWO_63
    ensures FieldSize(|payload|) == |LenField(tag, payload)|
  {
    SizeIsDigitCount(|payload|);
  }

  // ------------------------------------------------------------ shared decoding steps

  /** A length-delimited payload's bounds, with both wrap-around checks. */
  method ReadSpan(dAtA: Slice, start: nat) returns (err: Option<Error>, iNdEx: nat, postIndex: nat)
    requires start <= |dAtA|
    ensures match PayloadSpan(dAtA, start)
            case NoSpan(e) => err == Some(e)
            case Span(from, to) => err == None && iNdEx == from && postIndex == to
    ensures start <= iNdEx <= postIndex <= |dAtA|
  {
    hide ReadVarint;
    var l := |dAtA|;
    var word;
    err, word, iNdEx := DecodeVarint(dAtA, start);
    postIndex := iNdEx;
    if err.Some? { return; }
    var msglen := ToInt64(word);
    if msglen < 0 { err := Some(InvalidLength); return; }
    var post := WrapInt64(iNdEx + msglen);
    if post < 0 { err := Some(InvalidLength); return; }
    if post > l { err := Some(UnexpectedEOF); return; }
    postIndex := post;
  }

  /** The default arm: rewind to the key and skip the whole field. */
  method SkipUnknown(dAtA: Slice, preIndex: nat) returns (err: Option<Error>, iNdEx: nat)
    requires preIndex <= |dAtA|
    ensures match UnknownEnd(dAtA, preIndex)
            case NoSpan(e) => err == Some(e)
            case Span(_, to) => err == None && iNdEx == to
    ensures preIndex <= iNdEx <= |dAtA|
  {
    hide SkipFrom;
    iNdEx := preIndex;
    var skippy;
    skippy, err := SkipField(dAtA[iNdEx..]);
    if err.Some? { return; }
    if skippy < 0 || WrapInt64(iNdEx + skippy) < 0 { err := Some(InvalidLength); return; }
    if WrapInt64(iNdEx + skippy) > |dAtA| { err := Some(UnexpectedEOF); return; }
    iNdEx := WrapInt64(iNdEx + skippy);
  }

  /** One round of the decoding loop, seen from the specification. */
  lemma FinishStep<M>(shape: Shape, take: (M, Field) -> Result<M>, m: M, data: Slice, i: nat)
    requires i < |data|
    ensures Finish(take, m, Scan(shape, data, i))
         == match StepAt(shape, data, i)
            case Halt(e) => Err(e)
            case Next(None, next) => Finish(take, m, Scan(shape, data, next))
            case Next(Some(f), next) =>
              match take(m, f)
              case Err(e) => Err(e)
              case Ok(m') => Finish(take, m', Scan(shape, data, next))
  {
    hide StepAt;
    match StepAt(shape, data, i)
    case Halt(_) =>
    case Next(None, next) =>
      var rest := Scan(shape, data, next);
      assert [] + rest.fields == rest.fields;
    case Next(Some(f), next) =>
      var rest := Scan(shape, data, next);
      assert ([f] + rest.fields)[1..] == rest.fields;
  }

  lemma FinishAtEnd<M>(shape: Shape, take: (M, Field) -> Result<M>, m: M, data: Slice)
    ensures Finish(take, m, Scan(shape, data, |data|)) == Ok(m)
  {
  }

  // ------------------------------------------------------------ DenomAuthorityMetadata

  class AuthorityMessage {
    var admin: Bytes

    constructor (m: DenomAuthorityMetadata)
      ensures Value() == m
    {
      admin := m.admin;
    }

    function Value(): DenomAuthorityMetadata
      reads this
    {
      DenomAuthorityMetadata(admin)
    }

    method Size() returns (n: nat)
      requires |EncodeAuthority(Value())| < TWO_63
      ensures n == |EncodeAuthority(Value())|
    {
      n := 0;
      var l := |admin|;
      if l > 0 {
        LenFieldLonger(0xa, admin);
        FieldSizeIsLength(0xa, admin);
        n := n + FieldSize(l);
      }
    }

    method MarshalToSizedBuffer(dAtA: array<byte>, end: nat) returns (n: nat)
      requires |EncodeAuthority(Value())| <= end <= dAtA.Length && end < TWO_63
      modifies dAtA
      ensures n == |EncodeAuthority(Value())|
      ensures WrittenBefore(old(dAtA[..]), dAtA[..], end, EncodeAuthority(Value()))
    {
      var i := end;
      if |admin| > 0 {
        WrittenNothing(dAtA[..], end);
        LenFieldLonger(0xa, admin);
        i := PutField(dAtA, i, end, 0xa, admin, old(dAtA[..]), []);
        assert LenField(0xa, admin) + [] == LenField(0xa, admin);
      }
      n := end - i;
    }

    method Marshal() returns (dAtA: array<byte>)
      requires |EncodeAuthority(Value())| < TWO_63
      ensures fresh(dAtA) && dAtA[..] == EncodeAuthority(Value())
    {
      hide EncodeAuthority, WrittenBefore;
      var size := Size();
      dAtA := new byte[size];
      ghost var blank := dAtA[..];
      var n := MarshalToSizedBuffer(dAtA, size);
      WrittenWhole(blank, dAtA[..], EncodeAuthority(Value()));
    }

    method Unmarshal(dAtA: Slice) returns (err: Option<Error>)
      modifies this
      ensures match DecodeAuthority(old(Value()), dAtA)
              case Err(e) => err == Some(e)
              case Ok(m) => err == None && Value() == m
    {
      hide ReadVarint, PayloadSpan, UnknownEnd, SkipFrom, Scan, Finish;
      var l := |dAtA|;
      var iNdEx := 0;
      err := None;
      while iNdEx < l
        invariant iNdEx <= l && err == None
        invariant Finish(TakeAuthority, Value(), Scan(AUTHORITY_SHAPE, dAtA, iNdEx))
                  == DecodeAuthority(old(Value()), dAtA)
        decreases l - iNdEx
      {
        FinishStep(AUTHORITY_SHAPE, TakeAuthority, Value(), dAtA, iNdEx);
        var preIndex := iNdEx;
        var wire;
        err, wire, iNdEx := DecodeVarint(dAtA, iNdEx);
        if err.Some? { return; }
        LowThreeBits(wire);
        var fieldNum, wireType := FieldNumber(wire), And(wire, 0x7);
        if wireType == 4 { return Some(EndGroupForNonGroup); }
        if fieldNum <= 0 { return Some(IllegalTag); }
        match fieldNum {
          case 1 =>
            if wireType != 2 { return Some(WrongWireType); }
            var postIndex;
            err, iNdEx, postIndex := ReadSpan(dAtA, iNdEx);
            if err.Some? { return; }
            admin := dAtA[iNdEx..postIndex];
            iNdEx := postIndex;
          case _ =>
            err, iNdEx := SkipUnknown(dAtA, preIndex);
            if err.Some? { return; }
        }
      }
      FinishAtEnd(AUTHORITY_SHAPE, TakeAuthority, Value(), dAtA);
    }
  }

  // ------------------------------------------------------------ Params

  lemma FeesFromBack(fees: seq<Bytes>, k: nat, back: Bytes)
    requires k < |fees|
    ensures EncodeFees(fees[k..]) == LenField(0xa, fees[k]) + EncodeFees(fees[k + 1..])
    ensures EncodeFees(fees[k..]) + back == LenField(0xa, fees[k]) + (EncodeFees(fees[k + 1..]) + back)
    ensures |EncodeFees(fees[k..])| > |EncodeFees(fees[k + 1..])| + |fees[k]|
  {
    assert fees[k..][1..] == fees[k + 1..];
    LenFieldLonger(0xa, fees[k]);
  }

  lemma NoFees(fees: seq<Bytes>, back: Bytes)
    ensures EncodeFees(fees[|fees|..]) + back == back
  {
  }

  lemma {:induction false} FeesPrefixShorter(fees: seq<Bytes>, k: nat)
    requires k <= |fees|
    ensures |EncodeFees(fees[k..])| <= |EncodeFees(fees)|
    decreases k
  {
    if k == 0 {
      assert fees[0..] == fees;
    } else {
      FeesPrefixShorter(fees, k - 1);
      FeesFromBack(fees, k - 1, []);
    }
  }

  class ParamsMessage {
    var denomCreationFee: seq<Bytes>
    var denomCreationGasConsume: uint64

    constructor (m: Params)
      ensures Value() == m
    {
      denomCreationFee := m.denomCreationFee;
      denomCreationGasConsume := m.denomCreationGasConsume;
    }

    function Value(): Params
      reads this
    {
      Params(denomCreationFee, denomCreationGasConsume)
    }

    method Size() returns (n: nat)
      requires |EncodeParams(Value())| < TWO_63
      ensures n == |EncodeParams(Value())|
    {
      hide LenField;
      n := 0;
      if |denomCreationFee| > 0 {
        var k := 0;
        while k < |denomCreationFee|
          invariant k <= |denomCreationFee|
          invariant n + |EncodeFees(denomCreationFee[k..])| == |EncodeFees(denomCreationFee)|
        {
          FeesFromBack(denomCreationFee, k, []);
          FeesPrefixShorter(denomCreationFee, k);
          var l := |denomCreationFee[k]|;
          FieldSizeIsLength(0xa, denomCreationFee[k]);
          n := n + FieldSize(l);
          k := k + 1;
        }
      }
      if denomCreationGasConsume != 0 {
        SizeIsDigitCount(denomCreationGasConsume);
        n := n + 1 + Sov(denomCreationGasConsume);
      }
    }

    method MarshalToSizedBuffer(dAtA: array<byte>, end: nat) returns (n: nat)
      requires |EncodeParams(Value())| <= end <= dAtA.Length && end < TWO_63
      modifies dAtA
      ensures n == |EncodeParams(Value())|
      ensures WrittenBefore(old(dAtA[..]), dAtA[..], end, EncodeParams(Value()))
    {
      hide LenField, WrittenBefore, EncodeFees, Digits;
      var i := end;
      ghost var gas := EncodeGas(denomCreationGasConsume);
      WrittenNothing(dAtA[..], end);
      if denomCreationGasConsume != 0 {
        i := PutHeader(dAtA, i, 0x10, denomCreationGasConsume);
      }
      var k := |denomCreationFee|;
      NoFees(denomCreationFee, gas);
      while k > 0
        invariant 0 <= k <= |denomCreationFee|
        invariant i == end - |EncodeFees(denomCreationFee[k..]) + gas| && i <= end
        invariant WrittenBefore(old(dAtA[..]), dAtA[..], end, EncodeFees(denomCreationFee[k..]) + gas)
      {
        k := k - 1;
        ghost var back := EncodeFees(denomCreationFee[k + 1..]) + gas;
        FeesFromBack(denomCreationFee, k, gas);
        FeesPrefixShorter(denomCreationFee, k);
        i := PutField(dAtA, i, end, 0xa, denomCreationFee[k], old(dAtA[..]), back);
      }
      assert denomCreationFee[0..] == denomCreationFee;
      n := end - i;
    }

    method Marshal() returns (dAtA: array<byte>)
      requires |EncodeParams(Value())| < TWO_63
      ensures fresh(dAtA) && dAtA[..] == EncodeParams(Value())
    {
      hide EncodeParams, WrittenBefore;
      var size := Size();
      dAtA := new byte[size];
      ghost var blank := dAtA[..];
      var n := MarshalToSizedBuffer(dAtA, size);
      WrittenWhole(blank, dAtA[..], EncodeParams(Value()));
    }

    method Unmarshal(dAtA: Slice) returns (err: Option<Error>)
      modifies this
      ensures match DecodeParams(old(Value()), dAtA)
              case Err(e) => err == Some(e)
              case Ok(m) => err == None && Value() == m
    {
      hide ReadVarint, PayloadSpan, UnknownEnd, SkipFrom, Scan, Finish;
      var l := |dAtA|;
      var iNdEx := 0;
      err := None;
      while iNdEx < l
        invariant iNdEx <= l && err == None
        invariant Finish(TakeParams, Value(), Scan(PARAMS_SHAPE, dAtA, iNdEx)) == DecodeParams(old(Value()), dAtA)
        decreases l - iNdEx
      {
        FinishStep(PARAMS_SHAPE, TakeParams, Value(), dAtA, iNdEx);
        var preIndex := iNdEx;
        var wire;
        err, wire, iNdEx := DecodeVarint(dAtA, iNdEx);
        if err.Some? { return; }
        LowThreeBits(wire);
        var fieldNum, wireType := FieldNumber(wire), And(wire, 0x7);
        if wireType == 4 { return Some(EndGroupForNonGroup); }
        if fieldNum <= 0 { return Some(IllegalTag); }
        match fieldNum {
          case 1 =>
            if wireType != 2 { return Some(WrongWireType); }
            var postIndex;
            err, iNdEx, postIndex := ReadSpan(dAtA, iNdEx);
            if err.Some? { return; }
            denomCreationFee := denomCreationFee + [dAtA[iNdEx..postIndex]];
            iNdEx := postIndex;
          case 2 =>
            if wireType != 0 { return Some(WrongWireType); }
            err, denomCreationGasConsume, iNdEx := DecodeVarint(dAtA, iNdEx);
            if err.Some? { return; }
          case _ =>
            err, iNdEx := SkipUnknown(dAtA, preIndex);
            if err.Some? { return; }
        }
      }
      FinishAtEnd(PARAMS_SHAPE, TakeParams, Value(), dAtA);
    }
  }

  // ------------------------------------------------------------ GenesisDenom

  lemma DenomParts(m: GenesisDenom)
    ensures |EncodeDenom(m)| >= |LenField(0x12, EncodeAuthority(m.authorityMetadata))|
    ensures |LenField(0x12, EncodeAuthority(m.authorityMetadata))| > |EncodeAuthority(m.authorityMetadata)|
    ensures m.denom != [] ==>
              EncodeDenom(m) == LenField(0xa, m.denom) + LenField(0x12, EncodeAuthority(m.authorityMetadata))
    ensures m.denom != [] ==> |LenField(0xa, m.denom)| > |m.denom|
    ensures m.denom == [] ==> EncodeDenom(m) == LenField(0x12, EncodeAuthority(m.authorityMetadata))
  {
    LenFieldLonger(0x12, EncodeAuthority(m.authorityMetadata));
    LenFieldLonger(0xa, m.denom);
  }

  class DenomMessage {
    var denom: Bytes
    var authorityMetadata: DenomAuthorityMetadata

    constructor (m: GenesisDenom)
      ensures Value() == m
    {
      denom := m.denom;
      authorityMetadata := m.authorityMetadata;
    }

    function Value(): GenesisDenom
      reads this
    {
      GenesisDenom(denom, authorityMetadata)
    }

    method Size() returns (n: nat)
      requires |EncodeDenom(Value())| < TWO_63
      ensures n == |EncodeDenom(Value())|
    {
      hide LenField, EncodeAuthority, EncodeDenom;
      DenomParts(Value());
      n := 0;
      var l := |denom|;
      if l > 0 {
        FieldSizeIsLength(0xa, denom);
        n := n + FieldSize(l);
      }
      var a := new AuthorityMessage(authorityMetadata);
      l := a.Size();
      FieldSizeIsLength(0x12, EncodeAuthority(authorityMetadata));
      n := n + FieldSize(l);
    }

    method MarshalToSizedBuffer(dAtA: array<byte>, end: nat) returns (n: nat)
      requires |EncodeDenom(Value())| <= end <= dAtA.Length && end < TWO_63
      modifies dAtA
      ensures n == |EncodeDenom(Value())|
      ensures WrittenBefore(old(dAtA[..]), dAtA[..], end, EncodeDenom(Value()))
    {
      hide LenField, EncodeAuthority, WrittenBefore, EncodeDenom;
      DenomParts(Value());
      ghost var meta := EncodeAuthority(authorityMetadata);
      var i := end;
      var a := new AuthorityMessage(authorityMetadata);
      var size := a.MarshalToSizedBuffer(dAtA, i);
      i := i - size;
      i := PutHeaderOf(dAtA, i, end, 0x12, meta, size, old(dAtA[..]), []);
      assert LenField(0x12, meta) + [] == LenField(0x12, meta);
      if |denom| > 0 {
        i := PutField(dAtA, i, end, 0xa, denom, old(dAtA[..]), LenField(0x12, meta));
      }
      n := end - i;
    }

    method Marshal() returns (dAtA: array<byte>)
      requires |EncodeDenom(Value())| < TWO_63
      ensures fresh(dAtA) && dAtA[..] == EncodeDenom(Value())
    {
      hide EncodeDenom, WrittenBefore;
      var size := Size();
      dAtA := new byte[size];
      ghost var blank := dAtA[..];
      var n := MarshalToSizedBuffer(dAtA, size);
      WrittenWhole(blank, dAtA[..], EncodeDenom(Value()));
    }

    method Unmarshal(dAtA: Slice) returns (err: Option<Error>)
      modifies this
      ensures match DecodeDenom(old(Value()), dAtA)
              case Err(e) => err == Some(e)
              case Ok(m) => err == None && Value() == m
    {
      hide ReadVarint, PayloadSpan, UnknownEnd, SkipFrom, Scan, Finish;
      var l := |dAtA|;
      var iNdEx := 0;
      err := None;
      while iNdEx < l
        invariant iNdEx <= l && err == None
        invariant Finish(TakeDenom, Value(), Scan(DENOM_SHAPE, dAtA, iNdEx)) == DecodeDenom(old(Value()), dAtA)
        decreases l - iNdEx
      {
        FinishStep(DENOM_SHAPE, TakeDenom, Value(), dAtA, iNdEx);
        var preIndex := iNdEx;
        var wire;
        err, wire, iNdEx := DecodeVarint(dAtA, iNdEx);
        if err.Some? { return; }
        LowThreeBits(wire);
        var fieldNum, wireType := FieldNumber(wire), And(wire, 0x7);
        if wireType == 4 { return Some(EndGroupForNonGroup); }
        if fieldNum <= 0 { return Some(IllegalTag); }
        match fieldNum {
          case 1 =>
            if wireType != 2 { return Some(WrongWireType); }
            var postIndex;
            err, iNdEx, postIndex := ReadSpan(dAtA, iNdEx);
            if err.Some? { return; }
            denom := dAtA[iNdEx..postIndex];
            iNdEx := postIndex;
          case 2 =>
            if wireType != 2 { return Some(WrongWireType); }
            var postIndex;
            err, iNdEx, postIndex := ReadSpan(dAtA, iNdEx);
            if err.Some? { return; }
            var a := new AuthorityMessage(authorityMetadata);
            err := a.Unmarshal(dAtA[iNdEx..postIndex]);
            authorityMetadata := a.Value();
            if err.Some? { return; }
            iNdEx := postIndex;
          case _ =>
            err, iNdEx := SkipUnknown(dAtA, preIndex);
            if err.Some? { return; }
        }
      }
      FinishAtEnd(DENOM_SHAPE, TakeDenom, Value(), dAtA);
    }
  }

  // ------------------------------------------------------------ GenesisState

  lemma DenomsFromBack(ds: seq<GenesisDenom>, k: nat)
    requires k < |ds|
    ensures EncodeDenoms(ds[k..]) == LenField(0x12, EncodeDenom(ds[k])) + EncodeDenoms(ds[k + 1..])
    ensures |EncodeDenoms(ds[k..])| > |EncodeDenoms(ds[k + 1..])| + |EncodeDenom(ds[k])|
  {
    assert ds[k..][1..] == ds[k + 1..];
    LenFieldLonger(0x12, EncodeDenom(ds[k]));
  }

  lemma {:induction false} DenomsPrefixShorter(ds: seq<GenesisDenom>, k: nat)
    requires k <= |ds|
    ensures |EncodeDenoms(ds[k..])| <= |EncodeDenoms(ds)|
    decreases k
  {
    if k == 0 {
      assert ds[0..] == ds;
    } else {
      DenomsPrefixShorter(ds, k - 1);
      DenomsFromBack(ds, k - 1);
    }
  }

  class StateMessage {
    var params: Params
    var factoryDenoms: seq<GenesisDenom>

    constructor (m: GenesisState)
      ensures Value() == m
    {
      params := m.params;
      factoryDenoms := m.factoryDenoms;
    }

    function Value(): GenesisState
      reads this
    {
      GenesisState(params, factoryDenoms)
    }

    method Size() returns (n: nat)
      requires |EncodeState(Value())| < TWO_63
      ensures n == |EncodeState(Value())|
    {
      hide LenField, EncodeParams, EncodeDenom;
      LenFieldLonger(0xa, EncodeParams(params));
      var p := new ParamsMessage(params);
      var l := p.Size();
      FieldSizeIsLength(0xa, EncodeParams(params));
      n := FieldSize(l);
      if |factoryDenoms| > 0 {
        var k := 0;
        while k < |factoryDenoms|
          invariant k <= |factoryDenoms|
          invariant n + |EncodeDenoms(factoryDenoms[k..])| == |EncodeState(Value())|
        {
          DenomsFromBack(factoryDenoms, k);
          DenomsPrefixShorter(factoryDenoms, k);
          var d := new DenomMessage(factoryDenoms[k]);
          l := d.Size();
          FieldSizeIsLength(0x12, EncodeDenom(factoryDenoms[k]));
          n := n + FieldSize(l);
          k := k + 1;
        }
      }
    }

    method MarshalToSizedBuffer(dAtA: array<byte>, end: nat) returns (n: nat)
      requires |EncodeState(Value())| <= end <= dAtA.Length && end < TWO_63
      modifies dAtA
      ensures n == |EncodeState(Value())|
      ensures WrittenBefore(old(dAtA[..]), dAtA[..], end, EncodeState(Value()))
    {
      hide LenField, WrittenBefore, EncodeParams, EncodeDenom;
      LenFieldLonger(0xa, EncodeParams(params));
      WrittenNothing(dAtA[..], end);
      var i := end;
      var k := |factoryDenoms|;
      while k > 0
        invariant 0 <= k <= |factoryDenoms|
        invariant i == end - |EncodeDenoms(factoryDenoms[k..])|
        invariant WrittenBefore(old(dAtA[..]), dAtA[..], end, EncodeDenoms(factoryDenoms[k..]))
      {
        k := k - 1;
        DenomsFromBack(factoryDenoms, k);
        DenomsPrefixShorter(factoryDenoms, k);
        ghost var back := EncodeDenoms(factoryDenoms[k + 1..]);
        var d := new DenomMessage(factoryDenoms[k]);
        label before:
        var size := d.MarshalToSizedBuffer(dAtA, i);
        i := i - size;
        WrittenTwice(old(dAtA[..]), old@before(dAtA[..]), dAtA[..], end, back, EncodeDenom(factoryDenoms[k]));
        i := PutHeaderOf(dAtA, i, end, 0x12, EncodeDenom(factoryDenoms[k]), size, old(dAtA[..]), back);
      }
      assert factoryDenoms[0..] == factoryDenoms;
      var p := new ParamsMessage(params);
      label denoms:
      var size := p.MarshalToSizedBuffer(dAtA, i);
      i := i - size;
      WrittenTwice(old(dAtA[..]), old@denoms(dAtA[..]), dAtA[..], end,
                   EncodeDenoms(factoryDenoms), EncodeParams(params));
      i := PutHeaderOf(dAtA, i, end, 0xa, EncodeParams(params), size, old(dAtA[..]), EncodeDenoms(factoryDenoms));
      n := end - i;
    }

    method Marshal() returns (dAtA: array<byte>)
      requires |EncodeState(Value())| < TWO_63
      ensures fresh(dAtA) && dAtA[..] == EncodeState(Value())
    {
      hide EncodeState, WrittenBefore;
      var size := Size();
      dAtA := new byte[size];
      ghost var blank := dAtA[..];
      var n := MarshalToSizedBuffer(dAtA, size);
      WrittenWhole(blank, dAtA[..], EncodeState(Value()));
    }

    method Unmarshal(dAtA: Slice) returns (err: Option<Error>)
      modifies this
      ensures match DecodeState(old(Value()), dAtA)
              case Err(e) => err == Some(e)
              case Ok(m) => err == None && Value() == m
    {
      hide ReadVarint, PayloadSpan, UnknownEnd, SkipFrom, Scan, Finish;
      var l := |dAtA|;
      var iNdEx := 0;
      err := None;
      while iNdEx < l
        invariant iNdEx <= l && err == None
        invariant Finish(TakeState, Value(), Scan(STATE_SHAPE, dAtA, iNdEx)) == DecodeState(old(Value()), dAtA)
        decreases l - iNdEx
      {
        FinishStep(STATE_SHAPE, TakeState, Value(), dAtA, iNdEx);
        var preIndex := iNdEx;
        var wire;
        err, wire, iNdEx := DecodeVarint(dAtA, iNdEx);
        if err.Some? { return; }
        LowThreeBits(wire);
        var fieldNum, wireType := FieldNumber(wire), And(wire, 0x7);
        if wireType == 4 { return Some(EndGroupForNonGroup); }
        if fieldNum <= 0 { return Some(IllegalTag); }
        match fieldNum {
          case 1 =>
            if wireType != 2 { return Some(WrongWireType); }
            var postIndex;
            err, iNdEx, postIndex := ReadSpan(dAtA, iNdEx);
            if err.Some? { return; }
            var p := new ParamsMessage(params);
            err := p.Unmarshal(dAtA[iNdEx..postIndex]);
            params := p.Value();
            if err.Some? { return; }
            iNdEx := postIndex;
          case 2 =>
            if wireType != 2 { return Some(WrongWireType); }
            var postIndex;
            err, iNdEx, postIndex := ReadSpan(dAtA, iNdEx);
            if err.Some? { return; }
            ghost var before := factoryDenoms;
            factoryDenoms := factoryDenoms + [EMPTY_DENOM];
            var d := new DenomMessage(EMPTY_DENOM);
            err := d.Unmarshal(dAtA[iNdEx..postIndex]);
            factoryDenoms := factoryDenoms[|factoryDenoms| - 1 := d.Value()];
            assert factoryDenoms == before + [d.Value()];
            if err.Some? { return; }
            iNdEx := postIndex;
          case _ =>
            err, iNdEx := SkipUnknown(dAtA, preIndex);
            if err.Some? { return; }
        }
      }
      FinishAtEnd(STATE_SHAPE, TakeState, Value(), dAtA);
    }
  }
}
