/** Base 128 varints: the size formula, the in-place writer and the shift/or reader
    that every generated message repeats. */
module Varint {
  import opened Bits

  datatype Option<+T> = None | Some(value: T)

  datatype Error =
    | IntOverflow
    | UnexpectedEOF
    | InvalidLength
    | UnexpectedEndOfGroup
    | IllegalWireType
    | IllegalTag
    | WrongWireType
    | EndGroupForNonGroup

  datatype Reading = Read(value: nat, next: nat) | Failed(error: Error)

  /** The little-endian base-128 digits of `v`, all but the last marked by 0x80. */
  function Digits(v: nat): (bs: Bytes)
    ensures |bs| >= 1
  {
    if v < 0x80 then [v] else [v % 0x80 + 0x80] + Digits(v / 0x80)
  }

  function Low7(b: byte): nat
  {
    b % 0x80
  }

  /** `acc | uint64(b & 0x7F) << shift` */
  function OrDigit(acc: nat, b: byte, shift: nat): nat
  {
    Or(acc, Shl(And(b, 0x7F), shift))
  }

  /** `uint8(v & 0x7f | 0x80)` */
  function MarkedDigit(v: nat): (b: byte)
    ensures b == v % 0x80 + 0x80
  {
    Pow2Of64();
    MaskIsRemainder(v);
    OrIsSum(v % 0x80, 1, 7);
    Or(And(v, 0x7F), 0x80)
  }

  function Sov(x: uint64): nat
  {
    (Len64(Or(x, 1)) + 6) / 7
  }

  /** The digit sum of the varint at `i`, of which `k` digits were already consumed.
      Ten digits are the most a 64-bit reader looks at. */
  function ReadDigits(data: Bytes, i: nat, k: nat): (r: Reading)
    ensures r.Read? ==> i < r.next <= |data| && r.next - i <= 10 - k
    decreases 10 - k
  {
    if k >= 10 then Failed(IntOverflow)
    else if i >= |data| then Failed(UnexpectedEOF)
    else if data[i] < 0x80 then Read(data[i], i + 1)
    else
      match ReadDigits(data, i + 1, k + 1)
      case Failed(e) => Failed(e)
      case Read(v, next) => Read(Low7(data[i]) + 0x80 * v, next)
  }

  function ReadVarint(data: Bytes, i: nat): (r: Reading)
    ensures r.Read? ==> i < r.next <= |data| && r.next - i <= 10 && r.value < TWO_64
  {
    match ReadDigits(data, i, 0)
    case Failed(e) => Failed(e)
    case Read(v, next) => Read(v % TWO_64, next)
  }

  /** Exactly the last byte is below 0x80. */
  predicate Terminated(bs: Bytes)
  {
    && 1 <= |bs|
    && bs[|bs| - 1] < 0x80
    && forall j :: 0 <= j < |bs| - 1 ==> bs[j] >= 0x80
  }

  /** A well-formed varint has at most ten bytes. */
  predicate IsVarint(bs: Bytes)
  {
    Terminated(bs) && |bs| <= 10
  }

  /** The number a varint spells, before it is cut to 64 bits. */
  function DigitSum(bs: Bytes): nat
  {
    if bs == [] then 0 else Low7(bs[0]) + 0x80 * DigitSum(bs[1..])
  }

  // ---------------------------------------------------------------- properties

  lemma {:induction false} Len64Shift(x: nat, s: nat)
    requires x >= Pow2(s)
    ensures Len64(x) == s + Len64(Shr(x, s))
  {
    if s > 0 {
      Len64Shift(x / 2, s - 1);
    }
  }

  lemma Shr7(x: nat)
    ensures Shr(x, 7) == x / 0x80
  {
    var x2 := x / 2 / 2;
    assert Shr(x, 7) == Shr(x2, 5);
    var x4 := x2 / 2 / 2;
    assert Shr(x2, 5) == Shr(x4, 3);
    var x6 := x4 / 2 / 2;
    assert Shr(x4, 3) == Shr(x6, 1);
    assert Shr(x6, 1) == Shr(x6 / 2, 0);
  }

  lemma LenIgnoresLowBit(v: nat)
    ensures Len64(Or(v, 1)) == (if v == 0 then 1 else Len64(v))
  {
    if v > 0 {
      assert Or(v, 1) == 1 + 2 * Or(v / 2, 0);
      assert Or(v / 2, 0) == v / 2;
    }
  }

  lemma {:induction false} Len64Bound(x: nat, n: nat)
    requires x < Pow2(n)
    ensures Len64(x) <= n
  {
    if x > 0 {
      Len64Bound(x / 2, n - 1);
    }
  }

  lemma Len64Small(x: nat)
    requires 1 <= x < 0x80
    ensures 1 <= Len64(x) <= 7
  {
    assert Len64(x) == 1 + Len64(x / 2);
    Len64Bound(x, 7);
  }

  lemma {:induction false} SovOfLarge(v: nat)
    ensures (Len64(Or(v, 1)) + 6) / 7 == |Digits(v)|
  {
    LenIgnoresLowBit(v);
    if v == 0 {
    } else if v < 0x80 {
      Len64Small(v);
    } else {
      Pow2Of64();
      Len64Shift(v, 7);
      Shr7(v);
      LenIgnoresLowBit(v / 0x80);
      SovOfLarge(v / 0x80);
    }
  }

  lemma {:induction false} DigitsShort(v: nat, n: nat)
    requires n >= 1 && v < Pow2(7 * n)
    ensures |Digits(v)| <= n
  {
    if v >= 0x80 {
      Pow2Of64();
      if n == 1 {
        assert false;
      } else {
        Pow2Adds(7, 7 * (n - 1));
        DigitsShort(v / 0x80, n - 1);
      }
    }
  }

  /** The bit-length formula counts exactly the digits the writer emits: 1 to 10. */
  lemma {:induction false} SizeIsDigitCount(v: uint64)
    ensures Sov(v) == |Digits(v)|
    ensures 1 <= Sov(v) <= 10
  {
    SovOfLarge(v);
    Pow2Of64();
    Pow2Adds(63, 7);
    DigitsShort(v, 10);
  }

  lemma TerminatedCons(b: byte, bs: Bytes)
    requires b >= 0x80
    ensures Terminated([b] + bs) <==> Terminated(bs)
    ensures DigitSum([b] + bs) == b - 0x80 + 0x80 * DigitSum(bs)
  {
    var all := [b] + bs;
    assert all[1..] == bs;
    if Terminated(all) {
      assert forall j :: 0 <= j < |bs| ==> bs[j] == all[j + 1];
    }
  }

  lemma TerminatedOne(b: byte)
    requires b < 0x80
    ensures Terminated([b]) && DigitSum([b]) == b
  {
    assert DigitSum([b][1..]) == 0;
  }

  /** Digits are a well-formed varint that spells the number. */
  lemma {:induction false} DigitsSpell(v: nat)
    ensures DigitSum(Digits(v)) == v && Terminated(Digits(v))
  {
    hide DigitSum, Terminated;
    if v < 0x80 {
      TerminatedOne(v);
    } else {
      DigitsSpell(v / 0x80);
      TerminatedCons(v % 0x80 + 0x80, Digits(v / 0x80));
    }
  }

  lemma DigitsAreVarint(v: uint64)
    ensures IsVarint(Digits(v)) && DigitSum(Digits(v)) == v
  {
    DigitsSpell(v);
    SizeIsDigitCount(v);
  }

  lemma {:induction false} ReadsDigitsThere(data: Bytes, i: nat, bs: Bytes, k: nat)
    requires i + |bs| <= |data| && data[i..i + |bs|] == bs && k <= 10
    ensures Terminated(bs) && |bs| <= 10 - k
       <==> ReadDigits(data, i, k).Read? && ReadDigits(data, i, k).next == i + |bs|
    ensures Terminated(bs) && |bs| <= 10 - k ==> ReadDigits(data, i, k).value == DigitSum(bs)
    decreases |bs|
  {
    if bs == [] || k == 10 {
    } else {
      assert data[i] == bs[0];
      if bs[0] >= 0x80 {
        var rest := bs[1..];
        assert data[i + 1..i + 1 + |rest|] == rest;
        ReadsDigitsThere(data, i + 1, rest, k + 1);
        assert bs == [bs[0]] + rest;
        TerminatedCons(bs[0], rest);
      } else {
        assert |bs| >= 2 ==> !Terminated(bs);
      }
    }
  }

  /** The reader accepts exactly the well-formed varints, wherever they stand, and
      yields their 7-bit digit sum modulo 2^64. */
  lemma {:induction false} ReadsWhatIsThere(data: Bytes, i: nat, bs: Bytes)
    requires i + |bs| <= |data| && data[i..i + |bs|] == bs
    ensures IsVarint(bs) <==> ReadVarint(data, i).Read? && ReadVarint(data, i).next == i + |bs|
    ensures IsVarint(bs) ==> ReadVarint(data, i).value == DigitSum(bs) % TWO_64
  {
    ReadsDigitsThere(data, i, bs, 0);
  }

  predicate AllMarked(data: Bytes, i: nat, end: nat)
    requires end <= |data|
  {
    forall j :: i <= j < end ==> data[j] >= 0x80
  }

  lemma {:induction false} DigitFailures(data: Bytes, i: nat, k: nat)
    requires k < 10
    ensures ReadDigits(data, i, k) == Failed(IntOverflow)
       <==> i + (10 - k) <= |data| && AllMarked(data, i, i + (10 - k))
    ensures ReadDigits(data, i, k) == Failed(UnexpectedEOF)
       <==> |data| < i + (10 - k) && AllMarked(data, i, |data|)
    ensures ReadDigits(data, i, k).Failed? ==> ReadDigits(data, i, k).error in {IntOverflow, UnexpectedEOF}
    decreases 10 - k
  {
    if i < |data| && data[i] >= 0x80 && k < 9 {
      DigitFailures(data, i + 1, k + 1);
    }
  }

  /** The reader has two ways to fail: ten marked bytes overflow it, and fewer than ten
      bytes, all marked, leave it without an end. */
  lemma ReadFailures(data: Bytes, i: nat)
    ensures ReadVarint(data, i) == Failed(IntOverflow) <==> i + 10 <= |data| && AllMarked(data, i, i + 10)
    ensures ReadVarint(data, i) == Failed(UnexpectedEOF) <==> |data| < i + 10 && AllMarked(data, i, |data|)
    ensures ReadVarint(data, i).Failed? ==> ReadVarint(data, i).error in {IntOverflow, UnexpectedEOF}
  {
    hide ReadDigits;
    DigitFailures(data, i, 0);
  }

  /** Reading back what was written. */
  lemma ReadsDigitsBack(data: Bytes, i: nat, v: uint64)
    requires i + |Digits(v)| <= |data| && data[i..i + |Digits(v)|] == Digits(v)
    ensures ReadVarint(data, i) == Read(v, i + |Digits(v)|)
  {
    hide ReadVarint, Digits, DigitSum, IsVarint;
    DigitsAreVarint(v);
    ReadsWhatIsThere(data, i, Digits(v));
  }

  /** Every reading consumed a well-formed varint. */
  lemma ReadingIsVarint(data: Bytes, i: nat)
    requires ReadVarint(data, i).Read?
    ensures IsVarint(data[i..ReadVarint(data, i).next])
    ensures ReadVarint(data, i).value == DigitSum(data[i..ReadVarint(data, i).next]) % TWO_64
  {
    ReadsWhatIsThere(data, i, data[i..ReadVarint(data, i).next]);
  }

  /** A reading depends on the bytes it consumed and on nothing else. */
  lemma ReadingIsLocal(data: Bytes, i: nat, other: Bytes, j: nat, n: nat)
    requires ReadVarint(data, i).Read? && ReadVarint(data, i).next == i + n
    requires j + n <= |other| && other[j..j + n] == data[i..i + n]
    ensures ReadVarint(other, j) == Read(ReadVarint(data, i).value, j + n)
  {
    var bs := data[i..i + n];
    ReadsWhatIsThere(data, i, bs);
    ReadsWhatIsThere(other, j, bs);
  }

  // ---------------------------------------------------------------- the loops

  /** What the loop has seen: `k` digits adding up to `acc`, with the rest still to come at `i`. */
  ghost predicate Seen(data: Bytes, start: nat, i: nat, k: nat, acc: nat, scale: nat)
  {
    match ReadDigits(data, i, k)
    case Failed(e) => ReadDigits(data, start, 0) == Failed(e)
    case Read(v, next) => ReadDigits(data, start, 0) == Read(acc + scale * v, next)
  }

  lemma OrDigitIsSum(acc: nat, b: byte, shift: nat)
    requires acc < Pow2(shift) && shift <= 63
    ensures OrDigit(acc, b, shift) == (acc + Pow2(shift) * Low7(b)) % TWO_64
  {
    Pow2Of64();
    MaskIsRemainder(b);
    OrShiftIsSum(acc, Low7(b), shift);
  }

  lemma StopStep(data: Bytes, start: nat, i: nat, k: nat, acc: nat, scale: nat)
    requires i < |data| && k <= 9 && data[i] < 0x80
    requires acc < scale == Pow2(7 * k) && Seen(data, start, i, k, acc, scale)
    ensures OrDigit(acc, data[i], 7 * k) < TWO_64
    ensures ReadVarint(data, start) == Read(OrDigit(acc, data[i], 7 * k), i + 1)
  {
    assert ReadDigits(data, i, k) == Read(Low7(data[i]), i + 1);
    OrDigitIsSum(acc, data[i], 7 * k);
  }

  lemma SmallRemainder(x: nat)
    requires x < TWO_63
    ensures x % TWO_64 == x
  {
  }

  lemma ScaleGrows(shift: nat)
    requires shift <= 56
    ensures Pow2(shift + 7) == 0x80 * Pow2(shift) && Pow2(shift + 7) <= TWO_63
  {
    Pow2Of64();
    Pow2Adds(7, shift);
    Pow2Adds(56 - shift, shift + 7);
    MulMonotone(1, Pow2(56 - shift), Pow2(shift + 7));
  }

  lemma NextDigitFits(acc: nat, d: nat, p: nat)
    requires acc < p && d < 0x80
    ensures acc + p * d < 0x80 * p
  {
    MulMonotone(d + 1, 0x80, p);
    MulDistributes(d, 1, p);
  }

  lemma DigitsFit(acc: nat, d: nat, shift: nat, scale: nat)
    requires acc < scale == Pow2(shift) && shift <= 56 && d < 0x80
    ensures Pow2(shift + 7) == 0x80 * scale && Pow2(shift + 7) <= TWO_63
    ensures (acc + scale * d) % TWO_64 == acc + scale * d < Pow2(shift + 7)
  {
    ScaleGrows(shift);
    NextDigitFits(acc, d, scale);
    assert scale * d >= 0;
    SmallRemainder(acc + scale * d);
  }

  lemma Low7Small(b: byte)
    ensures Low7(b) < 0x80
  {
  }

  lemma Horner(scale: nat, d: nat, v: nat)
    ensures scale * (d + 0x80 * v) == scale * d + (0x80 * scale) * v
  {
  }

  lemma DecodeContinue(data: Bytes, start: nat, i: nat, acc: nat, k: nat, scale: nat)
    requires i < |data| && k <= 9 && data[i] >= 0x80
    requires Seen(data, start, i, k, acc, scale)
    ensures Seen(data, start, i + 1, k + 1, acc + scale * Low7(data[i]), 0x80 * scale)
  {
    var r := ReadDigits(data, i + 1, k + 1);
    if r.Read? {
      Horner(scale, Low7(data[i]), r.value);
    }
  }

  lemma NextStep(data: Bytes, start: nat, i: nat, k: nat, acc: nat)
    requires i < |data| && k < 9 && data[i] >= 0x80
    requires acc < Pow2(7 * k) && Seen(data, start, i, k, acc, Pow2(7 * k))
    ensures OrDigit(acc, data[i], 7 * k) < Pow2(7 * k + 7) <= TWO_63
    ensures Seen(data, start, i + 1, k + 1, OrDigit(acc, data[i], 7 * k), Pow2(7 * k + 7))
  {
    hide Seen, OrDigit, Low7, ReadDigits;
    var scale := Pow2(7 * k);
    Low7Small(data[i]);
    OrDigitIsSum(acc, data[i], 7 * k);
    DigitsFit(acc, Low7(data[i]), 7 * k, scale);
    DecodeContinue(data, start, i, acc, k, scale);
  }

  lemma OverflowStep(data: Bytes, start: nat, i: nat, acc: nat)
    requires i < |data| && data[i] >= 0x80
    requires acc < Pow2(63) && Seen(data, start, i, 9, acc, Pow2(63))
    ensures ReadDigits(data, start, 0) == Failed(IntOverflow)
    ensures OrDigit(acc, data[i], 63) < TWO_64
  {
    assert ReadDigits(data, i, 9) == Failed(IntOverflow);
    OrDigitIsSum(acc, data[i], 63);
  }

  /** The decoding loop: `for shift := 0; ; shift += 7 { ... acc |= (b & 0x7F) << shift ... }`. */
  method DecodeVarint(data: Bytes, start: nat) returns (err: Option<Error>, value: uint64, iNdEx: nat)
    requires start <= |data|
    ensures match ReadVarint(data, start)
            case Failed(e) => err == Some(e)
            case Read(v, next) => err == None && value == v && iNdEx == next
    ensures start <= iNdEx <= |data| && (err == None ==> start < iNdEx)
  {
    value, iNdEx := 0, start;
    var shift := 0;
    ghost var k := 0;
    err := None;
    while true
      invariant 0 <= k <= 10 && shift == 7 * k && start <= iNdEx <= |data|
      invariant k < 10 ==> value < Pow2(shift) && Seen(data, start, iNdEx, k, value, Pow2(shift))
      invariant k == 10 ==> ReadDigits(data, start, 0) == Failed(IntOverflow)
      decreases 10 - k
    {
      if shift >= 64 {
        err := Some(IntOverflow);
        return;
      }
      if iNdEx >= |data| {
        err := Some(UnexpectedEOF);
        return;
      }
      var b := data[iNdEx];
      if b < 0x80 {
        StopStep(data, start, iNdEx, k, value, Pow2(shift));
      } else if k < 9 {
        NextStep(data, start, iNdEx, k, value);
      } else {
        OverflowStep(data, start, iNdEx, value);
      }
      iNdEx := iNdEx + 1;
      value := OrDigit(value, b, shift);
      if b < 0x80 {
        break;
      }
      shift := shift + 7;
      k := k + 1;
    }
  }

  /** `after` is `before` with `bs` written over it so that it ends at `end`. */
  ghost predicate WrittenBefore(before: Bytes, after: Bytes, end: nat, bs: Bytes)
  {
    && |bs| <= end <= |before|
    && after == before[..end - |bs|] + bs + before[end..]
  }

  lemma WrittenPointwise(before: Bytes, after: Bytes, end: nat, bs: Bytes)
    requires |bs| <= end <= |before| == |after|
    requires forall j :: end - |bs| <= j < end ==> after[j] == bs[j - (end - |bs|)]
    requires forall j :: 0 <= j < end - |bs| || end <= j < |before| ==> after[j] == before[j]
    ensures WrittenBefore(before, after, end, bs)
  {
  }

  function Start(offset: nat, v: uint64): (base: nat)
    requires |Digits(v)| <= offset
    ensures base == offset - |Digits(v)|
  {
    SizeIsDigitCount(v);
    offset - Sov(v)
  }

  lemma FirstDigit(ds: Bytes, k: nat, rest: nat)
    requires k <= |ds| && rest >= 0x80 && ds[k..] == Digits(rest)
    ensures k + 1 < |ds| && ds[k] == rest % 0x80 + 0x80
    ensures ds[k + 1..] == Digits(rest / 0x80)
  {
    assert ds[k] == ds[k..][0];
    assert ds[k + 1..] == ds[k..][1..];
  }

  lemma LastDigit(ds: Bytes, k: nat, rest: nat)
    requires k <= |ds| && rest < 0x80 && ds[k..] == Digits(rest)
    ensures k + 1 == |ds| && ds[k] == rest
  {
    assert ds[k] == ds[k..][0];
  }

  /** `encodeVarint*`: write `v` so that it ends at `offset`; return where it starts. */
  method EncodeVarint(dAtA: array<byte>, offset: nat, v: uint64) returns (base: nat)
    requires |Digits(v)| <= offset <= dAtA.Length
    modifies dAtA
    ensures base == offset - |Digits(v)|
    ensures WrittenBefore(old(dAtA[..]), dAtA[..], offset, Digits(v))
  {
    hide MarkedDigit, Start, Sov, Digits, Shr, WrittenBefore;
    base := Start(offset, v);
    var off, rest: nat := base, v;
    ghost var ds := Digits(v);
    while rest >= 0x80
      invariant rest <= v && base <= off < offset && off - base < |ds|
      invariant ds[off - base..] == Digits(rest)
      invariant forall j :: base <= j < off ==> dAtA[j] == ds[j - base]
      invariant forall j :: 0 <= j < base || off <= j < dAtA.Length ==> dAtA[j] == old(dAtA[j])
    {
      Shr7(rest);
      FirstDigit(ds, off - base, rest);
      dAtA[off] := MarkedDigit(rest);
      rest := Shr(rest, 7);
      off := off + 1;
    }
    LastDigit(ds, off - base, rest);
    dAtA[off] := rest;
    WrittenPointwise(old(dAtA[..]), dAtA[..], offset, ds);
  }
}
