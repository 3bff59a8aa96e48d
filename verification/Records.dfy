/** The record loop shared by every generated `Unmarshal`: which fields a buffer holds
    for a message that knows certain field numbers, and where the loop gives up. */
module Records {
  import opened Bits
  import opened Varint
  import opened Wire

  /** The field numbers a message knows, by the wire type it expects of them. */
  datatype Shape = Shape(payloads: set<int>, scalars: set<int>)

  datatype Field = Payload(num: int, bytes: Slice) | Scalar(num: int, value: uint64)

  datatype Step = Next(field: Option<Field>, next: nat) | Halt(error: Error)

  datatype Span = Span(from: nat, to: nat) | NoSpan(error: Error)

  datatype Scanned = Scanned(fields: seq<Field>, error: Option<Error>)

  /** `int32(wire >> 3)`, which drops the bits above the 35th. */
  function FieldNumber(wire: uint64): int
  {
    ToInt32(Shr(wire, 3))
  }

  /** The field number is the signed 32-bit reading of the key's bits above the third. */
  lemma FieldNumberReads(wire: uint64)
    ensures -0x8000_0000 <= FieldNumber(wire) < 0x8000_0000
    ensures Congruent(wire / 8, FieldNumber(wire), 0x1_0000_0000)
  {
    assert Shr(wire, 3) == Shr(wire / 2, 2) == Shr(wire / 2 / 2, 1) == Shr(wire / 2 / 2 / 2, 0);
    SignedReadings(Shr(wire, 3), 0, 0);
  }

  function PayloadSpan(data: Slice, i: nat): (s: Span)
    requires i <= |data|
    ensures s.Span? ==> i < s.from <= s.to <= |data|
  {
    match ReadVarint(data, i)
    case Failed(e) => NoSpan(e)
    case Read(v, start) =>
      var post := WrapInt64(start + ToInt64(v));
      if ToInt64(v) < 0 || post < 0 then NoSpan(InvalidLength)
      else if post > |data| then NoSpan(UnexpectedEOF)
      else Span(start, post)
  }

  function UnknownEnd(data: Slice, i: nat): (s: Span)
    requires i <= |data|
    ensures s.Span? ==> i == s.from < s.to <= |data|
  {
    match SkipFrom(data[i..], 0, 0)
    case NotSkipped(e) => NoSpan(e)
    case Skipped(n) =>
      if WrapInt64(i + n) < 0 then NoSpan(InvalidLength)
      else if WrapInt64(i + n) > |data| then NoSpan(UnexpectedEOF)
      else Span(i, WrapInt64(i + n))
  }

  /** One record: a known field, or `None` for an unknown one that was passed over. */
  function StepAt(shape: Shape, data: Slice, i: nat): (s: Step)
    requires i <= |data|
    ensures s.Next? ==> i < s.next <= |data|
  {
    match ReadVarint(data, i)
    case Failed(e) => Halt(e)
    case Read(wire, start) =>
      var num, wireType := FieldNumber(wire), wire % 8;
      if wireType == 4 then Halt(EndGroupForNonGroup)
      else if num <= 0 then Halt(IllegalTag)
      else if num in shape.payloads then
        if wireType != 2 then Halt(WrongWireType) else
        (match PayloadSpan(data, start)
         case NoSpan(e) => Halt(e)
         case Span(from, to) => Next(Some(Payload(num, data[from..to])), to))
      else if num in shape.scalars then
        if wireType != 0 then Halt(WrongWireType) else
        (match ReadVarint(data, start)
         case Failed(e) => Halt(e)
         case Read(v, next) => Next(Some(Scalar(num, v)), next))
      else
        match UnknownEnd(data, i)
        case NoSpan(e) => Halt(e)
        case Span(_, to) => Next(None, to)
  }

  function OptionToSeq<T>(o: Option<T>): seq<T>
  {
    if o.None? then [] else [o.value]
  }

  function Scan(shape: Shape, data: Slice, i: nat): Scanned
    requires i <= |data|
    decreases |data| - i
  {
    if i == |data| then Scanned([], None) else
    match StepAt(shape, data, i)
    case Halt(e) => Scanned([], Some(e))
    case Next(field, next) =>
      var rest := Scan(shape, data, next);
      Scanned(OptionToSeq(field) + rest.fields, rest.error)
  }

  // --------------------------------------------------- why a record is refused

  /** A payload is refused for a length or an end beyond 2^63, or for an end beyond the buffer. */
  lemma SpanFailures(data: Slice, i: nat)
    requires i <= |data|
    ensures var r := ReadVarint(data, i);
            && (PayloadSpan(data, i) == NoSpan(InvalidLength) <==>
                  r.Read? && (r.value >= TWO_63 || r.next + r.value >= TWO_63))
            && (PayloadSpan(data, i) == NoSpan(UnexpectedEOF) <==>
                  r == Failed(UnexpectedEOF) || (r.Read? && |data| < r.next + r.value < TWO_63))
            && (PayloadSpan(data, i) == NoSpan(IntOverflow) <==> r == Failed(IntOverflow))
            && (PayloadSpan(data, i).NoSpan? ==>
                  PayloadSpan(data, i).error in {InvalidLength, UnexpectedEOF, IntOverflow})
  {
    hide ReadDigits;
    ReadFailures(data, i);
  }

  /** What a record's key alone is refused for: an end group, a number that is not positive, or
      a known number with another wire type than expected, in this order. */
  lemma KeyFailures(shape: Shape, data: Slice, i: nat)
    requires i <= |data| && ReadVarint(data, i).Read?
    ensures var num, wireType := FieldNumber(ReadVarint(data, i).value), ReadVarint(data, i).value % 8;
            && (StepAt(shape, data, i) == Halt(EndGroupForNonGroup) <==> wireType == 4)
            && (StepAt(shape, data, i) == Halt(IllegalTag) <==> wireType != 4 && num <= 0)
            && (StepAt(shape, data, i) == Halt(WrongWireType) <==>
                  && wireType != 4 && num > 0
                  && ((num in shape.payloads && wireType != 2)
                      || (num !in shape.payloads && num in shape.scalars && wireType != 0)))
  {
    hide ReadVarint, SkipFrom, PayloadSpan, FieldNumber;
    var start := ReadVarint(data, i).next;
    SpanFailures(data, start);
    ReadFailures(data, start);
    SkipFailures(data[i..], 0, 0);
  }

  // --------------------------------------- records depend on their own bytes only

  ghost predicate Agree(data: Bytes, i: nat, other: Bytes, j: nat, n: nat)
  {
    i + n <= |data| && j + n <= |other| && data[i..i + n] == other[j..j + n]
  }

  lemma SliceOfSlice(s: Bytes, i: nat, n: nat, from: nat, to: nat)
    requires from <= to && i + to <= n <= |s|
    ensures s[i..n][from..to] == s[i + from..i + to]
  {
    var t := s[i..n];
    forall k | 0 <= k < to - from
      ensures t[from..to][k] == s[i + from..i + to][k]
    {
      assert t[from + k] == s[i + (from + k)];
    }
  }

  lemma AgreePart(data: Bytes, i: nat, other: Bytes, j: nat, n: nat, from: nat, len: nat)
    requires Agree(data, i, other, j, n) && from + len <= n
    ensures Agree(data, i + from, other, j + from, len)
  {
    SliceOfSlice(data, i, i + n, from, from + len);
    SliceOfSlice(other, j, j + n, from, from + len);
  }

  lemma ReadLocal(data: Bytes, i: nat, other: Bytes, j: nat, n: nat)
    requires Agree(data, i, other, j, n)
    requires ReadVarint(data, i).Read? && ReadVarint(data, i).next <= i + n
    ensures ReadVarint(other, j) == Read(ReadVarint(data, i).value, j + ReadVarint(data, i).next - i)
  {
    hide ReadVarint;
    var k := ReadVarint(data, i).next - i;
    AgreePart(data, i, other, j, n, 0, k);
    ReadingIsLocal(data, i, other, j, k);
  }

  lemma SpanLocal(data: Slice, i: nat, other: Slice, j: nat, n: nat)
    requires Agree(data, i, other, j, n)
    requires PayloadSpan(data, i).Span? && PayloadSpan(data, i).to <= i + n
    ensures var s := PayloadSpan(data, i);
            PayloadSpan(other, j) == Span(j + s.from - i, j + s.to - i)
            && data[s.from..s.to] == other[j + s.from - i..j + s.to - i]
  {
    hide ReadVarint;
    var s := PayloadSpan(data, i);
    ReadLocal(data, i, other, j, n);
    HopNoWrap(s.from, ToInt64(ReadVarint(data, i).value));
    NoWrap(j + s.to - i);
    AgreePart(data, i, other, j, n, s.from - i, s.to - s.from);
  }

  lemma UnknownNoWrap(data: Slice, i: nat)
    requires i <= |data| && UnknownEnd(data, i).Span?
    ensures SkipFrom(data[i..], 0, 0) == Skipped(UnknownEnd(data, i).to - i)
  {
    hide SkipFrom;
  }

  lemma UnknownLocal(data: Slice, i: nat, other: Slice, j: nat, n: nat)
    requires Agree(data, i, other, j, n)
    requires UnknownEnd(data, i).Span? && UnknownEnd(data, i).to == i + n
    ensures UnknownEnd(other, j) == Span(j, j + n)
  {
    hide SkipFrom, WellFormed, Encode;
    UnknownNoWrap(data, i);
    SkipIsTheGrammar(data[i..], n);
    assert data[i..][..n] == data[i..i + n] == other[j..j + n] == other[j..][..n];
    SkipIsTheGrammar(other[j..], n);
    NoWrap(j + n);
  }

  lemma AgreeTail(data: Bytes, i: nat, other: Bytes, j: nat, n: nat, from: nat)
    requires Agree(data, i, other, j, n) && from <= n
    ensures Agree(data, i + from, other, j + from, n - from)
    ensures i + n <= |data| && j + n <= |other|
  {
    AgreePart(data, i, other, j, n, from, n - from);
  }

  lemma KeyBeforeSkipEnd(data: Slice, i: nat, n: nat)
    requires i <= |data| && SkipFrom(data[i..], 0, 0) == Skipped(n)
    ensures ReadVarint(data, i).Read? && ReadVarint(data, i).next <= i + n
  {
    hide SkipFrom, ReadDigits, ReadVarint;
    var rest := data[i..];
    var start, wireType := SkippedRound(rest, 0, 0, n);
    assert Agree(rest, 0, data, i, |rest|);
    ReadLocal(rest, 0, data, i, |rest|);
  }

  /** A record's key lies inside the record, also when the record was skipped. */
  lemma KeyWithin(shape: Shape, data: Slice, i: nat)
    requires i <= |data| && StepAt(shape, data, i).Next?
    ensures ReadVarint(data, i).Read? && ReadVarint(data, i).next <= StepAt(shape, data, i).next
  {
    hide SkipFrom, PayloadSpan, ReadDigits;
    if UnknownEnd(data, i).Span? {
      UnknownNoWrap(data, i);
      KeyBeforeSkipEnd(data, i, UnknownEnd(data, i).to - i);
    }
  }

  lemma StepLocal(shape: Shape, data: Slice, i: nat, other: Slice, j: nat, n: nat)
    requires Agree(data, i, other, j, n)
    requires StepAt(shape, data, i).Next? && StepAt(shape, data, i).next == i + n
    ensures StepAt(shape, other, j) == Next(StepAt(shape, data, i).field, j + n)
  {
    hide ReadVarint, PayloadSpan, UnknownEnd, SkipFrom, Agree, FieldNumber;
    var wire, start := ReadVarint(data, i).value, ReadVarint(data, i).next;
    var num := FieldNumber(wire);
    KeyWithin(shape, data, i);
    ReadLocal(data, i, other, j, n);
    AgreeTail(data, i, other, j, n, start - i);
    if num in shape.payloads {
      SpanLocal(data, start, other, j + start - i, i + n - start);
    } else if num in shape.scalars {
      ReadLocal(data, start, other, j + start - i, i + n - start);
    } else {
      UnknownLocal(data, i, other, j, n);
    }
  }

  lemma StepBoth(shape: Shape, data: Slice, i: nat, other: Slice, j: nat)
    requires i <= |data| && j <= |other| && data[i..] == other[j..]
    ensures StepAt(shape, data, i).Next? ==>
              StepAt(shape, other, j) == Next(StepAt(shape, data, i).field, j + StepAt(shape, data, i).next - i)
  {
    hide StepAt;
    if StepAt(shape, data, i).Next? {
      var n := StepAt(shape, data, i).next - i;
      assert |data| - i == |other| - j;
      assert data[i..i + n] == data[i..][..n] == other[j..j + n];
      StepLocal(shape, data, i, other, j, n);
    }
  }

  /** Scanning depends only on the bytes from the start index on; the place of an error
      may change which error is reported, not whether there is one. */
  lemma {:induction false} ScanSuffix(shape: Shape, data: Slice, i: nat, other: Slice, j: nat)
    requires i <= |data| && j <= |other| && data[i..] == other[j..]
    ensures Scan(shape, data, i).fields == Scan(shape, other, j).fields
    ensures Scan(shape, data, i).error.None? <==> Scan(shape, other, j).error.None?
    decreases |data| - i
  {
    hide StepAt;
    assert |data| - i == |other| - j;
    if i < |data| {
      StepBoth(shape, data, i, other, j);
      StepBoth(shape, other, j, data, i);
      if StepAt(shape, data, i).Next? {
        var next := StepAt(shape, data, i).next;
        assert data[next..] == data[i..][next - i..];
        assert other[j + next - i..] == other[j..][next - i..];
        ScanSuffix(shape, data, next, other, j + next - i);
      }
    }
  }

  /** After a cleanly scanned prefix the scan goes on as if the rest stood alone. */
  lemma {:induction false} ScanAppend(shape: Shape, a: Slice, b: Slice, i: nat)
    requires |a + b| < TWO_63 && i <= |a| && Scan(shape, a, i).error.None?
    ensures Scan(shape, a + b, i).fields == Scan(shape, a, i).fields + Scan(shape, b, 0).fields
    ensures Scan(shape, a + b, i).error.None? <==> Scan(shape, b, 0).error.None?
    decreases |a| - i
  {
    hide StepAt;
    if i == |a| {
      assert (a + b)[|a|..] == b[0..];
      ScanSuffix(shape, a + b, |a|, b, 0);
    } else {
      var s := StepAt(shape, a, i);
      var n := s.next - i;
      assert a[i..i + n] == (a + b)[i..i + n];
      StepLocal(shape, a, i, a + b, i, n);
      ScanAppend(shape, a, b, s.next);
      assert Scan(shape, a, i).fields == OptionToSeq(s.field) + Scan(shape, a, s.next).fields;
    }
  }
}
