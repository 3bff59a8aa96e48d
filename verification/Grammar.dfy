/** The record loop accepts exactly the forests of well-formed field trees whose known
    fields carry the expected wire type, and reads off their known fields in order. */
module Grammar {
  import opened Bits
  import opened Varint
  import opened Wire
  import opened Records

  function NumberOf(t: Tree): int
  {
    FieldNumber(WordOf(t.key))
  }

  predicate Legal(shape: Shape, t: Tree)
  {
    && NumberOf(t) > 0
    && (NumberOf(t) in shape.payloads ==> t.Delimited?)
    && (NumberOf(t) in shape.scalars && NumberOf(t) !in shape.payloads ==> t.VarintField?)
  }

  predicate LegalAll(shape: Shape, f: Forest)
  {
    f.Cons? ==> Legal(shape, f.head) && LegalAll(shape, f.tail)
  }

  /** What a message takes from a legal tree: nothing when it does not know the number. */
  function Known(shape: Shape, t: Tree): Option<Field>
    requires Legal(shape, t)
  {
    var num := NumberOf(t);
    if num in shape.payloads then Some(Payload(num, t.payload))
    else if num in shape.scalars then Some(Scalar(num, WordOf(t.val)))
    else None
  }

  function KnownAll(shape: Shape, f: Forest): seq<Field>
    requires LegalAll(shape, f)
  {
    if f.Empty? then [] else OptionToSeq(Known(shape, f.head)) + KnownAll(shape, f.tail)
  }

  lemma SpanOfDelimited(data: Slice, i: nat, len: Bytes, payload: Bytes)
    requires At(data, i, len + payload) && IsVarint(len) && WordOf(len) == |payload|
    ensures PayloadSpan(data, i) == Span(i + |len|, i + |len + payload|)
    ensures data[i + |len|..i + |len + payload|] == payload
  {
    hide ReadVarint;
    AtSplit(data, i, len, payload);
    ReadsWhatIsThere(data, i, len);
    NoWrap(i + |len| + |payload|);
  }

  lemma UnknownOfTree(data: Slice, i: nat, t: Tree)
    requires WellFormed(t) && At(data, i, Encode(t))
    ensures UnknownEnd(data, i) == Span(i, i + |Encode(t)|)
  {
    hide SkipFrom, WellFormed, Encode;
    assert data[i..][..|Encode(t)|] == Encode(t);
    SkipsTree(data[i..], 0, t, 0);
    SkipIsTheGrammar(data[i..], |Encode(t)|);
    NoWrap(i + |Encode(t)|);
  }

  lemma KeyType(t: Tree)
    requires WellFormed(t)
    ensures WordOf(t.key) % 8 == TypeOf(t)
  {
  }

  lemma ReadVal(data: Bytes, i: nat, val: Bytes)
    requires At(data, i, val) && IsVarint(val)
    ensures ReadVarint(data, i) == Read(WordOf(val), i + |val|)
  {
    ReadsWhatIsThere(data, i, val);
  }

  /** A legal tree is one record. */
  lemma StepOnTree(shape: Shape, data: Slice, i: nat, t: Tree)
    requires WellFormed(t) && Legal(shape, t) && At(data, i, Encode(t))
    ensures StepAt(shape, data, i) == Next(Known(shape, t), i + |Encode(t)|)
  {
    hide ReadVarint, PayloadSpan, UnknownEnd, SkipFrom, FieldNumber, WordOf;
    TreeParts(data, i, t);
    var start := i + |t.key|;
    KeyType(t);
    if NumberOf(t) in shape.payloads {
      SpanOfDelimited(data, start, t.len, t.payload);
    } else if NumberOf(t) in shape.scalars {
      ReadVal(data, start, t.val);
    } else {
      UnknownOfTree(data, i, t);
    }
  }

  lemma {:induction false} ScanOfForest(shape: Shape, data: Slice, i: nat, f: Forest)
    requires i <= |data| && WellFormedAll(f) && LegalAll(shape, f) && data[i..] == EncodeAll(f)
    ensures Scan(shape, data, i) == Scanned(KnownAll(shape, f), None)
    decreases f
  {
    hide StepAt, WellFormed, Legal, Encode, Known;
    if f.Cons? {
      var n := |Encode(f.head)|;
      assert data[i..i + n] == data[i..][..n] == Encode(f.head);
      assert data[i + n..] == data[i..][n..] == EncodeAll(f.tail);
      StepOnTree(shape, data, i, f.head);
      ScanOfForest(shape, data, i + n, f.tail);
    }
  }

  lemma DelimitedOfSpan(data: Slice, key: Bytes, i: nat) returns (t: Tree)
    requires i <= |data| && IsKey(key, 2) && PayloadSpan(data, i).Span?
    ensures t.Delimited? && t.key == key && WellFormed(t)
    ensures t.payload == data[PayloadSpan(data, i).from..PayloadSpan(data, i).to]
    ensures Encode(t) == key + data[i..PayloadSpan(data, i).to]
  {
    hide ReadVarint;
    var s := PayloadSpan(data, i);
    ReadingIsVarint(data, i);
    t := DelimitedBody(data, key, i, s.from, ReadVarint(data, i).value);
  }

  lemma KeyWord(data: Slice, i: nat)
    requires ReadVarint(data, i).Read?
    ensures WordOf(data[i..ReadVarint(data, i).next]) == ReadVarint(data, i).value
  {
    ReadingIsVarint(data, i);
  }

  lemma TreeOfUnknown(data: Slice, i: nat, start: nat) returns (t: Tree)
    requires i <= |data| && UnknownEnd(data, i).Span?
    requires ReadVarint(data, i).Read? && start == ReadVarint(data, i).next
    ensures WellFormed(t) && Encode(t) == data[i..UnknownEnd(data, i).to] && t.key == data[i..start]
  {
    hide SkipFrom, ReadVarint, WellFormed, Encode;
    UnknownNoWrap(data, i);
    var n := UnknownEnd(data, i).to - i;
    SkipIsTheGrammar(data[i..], n);
    t :| WellFormed(t) && Encode(t) == data[i..][..n];
    assert data[i..][..n] == data[i..i + n];
    TreeParts(data, i, t);
  }

  /** Every record is a legal tree. */
  lemma TreeOfStep(shape: Shape, data: Slice, i: nat) returns (t: Tree)
    requires i <= |data| && StepAt(shape, data, i).Next?
    ensures WellFormed(t) && Legal(shape, t) && Encode(t) == data[i..StepAt(shape, data, i).next]
    ensures Known(shape, t) == StepAt(shape, data, i).field
  {
    hide ReadVarint, PayloadSpan, UnknownEnd, SkipFrom, FieldNumber, WordOf, IsVarint;
    var start, next := ReadVarint(data, i).next, StepAt(shape, data, i).next;
    var key := KeyAt(data, i, start, ReadVarint(data, i).value % 8);
    var num := FieldNumber(WordOf(key));
    KeyWord(data, i);
    if num in shape.payloads {
      t := DelimitedOfSpan(data, key, start);
      assert key + data[start..next] == data[i..next];
    } else if num in shape.scalars {
      var val := KeyAt(data, start, next, ReadVarint(data, start).value % 8);
      KeyWord(data, start);
      t := VarintField(key, val);
      assert key + data[start..next] == data[i..next];
    } else {
      t := TreeOfUnknown(data, i, start);
    }
  }

  lemma {:induction false} ForestOfScan(shape: Shape, data: Slice, i: nat) returns (f: Forest)
    requires i <= |data| && Scan(shape, data, i).error == None
    ensures WellFormedAll(f) && LegalAll(shape, f) && EncodeAll(f) == data[i..]
    decreases |data| - i
  {
    hide StepAt, WellFormed, Legal, Encode, Known;
    if i == |data| {
      f := Empty;
    } else {
      var next := StepAt(shape, data, i).next;
      var t := TreeOfStep(shape, data, i);
      var rest := ForestOfScan(shape, data, next);
      f := Cons(t, rest);
      assert data[i..next] + data[next..] == data[i..];
    }
  }

  /** A buffer is accepted if and only if it is the encoding of a legal forest; whichever
      forest that is, the fields found are the ones taken from it. */
  lemma ScanIsTheGrammar(shape: Shape, data: Slice)
    ensures Scan(shape, data, 0).error == None
       <==> exists f: Forest :: WellFormedAll(f) && LegalAll(shape, f) && EncodeAll(f) == data
    ensures forall f: Forest :: WellFormedAll(f) && LegalAll(shape, f) && EncodeAll(f) == data
                                ==> Scan(shape, data, 0).fields == KnownAll(shape, f)
  {
    hide Scan, WellFormedAll, LegalAll, EncodeAll, KnownAll;
    assert data[0..] == data;
    if Scan(shape, data, 0).error == None {
      var f := ForestOfScan(shape, data, 0);
      assert EncodeAll(f) == data;
    }
    forall f: Forest | WellFormedAll(f) && LegalAll(shape, f) && EncodeAll(f) == data
      ensures Scan(shape, data, 0) == Scanned(KnownAll(shape, f), None)
    {
      ScanOfForest(shape, data, 0, f);
    }
  }
}
