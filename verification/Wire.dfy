/** The wire grammar: trees of fields, the loop that skips one, and the record loop
    shared by every generated `Unmarshal`. */
module Wire {
  import opened Bits
  import opened Varint

  /** A Go slice: its length is a signed 64-bit number. */
  type Slice = s: Bytes | |s| < TWO_63

  // ------------------------------------------------------------------ grammar

  datatype Tree =
    | VarintField(key: Bytes, val: Bytes)
    | Fixed64(key: Bytes, bits: Bytes)
    | Delimited(key: Bytes, len: Bytes, payload: Slice)
    | Group(key: Bytes, body: Forest, end: Bytes)
    | Fixed32(key: Bytes, bits: Bytes)

  datatype Forest = Empty | Cons(head: Tree, tail: Forest)

  function WordOf(bs: Bytes): uint64
  {
    DigitSum(bs) % TWO_64
  }

  predicate IsKey(key: Bytes, wireType: nat)
  {
    IsVarint(key) && WordOf(key) % 8 == wireType
  }

  predicate WellFormed(t: Tree)
  {
    match t
    case VarintField(key, val) => IsKey(key, 0) && IsVarint(val)
    case Fixed64(key, bits) => IsKey(key, 1) && |bits| == 8
    case Delimited(key, len, payload) => IsKey(key, 2) && IsVarint(len) && WordOf(len) == |payload|
    case Group(key, body, end) => IsKey(key, 3) && WellFormedAll(body) && IsKey(end, 4)
    case Fixed32(key, bits) => IsKey(key, 5) && |bits| == 4
  }

  predicate WellFormedAll(f: Forest)
  {
    f.Cons? ==> WellFormed(f.head) && WellFormedAll(f.tail)
  }

  function Encode(t: Tree): (bs: Bytes)
  {
    match t
    case VarintField(key, val) => key + val
    case Fixed64(key, bits) => key + bits
    case Delimited(key, len, payload) => key + (len + payload)
    case Group(key, body, end) => key + (EncodeAll(body) + end)
    case Fixed32(key, bits) => key + bits
  }

  function EncodeAll(f: Forest): Bytes
  {
    if f.Empty? then [] else Encode(f.head) + EncodeAll(f.tail)
  }

  ghost predicate At(data: Bytes, i: nat, bs: Bytes)
  {
    i + |bs| <= |data| && data[i..i + |bs|] == bs
  }

  // ---------------------------------------------------------------- skip loop

  datatype Skip = Skipped(next: nat) | NotSkipped(error: Error)

  /** Where the body of a field that is not a group starts over: an index that may lie
      past the buffer, or negative after signed wrap-around. */
  datatype Hop = To(index: int) | NoHop(error: Error)

  function HopOver(data: Slice, i: nat, wireType: nat): (h: Hop)
    requires i <= |data|
    ensures h.To? ==> h.index < TWO_63 && (h.index < 0 || i <= h.index)
  {
    match wireType
    case 0 =>
      (match ReadDigits(data, i, 0)
       case Failed(e) => NoHop(e)
       case Read(_, next) => To(next))
    case 1 => To(WrapInt64(i + 8))
    case 2 =>
      (match ReadVarint(data, i)
       case Failed(e) => NoHop(e)
       case Read(v, next) =>
         if ToInt64(v) < 0 then NoHop(InvalidLength) else To(WrapInt64(next + ToInt64(v))))
    case 5 => To(WrapInt64(i + 4))
    case _ => NoHop(IllegalWireType)
  }

  function SkipFrom(data: Slice, i: nat, depth: nat): (s: Skip)
    ensures s.Skipped? ==> i < s.next < TWO_63
    decreases |data| - i
  {
    if i >= |data| then NotSkipped(UnexpectedEOF) else
    match ReadVarint(data, i)
    case Failed(e) => NotSkipped(e)
    case Read(wire, start) =>
      var wireType := wire % 8;
      if wireType == 3 then SkipFrom(data, start, depth + 1)
      else if wireType == 4 then
        if depth == 0 then NotSkipped(UnexpectedEndOfGroup)
        else if depth == 1 then Skipped(start)
        else SkipFrom(data, start, depth - 1)
      else
        match HopOver(data, start, wireType)
        case NoHop(e) => NotSkipped(e)
        case To(next) =>
          if next < 0 then NotSkipped(InvalidLength)
          else if depth == 0 then Skipped(next)
          else SkipFrom(data, next, depth)
  }

  /** One round of the loop on a group's opening and closing keys, and on a leaf. */
  lemma GroupRounds(data: Slice, i: nat, depth: nat, wire: nat, start: nat, last: nat, endWire: nat, end: nat)
    requires ReadVarint(data, i) == Read(wire, start) && wire % 8 == 3
    requires ReadVarint(data, last) == Read(endWire, end) && endWire % 8 == 4
    requires SkipFrom(data, start, depth + 1) == SkipFrom(data, last, depth + 1)
    ensures SkipFrom(data, i, depth) == if depth == 0 then Skipped(end) else SkipFrom(data, end, depth)
  {
  }

  lemma LeafRound(data: Slice, i: nat, depth: nat, wire: nat, wireType: nat, start: nat, next: nat)
    requires ReadVarint(data, i) == Read(wire, start) && wire % 8 == wireType && wireType != 3 && wireType != 4
    requires HopOver(data, start, wireType) == To(next)
    ensures SkipFrom(data, i, depth) == if depth == 0 then Skipped(next) else SkipFrom(data, next, depth)
  {
  }

  /** The same round read forwards, failures included. */
  ghost predicate RoundsTo(data: Slice, i: nat, depth: nat, s: Skip)
    requires i < |data|
  {
    match ReadVarint(data, i)
    case Failed(e) => s == NotSkipped(e)
    case Read(wire, start) =>
      var wireType := wire % 8;
      if wireType == 3 then s == SkipFrom(data, start, depth + 1)
      else if wireType == 4 then
        s == if depth == 0 then NotSkipped(UnexpectedEndOfGroup)
             else if depth == 1 then Skipped(start)
             else SkipFrom(data, start, depth - 1)
      else
        match HopOver(data, start, wireType)
        case NoHop(e) => s == NotSkipped(e)
        case To(next) =>
          s == if next < 0 then NotSkipped(InvalidLength)
               else if depth == 0 then Skipped(next)
               else SkipFrom(data, next, depth)
  }

  lemma Rounds(data: Slice, i: nat, depth: nat)
    requires i < |data|
    ensures RoundsTo(data, i, depth, SkipFrom(data, i, depth))
  {
  }

  lemma SkipEnd(data: Slice, i: nat, depth: nat)
    requires i >= |data|
    ensures SkipFrom(data, i, depth) == NotSkipped(UnexpectedEOF)
  {
  }

  lemma SkippedRound(data: Slice, i: nat, depth: nat, n: nat) returns (start: nat, wireType: nat)
    requires SkipFrom(data, i, depth) == Skipped(n)
    ensures ReadVarint(data, i).Read?
    ensures start == ReadVarint(data, i).next && wireType == ReadVarint(data, i).value % 8
    ensures wireType == 3 ==> SkipFrom(data, start, depth + 1) == Skipped(n)
    ensures wireType == 4 ==> depth >= 1
    ensures wireType == 4 && depth == 1 ==> n == start
    ensures wireType == 4 && depth > 1 ==> SkipFrom(data, start, depth - 1) == Skipped(n)
    ensures wireType != 3 && wireType != 4 ==>
              HopOver(data, start, wireType).To? && HopOver(data, start, wireType).index >= 0
    ensures wireType != 3 && wireType != 4 && depth == 0 ==> n == HopOver(data, start, wireType).index
    ensures wireType != 3 && wireType != 4 && depth > 0 ==>
              && HopOver(data, start, wireType).index < |data|
              && SkipFrom(data, HopOver(data, start, wireType).index, depth) == Skipped(n)
  {
    start, wireType := ReadVarint(data, i).next, ReadVarint(data, i).value % 8;
  }

  // ------------------------------------------------------- why the loop gives up

  /** A leaf's body is refused for an unassigned wire type, a length of 2^63 or more, or a
      varint that cannot be read. */
  lemma HopFailures(data: Slice, i: nat, wireType: nat)
    requires i <= |data| && wireType < 8 && wireType != 3 && wireType != 4
    ensures HopOver(data, i, wireType) == NoHop(IllegalWireType) <==> wireType >= 6
    ensures HopOver(data, i, wireType) == NoHop(InvalidLength)
       <==> wireType == 2 && ReadVarint(data, i).Read? && ReadVarint(data, i).value >= TWO_63
    ensures forall e :: e in {IntOverflow, UnexpectedEOF} ==>
              (HopOver(data, i, wireType) == NoHop(e)
               <==> (wireType == 0 || wireType == 2) && ReadVarint(data, i) == Failed(e))
    ensures HopOver(data, i, wireType).NoHop? ==>
              HopOver(data, i, wireType).error in {IllegalWireType, InvalidLength, IntOverflow, UnexpectedEOF}
  {
    hide ReadDigits;
    ReadFailures(data, i);
  }

  /** The loop complains about an end group only where it starts on one, and never of a tag or
      of a field's type. */
  lemma {:induction false} SkipFailures(data: Slice, i: nat, depth: nat)
    ensures SkipFrom(data, i, depth) == NotSkipped(UnexpectedEndOfGroup)
       <==> depth == 0 && ReadVarint(data, i).Read? && ReadVarint(data, i).value % 8 == 4
    ensures SkipFrom(data, i, depth).NotSkipped? ==>
              SkipFrom(data, i, depth).error !in {IllegalTag, WrongWireType, EndGroupForNonGroup}
    decreases |data| - i
  {
    hide SkipFrom, HopOver, ReadVarint;
    ReadFailures(data, i);
    if i >= |data| {
      SkipEnd(data, i, depth);
    } else {
      Rounds(data, i, depth);
      if ReadVarint(data, i).Read? {
        var Read(wire, start) := ReadVarint(data, i);
        var wireType := wire % 8;
        if wireType == 3 {
          SkipFailures(data, start, depth + 1);
        } else if wireType == 4 {
          if depth > 1 { SkipFailures(data, start, depth - 1); }
        } else {
          HopFailures(data, start, wireType);
          var hop := HopOver(data, start, wireType);
          if hop.To? && hop.index >= 0 && depth > 0 { SkipFailures(data, hop.index, depth); }
        }
      }
    }
  }

  /** The loop ends beyond the buffer only by the body of a first field that is no group. */
  lemma {:induction false} SkipsBeyond(data: Slice, i: nat, depth: nat, n: nat)
    requires n > |data|
    ensures SkipFrom(data, i, depth) == Skipped(n)
       <==> depth == 0 && i < |data|
            && match ReadVarint(data, i)
               case Failed(_) => false
               case Read(wire, start) => wire % 8 != 3 && wire % 8 != 4 && HopOver(data, start, wire % 8) == To(n)
    decreases |data| - i
  {
    hide SkipFrom, HopOver, ReadVarint;
    if i >= |data| {
      SkipEnd(data, i, depth);
    } else {
      Rounds(data, i, depth);
      if ReadVarint(data, i).Read? {
        var Read(wire, start) := ReadVarint(data, i);
        var wireType := wire % 8;
        if wireType == 3 {
          SkipsBeyond(data, start, depth + 1, n);
        } else if wireType == 4 {
          if depth > 1 { SkipsBeyond(data, start, depth - 1, n); }
        } else {
          var hop := HopOver(data, start, wireType);
          if hop.To? && hop.index >= 0 && depth > 0 { SkipsBeyond(data, hop.index, depth, n); }
        }
      }
    }
  }

  // ------------------------------------------------ the loop accepts the grammar

  lemma NoWrap(x: nat)
    requires x < TWO_63
    ensures WrapInt64(x) == x
  {
  }

  lemma KeyReads(data: Bytes, i: nat, key: Bytes, wireType: nat)
    requires At(data, i, key) && IsKey(key, wireType)
    ensures ReadVarint(data, i) == Read(WordOf(key), i + |key|)
  {
    ReadsWhatIsThere(data, i, key);
  }

  lemma HopsVarint(data: Slice, i: nat, val: Bytes)
    requires At(data, i, val) && IsVarint(val)
    ensures HopOver(data, i, 0) == To(i + |val|)
  {
    ReadsWhatIsThere(data, i, val);
  }

  lemma AtSplit(data: Bytes, i: nat, a: Bytes, b: Bytes)
    requires At(data, i, a + b)
    ensures At(data, i, a) && At(data, i + |a|, b)
  {
    assert data[i..i + |a|] == data[i..i + |a + b|][..|a|] == a;
    assert data[i + |a|..i + |a| + |b|] == data[i..i + |a + b|][|a|..] == b;
  }

  lemma HopsDelimited(data: Slice, i: nat, len: Bytes, payload: Bytes)
    requires At(data, i, len + payload) && IsVarint(len) && WordOf(len) == |payload|
    ensures HopOver(data, i, 2) == To(i + |len + payload|)
  {
    AtSplit(data, i, len, payload);
    ReadsWhatIsThere(data, i, len);
    NoWrap(i + |len| + |payload|);
  }

  lemma HopsFixed(data: Slice, i: nat, bits: Bytes)
    requires At(data, i, bits)
    ensures |bits| == 8 ==> HopOver(data, i, 1) == To(i + 8)
    ensures |bits| == 4 ==> HopOver(data, i, 5) == To(i + 4)
  {
    NoWrap(i + |bits|);
  }

  ghost function Body(t: Tree): Bytes
  {
    match t
    case VarintField(_, val) => val
    case Fixed64(_, bits) => bits
    case Delimited(_, len, payload) => len + payload
    case Group(_, body, end) => EncodeAll(body) + end
    case Fixed32(_, bits) => bits
  }

  ghost function TypeOf(t: Tree): nat
  {
    match t
    case VarintField(_, _) => 0
    case Fixed64(_, _) => 1
    case Delimited(_, _, _) => 2
    case Group(_, _, _) => 3
    case Fixed32(_, _) => 5
  }

  lemma TreeParts(data: Bytes, i: nat, t: Tree)
    requires WellFormed(t) && At(data, i, Encode(t))
    ensures IsKey(t.key, TypeOf(t)) && Encode(t) == t.key + Body(t)
    ensures At(data, i, t.key) && At(data, i + |t.key|, Body(t))
    ensures ReadVarint(data, i) == Read(WordOf(t.key), i + |t.key|)
  {
    AtSplit(data, i, t.key, Body(t));
    KeyReads(data, i, t.key, TypeOf(t));
  }

  lemma HopsOverBody(data: Slice, i: nat, t: Tree)
    requires WellFormed(t) && !t.Group? && At(data, i, Body(t))
    ensures HopOver(data, i, TypeOf(t)) == To(i + |Body(t)|)
  {
    match t
    case VarintField(_, val) => HopsVarint(data, i, val);
    case Delimited(_, len, payload) => HopsDelimited(data, i, len, payload);
    case Fixed64(_, bits) => HopsFixed(data, i, bits);
    case Fixed32(_, bits) => HopsFixed(data, i, bits);
  }

  lemma GroupParts(data: Bytes, i: nat, t: Tree)
    requires t.Group? && WellFormed(t) && At(data, i, Encode(t))
    ensures IsKey(t.key, 3) && WellFormedAll(t.body) && IsKey(t.end, 4)
    ensures var start := i + |t.key|; var last := start + |EncodeAll(t.body)|;
            At(data, i, t.key) && At(data, start, EncodeAll(t.body)) && At(data, last, t.end)
  {
    AtSplit(data, i, t.key, EncodeAll(t.body) + t.end);
    AtSplit(data, i + |t.key|, EncodeAll(t.body), t.end);
  }

  lemma SkipsGroup(data: Slice, i: nat, t: Tree, depth: nat, start: nat, last: nat)
    requires t.Group? && IsKey(t.key, 3) && IsKey(t.end, 4)
    requires start == i + |t.key| && last == start + |EncodeAll(t.body)|
    requires At(data, i, t.key) && At(data, last, t.end)
    requires SkipFrom(data, start, depth + 1) == SkipFrom(data, last, depth + 1)
    ensures SkipFrom(data, i, depth)
         == if depth == 0 then Skipped(i + |Encode(t)|) else SkipFrom(data, i + |Encode(t)|, depth)
  {
    var end := last + |t.end|;
    assert i + |Encode(t)| == end;
    KeyReads(data, i, t.key, 3);
    KeyReads(data, last, t.end, 4);
    GroupRounds(data, i, depth, WordOf(t.key), start, last, WordOf(t.end), end);
  }

  lemma SkipsLeaf(data: Slice, i: nat, t: Tree, depth: nat)
    requires WellFormed(t) && At(data, i, Encode(t)) && !t.Group?
    ensures SkipFrom(data, i, depth)
         == if depth == 0 then Skipped(i + |Encode(t)|) else SkipFrom(data, i + |Encode(t)|, depth)
  {
    hide SkipFrom, HopOver, ReadVarint, WellFormed;
    var start := i + |t.key|;
    TreeParts(data, i, t);
    HopsOverBody(data, start, t);
    assert i + |Encode(t)| == start + |Body(t)|;
    LeafRound(data, i, depth, WordOf(t.key), TypeOf(t), start, start + |Body(t)|);
  }

  /** At depth 0 the loop stops right behind a tree; deeper it walks on behind it. */
  lemma {:induction false} SkipsTree(data: Slice, i: nat, t: Tree, depth: nat)
    requires WellFormed(t) && At(data, i, Encode(t))
    ensures SkipFrom(data, i, depth)
         == if depth == 0 then Skipped(i + |Encode(t)|) else SkipFrom(data, i + |Encode(t)|, depth)
    decreases t
  {
    hide SkipFrom, ReadVarint, IsKey, WellFormed, WellFormedAll, Encode, EncodeAll, At;
    if t.Group? {
      var start := i + |t.key|;
      var last := start + |EncodeAll(t.body)|;
      GroupParts(data, i, t);
      SkipsForest(data, start, t.body, depth + 1);
      SkipsGroup(data, i, t, depth, start, last);
    } else {
      SkipsLeaf(data, i, t, depth);
    }
  }

  lemma {:induction false} SkipsForest(data: Slice, i: nat, f: Forest, depth: nat)
    requires WellFormedAll(f) && At(data, i, EncodeAll(f)) && depth >= 1
    ensures SkipFrom(data, i, depth) == SkipFrom(data, i + |EncodeAll(f)|, depth)
    decreases f
  {
    hide SkipFrom, ReadVarint, WellFormed;
    if f.Cons? {
      AtSplit(data, i, Encode(f.head), EncodeAll(f.tail));
      SkipsTree(data, i, f.head, depth);
      SkipsForest(data, i + |Encode(f.head)|, f.tail, depth);
    }
  }

  // --------------------------------------------- and it accepts nothing else

  /** The remainders of the groups still open at some point, innermost first. */
  datatype Open = Closed | Level(body: Forest, end: Bytes, outer: Open)

  ghost function EncodeOpen(o: Open): Bytes
  {
    if o.Closed? then [] else EncodeAll(o.body) + (o.end + EncodeOpen(o.outer))
  }

  ghost function Levels(o: Open): nat
  {
    if o.Closed? then 0 else 1 + Levels(o.outer)
  }

  ghost predicate WellFormedOpen(o: Open)
  {
    o.Level? ==> WellFormedAll(o.body) && IsKey(o.end, 4) && WellFormedOpen(o.outer)
  }

  lemma HopNoWrap(i: nat, n: nat)
    requires i < TWO_63 && n < TWO_63 && WrapInt64(i + n) >= 0
    ensures WrapInt64(i + n) == i + n
  {
  }

  lemma DelimitedBody(data: Slice, key: Bytes, i: nat, start: nat, v: uint64) returns (t: Tree)
    requires i < start <= |data| && IsKey(key, 2)
    requires IsVarint(data[i..start]) && v == WordOf(data[i..start])
    requires ToInt64(v) >= 0 && 0 <= WrapInt64(start + ToInt64(v)) <= |data|
    ensures t.Delimited? && t.key == key && WellFormed(t)
    ensures WrapInt64(start + ToInt64(v)) == start + v
    ensures t.payload == data[start..start + v] && Encode(t) == key + data[i..start + v]
  {
    HopNoWrap(start, v);
    t := Delimited(key, data[i..start], data[start..start + v]);
    assert data[i..start] + data[start..start + v] == data[i..start + v];
  }

  /** A hop that stays inside the buffer passed the body of some leaf field. */
  lemma HopIsBody(data: Slice, key: Bytes, i: nat, wireType: nat) returns (t: Tree)
    requires i <= |data| && IsKey(key, wireType)
    requires HopOver(data, i, wireType).To? && 0 <= HopOver(data, i, wireType).index <= |data|
    ensures !t.Group? && t.key == key && TypeOf(t) == wireType && WellFormed(t)
    ensures i <= HopOver(data, i, wireType).index
    ensures Encode(t) == key + data[i..HopOver(data, i, wireType).index]
  {
    var next := HopOver(data, i, wireType).index;
    match wireType
    case 0 =>
      assert ReadVarint(data, i).Read?;
      ReadingIsVarint(data, i);
      t := VarintField(key, data[i..next]);
    case 1 =>
      HopNoWrap(i, 8);
      t := Fixed64(key, data[i..next]);
    case 2 =>
      ReadingIsVarint(data, i);
      t := DelimitedBody(data, key, i, ReadVarint(data, i).next, ReadVarint(data, i).value);
    case 5 =>
      HopNoWrap(i, 4);
      t := Fixed32(key, data[i..next]);
  }

  ghost predicate Opens(data: Slice, i: nat, n: nat, depth: nat, o: Open)
  {
    i <= n <= |data| && WellFormedOpen(o) && Levels(o) == depth && EncodeOpen(o) == data[i..n]
  }

  lemma ClosedOpens(data: Slice, n: nat)
    requires n <= |data|
    ensures Opens(data, n, n, 0, Closed)
  {
  }

  lemma PushTree(t: Tree, outer: Open) returns (o: Open)
    requires WellFormed(t) && WellFormedOpen(outer) && outer.Level?
    ensures WellFormedOpen(o) && Levels(o) == Levels(outer) && EncodeOpen(o) == Encode(t) + EncodeOpen(outer)
  {
    o := outer.(body := Cons(t, outer.body));
    var tail := outer.end + EncodeOpen(outer.outer);
    assert EncodeOpen(o) == (Encode(t) + EncodeAll(outer.body)) + tail;
    assert (Encode(t) + EncodeAll(outer.body)) + tail == Encode(t) + (EncodeAll(outer.body) + tail);
  }

  lemma OpenGroup(data: Slice, i: nat, start: nat, n: nat, depth: nat, inner: Open) returns (t: Tree, o: Open)
    requires i < start <= n <= |data| && IsKey(data[i..start], 3) && Opens(data, start, n, depth + 1, inner)
    ensures depth == 0 ==> WellFormed(t) && Encode(t) == data[i..n]
    ensures depth > 0 ==> Opens(data, i, n, depth, o)
  {
    var key, outer := data[i..start], inner.outer;
    t := Group(key, inner.body, inner.end);
    assert Levels(outer) == depth && EncodeOpen(inner) == EncodeAll(inner.body) + (inner.end + EncodeOpen(outer));
    assert Encode(t) + EncodeOpen(outer) == key + EncodeOpen(inner) == data[i..n];
    o := outer;
    if depth > 0 {
      o := PushTree(t, outer);
    }
  }

  lemma CloseGroup(data: Slice, i: nat, start: nat, n: nat, depth: nat, outer: Open) returns (o: Open)
    requires i < start <= n <= |data| && IsKey(data[i..start], 4) && Opens(data, start, n, depth, outer)
    ensures Opens(data, i, n, depth + 1, o)
  {
    hide IsVarint, WordOf;
    var key := data[i..start];
    o := Level(Empty, key, outer);
    assert EncodeOpen(o) == [] + (key + EncodeOpen(outer));
    assert key + data[start..n] == data[i..n];
  }

  lemma PassLeaf(data: Slice, i: nat, start: nat, n: nat, depth: nat, t: Tree, rest: Open) returns (o: Open)
    requires i < start <= n <= |data| && depth > 0 && Opens(data, start, n, depth, rest)
    requires WellFormed(t) && Encode(t) == data[i..start]
    ensures Opens(data, i, n, depth, o)
  {
    o := PushTree(t, rest);
    assert data[i..start] + data[start..n] == data[i..n];
  }

  lemma KeyAt(data: Slice, i: nat, start: nat, wireType: nat) returns (key: Bytes)
    requires ReadVarint(data, i).Read? && start == ReadVarint(data, i).next && wireType == ReadVarint(data, i).value % 8
    ensures i < start <= |data| && key == data[i..start] && IsKey(key, wireType)
  {
    ReadingIsVarint(data, i);
    key := data[i..start];
  }

  lemma LeafAt(data: Slice, i: nat, start: nat, wireType: nat) returns (t: Tree)
    requires i < start <= |data| && IsKey(data[i..start], wireType)
    requires HopOver(data, start, wireType).To? && 0 <= HopOver(data, start, wireType).index <= |data|
    ensures var next := HopOver(data, start, wireType).index;
            start <= next && WellFormed(t) && !t.Group? && Encode(t) == data[i..next] && t.key == data[i..start]
  {
    t := HopIsBody(data, data[i..start], start, wireType);
    var next := HopOver(data, start, wireType).index;
    assert data[i..start] + data[start..next] == data[i..next];
  }

  lemma {:induction false} SkippedIsTree(data: Slice, i: nat, depth: nat, n: nat) returns (t: Tree, o: Open)
    requires SkipFrom(data, i, depth) == Skipped(n) && n <= |data|
    ensures i < n
    ensures depth == 0 ==> WellFormed(t) && Encode(t) == data[i..n]
    ensures depth > 0 ==> Opens(data, i, n, depth, o)
    decreases |data| - i
  {
    hide SkipFrom, ReadVarint, HopOver, Opens, EncodeOpen, Levels;
    var start, wireType := SkippedRound(data, i, depth, n);
    var key := KeyAt(data, i, start, wireType);
    o := Closed;
    if wireType == 3 {
      var _, inner := SkippedIsTree(data, start, depth + 1, n);
      t, o := OpenGroup(data, i, start, n, depth, inner);
    } else if wireType == 4 {
      t := Group(key, Empty, key);
      if depth == 1 {
        ClosedOpens(data, n);
        o := CloseGroup(data, i, start, n, 0, Closed);
      } else {
        var _, outer := SkippedIsTree(data, start, depth - 1, n);
        o := CloseGroup(data, i, start, n, depth - 1, outer);
      }
    } else {
      var next := HopOver(data, start, wireType).index;
      if depth == 0 {
        t := LeafAt(data, i, start, wireType);
      } else {
        t := LeafAt(data, i, start, wireType);
        var _, rest := SkippedIsTree(data, next, depth, n);
        o := PassLeaf(data, i, next, n, depth, t, rest);
      }
    }
  }

  /** `skip*` stays inside the buffer exactly when it starts with a well-formed tree of
      fields, and then it returns that tree's length. */
  lemma SkipIsTheGrammar(data: Slice, n: nat)
    requires n <= |data|
    ensures SkipFrom(data, 0, 0) == Skipped(n)
       <==> exists t: Tree :: WellFormed(t) && Encode(t) == data[..n]
  {
    if SkipFrom(data, 0, 0) == Skipped(n) {
      var t, _ := SkippedIsTree(data, 0, 0, n);
      assert Encode(t) == data[..n];
    }
    forall t: Tree | WellFormed(t) && Encode(t) == data[..n]
      ensures SkipFrom(data, 0, 0) == Skipped(n)
    {
      SkipsTree(data, 0, t, 0);
    }
  }

  /** A tree followed by any bytes: the loop returns its length. */
  lemma SkipsTreeInFront(t: Tree, rest: Bytes)
    requires WellFormed(t) && |Encode(t) + rest| < TWO_63
    ensures SkipFrom(Encode(t) + rest, 0, 0) == Skipped(|Encode(t)|)
  {
    SkipsTree(Encode(t) + rest, 0, t, 0);
  }

  /** The inner loop of case 0, which looks only at the continuation bits. */
  method SkipVarint(dAtA: Bytes, start: nat) returns (err: Option<Error>, iNdEx: nat)
    requires start <= |dAtA|
    ensures match ReadDigits(dAtA, start, 0)
            case Failed(e) => err == Some(e)
            case Read(_, next) => err == None && iNdEx == next
    ensures start <= iNdEx <= |dAtA|
  {
    iNdEx, err := start, None;
    var shift := 0;
    ghost var k := 0;
    while true
      invariant 0 <= k <= 10 && shift == 7 * k && start <= iNdEx <= |dAtA|
      invariant match ReadDigits(dAtA, iNdEx, k)
                case Failed(e) => ReadDigits(dAtA, start, 0) == Failed(e)
                case Read(_, next) => ReadDigits(dAtA, start, 0).Read? && ReadDigits(dAtA, start, 0).next == next
      decreases 10 - k
    {
      if shift >= 64 { return Some(IntOverflow), iNdEx; }
      if iNdEx >= |dAtA| { return Some(UnexpectedEOF), iNdEx; }
      iNdEx := iNdEx + 1;
      if dAtA[iNdEx - 1] < 0x80 { break; }
      shift := shift + 7;
      k := k + 1;
    }
  }

  /** The arms of the switch that pass a leaf's body. */
  method HopBody(dAtA: Slice, start: nat, wireType: nat) returns (iNdEx: int, err: Option<Error>)
    requires start <= |dAtA| && wireType != 3 && wireType != 4
    ensures match HopOver(dAtA, start, wireType)
            case NoHop(e) => err == Some(e)
            case To(next) => err == None && iNdEx == next
    ensures err == None ==> iNdEx < 0 || start <= iNdEx
  {
    iNdEx, err := start, None;
    match wireType {
      case 0 =>
        err, iNdEx := SkipVarint(dAtA, iNdEx);
      case 1 =>
        iNdEx := WrapInt64(iNdEx + 8);
      case 2 =>
        var word;
        err, word, iNdEx := DecodeVarint(dAtA, iNdEx);
        if err.Some? { return; }
        var length := ToInt64(word);
        if length < 0 { return iNdEx, Some(InvalidLength); }
        iNdEx := WrapInt64(iNdEx + length);
      case 5 =>
        iNdEx := WrapInt64(iNdEx + 4);
      case _ =>
        err := Some(IllegalWireType);
    }
  }

  /** `skipGenesis`, `skipParams`, `skipAuthorityMetadata`: one text under three names. */
  method SkipField(dAtA: Slice) returns (n: int, err: Option<Error>)
    ensures match SkipFrom(dAtA, 0, 0)
            case Skipped(next) => err == None && n == next
            case NotSkipped(e) => err == Some(e) && n == 0
  {
    hide SkipFrom, ReadVarint, HopOver;
    var l := |dAtA|;
    var iNdEx, depth := 0, 0;
    while iNdEx < l
      invariant 0 <= iNdEx && 0 <= depth
      invariant SkipFrom(dAtA, 0, 0) == SkipFrom(dAtA, iNdEx, depth)
      decreases l - iNdEx
    {
      Rounds(dAtA, iNdEx, depth);
      var wire;
      err, wire, iNdEx := DecodeVarint(dAtA, iNdEx);
      if err.Some? { return 0, err; }
      LowThreeBits(wire);
      var wireType := And(wire, 0x7);
      if wireType == 3 {
        depth := depth + 1;
      } else if wireType == 4 {
        if depth == 0 { return 0, Some(UnexpectedEndOfGroup); }
        depth := depth - 1;
      } else {
        iNdEx, err := HopBody(dAtA, iNdEx, wireType);
        if err.Some? { return 0, err; }
      }
      if iNdEx < 0 { return 0, Some(InvalidLength); }
      if depth == 0 { return iNdEx, None; }
    }
    SkipEnd(dAtA, iNdEx, depth);
    return 0, Some(UnexpectedEOF);
  }
}
