/** Which of the fields the code passes are fields of the Protocol Buffers standard: the
    grammar of `Wire` is the code's own and wider. */
module Standard {
  import opened Bits
  import opened Varint
  import opened Wire
  import opened Records
  import opened Grammar
  import opened Messages

  /** The largest field number (Language Guide, section "Assigning Field Numbers"). */
  const MAX_NUMBER := 536_870_911

  /** A varint that spells a 64-bit number (Encoding, section "Base 128 Varints"). The code
      reads any ten digits and drops what does not fit. */
  predicate IsStandardVarint(bs: Bytes)
  {
    IsVarint(bs) && DigitSum(bs) < TWO_64
  }

  /** The field number in what a key spells. */
  function KeyNumber(wire: nat): nat
  {
    Shr(wire, 3)
  }

  predicate IsNumber(n: nat)
  {
    1 <= n <= MAX_NUMBER
  }

  /** A key whose varint and number are standard. */
  predicate IsStandardKey(key: Bytes)
  {
    IsStandardVarint(key) && IsNumber(KeyNumber(DigitSum(key)))
  }

  predicate ClosesGroup(key: Bytes, end: Bytes)
  {
    IsStandardVarint(end) && KeyNumber(DigitSum(end)) == KeyNumber(DigitSum(key))
  }

  /** The varints of a leaf behind its key. */
  predicate StandardBody(t: Tree)
  {
    match t
    case VarintField(_, val) => IsStandardVarint(val)
    case Delimited(_, len, _) => IsStandardVarint(len)
    case _ => true
  }

  /** At every depth 64-bit varints and legal field numbers, and each group closed by its
      own number (Encoding, section "Groups"). */
  predicate IsStandard(t: Tree)
  {
    && IsStandardKey(t.key) && StandardBody(t)
    && (t.Group? ==> ClosesGroup(t.key, t.end) && AllStandard(t.body))
  }

  predicate AllStandard(f: Forest)
  {
    f.Cons? ==> IsStandard(f.head) && AllStandard(f.tail)
  }

  // ------------------------------------------------ bytes determine their trees

  lemma SamePrefix(data: Bytes, i: nat, a: Bytes, b: Bytes)
    requires At(data, i, a) && At(data, i, b) && |a| == |b|
    ensures a == b
  {
  }

  lemma SameVarint(data: Bytes, i: nat, a: Bytes, b: Bytes)
    requires At(data, i, a) && At(data, i, b) && IsVarint(a) && IsVarint(b)
    ensures a == b
  {
    ReadsWhatIsThere(data, i, a);
    ReadsWhatIsThere(data, i, b);
  }

  lemma SameLeaf(data: Bytes, i: nat, t: Tree, u: Tree)
    requires WellFormed(t) && WellFormed(u) && !t.Group? && t.key == u.key && TypeOf(t) == TypeOf(u)
    requires At(data, i, Body(t)) && At(data, i, Body(u))
    ensures t == u
  {
    hide IsVarint, WordOf;
    match t
    case VarintField(_, val) => SameVarint(data, i, val, u.val);
    case Fixed64(_, bits) => SamePrefix(data, i, bits, u.bits);
    case Fixed32(_, bits) => SamePrefix(data, i, bits, u.bits);
    case Delimited(_, len, payload) =>
      AtSplit(data, i, len, payload);
      AtSplit(data, i, u.len, u.payload);
      SameVarint(data, i, len, u.len);
      SamePrefix(data, i + |len|, payload, u.payload);
  }

  lemma SameKey(data: Bytes, i: nat, t: Tree, u: Tree)
    requires WellFormed(t) && WellFormed(u) && At(data, i, Encode(t)) && At(data, i, Encode(u))
    ensures t.key == u.key && TypeOf(t) == TypeOf(u)
    ensures At(data, i + |t.key|, Body(t)) && At(data, i + |t.key|, Body(u))
  {
    hide ReadVarint;
    TreeParts(data, i, t);
    TreeParts(data, i, u);
    SameVarint(data, i, t.key, u.key);
  }

  /** No well-formed tree is a proper prefix of another: where one stands, no other does. */
  lemma {:induction false} SameTree(data: Bytes, i: nat, t: Tree, u: Tree)
    requires WellFormed(t) && WellFormed(u) && At(data, i, Encode(t)) && At(data, i, Encode(u))
    ensures t == u
    decreases t
  {
    hide At, WellFormed, WellFormedAll, IsKey, Encode, EncodeAll;
    SameKey(data, i, t, u);
    if t.Group? {
      GroupParts(data, i, t);
      GroupParts(data, i, u);
      SameForest(data, i + |t.key|, t.body, t.end, u.body, u.end);
    } else {
      SameLeaf(data, i + |t.key|, t, u);
    }
  }

  lemma EndIsNoTree(data: Bytes, i: nat, end: Bytes, t: Tree)
    requires IsKey(end, 4) && WellFormed(t)
    ensures !(At(data, i, end) && At(data, i, Encode(t)))
  {
    hide ReadVarint;
    if At(data, i, end) && At(data, i, Encode(t)) {
      TreeParts(data, i, t);
      SameVarint(data, i, end, t.key);
    }
  }

  lemma {:induction false} SameForest(data: Bytes, i: nat, f: Forest, end: Bytes, g: Forest, last: Bytes)
    requires WellFormedAll(f) && IsKey(end, 4) && At(data, i, EncodeAll(f)) && At(data, i + |EncodeAll(f)|, end)
    requires WellFormedAll(g) && IsKey(last, 4) && At(data, i, EncodeAll(g)) && At(data, i + |EncodeAll(g)|, last)
    ensures f == g && end == last
    decreases f
  {
    hide At, WellFormed, Encode, IsVarint, WordOf;
    if f.Cons? { AtSplit(data, i, Encode(f.head), EncodeAll(f.tail)); }
    if g.Cons? { AtSplit(data, i, Encode(g.head), EncodeAll(g.tail)); }
    if f.Empty? && g.Empty? {
      SameVarint(data, i, end, last);
    } else if f.Empty? {
      EndIsNoTree(data, i, end, g.head);
    } else if g.Empty? {
      EndIsNoTree(data, i, last, f.head);
    } else {
      SameTree(data, i, f.head, g.head);
      SameForest(data, i + |Encode(f.head)|, f.tail, end, g.tail, last);
    }
  }

  /** The bytes of a well-formed tree begin no other tree, with anything behind them. */
  lemma EncodeIsPrefixFree(t: Tree, u: Tree, rest: Bytes)
    requires WellFormed(t) && WellFormed(u) && Encode(t) == Encode(u) + rest
    ensures t == u
  {
    SameTree(Encode(t), 0, t, u);
  }

  lemma EncodeIsLonger(t: Tree)
    requires WellFormed(t)
    ensures |Encode(t)| >= 1
  {
  }

  /** Whole buffers determine their forests as well. */
  lemma {:induction false} EncodeAllIsInjective(f: Forest, g: Forest)
    requires WellFormedAll(f) && WellFormedAll(g) && EncodeAll(f) == EncodeAll(g)
    ensures f == g
    decreases f
  {
    hide WellFormed, Encode;
    var data := EncodeAll(f);
    if f.Empty? {
      if g.Cons? { EncodeIsLonger(g.head); }
    } else {
      EncodeIsLonger(f.head);
      assert At(data, 0, Encode(f.head)) && At(data, 0, Encode(g.head));
      SameTree(data, 0, f.head, g.head);
      assert EncodeAll(f.tail) == data[|Encode(f.head)|..] == EncodeAll(g.tail);
      EncodeAllIsInjective(f.tail, g.tail);
    }
  }

  // ---------------------------------------------------------- a strict reader

  /** The digits at `i` end within ten and spell a 64-bit number. */
  predicate Fits(data: Bytes, i: nat)
  {
    ReadDigits(data, i, 0).Read? && ReadDigits(data, i, 0).value < TWO_64
  }

  /** `HopOver`, with a varint or a length that must fit. */
  function StrictHop(data: Slice, i: nat, wireType: nat): (h: Hop)
    requires i <= |data|
    ensures h.To? ==> h == HopOver(data, i, wireType)
  {
    if (wireType == 0 || wireType == 2) && !Fits(data, i) then NoHop(IntOverflow) else HopOver(data, i, wireType)
  }

  /** The skip loop with a stack of open group numbers in place of the depth counter, and
      nothing dropped from a varint. */
  function StrictEnd(data: Slice, i: nat, open: seq<nat>): (r: Option<nat>)
    ensures r.Some? ==> i < r.value < TWO_63
    decreases |data| - i
  {
    if i >= |data| || !Fits(data, i) then None else
    var Read(wire, start) := ReadDigits(data, i, 0);
    var num, wireType := KeyNumber(wire), wire % 8;
    if wireType == 4 then
      if open == [] || open[0] != num then None
      else if |open| == 1 then Some(start)
      else StrictEnd(data, start, open[1..])
    else if !IsNumber(num) then None
    else if wireType == 3 then StrictEnd(data, start, [num] + open)
    else
      match StrictHop(data, start, wireType)
      case NoHop(_) => None
      case To(next) => if next < 0 then None else if open == [] then Some(next) else StrictEnd(data, next, open)
  }

  /** What the strict reader yields on a tree, standard or not. */
  ghost predicate Judges(data: Slice, i: nat, open: seq<nat>, standard: bool, end: nat)
  {
    StrictEnd(data, i, open)
    == if !standard then None else if open == [] then Some(end) else StrictEnd(data, end, open)
  }

  lemma FitsExactly(data: Bytes, i: nat, bs: Bytes)
    requires At(data, i, bs) && IsVarint(bs)
    ensures ReadDigits(data, i, 0) == Read(DigitSum(bs), i + |bs|)
    ensures Fits(data, i) <==> IsStandardVarint(bs)
  {
    hide ReadDigits, DigitSum;
    ReadsDigitsThere(data, i, bs, 0);
  }

  lemma WordKeepsLowBits(x: nat)
    ensures x % TWO_64 % 8 == x % 8
  {
    var q, w := x / TWO_64, x % TWO_64;
    RemainderUnique(x, 8, q * 0x2000_0000_0000_0000 + w / 8, w % 8);
  }

  /** A key, read strictly: its wire type is the one the code sees. */
  lemma KeyFits(data: Bytes, i: nat, key: Bytes, wireType: nat)
    requires At(data, i, key) && IsKey(key, wireType)
    ensures i < |data| && ReadDigits(data, i, 0) == Read(DigitSum(key), i + |key|)
    ensures Fits(data, i) <==> IsStandardVarint(key)
    ensures DigitSum(key) % 8 == wireType
  {
    hide ReadDigits, DigitSum, Fits;
    FitsExactly(data, i, key);
    WordKeepsLowBits(DigitSum(key));
  }

  lemma StrictlyHops(data: Slice, i: nat, t: Tree)
    requires WellFormed(t) && !t.Group? && At(data, i, Body(t))
    ensures StrictHop(data, i, TypeOf(t)).To? <==> StandardBody(t)
    ensures HopOver(data, i, TypeOf(t)) == To(i + |Body(t)|)
  {
    hide HopOver, Fits, IsStandardVarint, ReadDigits, DigitSum;
    HopsOverBody(data, i, t);
    match t
    case VarintField(_, val) => FitsExactly(data, i, val);
    case Delimited(_, len, payload) =>
      AtSplit(data, i, len, payload);
      FitsExactly(data, i, len);
    case _ =>
  }

  lemma StrictLeafRound(data: Slice, i: nat, wire: nat, wireType: nat, start: nat, open: seq<nat>)
    requires i < |data| && ReadDigits(data, i, 0) == Read(wire, start)
    requires wire % 8 == wireType && wireType != 3 && wireType != 4
    requires HopOver(data, start, wireType).To? && HopOver(data, start, wireType).index >= 0
    ensures Judges(data, i, open, Fits(data, i) && IsNumber(KeyNumber(wire)) && StrictHop(data, start, wireType).To?,
                   HopOver(data, start, wireType).index)
  {
    hide HopOver, StrictHop, Fits, ReadDigits, KeyNumber, IsNumber;
  }

  lemma StrictLeaf(data: Slice, i: nat, t: Tree, open: seq<nat>)
    requires WellFormed(t) && At(data, i, Encode(t)) && !t.Group?
    ensures Judges(data, i, open, IsStandard(t), i + |Encode(t)|)
  {
    hide HopOver, StrictHop, Fits, ReadDigits, ReadVarint, KeyNumber, IsNumber, IsStandardVarint, Judges, DigitSum;
    var start := i + |t.key|;
    TreeParts(data, i, t);
    KeyFits(data, i, t.key, TypeOf(t));
    StrictlyHops(data, start, t);
    assert i + |Encode(t)| == start + |Body(t)|;
    StrictLeafRound(data, i, DigitSum(t.key), TypeOf(t), start, open);
  }

  lemma StrictStart(data: Slice, i: nat, key: Bytes, open: seq<nat>)
    requires At(data, i, key) && IsKey(key, 3)
    ensures StrictEnd(data, i, open)
         == if !IsStandardKey(key) then None else StrictEnd(data, i + |key|, [KeyNumber(DigitSum(key))] + open)
  {
    hide HopOver, StrictHop, Fits, ReadDigits, KeyNumber, IsNumber, IsStandardVarint, DigitSum, At, IsKey;
    KeyFits(data, i, key, 3);
  }

  lemma StrictStop(data: Slice, i: nat, key: Bytes, num: nat, open: seq<nat>)
    requires At(data, i, key) && IsKey(key, 4)
    ensures StrictEnd(data, i, [num] + open)
         == if !IsStandardVarint(key) || KeyNumber(DigitSum(key)) != num then None
            else if open == [] then Some(i + |key|) else StrictEnd(data, i + |key|, open)
  {
    hide HopOver, StrictHop, Fits, ReadDigits, KeyNumber, IsNumber, IsStandardVarint, DigitSum, At, IsKey;
    KeyFits(data, i, key, 4);
    assert ([num] + open)[1..] == open;
  }

  lemma {:induction false} StrictTree(data: Slice, i: nat, t: Tree, open: seq<nat>)
    requires WellFormed(t) && At(data, i, Encode(t))
    ensures Judges(data, i, open, IsStandard(t), i + |Encode(t)|)
    decreases t
  {
    hide StrictEnd, IsKey, WellFormed, WellFormedAll, EncodeAll, At, KeyNumber, IsStandardKey, IsStandardVarint;
    if t.Group? {
      var num := KeyNumber(DigitSum(t.key));
      var start := i + |t.key|;
      var last := start + |EncodeAll(t.body)|;
      GroupParts(data, i, t);
      StrictStart(data, i, t.key, open);
      StrictForest(data, start, t.body, [num] + open);
      StrictStop(data, last, t.end, num, open);
      assert last + |t.end| == i + |Encode(t)|;
    } else {
      StrictLeaf(data, i, t, open);
    }
  }

  lemma {:induction false} StrictForest(data: Slice, i: nat, f: Forest, open: seq<nat>)
    requires WellFormedAll(f) && At(data, i, EncodeAll(f)) && open != []
    ensures Judges(data, i, open, AllStandard(f), i + |EncodeAll(f)|)
    decreases f
  {
    hide StrictEnd, WellFormed, Encode, At, IsStandard;
    if f.Cons? {
      AtSplit(data, i, Encode(f.head), EncodeAll(f.tail));
      StrictTree(data, i, f.head, open);
      StrictForest(data, i + |Encode(f.head)|, f.tail, open);
    }
  }

  /** The strict reader never goes where the skip loop does not. */
  lemma {:induction false} StrictIsSkip(data: Slice, i: nat, open: seq<nat>)
    requires StrictEnd(data, i, open).Some?
    ensures SkipFrom(data, i, |open|) == Skipped(StrictEnd(data, i, open).value)
    decreases |data| - i
  {
    hide HopOver, KeyNumber, IsNumber, ReadDigits;
    var Read(wire, start) := ReadDigits(data, i, 0);
    var wireType := wire % 8;
    assert ReadVarint(data, i) == Read(wire, start);
    if wireType == 4 {
      if |open| > 1 { StrictIsSkip(data, start, open[1..]); }
    } else if wireType == 3 {
      StrictIsSkip(data, start, [KeyNumber(wire)] + open);
    } else if open != [] {
      StrictIsSkip(data, HopOver(data, start, wireType).index, open);
    }
  }

  /** Of the fields the skip loop passes, the standard ones are exactly those the strict
      reader passes too. */
  lemma SkippedIsStandardExactly(data: Slice, n: nat)
    requires n <= |data| && SkipFrom(data, 0, 0) == Skipped(n)
    ensures (exists t: Tree :: WellFormed(t) && IsStandard(t) && Encode(t) == data[..n])
       <==> StrictEnd(data, 0, []) == Some(n)
    ensures StrictEnd(data, 0, []) in {None, Some(n)}
  {
    hide SkipFrom, StrictEnd, WellFormed, Encode, IsStandard;
    var t, _ := SkippedIsTree(data, 0, 0, n);
    assert At(data, 0, Encode(t)) by { assert data[0..n] == data[..n]; }
    StrictTree(data, 0, t, []);
    forall u: Tree | WellFormed(u) && Encode(u) == data[..n]
      ensures u == t
    {
      EncodeIsPrefixFree(u, t, []);
    }
  }

  // ------------------------------------------------------------ whole messages

  /** A buffer read strictly, one field after the other. */
  predicate StrictAll(data: Slice, i: nat)
    requires i <= |data|
    decreases |data| - i
  {
    i == |data| ||
    match StrictEnd(data, i, [])
    case None => false
    case Some(n) => n <= |data| && StrictAll(data, n)
  }

  lemma {:induction false} StrictOnForest(data: Slice, i: nat, f: Forest)
    requires i <= |data| && WellFormedAll(f) && data[i..] == EncodeAll(f)
    ensures StrictAll(data, i) <==> AllStandard(f)
    decreases f
  {
    hide StrictEnd, WellFormed, Encode, IsStandard;
    if f.Cons? {
      var n := |Encode(f.head)|;
      EncodeIsLonger(f.head);
      assert data[i..i + n] == data[i..][..n] == Encode(f.head);
      assert data[i + n..] == data[i..][n..] == EncodeAll(f.tail);
      StrictTree(data, i, f.head, []);
      StrictOnForest(data, i + n, f.tail);
    }
  }

  /** Of the buffers a decoder's loop consumes, the ones made of standard fields are exactly
      those the strict reader consumes. */
  lemma AcceptedIsStandardExactly(shape: Shape, data: Slice)
    requires Scan(shape, data, 0).error == None
    ensures (exists f: Forest :: WellFormedAll(f) && AllStandard(f) && EncodeAll(f) == data) <==> StrictAll(data, 0)
  {
    hide Scan, StrictAll, WellFormedAll, LegalAll, EncodeAll, AllStandard;
    assert data[0..] == data;
    var f := ForestOfScan(shape, data, 0);
    StrictOnForest(data, 0, f);
    forall g: Forest | WellFormedAll(g) && EncodeAll(g) == data
      ensures g == f
    {
      EncodeAllIsInjective(g, f);
    }
  }

  /** The known fields carry the wire type the message expects of their number. */
  predicate Typed(shape: Shape, f: Forest)
  {
    f.Cons? ==>
      var num := KeyNumber(DigitSum(f.head.key));
      && (num in shape.payloads ==> f.head.Delimited?)
      && (num in shape.scalars && num !in shape.payloads ==> f.head.VarintField?)
      && Typed(shape, f.tail)
  }

  lemma NumberFits(key: Bytes)
    requires IsStandardKey(key)
    ensures FieldNumber(WordOf(key)) == KeyNumber(DigitSum(key)) > 0
  {
    hide Shr, DigitSum, IsVarint;
  }

  /** The code sees the number each key spells. */
  predicate SeenAsSpelled(f: Forest)
  {
    f.Cons? ==> NumberOf(f.head) == KeyNumber(DigitSum(f.head.key)) && SeenAsSpelled(f.tail)
  }

  lemma {:induction false} StandardIsLegal(shape: Shape, f: Forest)
    requires AllStandard(f) && Typed(shape, f)
    ensures LegalAll(shape, f) && SeenAsSpelled(f)
    decreases f
  {
    hide FieldNumber, KeyNumber, IsStandardKey, WordOf, DigitSum;
    if f.Cons? {
      NumberFits(f.head.key);
      StandardIsLegal(shape, f.tail);
    }
  }

  /** Nothing standard is turned away: every buffer of standard fields, in the expected wire
      types, is consumed. */
  lemma StandardIsAccepted(shape: Shape, data: Slice, f: Forest)
    requires WellFormedAll(f) && AllStandard(f) && Typed(shape, f) && EncodeAll(f) == data
    ensures LegalAll(shape, f) && Scan(shape, data, 0) == Scanned(KnownAll(shape, f), None)
    ensures SeenAsSpelled(f)
  {
    hide Scan, WellFormedAll, LegalAll, EncodeAll, KnownAll, AllStandard, Typed, SeenAsSpelled;
    assert data[0..] == data;
    StandardIsLegal(shape, f);
    ScanOfForest(shape, data, 0, f);
  }

  // ------------------------------------------------- accepted, but not standard

  lemma NotStandard(data: Slice, u: Tree)
    requires WellFormed(u) && !IsStandard(u) && Encode(u) == data
    ensures !StrictAll(data, 0)
    ensures !exists f: Forest :: WellFormedAll(f) && AllStandard(f) && EncodeAll(f) == data
  {
    hide WellFormed, Encode, IsStandard, StrictAll;
    var g := Cons(u, Empty);
    assert EncodeAll(g) == Encode(u) + EncodeAll(Empty) == data == data[0..];
    StrictOnForest(data, 0, g);
    forall f: Forest | WellFormedAll(f) && EncodeAll(f) == data
      ensures f == g
    {
      EncodeAllIsInjective(f, g);
    }
  }

  /** A group 3 closed as a group 4: malformed in the standard, ignored by the code. */
  lemma MismatchedGroupIsAccepted(m: GenesisState)
    ensures DecodeState(m, [0x1b, 0x24]) == Ok(m)
    ensures !StrictAll([0x1b, 0x24], 0)
    ensures !exists f: Forest :: WellFormedAll(f) && AllStandard(f) && EncodeAll(f) == [0x1b, 0x24]
  {
    hide DigitSum, Scan, StrictAll;
    TagIsKey(0x1b);
    TagIsKey(0x24);
    var u := Group([0x1b], Empty, [0x24]);
    assert Encode(u) == [0x1b, 0x24];
    assert NumberOf(u) == 3;
    UnknownTreeScan(STATE_SHAPE, u);
    NotStandard([0x1b, 0x24], u);
  }

  /** `n` zero digits and a last one. */
  function Zeros(n: nat, last: byte): Bytes
  {
    if n == 0 then [last] else [0x80] + Zeros(n - 1, last)
  }

  lemma {:induction false} ZerosSpell(n: nat, last: byte)
    requires last < 0x80
    ensures |Zeros(n, last)| == n + 1 && Terminated(Zeros(n, last)) && DigitSum(Zeros(n, last)) == last * Pow2(7 * n)
  {
    hide DigitSum, Terminated;
    if n == 0 {
      TerminatedOne(last);
    } else {
      ZerosSpell(n - 1, last);
      TerminatedCons(0x80, Zeros(n - 1, last));
      Pow2Of64();
      Pow2Adds(7, 7 * (n - 1));
    }
  }

  lemma PaddedSpells(first: byte, n: nat, last: byte)
    requires first >= 0x80 && last < 0x80 && n <= 8
    ensures IsVarint([first] + Zeros(n, last))
    ensures DigitSum([first] + Zeros(n, last)) == first - 0x80 + last * Pow2(7 * n + 7)
  {
    hide DigitSum, Terminated, Zeros, Pow2;
    ZerosSpell(n, last);
    TerminatedCons(first, Zeros(n, last));
    Pow2Of64();
    Pow2Adds(7, 7 * n);
  }

  /** The key of field number 2^32 + 1, a length-delimited one. */
  const OVERSIZED_KEY: Bytes := [0x8a, 0x80, 0x80, 0x80, 0x80, 0x01]

  /** A varint that spells 2^64 + `v`. */
  function Wrapped(v: nat): Bytes
    requires v < 0x80
  {
    [v + 0x80, 0x80, 0x80, 0x80, 0x80, 0x80, 0x80, 0x80, 0x80, 0x02]
  }

  lemma OversizedKey()
    ensures IsKey(OVERSIZED_KEY, 2) && KeyNumber(DigitSum(OVERSIZED_KEY)) == 0x1_0000_0001
    ensures FieldNumber(WordOf(OVERSIZED_KEY)) == 1
  {
    hide DigitSum;
    PaddedSpells(0x8a, 4, 0x01);
    Pow2Of16();
    Pow2Adds(16, 16);
    Pow2Adds(3, 32);
    assert Pow2(3) == 8;
    assert OVERSIZED_KEY == [0x8a] + Zeros(4, 0x01);
    assert DigitSum(OVERSIZED_KEY) == 0x8_0000_000a;
  }

  lemma WrappedSpells(v: nat)
    requires v < 0x80
    ensures IsVarint(Wrapped(v)) && DigitSum(Wrapped(v)) == TWO_64 + v && WordOf(Wrapped(v)) == v
    ensures !IsStandardVarint(Wrapped(v))
  {
    hide DigitSum;
    PaddedSpells(v + 0x80, 8, 0x02);
    Pow2Of64();
    assert Wrapped(v) == [v + 0x80] + Zeros(8, 0x02);
  }

  lemma AdminUnderKey(m: DenomAuthorityMetadata, key: Bytes, admin: byte)
    requires IsKey(key, 2) && FieldNumber(WordOf(key)) == 1 && |key| <= 10
    requires !IsStandardKey(key)
    ensures DecodeAuthority(m, key + [0x01, admin]) == Ok(DenomAuthorityMetadata([admin]))
    ensures !exists f: Forest :: WellFormedAll(f) && AllStandard(f) && EncodeAll(f) == key + [0x01, admin]
  {
    hide DigitSum, Scan, StrictAll, IsStandardKey, FieldNumber;
    TagIsKey(0x01);
    var u := Delimited(key, [0x01], [admin]);
    assert Encode(u) == key + [0x01, admin];
    ScanOneTree(AUTHORITY_SHAPE, u);
    FoldOne(TakeAuthority, m, Payload(1, [admin]));
    NotStandard(Encode(u), u);
  }

  /** A field whose number is 2^32 + 1 is taken for field 1, here for an admin. */
  lemma OversizedNumberIsTaken(m: DenomAuthorityMetadata, admin: byte)
    ensures DecodeAuthority(m, OVERSIZED_KEY + [0x01, admin]) == Ok(DenomAuthorityMetadata([admin]))
    ensures !exists f: Forest :: WellFormedAll(f) && AllStandard(f) && EncodeAll(f) == OVERSIZED_KEY + [0x01, admin]
  {
    hide DecodeAuthority, DigitSum, WellFormedAll, AllStandard, EncodeAll;
    OversizedKey();
    AdminUnderKey(m, OVERSIZED_KEY, admin);
  }

  /** So is a field whose key spells 2^64 + 10, the number 2^61 + 1. */
  lemma WrappedKeyIsTaken(m: DenomAuthorityMetadata, admin: byte)
    ensures KeyNumber(DigitSum(Wrapped(10))) == 0x2000_0000_0000_0001
    ensures DecodeAuthority(m, Wrapped(10) + [0x01, admin]) == Ok(DenomAuthorityMetadata([admin]))
    ensures !exists f: Forest :: WellFormedAll(f) && AllStandard(f) && EncodeAll(f) == Wrapped(10) + [0x01, admin]
  {
    hide DecodeAuthority, DigitSum, WellFormedAll, AllStandard, EncodeAll;
    WrappedSpells(10);
    TagNumbers();
    AdminUnderKey(m, Wrapped(10), admin);
  }

  /** A gas value that spells 2^64 + `v` is taken for `v`. */
  lemma WrappedValueIsTaken(m: Params, v: nat)
    requires v < 0x80
    ensures DecodeParams(m, [0x10] + Wrapped(v)) == Ok(m.(denomCreationGasConsume := v))
    ensures !exists f: Forest :: WellFormedAll(f) && AllStandard(f) && EncodeAll(f) == [0x10] + Wrapped(v)
  {
    hide DigitSum, Scan, StrictAll, FieldNumber, Wrapped;
    WrappedSpells(v);
    TagIsKey(0x10);
    TagNumbers();
    var u := VarintField([0x10], Wrapped(v));
    ScanOneTree(PARAMS_SHAPE, u);
    FoldOne(TakeParams, m, Scalar(2, v));
    NotStandard(Encode(u), u);
  }

  // ------------------------------------------------- standard at every level

  /** `Form`, of standard fields only. */
  ghost predicate StandardForm(shape: Shape, data: Slice, good: Field -> bool)
  {
    exists f: Forest ::
      WellFormedAll(f) && LegalAll(shape, f) && AllStandard(f) && EncodeAll(f) == data
      && AllGood(KnownAll(shape, f), good)
  }

  ghost predicate StandardAuthority(data: Slice)
  {
    StandardForm(AUTHORITY_SHAPE, data, _ => true)
  }

  ghost predicate StandardParams(data: Slice)
  {
    StandardForm(PARAMS_SHAPE, data, _ => true)
  }

  ghost predicate StandardInDenom(x: Field)
  {
    x.Payload? && x.num != 1 ==> StandardAuthority(x.bytes)
  }

  ghost predicate StandardDenom(data: Slice)
  {
    StandardForm(DENOM_SHAPE, data, StandardInDenom)
  }

  ghost predicate StandardInState(x: Field)
  {
    x.Payload? ==> if x.num == 1 then StandardParams(x.bytes) else StandardDenom(x.bytes)
  }

  /** A genesis state whose fields are standard, down to the authority records. */
  ghost predicate StandardState(data: Slice)
  {
    StandardForm(STATE_SHAPE, data, StandardInState)
  }

  predicate StrictDenom(data: Slice)
  {
    && StrictAll(data, 0)
    && forall x :: x in Scan(DENOM_SHAPE, data, 0).fields && x.Payload? && x.num != 1 ==> StrictAll(x.bytes, 0)
  }

  /** The strict reader passes the buffer and every sub-message in it. */
  predicate StrictState(data: Slice)
  {
    && StrictAll(data, 0)
    && forall x :: x in Scan(STATE_SHAPE, data, 0).fields && x.Payload? ==>
         if x.num == 1 then StrictAll(x.bytes, 0) else StrictDenom(x.bytes)
  }

  lemma StandardFormExactly(shape: Shape, data: Slice, good: Field -> bool)
    requires Scan(shape, data, 0).error == None
    ensures StandardForm(shape, data, good) <==> StrictAll(data, 0) && AllGood(Scan(shape, data, 0).fields, good)
  {
    hide Scan, StrictAll, WellFormedAll, LegalAll, EncodeAll, KnownAll, AllStandard, AllGood;
    assert data[0..] == data;
    var f := ForestOfScan(shape, data, 0);
    ScanOfForest(shape, data, 0, f);
    StrictOnForest(data, 0, f);
    forall g: Forest | WellFormedAll(g) && EncodeAll(g) == data
      ensures g == f
    {
      EncodeAllIsInjective(g, f);
    }
  }

  lemma FlatExactly(shape: Shape, data: Slice)
    requires Form(shape, data, _ => true)
    ensures StandardForm(shape, data, _ => true) <==> StrictAll(data, 0)
  {
    hide Form, Scan, StrictAll, StandardForm;
    FormOfScan(shape, data, _ => true);
    StandardFormExactly(shape, data, _ => true);
  }

  lemma DenomIsStandardExactly(data: Slice)
    requires DenomForm(data)
    ensures StandardDenom(data) <==> StrictDenom(data)
  {
    hide Form, Scan, StrictAll, StandardForm;
    FormOfScan(DENOM_SHAPE, data, GoodInDenom);
    StandardFormExactly(DENOM_SHAPE, data, StandardInDenom);
    forall x | x in Scan(DENOM_SHAPE, data, 0).fields && x.Payload? && x.num != 1
      ensures StandardAuthority(x.bytes) <==> StrictAll(x.bytes, 0)
    {
      FlatExactly(AUTHORITY_SHAPE, x.bytes);
    }
  }

  /** Of the genesis states that are decoded, those that are standard at every level are
      exactly those the strict reader passes at every level. */
  lemma DecodedIsStandardExactly(m: GenesisState, data: Slice)
    requires DecodeState(m, data).Ok?
    ensures StandardState(data) <==> StrictState(data)
  {
    hide DecodeState, Form, Scan, StrictAll, StandardForm, StandardDenom, DenomForm, StrictDenom;
    AcceptedExactly(m, data);
    FormOfScan(STATE_SHAPE, data, GoodInState);
    StandardFormExactly(STATE_SHAPE, data, StandardInState);
    forall x | x in Scan(STATE_SHAPE, data, 0).fields && x.Payload?
      ensures x.num == 1 ==> (StandardParams(x.bytes) <==> StrictAll(x.bytes, 0))
      ensures x.num != 1 ==> (StandardDenom(x.bytes) <==> StrictDenom(x.bytes))
    {
      assert GoodInState(x);
      if x.num == 1 {
        FlatExactly(PARAMS_SHAPE, x.bytes);
      } else {
        DenomIsStandardExactly(x.bytes);
      }
    }
  }
}
