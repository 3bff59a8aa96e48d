/** Byte strings: splitting and joining on a separator, and the byte order in which a
    store iterates its keys. */
module Text {
  import opened Bits

  function Split(s: Bytes, sep: byte): (parts: seq<Bytes>)
    ensures |parts| >= 1
  {
    if s == [] then [[]] else
    var rest := Split(s[1..], sep);
    if s[0] == sep then [[]] + rest else [[s[0]] + rest[0]] + rest[1..]
  }

  function Join(parts: seq<Bytes>, sep: byte): Bytes
  {
    if parts == [] then []
    else if |parts| == 1 then parts[0]
    else parts[0] + ([sep] + Join(parts[1..], sep))
  }

  lemma JoinPushed(rest: seq<Bytes>, b: byte, sep: byte)
    requires rest != []
    ensures Join([[]] + rest, sep) == [sep] + Join(rest, sep)
    ensures Join([[b] + rest[0]] + rest[1..], sep) == [b] + Join(rest, sep)
  {
    assert ([[]] + rest)[1..] == rest;
    var parts := [[b] + rest[0]] + rest[1..];
    assert parts[1..] == rest[1..];
    if |rest| > 1 {
      var tail := [sep] + Join(rest[1..], sep);
      assert ([b] + rest[0]) + tail == [b] + (rest[0] + tail);
    }
  }

  lemma {:induction false} JoinOfSplit(s: Bytes, sep: byte)
    ensures Join(Split(s, sep), sep) == s
  {
    if s != [] {
      JoinOfSplit(s[1..], sep);
      JoinPushed(Split(s[1..], sep), s[0], sep);
    }
  }

  /** A separator-free first part is split off whole. */
  lemma {:induction false} SplitOfFirst(part: Bytes, rest: Bytes, sep: byte)
    requires sep !in part
    ensures Split(part + ([sep] + rest), sep) == [part] + Split(rest, sep)
  {
    var s := part + ([sep] + rest);
    if part == [] {
      assert s[1..] == rest;
    } else {
      assert s[1..] == part[1..] + ([sep] + rest);
      SplitOfFirst(part[1..], rest, sep);
      var parts := Split(s[1..], sep);
      assert parts[0] == part[1..] && parts[1..] == Split(rest, sep);
      assert s[0] == part[0] && [part[0]] + part[1..] == part;
    }
  }

  lemma {:induction false} PartsHaveNoSeparator(s: Bytes, sep: byte)
    ensures forall p :: p in Split(s, sep) ==> sep !in p && forall b :: b in p ==> b in s
  {
    if s != [] {
      PartsHaveNoSeparator(s[1..], sep);
      var rest := Split(s[1..], sep);
      assert rest[0] in rest;
      forall p | p in Split(s, sep)
        ensures sep !in p && forall b :: b in p ==> b in s
      {
        if s[0] == sep {
          assert p == [] || p in rest;
        } else {
          assert p == [s[0]] + rest[0] || p in rest[1..];
        }
      }
    }
  }

  // ------------------------------------------------------------------ key order

  predicate Less(a: Bytes, b: Bytes)
  {
    if b == [] then false
    else if a == [] then true
    else if a[0] != b[0] then a[0] < b[0]
    else Less(a[1..], b[1..])
  }

  /** The first `k` bytes agree, and then `a` ends or has the smaller byte. */
  predicate SmallerAt(a: Bytes, b: Bytes, k: nat)
  {
    && k <= |a| && k < |b| && a[..k] == b[..k]
    && (k < |a| ==> a[k] < b[k])
  }

  lemma FirstByteAgrees(a: Bytes, b: Bytes, k: nat)
    requires SmallerAt(a, b, k) && k > 0
    ensures a[0] == b[0]
  {
    assert a[..k][0] == b[..k][0];
  }

  /** The order is the one of Go's `bytes.Compare`: ascending bytes, prefixes first. */
  lemma {:induction false} LessIsByteOrder(a: Bytes, b: Bytes)
    ensures Less(a, b) <==> exists k: nat :: SmallerAt(a, b, k)
  {
    if b == [] {
    } else if a == [] {
      assert SmallerAt(a, b, 0);
    } else if a[0] != b[0] {
      if Less(a, b) { assert SmallerAt(a, b, 0); }
      forall k: nat | SmallerAt(a, b, k) ensures k == 0 {
        if k > 0 { FirstByteAgrees(a, b, k); }
      }
    } else {
      LessIsByteOrder(a[1..], b[1..]);
      if Less(a, b) {
        var k: nat :| SmallerAt(a[1..], b[1..], k);
        assert a[..k + 1] == [a[0]] + a[1..][..k] && b[..k + 1] == [b[0]] + b[1..][..k];
        assert SmallerAt(a, b, k + 1);
      }
      forall k: nat | SmallerAt(a, b, k) ensures Less(a, b) {
        assert k > 0;
        assert a[1..][..k - 1] == a[..k][1..] && b[1..][..k - 1] == b[..k][1..];
        assert SmallerAt(a[1..], b[1..], k - 1);
      }
    }
  }

  lemma {:induction false} LessIrreflexive(a: Bytes)
    ensures !Less(a, a)
  {
    if a != [] { LessIrreflexive(a[1..]); }
  }

  lemma {:induction false} LessTransitive(a: Bytes, b: Bytes, c: Bytes)
    requires Less(a, b) && Less(b, c)
    ensures Less(a, c)
  {
    if a != [] && a[0] == b[0] == c[0] {
      LessTransitive(a[1..], b[1..], c[1..]);
    }
  }

  lemma {:induction false} LessTotal(a: Bytes, b: Bytes)
    ensures a == b || Less(a, b) || Less(b, a)
  {
    if a != [] && b != [] && a[0] == b[0] {
      LessTotal(a[1..], b[1..]);
      assert a == [a[0]] + a[1..] && b == [b[0]] + b[1..];
    }
  }

  /** A common prefix does not matter to the order, so a prefix store iterates in the
      order of the stripped keys. */
  lemma {:induction false} LessUnderPrefix(p: Bytes, a: Bytes, b: Bytes)
    ensures Less(p + a, p + b) <==> Less(a, b)
  {
    if p == [] {
      assert p + a == a && p + b == b;
    } else {
      assert (p + a)[1..] == p[1..] + a && (p + b)[1..] == p[1..] + b;
      LessUnderPrefix(p[1..], a, b);
    }
  }

  ghost predicate Ascending(ks: seq<Bytes>)
  {
    forall i, j :: 0 <= i < j < |ks| ==> Less(ks[i], ks[j])
  }

  /** `ks` lists exactly the members of `s`, each once, in key order. */
  ghost predicate Enumerates(ks: seq<Bytes>, s: set<Bytes>)
  {
    Ascending(ks) && (forall k :: k in ks <==> k in s)
  }

  lemma EmptyTogether(a: seq<Bytes>, s: set<Bytes>)
    requires Enumerates(a, s)
    ensures a == [] <==> s == {}
  {
    if a != [] { assert a[0] in s; }
  }

  lemma FirstIsLeast(a: seq<Bytes>, b: seq<Bytes>, s: set<Bytes>)
    requires Enumerates(a, s) && Enumerates(b, s) && a != [] && b != []
    ensures !Less(b[0], a[0])
  {
    assert b[0] in b;
    assert b[0] in a;
    var j :| 0 <= j < |a| && a[j] == b[0];
    if Less(b[0], a[0]) {
      if j > 0 { LessTransitive(a[0], a[j], a[0]); }
      LessIrreflexive(a[0]);
    }
  }

  lemma RestEnumerates(a: seq<Bytes>, s: set<Bytes>)
    requires Enumerates(a, s) && a != []
    ensures Enumerates(a[1..], s - {a[0]})
  {
    var rest := a[1..];
    forall i, j | 0 <= i < j < |rest|
      ensures Less(rest[i], rest[j])
    {
      assert rest[i] == a[i + 1] && rest[j] == a[j + 1];
    }
    forall k
      ensures k in rest <==> k in s - {a[0]}
    {
      if k in rest {
        var j :| 0 <= j < |rest| && rest[j] == k;
        assert a[j + 1] == k && Less(a[0], a[j + 1]);
        LessIrreflexive(k);
      }
      if k in s - {a[0]} {
        var j :| 0 <= j < |a| && a[j] == k;
        assert rest[j - 1] == k;
      }
    }
  }

  lemma {:induction false} EnumerationIsUnique(a: seq<Bytes>, b: seq<Bytes>, s: set<Bytes>)
    requires Enumerates(a, s) && Enumerates(b, s)
    ensures a == b
  {
    EmptyTogether(a, s);
    EmptyTogether(b, s);
    if a != [] {
      FirstIsLeast(a, b, s);
      FirstIsLeast(b, a, s);
      assert !Less(a[0], b[0]) && !Less(b[0], a[0]);
      LessTotal(a[0], b[0]);
      RestEnumerates(a, s);
      RestEnumerates(b, s);
      EnumerationIsUnique(a[1..], b[1..], s - {a[0]});
      assert a == [a[0]] + a[1..] && b == [b[0]] + b[1..];
    }
  }

  /** Put a key into its place among ascending keys. */
  function Insert(ks: seq<Bytes>, k: Bytes): seq<Bytes>
  {
    if ks == [] then [k]
    else if Less(k, ks[0]) then [k] + ks
    else [ks[0]] + Insert(ks[1..], k)
  }

  lemma {:induction false} InsertEnumerates(ks: seq<Bytes>, s: set<Bytes>, k: Bytes)
    requires Enumerates(ks, s) && k !in s
    ensures Enumerates(Insert(ks, k), s + {k})
  {
    if ks != [] {
      var first := ks[0];
      assert first in ks;
      if Less(k, first) {
        forall j | 0 <= j < |ks| ensures Less(k, ks[j]) {
          if j > 0 { LessTransitive(k, first, ks[j]); }
        }
      } else {
        LessTotal(k, first);
        RestEnumerates(ks, s);
        InsertEnumerates(ks[1..], s - {first}, k);
        var rest := Insert(ks[1..], k);
        forall j | 0 <= j < |rest| ensures Less(first, rest[j]) {
          assert rest[j] in rest;
          if rest[j] != k {
            assert rest[j] in ks;
            var i :| 0 <= i < |ks| && ks[i] == rest[j];
          }
        }
        forall q ensures q in [first] + rest <==> q in s + {k} { }
      }
    }
  }

  /** The members of a set in key order. */
  ghost function InOrder(s: set<Bytes>): (ks: seq<Bytes>)
    ensures Enumerates(ks, s)
  {
    if s == {} then [] else
    var k :| k in s;
    InsertEnumerates(InOrder(s - {k}), s - {k}, k);
    assert s - {k} + {k} == s;
    Insert(InOrder(s - {k}), k)
  }
}
