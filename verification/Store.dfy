/** The byte store represents the plain maps: records under their denom, index entries under
    their creator, and nothing else. */
module Store {
  import opened Bits
  import opened Messages
  import opened Chain
  import opened Keys
  import opened Genesis

  type Store = map<Bytes, Bytes>

  function RecordOf(admin: Bytes): Bytes
  {
    EncodeAuthority(DenomAuthorityMetadata(admin))
  }

  /** A missing key reads as no bytes. */
  function Get(s: Store, k: Bytes): Bytes
  {
    if k in s then s[k] else []
  }

  ghost predicate IsRecordKey(admins: map<Denom, Bytes>, k: Bytes)
  {
    exists d :: d in admins && k == AuthorityKey(d)
  }

  ghost predicate IsIndexKey(index: set<(Bytes, Denom)>, k: Bytes)
  {
    exists creator, d :: (creator, d) in index && k == CreatorKey(creator, d)
  }

  ghost predicate Represents(s: Store, admins: map<Denom, Bytes>, index: set<(Bytes, Denom)>)
  {
    && (forall d :: d in admins ==> AuthorityKey(d) in s && s[AuthorityKey(d)] == RecordOf(admins[d]))
    && (forall creator, d :: (creator, d) in index ==> CreatorKey(creator, d) in s && s[CreatorKey(creator, d)] == d)
    && (forall k :: k in s ==> IsRecordKey(admins, k) || IsIndexKey(index, k))
  }

  ghost predicate NoBars(index: set<(Bytes, Denom)>)
  {
    forall creator, d :: (creator, d) in index ==> BAR !in creator && BAR !in d
  }

  lemma StoreRecord(s: Store, admins: map<Denom, Bytes>, index: set<(Bytes, Denom)>, d: Denom, admin: Bytes)
    requires Represents(s, admins, index)
    ensures Represents(s[AuthorityKey(d) := RecordOf(admin)], admins[d := admin], index)
  {
    hide AuthorityKey, CreatorKey, RecordOf;
    var s', admins' := s[AuthorityKey(d) := RecordOf(admin)], admins[d := admin];
    forall e | e in admins' ensures AuthorityKey(e) in s' && s'[AuthorityKey(e)] == RecordOf(admins'[e]) {
      if e != d && AuthorityKey(e) == AuthorityKey(d) { AuthorityKeyInjective(e, d); }
    }
    forall creator, e | (creator, e) in index ensures CreatorKey(creator, e) in s' && s'[CreatorKey(creator, e)] == e {
      KindsDoNotCollide(d, creator, e);
    }
    forall k | k in s' ensures IsRecordKey(admins', k) || IsIndexKey(index, k) {
      if k == AuthorityKey(d) {
        assert d in admins';
      } else if IsRecordKey(admins, k) {
        var e :| e in admins && k == AuthorityKey(e);
        assert e in admins';
      }
    }
  }

  lemma StoreEntry(s: Store, admins: map<Denom, Bytes>, index: set<(Bytes, Denom)>, creator: Bytes, d: Denom)
    requires Represents(s, admins, index) && NoBars(index) && BAR !in creator && BAR !in d
    ensures Represents(s[CreatorKey(creator, d) := d], admins, index + {(creator, d)}) && NoBars(index + {(creator, d)})
  {
    hide AuthorityKey, CreatorKey, RecordOf;
    var key := CreatorKey(creator, d);
    var s', index' := s[key := d], index + {(creator, d)};
    forall e | e in admins ensures AuthorityKey(e) in s' && s'[AuthorityKey(e)] == RecordOf(admins[e]) {
      KindsDoNotCollide(e, creator, d);
    }
    forall other, e | (other, e) in index' ensures CreatorKey(other, e) in s' && s'[CreatorKey(other, e)] == e {
      if CreatorKey(other, e) == key { CreatorKeyInjective(other, e, creator, d); }
    }
    forall k | k in s' ensures IsRecordKey(admins, k) || IsIndexKey(index', k) {
      if k == key {
        assert (creator, d) in index';
      } else if IsIndexKey(index, k) {
        var other, e :| (other, e) in index && k == CreatorKey(other, e);
        assert (other, e) in index';
      }
    }
  }

  /** Whatever denom is asked for, its record's bytes are those of its admin, and a missing
      record reads like that of the empty admin. */
  lemma ReadRecord(s: Store, admins: map<Denom, Bytes>, index: set<(Bytes, Denom)>, d: Denom)
    requires Represents(s, admins, index)
    ensures AuthorityKey(d) in s <==> d in admins
    ensures Get(s, AuthorityKey(d)) == RecordOf(if d in admins then admins[d] else [])
  {
    hide AuthorityKey, CreatorKey;
    var k := AuthorityKey(d);
    if k in s {
      if IsRecordKey(admins, k) {
        var e :| e in admins && k == AuthorityKey(e);
        AuthorityKeyInjective(d, e);
      } else {
        var creator, e :| (creator, e) in index && k == CreatorKey(creator, e);
        KindsDoNotCollide(d, creator, e);
      }
    }
  }

  lemma SameKeys(s: Store, s': Store, admins: map<Denom, Bytes>, index: set<(Bytes, Denom)>)
    requires Represents(s, admins, index) && Represents(s', admins, index)
    ensures forall k :: k in s ==> k in s' && s'[k] == s[k]
  {
    hide AuthorityKey, CreatorKey, RecordOf;
    forall k | k in s ensures k in s' && s'[k] == s[k] {
      if IsRecordKey(admins, k) {
        var d :| d in admins && k == AuthorityKey(d);
      } else {
        var creator, d :| (creator, d) in index && k == CreatorKey(creator, d);
      }
    }
  }

  /** The plain maps determine the store. */
  lemma StoreIsDetermined(s: Store, s': Store, admins: map<Denom, Bytes>, index: set<(Bytes, Denom)>)
    requires Represents(s, admins, index) && Represents(s', admins, index)
    ensures s == s'
  {
    hide AuthorityKey, CreatorKey, RecordOf;
    SameKeys(s, s', admins, index);
    SameKeys(s', s, admins, index);
  }

  lemma RecordsDiffer(a: Bytes, b: Bytes)
    requires |RecordOf(a)| < TWO_63 && RecordOf(a) == RecordOf(b)
    ensures a == b
  {
    hide LenField, DecodeAuthority;
    AuthorityRoundTrip(DenomAuthorityMetadata(a), EMPTY_AUTHORITY);
    AuthorityRoundTrip(DenomAuthorityMetadata(b), EMPTY_AUTHORITY);
  }

  lemma EntriesIncluded(s: Store, admins: map<Denom, Bytes>, index: set<(Bytes, Denom)>,
                        admins': map<Denom, Bytes>, index': set<(Bytes, Denom)>)
    requires Represents(s, admins, index) && Represents(s, admins', index') && NoBars(index) && NoBars(index')
    ensures index <= index'
  {
    hide AuthorityKey, CreatorKey, RecordOf;
    forall p | p in index ensures p in index' {
      assert (p.0, p.1) in index;
      var k := CreatorKey(p.0, p.1);
      if IsRecordKey(admins', k) {
        var d :| d in admins' && k == AuthorityKey(d);
        KindsDoNotCollide(d, p.0, p.1);
      } else {
        var creator, d :| (creator, d) in index' && k == CreatorKey(creator, d);
        CreatorKeyInjective(p.0, p.1, creator, d);
      }
    }
  }

  /** And the store determines the plain maps. */
  lemma MapsAreDetermined(s: Store, admins: map<Denom, Bytes>, index: set<(Bytes, Denom)>,
                          admins': map<Denom, Bytes>, index': set<(Bytes, Denom)>)
    requires Represents(s, admins, index) && Represents(s, admins', index')
    requires NoBars(index) && NoBars(index')
    requires forall d :: d in admins ==> |RecordOf(admins[d])| < TWO_63
    requires forall d :: d in admins' ==> |RecordOf(admins'[d])| < TWO_63
    ensures admins == admins' && index == index'
  {
    hide AuthorityKey, CreatorKey, RecordOf;
    forall d ensures d in admins <==> d in admins' {
      ReadRecord(s, admins, index, d);
      ReadRecord(s, admins', index', d);
    }
    forall d | d in admins ensures admins[d] == admins'[d] {
      RecordsDiffer(admins[d], admins'[d]);
    }
    EntriesIncluded(s, admins, index, admins', index');
    EntriesIncluded(s, admins', index', admins, index);
  }

  // ------------------------------------------------------------- prefix iteration

  /** The keys of a prefix store: those under the prefix, without it. */
  function SubKeys(s: Store, p: Bytes): set<Bytes>
  {
    set k | k in s && p <= k :: k[|p|..]
  }

  lemma CreatorKeyTail(creator: Bytes, d: Denom)
    ensures CreatorKey(creator, d)[|GetCreatorPrefix(creator)|..] == d
    ensures |GetCreatorsPrefix()| <= |CreatorKey(creator, d)| && GetCreatorsPrefix() <= CreatorKey(creator, d)
    ensures CreatorKey(creator, d)[|GetCreatorsPrefix()|..] == IndexKey(creator, d)
  {
    CreatorKeyUnderPrefix(creator, d);
  }

  /** Iterating a creator's prefix visits exactly the denoms recorded for that text. */
  lemma KeysUnderCreator(s: Store, admins: map<Denom, Bytes>, index: set<(Bytes, Denom)>, query: Bytes)
    requires Represents(s, admins, index) && NoBars(index)
    ensures SubKeys(s, GetCreatorPrefix(query)) == set p | p in index && p.0 == query :: p.1
  {
    hide AuthorityKey, CreatorKey, RecordOf, GetCreatorPrefix;
    var p := GetCreatorPrefix(query);
    forall d | d in SubKeys(s, p) ensures (query, d) in index {
      var k :| k in s && p <= k && k[|p|..] == d;
      if IsRecordKey(admins, k) {
        var e :| e in admins && k == AuthorityKey(e);
        KindsDoNotCollide(e, query, []);
      } else {
        var creator, e :| (creator, e) in index && k == CreatorKey(creator, e);
        PrefixIsOwn(query, creator, e);
        CreatorKeyTail(creator, e);
      }
    }
    forall e | e in index && e.0 == query ensures e.1 in SubKeys(s, p) {
      assert (e.0, e.1) in index;
      PrefixIsOwn(query, e.0, e.1);
      CreatorKeyTail(e.0, e.1);
      assert CreatorKey(e.0, e.1) in s;
    }
  }

  /** Iterating all creators visits exactly the index, and the value is the denom. */
  lemma KeysUnderCreators(s: Store, admins: map<Denom, Bytes>, index: set<(Bytes, Denom)>)
    requires Represents(s, admins, index)
    ensures SubKeys(s, GetCreatorsPrefix()) == IndexKeys(index)
    ensures forall k :: k in IndexKeys(index) ==> Get(s, GetCreatorsPrefix() + k) == EntryAt(index, k).1
  {
    hide AuthorityKey, CreatorKey, RecordOf, GetCreatorsPrefix, IndexKey;
    var p := GetCreatorsPrefix();
    forall q | q in SubKeys(s, p) ensures q in IndexKeys(index) {
      var k :| k in s && p <= k && k[|p|..] == q;
      if IsRecordKey(admins, k) {
        var e :| e in admins && k == AuthorityKey(e);
        KindsDoNotCollide(e, [], []);
      } else {
        var creator, e :| (creator, e) in index && k == CreatorKey(creator, e);
        CreatorKeyTail(creator, e);
      }
    }
    forall k | k in IndexKeys(index)
      ensures k in SubKeys(s, p) && Get(s, p + k) == EntryAt(index, k).1
    {
      var e := EntryAt(index, k);
      assert (e.0, e.1) in index;
      CreatorKeyTail(e.0, e.1);
      CreatorKeyUnderPrefix(e.0, e.1);
      assert CreatorKey(e.0, e.1) in s;
    }
  }
}
