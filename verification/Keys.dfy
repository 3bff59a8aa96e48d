/** The layout of the module's store: where an authority record and an index entry live,
    and why no two of them share a key. */
module Keys {
  import opened Bits
  import opened Text
  import opened Chain

  const DENOMS: Bytes := [0x64, 0x65, 0x6e, 0x6f, 0x6d, 0x73]            // "denoms"
  const CREATOR: Bytes := [0x63, 0x72, 0x65, 0x61, 0x74, 0x6f, 0x72]     // "creator"
  const AUTHORITY: Bytes := [0x61, 0x75, 0x74, 0x68, 0x6f, 0x72, 0x69, 0x74, 0x79,
                             0x6d, 0x65, 0x74, 0x61, 0x64, 0x61, 0x74, 0x61]  // "authoritymetadata"

  function GetDenomPrefix(denom: Denom): Bytes
  {
    Join([DENOMS, denom, []], BAR)
  }

  function GetCreatorPrefix(creator: Bytes): Bytes
  {
    Join([CREATOR, creator, []], BAR)
  }

  function GetCreatorsPrefix(): Bytes
  {
    Join([CREATOR, []], BAR)
  }

  function AuthorityKey(denom: Denom): Bytes
  {
    GetDenomPrefix(denom) + AUTHORITY
  }

  function CreatorKey(creator: Bytes, denom: Denom): Bytes
  {
    GetCreatorPrefix(creator) + denom
  }

  /** An index key inside the prefix store of all creators. */
  function IndexKey(creator: Bytes, denom: Denom): Bytes
  {
    creator + ([BAR] + denom)
  }

  lemma Prefixes(x: Bytes)
    ensures GetDenomPrefix(x) == DENOMS + ([BAR] + (x + [BAR]))
    ensures GetCreatorPrefix(x) == CREATOR + ([BAR] + (x + [BAR]))
    ensures GetCreatorsPrefix() == CREATOR + [BAR]
  {
    assert [x, []][1..] == [[]];
    assert Join([x, []], BAR) == x + ([BAR] + []) == x + [BAR];
    assert [DENOMS, x, []][1..] == [x, []] == [CREATOR, x, []][1..];
    assert [CREATOR, []][1..] == [[]];
    assert [BAR] + [] == [BAR];
  }

  /** The bytes of the two kinds of keys: `denoms|{denom}|authoritymetadata` and
      `creator|{creator}|{denom}`. */
  lemma KeyLayout(creator: Bytes, denom: Denom)
    ensures AuthorityKey(denom)
         == [0x64, 0x65, 0x6e, 0x6f, 0x6d, 0x73, 0x7c] + denom
            + [0x7c, 0x61, 0x75, 0x74, 0x68, 0x6f, 0x72, 0x69, 0x74, 0x79,
               0x6d, 0x65, 0x74, 0x61, 0x64, 0x61, 0x74, 0x61]
    ensures GetCreatorsPrefix() == [0x63, 0x72, 0x65, 0x61, 0x74, 0x6f, 0x72, 0x7c]
    ensures GetCreatorPrefix(creator) == GetCreatorsPrefix() + creator + [0x7c]
    ensures CreatorKey(creator, denom) == GetCreatorPrefix(creator) + denom
    ensures IndexKey(creator, denom) == creator + [0x7c] + denom
  {
    Prefixes(creator);
    Prefixes(denom);
  }

  lemma CreatorKeyUnderPrefix(creator: Bytes, denom: Denom)
    ensures CreatorKey(creator, denom) == GetCreatorsPrefix() + IndexKey(creator, denom)
  {
    Prefixes(creator);
  }

  /** An authority record's key determines its denom, whatever bytes the denom has. */
  lemma AuthorityKeyInjective(d: Denom, e: Denom)
    requires AuthorityKey(d) == AuthorityKey(e)
    ensures d == e
  {
    Prefixes(d);
    Prefixes(e);
    var k := AuthorityKey(d);
    assert |d| == |e|;
    assert k[7..7 + |d|] == d && k[7..7 + |d|] == e;
  }

  lemma KindsDoNotCollide(d: Denom, creator: Bytes, e: Denom)
    ensures AuthorityKey(d) != CreatorKey(creator, e)
    ensures !(GetCreatorsPrefix() <= AuthorityKey(d)) && !(GetCreatorPrefix(creator) <= AuthorityKey(d))
  {
    Prefixes(d);
    Prefixes(creator);
    assert AuthorityKey(d)[0] == 0x64;
    assert CreatorKey(creator, e)[0] == 0x63 && GetCreatorsPrefix()[0] == 0x63 && GetCreatorPrefix(creator)[0] == 0x63;
  }

  /** The first bar ends the creator. */
  lemma {:induction false} IndexKeyInjective(creator: Bytes, d: Denom, other: Bytes, e: Denom)
    requires BAR !in creator && BAR !in other && IndexKey(creator, d) == IndexKey(other, e)
    ensures creator == other && d == e
  {
    SplitOfFirst(creator, d, BAR);
    SplitOfFirst(other, e, BAR);
    assert Split(IndexKey(creator, d), BAR)[0] == creator;
    assert Split(IndexKey(other, e), BAR)[0] == other;
    assert IndexKey(creator, d)[|creator| + 1..] == d;
    assert IndexKey(other, e)[|other| + 1..] == e;
  }

  lemma CreatorKeyInjective(creator: Bytes, d: Denom, other: Bytes, e: Denom)
    requires BAR !in creator && BAR !in other && CreatorKey(creator, d) == CreatorKey(other, e)
    ensures creator == other && d == e
  {
    CreatorKeyUnderPrefix(creator, d);
    CreatorKeyUnderPrefix(other, e);
    var p := GetCreatorsPrefix();
    assert (p + IndexKey(creator, d))[|p|..] == IndexKey(creator, d);
    assert (p + IndexKey(other, e))[|p|..] == IndexKey(other, e);
    IndexKeyInjective(creator, d, other, e);
  }

  /** A query text's prefix covers exactly the entries of that creator, also when the text
      contains bars or is extended by another creator's text. */
  lemma PrefixIsOwn(query: Bytes, creator: Bytes, d: Denom)
    requires BAR !in creator && BAR !in d
    ensures GetCreatorPrefix(query) <= CreatorKey(creator, d) <==> query == creator
  {
    var k, p := CreatorKey(creator, d), GetCreatorPrefix(query);
    Prefixes(creator);
    Prefixes(query);
    if query == creator {
      assert k[..|p|] == p;
    }
    if p <= k {
      assert k[8..] == creator + ([BAR] + d);
      assert k[8 + |query|] == p[8 + |query|] == BAR;
      assert forall j :: 8 <= j < 8 + |creator| ==> k[j] == creator[j - 8];
      assert forall j :: 9 + |creator| <= j < |k| ==> k[j] == d[j - 9 - |creator|];
      assert |query| == |creator|;
      assert k[8..8 + |query|] == p[8..8 + |query|] == query;
      assert k[8..8 + |query|] == creator;
    }
  }
}
