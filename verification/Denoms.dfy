/** Denoms `factory/{creator}/{subdenom}`: the printer, the parser, and how they invert
    each other. */
module Denoms {
  import opened Bits
  import opened Text
  import opened Chain

  const FACTORY: Bytes := [0x66, 0x61, 0x63, 0x74, 0x6f, 0x72, 0x79]  // "factory"
  const MAX_SUBDENOM_LENGTH := 44
  const MAX_HRP_LENGTH := 16
  const MAX_CREATOR_LENGTH := 59 + MAX_HRP_LENGTH

  datatype Printed = Printed(denom: Denom) | Refused(error: LedgerError)

  datatype Parsed = Parsed(creator: Bytes, subdenom: Bytes) | Rejected(error: LedgerError)

  function JoinDenom(creator: Bytes, subdenom: Bytes): Bytes
  {
    Join([FACTORY, creator, subdenom], SLASH)
  }

  function GetTokenDenom(c: Chain, creator: Bytes, subdenom: Bytes): Printed
  {
    if |subdenom| > MAX_SUBDENOM_LENGTH then Refused(SubdenomTooLong)
    else if |creator| > MAX_CREATOR_LENGTH then Refused(CreatorTooLong)
    else if SLASH in creator then Refused(InvalidCreator)
    else
      var denom := JoinDenom(creator, subdenom);
      if c.denomOk(denom) then Printed(denom) else Refused(BadDenom)
  }

  function DeconstructDenom(c: Chain, denom: Bytes): Parsed
  {
    if !c.denomOk(denom) then Rejected(BadDenom) else
    var parts := Split(denom, SLASH);
    if |parts| < 3 || parts[0] != FACTORY then Rejected(InvalidDenom) else
    match c.parse(parts[1])
    case None => Rejected(InvalidDenom)
    case Some(address) => Parsed(c.format(address), Join(parts[2..], SLASH))
  }

  /** The creator text as it stands in the denom. */
  function Segment(denom: Bytes): Bytes
  {
    var parts := Split(denom, SLASH);
    if |parts| >= 3 then parts[1] else []
  }

  predicate IsFactoryDenom(c: Chain, denom: Bytes)
  {
    DeconstructDenom(c, denom).Parsed?
  }

  // ---------------------------------------------------------------- properties

  lemma JoinThree(creator: Bytes, subdenom: Bytes)
    ensures JoinDenom(creator, subdenom) == FACTORY + ([SLASH] + (creator + ([SLASH] + subdenom)))
    ensures |JoinDenom(creator, subdenom)| == 9 + |creator| + |subdenom|
  {
    var all := [FACTORY, creator, subdenom];
    assert all[1..] == [creator, subdenom];
    assert [creator, subdenom][1..] == [subdenom];
    assert Join([creator, subdenom], SLASH) == creator + ([SLASH] + subdenom);
  }

  /** The bytes of a denom: `factory/{creator}/{subdenom}`. */
  lemma DenomLayout(creator: Bytes, subdenom: Bytes)
    ensures JoinDenom(creator, subdenom)
         == [0x66, 0x61, 0x63, 0x74, 0x6f, 0x72, 0x79, 0x2f] + creator + [0x2f] + subdenom
  {
    JoinThree(creator, subdenom);
  }

  lemma SplitOfJoined(creator: Bytes, subdenom: Bytes)
    requires SLASH !in creator
    ensures Split(JoinDenom(creator, subdenom), SLASH) == [FACTORY, creator] + Split(subdenom, SLASH)
  {
    JoinThree(creator, subdenom);
    SplitOfFirst(FACTORY, creator + ([SLASH] + subdenom), SLASH);
    SplitOfFirst(creator, subdenom, SLASH);
  }

  lemma JoinOfParts(denom: Bytes)
    requires |Split(denom, SLASH)| >= 3 && Split(denom, SLASH)[0] == FACTORY
    ensures denom == JoinDenom(Segment(denom), Join(Split(denom, SLASH)[2..], SLASH))
  {
    var parts := Split(denom, SLASH);
    JoinOfSplit(denom, SLASH);
    assert parts[1..][1..] == parts[2..];
    JoinThree(parts[1], Join(parts[2..], SLASH));
  }

  lemma PartsOfDenom(c: Chain, denom: Bytes)
    requires IsFactoryDenom(c, denom)
    ensures SLASH !in Segment(denom) && c.parse(Segment(denom)).Some?
    ensures DeconstructDenom(c, denom).creator == c.format(c.parse(Segment(denom)).value)
    ensures denom == JoinDenom(Segment(denom), DeconstructDenom(c, denom).subdenom)
    ensures Lawful(c) ==> BAR !in Segment(denom)
  {
    PartsHaveNoSeparator(denom, SLASH);
    assert Segment(denom) in Split(denom, SLASH);
    JoinOfParts(denom);
  }

  /** What the parser makes of any joined parts, within the printer's caps or not. */
  lemma ParsesJoined(c: Chain, creator: Bytes, subdenom: Bytes)
    requires SLASH !in creator
    ensures Segment(JoinDenom(creator, subdenom)) == creator
    ensures DeconstructDenom(c, JoinDenom(creator, subdenom))
         == if !c.denomOk(JoinDenom(creator, subdenom)) then Rejected(BadDenom)
            else if c.parse(creator).None? then Rejected(InvalidDenom)
            else Parsed(c.format(c.parse(creator).value), subdenom)
  {
    SplitOfJoined(creator, subdenom);
    JoinOfSplit(subdenom, SLASH);
    var parts := [FACTORY, creator] + Split(subdenom, SLASH);
    assert parts[2..] == Split(subdenom, SLASH);
  }

  ghost predicate IsJoined(c: Chain, denom: Bytes, creator: Bytes, subdenom: Bytes)
  {
    SLASH !in creator && c.parse(creator).Some? && denom == JoinDenom(creator, subdenom)
  }

  /** The parser accepts exactly the valid denoms of the form `factory/{creator}/{subdenom}`
      with an address text as creator, and tells an invalid denom from one of another form. */
  lemma ParsesExactly(c: Chain, denom: Bytes)
    ensures IsFactoryDenom(c, denom)
       <==> c.denomOk(denom) && exists creator, subdenom :: IsJoined(c, denom, creator, subdenom)
    ensures DeconstructDenom(c, denom) == Rejected(BadDenom) <==> !c.denomOk(denom)
    ensures DeconstructDenom(c, denom).Rejected? && c.denomOk(denom) ==>
              DeconstructDenom(c, denom) == Rejected(InvalidDenom)
  {
    if IsFactoryDenom(c, denom) {
      PartsOfDenom(c, denom);
      assert IsJoined(c, denom, Segment(denom), DeconstructDenom(c, denom).subdenom);
    }
    forall creator, subdenom | IsJoined(c, denom, creator, subdenom) && c.denomOk(denom)
      ensures IsFactoryDenom(c, denom)
    {
      ParsesJoined(c, creator, subdenom);
    }
  }

  /** Whatever the printer accepts with an address text as creator, the parser takes apart
      again: the creator reprinted, the subdenom as it was, slashes and all. */
  lemma PrintThenParse(c: Chain, creator: Bytes, subdenom: Bytes)
    requires GetTokenDenom(c, creator, subdenom).Printed?
    ensures var d := GetTokenDenom(c, creator, subdenom).denom;
            && Segment(d) == creator
            && DeconstructDenom(c, d) == match c.parse(creator)
                                         case None => Rejected(InvalidDenom)
                                         case Some(a) => Parsed(c.format(a), subdenom)
  {
    ParsesJoined(c, creator, subdenom);
  }

  lemma PrinterIsInjective(c: Chain, creator: Bytes, subdenom: Bytes, creator': Bytes, subdenom': Bytes)
    requires GetTokenDenom(c, creator, subdenom).Printed?
    requires GetTokenDenom(c, creator, subdenom) == GetTokenDenom(c, creator', subdenom')
    ensures creator == creator' && subdenom == subdenom'
  {
    SplitOfJoined(creator, subdenom);
    SplitOfJoined(creator', subdenom');
    var parts := Split(JoinDenom(creator, subdenom), SLASH);
    assert parts[2..] == Split(subdenom, SLASH) == Split(subdenom', SLASH);
    JoinOfSplit(subdenom, SLASH);
    JoinOfSplit(subdenom', SLASH);
  }

  /** The two caps together are the 128 bytes a denom may have, and are tight. */
  lemma CapsImplyDenomLimit(creator: Bytes, subdenom: Bytes)
    ensures |subdenom| <= MAX_SUBDENOM_LENGTH && |creator| <= MAX_CREATOR_LENGTH ==>
              |JoinDenom(creator, subdenom)| <= 128
    ensures |subdenom| == MAX_SUBDENOM_LENGTH && |creator| == MAX_CREATOR_LENGTH ==>
              |JoinDenom(creator, subdenom)| == 128
  {
    JoinThree(creator, subdenom);
  }

  /** Printing a parsed denom gives it back exactly when its creator was spelled canonically
      and both parts are within the caps. */
  lemma ParseThenPrint(c: Chain, denom: Bytes)
    requires Lawful(c) && IsFactoryDenom(c, denom)
    ensures var p := DeconstructDenom(c, denom);
            GetTokenDenom(c, p.creator, p.subdenom) == Printed(denom)
            <==> Canonical(c, Segment(denom)) && |Segment(denom)| <= MAX_CREATOR_LENGTH
                 && |p.subdenom| <= MAX_SUBDENOM_LENGTH
  {
    var p := DeconstructDenom(c, denom);
    PartsOfDenom(c, denom);
    if GetTokenDenom(c, p.creator, p.subdenom) == Printed(denom) {
      PrintThenParse(c, p.creator, p.subdenom);
    }
  }
}
