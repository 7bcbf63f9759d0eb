/** The rules of the CXL TSP validators in other words: which feature words, selectors and entries pass. */
module CxlTspRules {
  import opened Words
  import opened CxlTspData
  import opened CxlTspValidators
  import opened CxlTspCapabilities
  import opened CxlTspDevice
  import opened CxlTspAnswers

  // ----- Configurations -----

  /** Four combinations of encryption features are coherent: none, encryption, with ranges, with required CKIDs. */
  lemma EncryptionCombinations(e: bv16)
    ensures EncryptionCoherent(e) <==> e & 0x17 == 0 || e & 0x17 == 0x01 || e & 0x17 == 0x05 || e & 0x17 == 0x13
  {
  }

  /** With an explicit change out of band or in band everything is coherent; else only read control with implicit changes. */
  lemma TeCombinations(t: bv16)
    ensures TeCoherent(t) <==> t & 0x18 != 0 || (t & 0x21 == 0 && (t & 0x02 != 0 ==> t & 0x04 != 0))
  {
  }

  /** Enabled features are a subset of the supported ones. */
  lemma EncryptionSubset(e: bv16, supported: bv16)
    ensures EncryptionSupported(e, supported) <==> (e & 0x17) & supported == e & 0x17
  {
  }

  /** A selector that is on is a single supported bit, one that is off is zero. */
  lemma SelectionMeaning(enabled: bool, select: bv32, supported: bv32)
    ensures Selected(enabled, select) && SelectionSupported(enabled, select, supported) <==>
              if enabled then (exists k :: IsBit(select, k)) && select & supported != 0 else select == 0
  {
    OneHotMeaning(select);
    if enabled && OneHot0(select) && select & supported != 0 {
      OneHotSelection(select, supported);
    }
  }

  /** One entry, and two entries, decide what is said of all. */
  lemma OneEntry(e: IbEntry, reserve7: bool)
    ensures IndicesDistinct([e], reserve7) <==> e.lengthIndex == 0xff || e.lengthIndex < 7 || (e.lengthIndex == 7 && !reserve7)
  {
    assert IndicesDistinct([], reserve7);
    IndicesAppend([], e, reserve7);
    assert [] + [e] == [e];
  }

  lemma TwoEntries(a: IbEntry, b: IbEntry, reserve7: bool)
    ensures IndicesDistinct([a, b], reserve7) <==>
              && IndicesDistinct([a], reserve7) && IndicesDistinct([b], reserve7)
              && (a.lengthIndex == b.lengthIndex ==> a.lengthIndex == 0xff)
  {
    OneEntry(a, reserve7);
    OneEntry(b, reserve7);
    var two := [a, b];
    assert two[0] == a && two[1] == b;
  }

  lemma EntriesPairwise(entries: seq<IbEntry>, reserve7: bool)
    ensures IndicesDistinct(entries, reserve7) <==>
              && (forall i :: 0 <= i < |entries| ==> IndicesDistinct([entries[i]], reserve7))
              && (forall i, j :: 0 <= i < j < |entries| ==> IndicesDistinct([entries[i], entries[j]], reserve7))
  {
    forall i | 0 <= i < |entries|
      ensures IndicesDistinct([entries[i]], reserve7) <==> (Used(entries[i]) ==> entries[i].lengthIndex <= 7 && !(reserve7 && entries[i].lengthIndex == 7))
    {
      OneEntry(entries[i], reserve7);
    }
    forall i, j | 0 <= i < j < |entries|
      ensures IndicesDistinct([entries[i], entries[j]], reserve7) <==>
                && IndicesDistinct([entries[i]], reserve7) && IndicesDistinct([entries[j]], reserve7)
                && (entries[i].lengthIndex == entries[j].lengthIndex ==> !Used(entries[i]))
    {
      TwoEntries(entries[i], entries[j], reserve7);
    }
  }

  /** The flags that announce an allowed number of sessions. */
  lemma AllowedFlags(flags: uint16, caps: Capabilities)
    ensures SessionsAllowed(flags, caps) <==>
              || flags == 0 || (flags == 1 && caps.numberOfSecondarySessions >= 1) || (flags == 3 && caps.numberOfSecondarySessions >= 2)
              || (flags == 7 && caps.numberOfSecondarySessions >= 3) || (flags == 15 && caps.numberOfSecondarySessions >= 4)
  {
    assert Pow2(1) == 2 && Pow2(2) == 4 && Pow2(3) == 8 && Pow2(4) == 16;
    assert Announces(0, 0) && Announces(1, 1) && Announces(3, 2) && Announces(7, 3) && Announces(15, 4);
    if n: nat :| Announces(flags, n) && n <= caps.numberOfSecondarySessions {
      AnnouncedCount(flags, n);
    }
  }

  // ----- The validators as a whole -----

  /** A selector: one supported bit if on, zero if off. */
  ghost predicate Picks(on: bool, select: bv32, supported: bv32) {
    if on then (exists k :: IsBit(select, k)) && select & supported != 0 else select == 0
  }

  ghost predicate AtMostOne(on: bool, select: bv32) {
    if on then select == 0 || exists k :: IsBit(select, k) else select == 0
  }

  /** The test of the CKID window, in 32 bits. */
  predicate WindowTest(c: Configuration) {
    c.ckidBase < 0x2000 && (c.ckidBase + c.numberOfCkids) % 0x1_0000_0000 < 0x2000
  }

  /** The encryption half that the responder accepts. */
  lemma EncryptionAccepted(c: Configuration, caps: Capabilities)
    ensures var e, a := c.memoryEncryptionFeatures & 0x17, c.algorithm & 0x8000_0003;
            EncryptionHalfCoherent(c) && EncryptionHalfSupported(c, caps) <==>
              && (e == 0 || e == 0x01 || e == 0x05 || e == 0x13)
              && e & caps.memoryEncryptionFeatures == e
              && Picks(e != 0, a, caps.memoryEncryptionAlgorithms)
              && (e == 0x13 ==> WindowTest(c) && c.numberOfCkids <= caps.numberOfCkids)
  {
    var f := c.memoryEncryptionFeatures;
    EncryptionCombinations(f);
    EncryptionSubset(f, caps.memoryEncryptionFeatures);
    SelectionMeaning(Has(f, ENCRYPTION), c.algorithm & ALGORITHM_MASK, caps.memoryEncryptionAlgorithms);
    if EncryptionCoherent(f) {
      EncryptionBits(f);
    }
  }

  lemma EncryptionBits(f: bv16)
    requires f & 0x17 == 0 || f & 0x17 == 0x01 || f & 0x17 == 0x05 || f & 0x17 == 0x13
    ensures Has(f, ENCRYPTION) <==> f & 0x17 != 0
    ensures Has(f, CKID_REQUIRED) <==> f & 0x17 == 0x13
  {
  }

  /** The encryption half that the requester accepts. */
  lemma EncryptionReadable(c: Configuration)
    ensures var e, a := c.memoryEncryptionFeatures & 0x17, c.algorithm & 0x8000_0003;
            EncryptionHalfCoherent(c) <==>
              && (e == 0 || e == 0x01 || e == 0x05 || e == 0x13)
              && AtMostOne(e != 0, a)
              && (e == 0x13 ==> WindowTest(c))
  {
    var f := c.memoryEncryptionFeatures;
    EncryptionCombinations(f);
    OneHotMeaning(c.algorithm & ALGORITHM_MASK);
    if EncryptionCoherent(f) {
      EncryptionBits(f);
    }
  }

  predicate TeWords(t: bv16) {
    t & 0x18 != 0 || (t & 0x21 == 0 && (t & 0x02 != 0 ==> t & 0x04 != 0))
  }

  lemma TeBits(f: bv16)
    ensures TeWords(f & 0x3F) <==> TeWords(f)
    ensures Has(f, EXPLICIT_OOB) <==> (f & 0x3F) & 0x08 != 0
    ensures Has(f, EXPLICIT_IB) <==> (f & 0x3F) & 0x10 != 0
  {
  }

  /** The TE half that the requester accepts. */
  lemma TeReadable(c: Configuration)
    ensures var t := c.teFeatures & 0x3F;
            TeHalfCoherent(c) <==>
              && TeWords(t) && AtMostOne(t & 0x08 != 0, c.oobGranularity)
              && (t & 0x10 != 0 ==> IndicesDistinct(c.ibEntries, false))
  {
    TeCombinations(c.teFeatures);
    TeBits(c.teFeatures);
    OneHotMeaning(c.oobGranularity);
  }

  lemma PicksOne(on: bool, select: bv32, supported: bv32)
    ensures AtMostOne(on, select) && SelectionSupported(on, select, supported) <==> Picks(on, select, supported)
  {
    OneHotMeaning(select);
    SelectionMeaning(on, select, supported);
  }

  lemma SupportedIndices(entries: seq<IbEntry>, reserve7: bool)
    ensures IndicesDistinct(entries, false) && IndicesDistinct(entries, reserve7) <==> IndicesDistinct(entries, reserve7)
  {
    if IndicesDistinct(entries, reserve7) {
      ReservingIsStronger(entries, reserve7);
    }
  }

  /** Whether the device supports the TE half. */
  lemma TeOffered(c: Configuration, caps: Capabilities)
    ensures var t := c.teFeatures & 0x3F;
            TeHalfSupported(c, caps) <==>
              && t & caps.teFeatures == t
              && SelectionSupported(t & 0x08 != 0, c.oobGranularity, caps.oobGranularity)
              && (t & 0x10 != 0 ==> IndicesDistinct(c.ibEntries, caps.ibGranularity & 0x8000_0000 != 0))
  {
    TeBits(c.teFeatures);
  }

  /** The TE half that the responder accepts. */
  lemma TeAccepted(c: Configuration, caps: Capabilities)
    ensures var t := c.teFeatures & 0x3F;
            TeHalfCoherent(c) && TeHalfSupported(c, caps) <==>
              && TeWords(t) && t & caps.teFeatures == t
              && Picks(t & 0x08 != 0, c.oobGranularity, caps.oobGranularity)
              && (t & 0x10 != 0 ==> IndicesDistinct(c.ibEntries, caps.ibGranularity & 0x8000_0000 != 0))
  {
    var t, reserve7 := c.teFeatures & 0x3F, caps.ibGranularity & 0x8000_0000 != 0;
    TeReadable(c);
    TeOffered(c, caps);
    PicksOne(t & 0x08 != 0, c.oobGranularity, caps.oobGranularity);
    SupportedIndices(c.ibEntries, reserve7);
  }

  // ----- The sample device -----

  /**
   * Exactly what the sample device accepts: no encryption or AES-XTS-256 alone; of the TE features
   * read access control, which then needs implicit or in-band changes, implicit and in-band changes;
   * no out-of-band granularity; distinct indices; at most one secondary session.
   */
  lemma SampleAccepts(c: Configuration, sessions: SecondarySessions)
    ensures var e, a, t := c.memoryEncryptionFeatures & 0x17, c.algorithm & 0x8000_0003, c.teFeatures & 0x3F;
            ResponderAccepts(c, sessions, Offered()) <==>
              && ((e == 0 && a == 0) || (e == 1 && a == 2))
              && t & !0x16 == 0 && (t & 0x02 != 0 ==> t & 0x14 != 0)
              && c.oobGranularity == 0 && (t & 0x10 != 0 ==> IndicesDistinct(c.ibEntries, false))
              && (sessions.validityFlags == 0 || sessions.validityFlags == 1)
  {
    EncryptionAccepted(c, Offered());
    TeAccepted(c, Offered());
    AllowedFlags(sessions.validityFlags, Offered());
    OfferedSelection(c.algorithm & 0x8000_0003);
    OfferedFeatures(c.memoryEncryptionFeatures & 0x17, c.teFeatures & 0x3F);
  }

  lemma OfferedSelection(a: bv32)
    ensures Picks(true, a, 0x0000_0002) <==> a == 2
  {
    assert IsBit(2, 1);
    if k :| IsBit(a, k) && a & 2 != 0 {
      OneHotMeaning(a);
      OneHotSelection(a, 2);
    }
  }

  lemma OfferedFeatures(e: bv16, t: bv16)
    ensures (e == 0 || e == 0x01 || e == 0x05 || e == 0x13) && e & 0x0001 == e <==> e == 0 || e == 1
    ensures TeWords(t) && t & (0x0002 | 0x0004 | 0x0010) == t <==> t & !0x16 == 0 && (t & 0x02 != 0 ==> t & 0x14 != 0)
    ensures t & (0x0002 | 0x0004 | 0x0010) == t ==> t & 0x08 == 0
  {
  }

  // ----- Capabilities -----

  /** What capabilities must look like to be read. */
  lemma CapabilitiesReadable(caps: Capabilities)
    ensures var s, t, ib := caps.memoryEncryptionFeatures, caps.teFeatures, caps.ibGranularity;
            CapabilitiesCoherent(caps) <==>
              && (s & 0x01 == 0 ==> s & 0x16 == 0) && (s & 0x10 != 0 ==> s & 0x02 != 0)
              && (s & 0x01 != 0 ==> caps.memoryEncryptionAlgorithms & 0x8000_0003 != 0)
              && (s & 0x04 != 0 <==> caps.rangeBasedKeys > 0)
              && (s & 0x02 != 0 ==> 2 <= caps.numberOfCkids <= 0x1FFF)
              && TeWords(t) && (t & 0x04 != 0 ==> t & 0x10 != 0 && ib & 0x01 != 0)
              && (t & 0x08 != 0 <==> caps.oobGranularity != 0) && (t & 0x10 != 0 <==> ib & 0x8000_07FF != 0)
              && (caps.configurationFeatures & 0x02 != 0 ==> 1 <= caps.numberOfSecondarySessions <= 4)
              && (caps.configurationFeatures & 0x02 == 0 ==> caps.numberOfSecondarySessions == 0)
  {
    TeCombinations(caps.teFeatures);
    SupportBits(caps.memoryEncryptionFeatures);
  }

  lemma SupportBits(s: bv16)
    ensures (Has(s, CKID_BASED) || Has(s, RANGE_BASED) || Has(s, CKID_REQUIRED) ==> Has(s, ENCRYPTION)) <==> (s & 0x01 == 0 ==> s & 0x16 == 0)
  {
  }
}
