/**
 * The requester's capability validator, and the CKID window: a bound that only holds when the
 * capability validator and the configuration validator are taken together.
 */
module CxlTspCapabilities {
  import opened Words
  import opened CxlTspData
  import opened CxlTspValidators

  predicate EncryptionCapabilities(caps: Capabilities) {
    var s := caps.memoryEncryptionFeatures;
    && (Has(s, CKID_BASED) || Has(s, RANGE_BASED) || Has(s, CKID_REQUIRED) ==> Has(s, ENCRYPTION))
    && (Has(s, CKID_REQUIRED) ==> Has(s, CKID_BASED))
    && (Has(s, ENCRYPTION) ==> caps.memoryEncryptionAlgorithms & ALGORITHM_MASK != 0)
    && (Has(s, RANGE_BASED) <==> caps.rangeBasedKeys != 0)
    && (Has(s, CKID_BASED) ==> 2 <= caps.numberOfCkids < CKID_LIMIT)
  }

  predicate TeCapabilities(caps: Capabilities) {
    && TeCoherent(caps.teFeatures)
    && (Has(caps.teFeatures, IMPLICIT_CHANGE) ==> Has(caps.teFeatures, EXPLICIT_IB) && caps.ibGranularity & IB_64B != 0)
    && (Has(caps.teFeatures, EXPLICIT_OOB) <==> caps.oobGranularity != 0)
    && (Has(caps.teFeatures, EXPLICIT_IB) <==> caps.ibGranularity & IB_GRANULARITY_MASK != 0)
  }

  predicate SessionCapabilities(caps: Capabilities) {
    if Has(caps.configurationFeatures, ADDITIONAL_SESSIONS) then 1 <= caps.numberOfSecondarySessions <= 4
    else caps.numberOfSecondarySessions == 0
  }

  predicate CapabilitiesCoherent(caps: Capabilities) {
    EncryptionCapabilities(caps) && TeCapabilities(caps) && SessionCapabilities(caps)
  }

  lemma SupportMask(s: bv16)
    ensures Has(s & ENCRYPTION_SUPPORT_MASK, ENCRYPTION) == Has(s, ENCRYPTION)
    ensures Has(s & ENCRYPTION_SUPPORT_MASK, CKID_BASED) == Has(s, CKID_BASED)
    ensures Has(s & ENCRYPTION_SUPPORT_MASK, RANGE_BASED) == Has(s, RANGE_BASED)
    ensures Has(s & ENCRYPTION_SUPPORT_MASK, CKID_REQUIRED) == Has(s, CKID_REQUIRED)
  {
  }

  method ValidateEncryptionCapabilities(caps: Capabilities) returns (ok: bool)
    ensures ok <==> EncryptionCapabilities(caps)
  {
    var s := caps.memoryEncryptionFeatures & ENCRYPTION_SUPPORT_MASK;
    SupportMask(caps.memoryEncryptionFeatures);
    if !Has(s, ENCRYPTION) {
      if Has(s, CKID_BASED) || Has(s, RANGE_BASED) || Has(s, CKID_REQUIRED) {
        return false;
      }
    } else if Has(s, CKID_REQUIRED) && !Has(s, CKID_BASED) {
      return false;
    }
    if Has(s, ENCRYPTION) && caps.memoryEncryptionAlgorithms & ALGORITHM_MASK == 0 {
      return false;
    }
    if !Has(s, RANGE_BASED) {
      if caps.rangeBasedKeys != 0 {
        return false;
      }
    } else if caps.rangeBasedKeys == 0 {
      return false;
    }
    if Has(s, CKID_BASED) && (caps.numberOfCkids < 2 || caps.numberOfCkids >= CKID_LIMIT) {
      return false;
    }
    ok := true;
  }

  lemma ImplicitMask(t: bv16)
    ensures Has(t & TE_MASK, IMPLICIT_CHANGE) == Has(t, IMPLICIT_CHANGE)
  {
  }

  method ValidateTeCapabilities(caps: Capabilities) returns (ok: bool)
    ensures ok <==> TeCapabilities(caps)
  {
    var t := caps.teFeatures & TE_MASK;
    TeMask(caps.teFeatures);
    ImplicitMask(caps.teFeatures);
    ok := CheckTe(caps.teFeatures);
    if !ok {
      return;
    }
    if Has(t, IMPLICIT_CHANGE) && (!Has(t, EXPLICIT_IB) || caps.ibGranularity & IB_64B == 0) {
      return false;
    }
    if !Has(t, EXPLICIT_OOB) {
      if caps.oobGranularity != 0 {
        return false;
      }
    } else if caps.oobGranularity == 0 {
      return false;
    }
    var ib := caps.ibGranularity & IB_GRANULARITY_MASK;
    if !Has(t, EXPLICIT_IB) {
      if ib != 0 {
        return false;
      }
    } else if ib == 0 {
      return false;
    }
  }

  /** The requester's check of the capabilities it read. */
  method ValidateCapabilities(caps: Capabilities) returns (ok: bool)
    ensures ok <==> CapabilitiesCoherent(caps)
  {
    ok := ValidateEncryptionCapabilities(caps);
    if !ok {
      return;
    }
    ok := ValidateTeCapabilities(caps);
    if !ok {
      return;
    }
    var features := caps.configurationFeatures & (LOCKED_FW_UPDATE | ADDITIONAL_SESSIONS);
    assert Has(features, ADDITIONAL_SESSIONS) == Has(caps.configurationFeatures, ADDITIONAL_SESSIONS);
    if !Has(features, ADDITIONAL_SESSIONS) {
      if caps.numberOfSecondarySessions != 0 {
        return false;
      }
    } else if caps.numberOfSecondarySessions == 0 || caps.numberOfSecondarySessions > 4 {
      return false;
    }
  }

  // ----- The CKID window -----

  /** The window of a configuration lies below the limit in true integers. */
  predicate WindowInside(c: Configuration) {
    c.ckidBase + c.numberOfCkids < CKID_LIMIT
  }

  /** Both validators together bound the window, so the 32-bit sum of the check never wraps. */
  lemma CkidWindowBounded(c: Configuration, sessions: SecondarySessions, caps: Capabilities)
    requires CapabilitiesCoherent(caps)
    requires ResponderAccepts(c, sessions, caps) && Has(c.memoryEncryptionFeatures, CKID_REQUIRED)
    ensures WindowInside(c)
  {
    assert Has(c.memoryEncryptionFeatures, CKID_BASED);
    assert Has(caps.memoryEncryptionFeatures, CKID_BASED);
    assert c.numberOfCkids <= caps.numberOfCkids < CKID_LIMIT;
  }

  /** Whether some configuration with CKIDs can be accepted at all under these capabilities. */
  predicate CkidsUsable(caps: Capabilities) {
    && Has(caps.memoryEncryptionFeatures, ENCRYPTION)
    && Has(caps.memoryEncryptionFeatures, CKID_BASED)
    && Has(caps.memoryEncryptionFeatures, CKID_REQUIRED)
    && caps.memoryEncryptionAlgorithms & ALGORITHM_MASK != 0
  }

  /** No accepted configuration can make the 32-bit sum wrap: a check on the capabilities alone. */
  predicate CannotWrap(caps: Capabilities) {
    CkidsUsable(caps) ==> caps.numberOfCkids + (CKID_LIMIT - 1) < 0x1_0000_0000
  }

  predicate AcceptedWithCkids(c: Configuration, sessions: SecondarySessions, caps: Capabilities) {
    ResponderAccepts(c, sessions, caps) && Has(c.memoryEncryptionFeatures, CKID_REQUIRED)
  }

  /**
   * The responder alone does not keep the window inside: its capabilities are never validated on
   * its side. It does so exactly for capabilities that leave no room for a wrap.
   */
  lemma WindowInsideExactlyWhen(caps: Capabilities)
    ensures (forall c, sessions :: AcceptedWithCkids(c, sessions, caps) ==> WindowInside(c)) <==> CannotWrap(caps)
  {
    if CannotWrap(caps) {
      forall c, sessions | AcceptedWithCkids(c, sessions, caps)
        ensures WindowInside(c)
      {
        AcceptedSelectsAlgorithm(c, sessions, caps);
      }
    } else {
      var c, sessions := WrappingConfiguration(caps);
    }
  }

  lemma AcceptedSelectsAlgorithm(c: Configuration, sessions: SecondarySessions, caps: Capabilities)
    requires AcceptedWithCkids(c, sessions, caps)
    ensures CkidsUsable(caps)
  {
    var select, supported := c.algorithm & ALGORITHM_MASK, caps.memoryEncryptionAlgorithms;
    assert select != 0 && select & supported == select;
    assert supported & ALGORITHM_MASK != 0;
  }

  lemma SupportedAlgorithm(supported: bv32) returns (select: bv32)
    requires supported & ALGORITHM_MASK != 0
    ensures select & ALGORITHM_MASK == select && select != 0 && OneHot0(select) && select & supported == select
  {
    select := if supported & AES_XTS_128 != 0 then AES_XTS_128
              else if supported & AES_XTS_256 != 0 then AES_XTS_256 else VENDOR_SPECIFIC;
  }

  /** Otherwise this configuration is accepted: its sum wraps to zero. */
  lemma WrappingConfiguration(caps: Capabilities) returns (c: Configuration, sessions: SecondarySessions)
    requires !CannotWrap(caps)
    ensures AcceptedWithCkids(c, sessions, caps) && !WindowInside(c)
  {
    var select := SupportedAlgorithm(caps.memoryEncryptionAlgorithms);
    c := Configuration(ENCRYPTION | CKID_BASED | CKID_REQUIRED, select, 0, 0, 0,
                       CKID_LIMIT - 1, 0x1_0000_0000 - (CKID_LIMIT - 1), ZeroConfiguration().ibEntries);
    sessions := SecondarySessions(0, 0, ZeroKeys());
    assert Announces(0, 0);
    assert TeHalfCoherent(c) && TeHalfSupported(c, caps);
  }
}
