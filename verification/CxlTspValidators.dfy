/**
 * The three CXL TSP validators: what the responder accepts in SET_TARGET_CONFIGURATION, and what
 * the requester accepts of a configuration and of capabilities it reads back.
 */
module CxlTspValidators {
  import opened Words
  import opened CxlTspData

  // ----- What a configuration means -----

  /** CKID-based encryption is on exactly when it is required, excludes range-based, and needs encryption. */
  predicate EncryptionCoherent(e: bv16) {
    && (Has(e, CKID_BASED) || Has(e, RANGE_BASED) || Has(e, CKID_REQUIRED) ==> Has(e, ENCRYPTION))
    && (Has(e, CKID_BASED) <==> Has(e, CKID_REQUIRED))
    && !(Has(e, CKID_BASED) && Has(e, RANGE_BASED))
  }

  /** Access control and sanitising need some way to change the TE state. */
  predicate TeCoherent(t: bv16) {
    && (Has(t, WRITE_ACCESS) || Has(t, SANITIZE) ==> Has(t, EXPLICIT_OOB) || Has(t, EXPLICIT_IB))
    && (Has(t, READ_ACCESS) ==> Has(t, IMPLICIT_CHANGE) || Has(t, EXPLICIT_OOB) || Has(t, EXPLICIT_IB))
  }

  /** The C sum is taken in 32 bits. */
  predicate CkidWindow(base: uint32, count: uint32) {
    base < CKID_LIMIT && (base + count) % 0x1_0000_0000 < CKID_LIMIT
  }

  predicate Used(entry: IbEntry) {
    entry.lengthIndex != 0xff
  }

  /** Every used length index is at most 7, no two entries share one, and 7 may be reserved. */
  predicate IndicesDistinct(entries: seq<IbEntry>, reserve7: bool) {
    && (forall i :: 0 <= i < |entries| && Used(entries[i]) ==>
          entries[i].lengthIndex <= 7 && !(reserve7 && entries[i].lengthIndex == 7))
    && (forall i, j :: 0 <= i < j < |entries| && Used(entries[i]) && Used(entries[j]) ==>
          entries[i].lengthIndex != entries[j].lengthIndex)
  }

  predicate Selected(enabled: bool, select: bv32) {
    if enabled then OneHot0(select) else select == 0
  }

  /** The memory encryption half of a configuration is coherent in itself. */
  predicate EncryptionHalfCoherent(c: Configuration) {
    && EncryptionCoherent(c.memoryEncryptionFeatures)
    && Selected(Has(c.memoryEncryptionFeatures, ENCRYPTION), c.algorithm & ALGORITHM_MASK)
    && (Has(c.memoryEncryptionFeatures, CKID_REQUIRED) ==> CkidWindow(c.ckidBase, c.numberOfCkids))
  }

  /** The TE state half of a configuration is coherent in itself. */
  predicate TeHalfCoherent(c: Configuration) {
    && TeCoherent(c.teFeatures)
    && Selected(Has(c.teFeatures, EXPLICIT_OOB), c.oobGranularity)
    && (Has(c.teFeatures, EXPLICIT_IB) ==> IndicesDistinct(c.ibEntries, false))
  }

  predicate Coherent(c: Configuration) {
    EncryptionHalfCoherent(c) && TeHalfCoherent(c)
  }

  predicate EncryptionSupported(e: bv16, supported: bv16) {
    && (Has(e, ENCRYPTION) ==> Has(supported, ENCRYPTION))
    && (Has(e, CKID_BASED) ==> Has(supported, CKID_BASED))
    && (Has(e, RANGE_BASED) ==> Has(supported, RANGE_BASED))
    && (Has(e, CKID_REQUIRED) ==> Has(supported, CKID_REQUIRED))
  }

  predicate SelectionSupported(enabled: bool, select: bv32, supported: bv32) {
    enabled ==> select != 0 && select & supported == select
  }

  predicate EncryptionHalfSupported(c: Configuration, caps: Capabilities) {
    && EncryptionSupported(c.memoryEncryptionFeatures, caps.memoryEncryptionFeatures)
    && SelectionSupported(Has(c.memoryEncryptionFeatures, ENCRYPTION),
                          c.algorithm & ALGORITHM_MASK, caps.memoryEncryptionAlgorithms)
    && (Has(c.memoryEncryptionFeatures, CKID_REQUIRED) ==> c.numberOfCkids <= caps.numberOfCkids)
  }

  predicate TeHalfSupported(c: Configuration, caps: Capabilities) {
    && c.teFeatures & TE_MASK & caps.teFeatures == c.teFeatures & TE_MASK
    && SelectionSupported(Has(c.teFeatures, EXPLICIT_OOB), c.oobGranularity, caps.oobGranularity)
    && (Has(c.teFeatures, EXPLICIT_IB) ==>
          IndicesDistinct(c.ibEntries, caps.ibGranularity & IB_ENTIRE_MEMORY != 0))
  }

  /** Everything a configuration switches on is something the device supports. */
  predicate WithinCapabilities(c: Configuration, caps: Capabilities) {
    EncryptionHalfSupported(c, caps) && TeHalfSupported(c, caps)
  }

  function Pow2(n: nat): (r: nat)
    ensures r > 0
  {
    if n == 0 then 1 else 2 * Pow2(n - 1)
  }

  /** The flags announce n secondary sessions: they are 2^n - 1 for an n the device supports. */
  predicate Announces(flags: uint16, n: nat) {
    n <= SECONDARY_SESSION_COUNT && flags == Pow2(n) - 1
  }

  predicate SessionsAllowed(flags: uint16, caps: Capabilities) {
    exists n: nat :: Announces(flags, n) && n <= caps.numberOfSecondarySessions
  }

  predicate ResponderAccepts(c: Configuration, sessions: SecondarySessions, caps: Capabilities) {
    Coherent(c) && WithinCapabilities(c, caps) && SessionsAllowed(sessions.validityFlags, caps)
  }

  // ----- The bitmap loop -----

  function LengthBit(index: bv8): bv8
    requires index <= 7
  {
    1 << index
  }

  predicate Marked(bitmap: bv8, index: bv8) {
    index <= 7 && bitmap & LengthBit(index) != 0
  }

  lemma MarkOne(bitmap: bv8, index: bv8, m: bv8)
    requires index <= 7 && m <= 7
    ensures Marked(bitmap | LengthBit(index), m) <==> Marked(bitmap, m) || m == index
  {
  }

  predicate Occurs(entries: seq<IbEntry>, index: bv8) {
    exists i :: 0 <= i < |entries| && entries[i].lengthIndex == index
  }

  lemma OccursAppend(entries: seq<IbEntry>, e: IbEntry, m: bv8)
    ensures Occurs(entries + [e], m) <==> Occurs(entries, m) || e.lengthIndex == m
  {
    if Occurs(entries, m) {
      var i :| 0 <= i < |entries| && entries[i].lengthIndex == m;
      assert (entries + [e])[i].lengthIndex == m;
    }
    if e.lengthIndex == m {
      assert (entries + [e])[|entries|].lengthIndex == m;
    }
  }

  lemma IndicesAppend(entries: seq<IbEntry>, e: IbEntry, reserve7: bool)
    requires IndicesDistinct(entries, reserve7)
    ensures IndicesDistinct(entries + [e], reserve7) <==>
            (Used(e) ==>
               && e.lengthIndex <= 7 && !(reserve7 && e.lengthIndex == 7)
               && !Occurs(entries, e.lengthIndex))
  {
    var all := entries + [e];
    assert all[|entries|] == e;
    assert forall i :: 0 <= i < |entries| ==> all[i] == entries[i];
    if Used(e) && Occurs(entries, e.lengthIndex) {
      var i :| 0 <= i < |entries| && entries[i].lengthIndex == e.lengthIndex;
      assert all[i].lengthIndex == all[|entries|].lengthIndex;
    }
  }

  lemma PrefixDecides(entries: seq<IbEntry>, k: nat, reserve7: bool)
    requires k <= |entries| && !IndicesDistinct(entries[..k], reserve7)
    ensures !IndicesDistinct(entries, reserve7)
  {
  }

  /** The bitmap has exactly the bits of the indices seen. */
  ghost predicate Tracks(bitmap: bv8, entries: seq<IbEntry>) {
    forall m: bv8 :: m <= 7 ==> (Marked(bitmap, m) <==> Occurs(entries, m))
  }

  lemma TracksAppend(bitmap: bv8, entries: seq<IbEntry>, e: IbEntry)
    requires Tracks(bitmap, entries)
    ensures e.lengthIndex > 7 ==> Tracks(bitmap, entries + [e])
    ensures e.lengthIndex <= 7 ==> Tracks(bitmap | LengthBit(e.lengthIndex), entries + [e])
  {
    forall m: bv8 | m <= 7
      ensures Occurs(entries + [e], m) <==> Occurs(entries, m) || e.lengthIndex == m
    {
      OccursAppend(entries, e, m);
    }
    if e.lengthIndex <= 7 {
      forall m: bv8 | m <= 7
        ensures Marked(bitmap | LengthBit(e.lengthIndex), m) <==> Marked(bitmap, m) || m == e.lengthIndex
      {
        MarkOne(bitmap, e.lengthIndex, m);
      }
    }
  }

  /** What the loop's tests on the next entry say. */
  lemma NextIndex(bitmap: bv8, entries: seq<IbEntry>, e: IbEntry, reserve7: bool)
    requires Tracks(bitmap, entries) && IndicesDistinct(entries, reserve7)
    ensures IndicesDistinct(entries + [e], reserve7) <==>
              (e.lengthIndex == 0xff ||
               (e.lengthIndex <= 7 && !(reserve7 && e.lengthIndex == 7) && bitmap & LengthBit(e.lengthIndex) == 0))
  {
    IndicesAppend(entries, e, reserve7);
    assert e.lengthIndex <= 7 ==> (Marked(bitmap, e.lengthIndex) <==> Occurs(entries, e.lengthIndex));
  }

  lemma NextUnused(bitmap: bv8, entries: seq<IbEntry>, k: nat, reserve7: bool)
    requires k < |entries| && entries[k].lengthIndex == 0xff
    requires IndicesDistinct(entries[..k], reserve7) && Tracks(bitmap, entries[..k])
    ensures IndicesDistinct(entries[..k + 1], reserve7) && Tracks(bitmap, entries[..k + 1])
  {
    assert entries[..k + 1] == entries[..k] + [entries[k]];
    IndicesAppend(entries[..k], entries[k], reserve7);
    TracksAppend(bitmap, entries[..k], entries[k]);
  }

  lemma NextRefused(bitmap: bv8, entries: seq<IbEntry>, k: nat, length: bv8, reserve7: bool)
    requires k < |entries| && length == entries[k].lengthIndex && length != 0xff
    requires IndicesDistinct(entries[..k], reserve7) && Tracks(bitmap, entries[..k])
    requires length > 7 || (reserve7 && length == 7) || bitmap & LengthBit(length) != 0
    ensures !IndicesDistinct(entries, reserve7)
  {
    assert entries[..k + 1] == entries[..k] + [entries[k]];
    NextIndex(bitmap, entries[..k], entries[k], reserve7);
    PrefixDecides(entries, k + 1, reserve7);
  }

  lemma NextAccepted(bitmap: bv8, entries: seq<IbEntry>, k: nat, length: bv8, reserve7: bool)
    requires k < |entries| && length == entries[k].lengthIndex && length <= 7 && !(reserve7 && length == 7)
    requires IndicesDistinct(entries[..k], reserve7) && Tracks(bitmap, entries[..k])
    requires bitmap & LengthBit(length) == 0
    ensures IndicesDistinct(entries[..k + 1], reserve7) && Tracks(bitmap | LengthBit(length), entries[..k + 1])
  {
    assert entries[..k + 1] == entries[..k] + [entries[k]];
    NextIndex(bitmap, entries[..k], entries[k], reserve7);
    TracksAppend(bitmap, entries[..k], entries[k]);
  }

  /** The bitmap of seen indices decides IndicesDistinct, for any number of entries. */
  method CheckLengthIndices(entries: seq<IbEntry>, reserve7: bool) returns (ok: bool)
    ensures ok <==> IndicesDistinct(entries, reserve7)
  {
    var bitmap: bv8 := 0;
    for index := 0 to |entries|
      invariant IndicesDistinct(entries[..index], reserve7)
      invariant Tracks(bitmap, entries[..index])
    {
      var length := entries[index].lengthIndex;
      if length == 0xff {
        NextUnused(bitmap, entries, index, reserve7);
        continue;
      }
      if length > 7 || (reserve7 && length == 7) || bitmap & LengthBit(length) != 0 {
        NextRefused(bitmap, entries, index, length, reserve7);
        return false;
      }
      NextAccepted(bitmap, entries, index, length, reserve7);
      bitmap := bitmap | LengthBit(length);
    }
    assert entries[..|entries|] == entries;
    ok := true;
  }

  // ----- The validators -----

  /** Masking with all the bits that are tested afterwards changes no test. */
  lemma EncryptionMask(e: bv16)
    ensures Has(e & ENCRYPTION_ENABLE_MASK, ENCRYPTION) == Has(e, ENCRYPTION)
    ensures Has(e & ENCRYPTION_ENABLE_MASK, CKID_BASED) == Has(e, CKID_BASED)
    ensures Has(e & ENCRYPTION_ENABLE_MASK, RANGE_BASED) == Has(e, RANGE_BASED)
    ensures Has(e & ENCRYPTION_ENABLE_MASK, CKID_REQUIRED) == Has(e, CKID_REQUIRED)
  {
  }

  lemma TeMask(t: bv16)
    ensures Has(t & TE_MASK, WRITE_ACCESS) == Has(t, WRITE_ACCESS)
    ensures Has(t & TE_MASK, READ_ACCESS) == Has(t, READ_ACCESS)
    ensures Has(t & TE_MASK, SANITIZE) == Has(t, SANITIZE)
    ensures Has(t & TE_MASK, EXPLICIT_OOB) == Has(t, EXPLICIT_OOB)
    ensures Has(t & TE_MASK, EXPLICIT_IB) == Has(t, EXPLICIT_IB)
    ensures Has(t & TE_MASK, EXPLICIT_OOB | EXPLICIT_IB) == (Has(t, EXPLICIT_OOB) || Has(t, EXPLICIT_IB))
    ensures Has(t & TE_MASK, IMPLICIT_CHANGE | EXPLICIT_OOB | EXPLICIT_IB) ==
            (Has(t, IMPLICIT_CHANGE) || Has(t, EXPLICIT_OOB) || Has(t, EXPLICIT_IB))
  {
  }

  /** The rules on the encryption features alone, the same on both sides. */
  method CheckEncryption(features: bv16) returns (ok: bool)
    ensures ok <==> EncryptionCoherent(features)
  {
    var e := features & ENCRYPTION_ENABLE_MASK;
    EncryptionMask(features);
    if !Has(e, ENCRYPTION) {
      if Has(e, CKID_BASED) || Has(e, RANGE_BASED) || Has(e, CKID_REQUIRED) {
        return false;
      }
    } else {
      if Has(e, CKID_BASED) && Has(e, RANGE_BASED) {
        return false;
      }
      if Has(e, CKID_BASED) && !Has(e, CKID_REQUIRED) {
        return false;
      }
      if Has(e, CKID_REQUIRED) && !Has(e, CKID_BASED) {
        return false;
      }
    }
    ok := true;
  }

  /** The rules on the TE features alone, the same on both sides. */
  method CheckTe(features: bv16) returns (ok: bool)
    ensures ok <==> TeCoherent(features)
  {
    var t := features & TE_MASK;
    TeMask(features);
    if Has(t, WRITE_ACCESS) && !Has(t, EXPLICIT_OOB | EXPLICIT_IB) {
      return false;
    }
    if Has(t, READ_ACCESS) && !Has(t, IMPLICIT_CHANGE | EXPLICIT_OOB | EXPLICIT_IB) {
      return false;
    }
    if Has(t, SANITIZE) && !Has(t, EXPLICIT_OOB | EXPLICIT_IB) {
      return false;
    }
    ok := true;
  }

  /** The requester's check of a configuration it read back. */
  method RequesterValidate(c: Configuration) returns (ok: bool)
    ensures ok <==> Coherent(c)
  {
    var e := c.memoryEncryptionFeatures & ENCRYPTION_ENABLE_MASK;
    EncryptionMask(c.memoryEncryptionFeatures);
    ok := CheckEncryption(c.memoryEncryptionFeatures);
    if !ok {
      return;
    }

    var select := c.algorithm & ALGORITHM_MASK;
    if !Has(e, ENCRYPTION) {
      if select != 0 {
        return false;
      }
    } else if !OneHot0(select) {
      return false;
    }

    var t := c.teFeatures & TE_MASK;
    TeMask(c.teFeatures);
    ok := CheckTe(c.teFeatures);
    if !ok {
      return;
    }

    if !Has(t, EXPLICIT_OOB) {
      if c.oobGranularity != 0 {
        return false;
      }
    } else if !OneHot0(c.oobGranularity) {
      return false;
    }

    if Has(e, CKID_REQUIRED) {
      if c.ckidBase >= CKID_LIMIT {
        return false;
      }
      if (c.ckidBase + c.numberOfCkids) % 0x1_0000_0000 >= CKID_LIMIT {
        return false;
      }
    }

    if Has(t, EXPLICIT_IB) {
      ok := CheckLengthIndices(c.ibEntries, false);
    }
  }

  lemma ReservingIsStronger(entries: seq<IbEntry>, reserve7: bool)
    requires IndicesDistinct(entries, reserve7)
    ensures IndicesDistinct(entries, false)
  {
  }

  lemma AnnouncedCount(flags: uint16, n: nat)
    requires Announces(flags, n)
    ensures flags == (match n case 0 => 0 case 1 => 1 case 2 => 3 case 3 => 7 case _ => 0xF)
  {
    assert Pow2(1) == 2 && Pow2(2) == 4 && Pow2(3) == 8 && Pow2(4) == 16;
  }

  lemma CountDecides(flags: uint16, n: nat, caps: Capabilities)
    requires Announces(flags, n)
    ensures SessionsAllowed(flags, caps) <==> n <= caps.numberOfSecondarySessions
  {
    AnnouncedCount(flags, n);
    forall m: nat | Announces(flags, m)
      ensures m == n
    {
      AnnouncedCount(flags, m);
    }
  }

  /** The switch over the validity flags. */
  method CountSecondarySessions(flags: uint16) returns (count: Option<nat>)
    ensures count.Some? ==> Announces(flags, count.value)
    ensures count.None? ==> forall n :: !Announces(flags, n)
  {
    assert Pow2(0) == 1 && Pow2(1) == 2 && Pow2(2) == 4 && Pow2(3) == 8 && Pow2(4) == 16;
    match flags
    case 0 => count := Some(0);
    case 1 => count := Some(1);
    case 3 => count := Some(2);
    case 7 => count := Some(3);
    case 0xF => count := Some(4);
    case _ =>
      forall n | Announces(flags, n)
        ensures false
      {
        AnnouncedCount(flags, n);
      }
      count := None;
  }

  /** The responder also asks that every enabled encryption feature is supported. */
  method CheckEncryptionSupported(features: bv16, supported: bv16) returns (ok: bool)
    ensures ok <==> (Has(features, ENCRYPTION) ==> EncryptionSupported(features, supported))
  {
    var e := features & ENCRYPTION_ENABLE_MASK;
    EncryptionMask(features);
    if Has(e, ENCRYPTION) {
      if !Has(supported, ENCRYPTION) {
        return false;
      }
      if Has(e, CKID_BASED) && !Has(supported, CKID_BASED) {
        return false;
      }
      if Has(e, RANGE_BASED) && !Has(supported, RANGE_BASED) {
        return false;
      }
      if Has(e, CKID_REQUIRED) && !Has(supported, CKID_REQUIRED) {
        return false;
      }
    }
    ok := true;
  }

  /** A selector is one-hot and supported when its feature is on, and zero when it is off. */
  method CheckSelection(enabled: bool, select: bv32, supported: bv32) returns (ok: bool)
    ensures ok <==> Selected(enabled, select) && SelectionSupported(enabled, select, supported)
  {
    if !enabled {
      if select != 0 {
        return false;
      }
    } else {
      if !OneHot0(select) {
        return false;
      }
      if select & supported == 0 {
        return false;
      }
      OneHotSelection(select, supported);
    }
    ok := true;
  }

  method ValidateEncryptionHalf(c: Configuration, caps: Capabilities) returns (ok: bool)
    ensures ok <==> EncryptionHalfCoherent(c) && EncryptionHalfSupported(c, caps)
  {
    var e := c.memoryEncryptionFeatures & ENCRYPTION_ENABLE_MASK;
    EncryptionMask(c.memoryEncryptionFeatures);
    ok := CheckEncryptionSupported(c.memoryEncryptionFeatures, caps.memoryEncryptionFeatures);
    if !ok {
      return;
    }
    ok := CheckEncryption(c.memoryEncryptionFeatures);
    if !ok {
      return;
    }
    ok := CheckSelection(Has(e, ENCRYPTION), c.algorithm & ALGORITHM_MASK, caps.memoryEncryptionAlgorithms);
    if !ok {
      return;
    }
    if Has(e, CKID_REQUIRED) {
      if c.numberOfCkids > caps.numberOfCkids {
        return false;
      }
      if c.ckidBase >= CKID_LIMIT {
        return false;
      }
      if (c.ckidBase + c.numberOfCkids) % 0x1_0000_0000 >= CKID_LIMIT {
        return false;
      }
    }
  }

  method ValidateTeHalf(c: Configuration, caps: Capabilities) returns (ok: bool)
    ensures ok <==> TeHalfCoherent(c) && TeHalfSupported(c, caps)
  {
    var t := c.teFeatures & TE_MASK;
    TeMask(c.teFeatures);
    if t & caps.teFeatures != t {
      return false;
    }
    ok := CheckTe(c.teFeatures);
    if !ok {
      return;
    }
    ok := CheckSelection(Has(t, EXPLICIT_OOB), c.oobGranularity, caps.oobGranularity);
    if !ok {
      return;
    }
    if Has(t, EXPLICIT_IB) {
      var reserve7 := caps.ibGranularity & IB_ENTIRE_MEMORY != 0;
      ok := CheckLengthIndices(c.ibEntries, reserve7);
      if ok {
        ReservingIsStronger(c.ibEntries, reserve7);
      }
    }
  }

  /**
   * The responder's check of SET_TARGET_CONFIGURATION: it accepts exactly the configurations the
   * requester would accept that also stay within the capabilities and the session count.
   */
  method ResponderValidate(c: Configuration, sessions: SecondarySessions, caps: Capabilities) returns (ok: bool)
    ensures ok <==> ResponderAccepts(c, sessions, caps)
  {
    ok := ValidateEncryptionHalf(c, caps);
    if !ok {
      return;
    }
    ok := ValidateTeHalf(c, caps);
    if !ok {
      return;
    }
    var count := CountSecondarySessions(sessions.validityFlags);
    if count.None? {
      return false;
    }
    CountDecides(sessions.validityFlags, count.value, caps);
    ok := count.value <= caps.numberOfSecondarySessions;
  }
}
