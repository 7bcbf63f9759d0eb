/**
 * The data of the CXL TSP target (CXL 3.1, section 11.5): feature words, capabilities,
 * configuration and the secondary-session information of SET_TARGET_CONFIGURATION.
 */
module CxlTspData {
  import opened Words

  // Memory encryption features. The enable and the support words use the same bit positions.
  const ENCRYPTION: bv16 := 0x0001
  const CKID_BASED: bv16 := 0x0002
  const RANGE_BASED: bv16 := 0x0004
  const INITIATOR_ENTROPY: bv16 := 0x0008
  const CKID_REQUIRED: bv16 := 0x0010
  const ENCRYPTION_ENABLE_MASK: bv16 := ENCRYPTION | CKID_BASED | RANGE_BASED | CKID_REQUIRED
  const ENCRYPTION_SUPPORT_MASK: bv16 := ENCRYPTION_ENABLE_MASK | INITIATOR_ENTROPY

  const AES_XTS_128: bv32 := 0x0000_0001
  const AES_XTS_256: bv32 := 0x0000_0002
  const VENDOR_SPECIFIC: bv32 := 0x8000_0000
  const ALGORITHM_MASK: bv32 := AES_XTS_128 | AES_XTS_256 | VENDOR_SPECIFIC

  // TE state change and access control features.
  const WRITE_ACCESS: bv16 := 0x0001
  const READ_ACCESS: bv16 := 0x0002
  const IMPLICIT_CHANGE: bv16 := 0x0004
  const EXPLICIT_OOB: bv16 := 0x0008
  const EXPLICIT_IB: bv16 := 0x0010
  const SANITIZE: bv16 := 0x0020
  const TE_MASK: bv16 := WRITE_ACCESS | READ_ACCESS | IMPLICIT_CHANGE | EXPLICIT_OOB | EXPLICIT_IB | SANITIZE

  const IB_64B: bv32 := 0x0000_0001
  const IB_ENTIRE_MEMORY: bv32 := 0x8000_0000
  const IB_GRANULARITY_MASK: bv32 := 0x7FF | IB_ENTIRE_MEMORY

  const LOCKED_FW_UPDATE: bv16 := 0x0001
  const ADDITIONAL_SESSIONS: bv16 := 0x0002

  const CKID_LIMIT := 0x2000
  const SECONDARY_SESSION_COUNT := 4
  const PSK_KEY_SIZE := 32

  datatype Capabilities = Capabilities(
    memoryEncryptionFeatures: bv16, memoryEncryptionAlgorithms: bv32, rangeBasedKeys: uint16,
    teFeatures: bv16, oobGranularity: bv32, ibGranularity: bv32,
    configurationFeatures: bv16, numberOfCkids: uint32, numberOfSecondarySessions: byte)

  /** One explicit in-band granularity entry; `range` stands for the fields nobody inspects. */
  datatype IbEntry = IbEntry(lengthIndex: bv8, range: uint64)

  type IbEntries = s: seq<IbEntry> | |s| == 8 witness seq(8, _ => IbEntry(0, 0))

  datatype Configuration = Configuration(
    memoryEncryptionFeatures: bv16, algorithm: bv32, teFeatures: bv16, oobGranularity: bv32,
    configurationFeatures: bv16, ckidBase: uint32, numberOfCkids: uint32, ibEntries: IbEntries)

  type PskKey = s: seq<byte> | |s| == PSK_KEY_SIZE witness seq(PSK_KEY_SIZE, _ => 0)
  type PskKeys = s: seq<PskKey> | |s| == SECONDARY_SESSION_COUNT
    witness [ZeroKey(), ZeroKey(), ZeroKey(), ZeroKey()]

  datatype SecondarySessions = SecondarySessions(validityFlags: uint16, ckidType: byte, keys: PskKeys)

  predicate Has(word: bv16, bits: bv16) {
    word & bits != 0
  }

  function ZeroCapabilities(): Capabilities {
    Capabilities(0, 0, 0, 0, 0, 0, 0, 0, 0)
  }

  function ZeroConfiguration(): Configuration {
    Configuration(0, 0, 0, 0, 0, 0, 0, seq(8, _ => IbEntry(0, 0)))
  }

  function ZeroKey(): PskKey {
    seq(PSK_KEY_SIZE, _ => 0)
  }

  function ZeroKeys(): PskKeys {
    [ZeroKey(), ZeroKey(), ZeroKey(), ZeroKey()]
  }

  // ----- libspdm_onehot0 -----

  predicate OneHot0(mask: bv32) {
    mask == 0 || mask & (mask - 1) == 0
  }

  predicate IsBit(mask: bv32, k: bv32) {
    k < 32 && mask == 1 << k
  }

  /** One-hot means what the name says: no bit, or exactly one. */
  lemma OneHotMeaning(mask: bv32)
    ensures OneHot0(mask) <==> mask == 0 || exists k :: IsBit(mask, k)
  {
    if OneHot0(mask) && mask != 0 {
      var k := OneHotPosition(mask);
      assert IsBit(mask, k);
    }
  }

  lemma OneHotPosition(mask: bv32) returns (k: bv32)
    requires OneHot0(mask) && mask != 0
    ensures k < 32 && mask == 1 << k
  {
    k := if mask & 0xAAAA_AAAA != 0 then 1 else 0;
    k := k | (if mask & 0xCCCC_CCCC != 0 then 2 else 0);
    k := k | (if mask & 0xF0F0_F0F0 != 0 then 4 else 0);
    k := k | (if mask & 0xFF00_FF00 != 0 then 8 else 0);
    k := k | (if mask & 0xFFFF_0000 != 0 then 16 else 0);
  }

  /** A one-hot selection that meets a set of bits lies in it. */
  lemma OneHotSelection(select: bv32, supported: bv32)
    requires OneHot0(select) && select & supported != 0
    ensures select != 0 && select & supported == select
  {
  }
}
