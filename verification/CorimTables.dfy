/**
 * The name tables of the CoRIM tool. Strings are represented by `Text`: one constructor per table,
 * holding the names of that table, `TaggedKey(b, t)` for the key "b_t" with a tag suffix, `Other`
 * for every other string, and `NoName` for Python's None.
 */
module CorimTables {
  import opened Words

  datatype MidKey = Language | TagIdentity | Entity | LinkedTags | Triples
  datatype IdentityKey = TagId | TagVersion
  datatype EntityKey = EntityName | RegId | Role
  datatype LinkKey = LinkedTagId | TagRel
  datatype TriplesKey = ReferenceTriples | EndorsedTriples | IdentityTriples | AttestKeyTriples
  datatype EnvironmentKey = Class | Instance | Group
  datatype ClassKey = ClassId | Vendor | Model | Layer | Index
  datatype MeasurementKey = Mkey | Mval
  datatype ValueKey = Ver | Svn | Digests | FlagBits | RawValue | RawValueMask | MacAddr | IpAddr | SerialNumber | Ueid | Uuid | ValueName
  datatype VersionKey = Version | VersionScheme
  datatype VerificationKey = VerifyKey | Keychain
  datatype RelationChoice = Supplements | Replaces
  datatype RoleChoice = TagCreator | Creator | Maintainer
  datatype ManifestKey = CorimId | CorimTags | DependentRims | Profile
  datatype LocatorKey = Href | Thumbprint
  datatype HeaderKey = AlgId | ContentType | IssuerKeyId | Meta
  datatype MetaKey = Signer | Validity
  datatype SignerKey = SignerName | SignerRegId | SignerRole
  datatype SignerRoleChoice = ManifestCreator | ManifestSigner
  datatype ValidityKey = NotBefore | NotAfter
  datatype HashName = Sha256 | Sha384 | Sha512
  datatype SignName = Es256 | Es384 | Es512
  datatype CorimTagName = Corim | UnsignedCorim | SignedCorim | ConciseSwid | ConciseMid
  datatype ComidTagName = TaggedOid | TaggedUuid | TaggedUeid | TaggedSvn | TaggedMinSvn
  datatype CoseName = CoseSign | CoseSign1 | CoseEncrypt | CoseEncrypt0 | CoseMac | CoseMac0

  datatype Text =
    | NoName
    | TaggedKey(base: Text, tag: Text)
    | Other(text: string)
    | Mid(MidKey)
    | Identity(IdentityKey)
    | EntityPart(EntityKey)
    | Link(LinkKey)
    | Triple(TriplesKey)
    | Environment(EnvironmentKey)
    | ClassPart(ClassKey)
    | Measurement(MeasurementKey)
    | Value(ValueKey)
    | VersionPart(VersionKey)
    | Verification(VerificationKey)
    | Relation(RelationChoice)
    | RoleName(RoleChoice)
    | Manifest(ManifestKey)
    | Locator(LocatorKey)
    | Header(HeaderKey)
    | MetaPart(MetaKey)
    | SignerPart(SignerKey)
    | SignerRoleName(SignerRoleChoice)
    | ValidityPart(ValidityKey)
    | Hash(HashName)
    | Sign(sign: SignName)
    | CorimTag(CorimTagName)
    | ComidTag(comidTag: ComidTagName)
    | CoseType(CoseName)

  /** A Python dict from names to codes, in order. */
  datatype Table = End | Row(name: Text, code: int, rest: Table)

  function ConciseMidMap(): Table {
    Row(Mid(Language), 0, Row(Mid(TagIdentity), 1, Row(Mid(Entity), 2, Row(Mid(LinkedTags), 3,
    Row(Mid(Triples), 4, End)))))
  }
  function TagIdentityMap(): Table { Row(Identity(TagId), 0, Row(Identity(TagVersion), 1, End)) }
  function EntityMap(): Table {
    Row(EntityPart(EntityName), 0, Row(EntityPart(RegId), 1, Row(EntityPart(Role), 2, End)))
  }
  function LinkedTagMap(): Table { Row(Link(LinkedTagId), 0, Row(Link(TagRel), 1, End)) }
  function TriplesMap(): Table {
    Row(Triple(ReferenceTriples), 0, Row(Triple(EndorsedTriples), 1, Row(Triple(IdentityTriples), 2,
    Row(Triple(AttestKeyTriples), 3, End))))
  }
  function EnvironmentMap(): Table {
    Row(Environment(Class), 0, Row(Environment(Instance), 1, Row(Environment(Group), 2, End)))
  }
  function ClassMap(): Table {
    Row(ClassPart(ClassId), 0, Row(ClassPart(Vendor), 1, Row(ClassPart(Model), 2, Row(ClassPart(Layer), 3,
    Row(ClassPart(Index), 4, End)))))
  }
  function MeasurementMap(): Table { Row(Measurement(Mkey), 0, Row(Measurement(Mval), 1, End)) }
  function MeasurementValueMap(): Table {
    Row(Value(Ver), 0, Row(Value(Svn), 1, Row(Value(Digests), 2, Row(Value(FlagBits), 3,
    Row(Value(RawValue), 4, Row(Value(RawValueMask), 5, AddressValues()))))))
  }
  function AddressValues(): Table {
    Row(Value(MacAddr), 6, Row(Value(IpAddr), 7, Row(Value(SerialNumber), 8, Row(Value(Ueid), 9,
    Row(Value(Uuid), 10, Row(Value(ValueName), 11, End))))))
  }
  function VersionMap(): Table { Row(VersionPart(Version), 0, Row(VersionPart(VersionScheme), 1, End)) }
  function ComidRoles(): Table {
    Row(RoleName(TagCreator), 0, Row(RoleName(Creator), 1, Row(RoleName(Maintainer), 2, End)))
  }
  function UnsignedCorimMap(): Table {
    Row(Manifest(CorimId), 0, Row(Manifest(CorimTags), 1, Row(Manifest(DependentRims), 2,
    Row(Manifest(Profile), 3, End))))
  }
  function CorimLocatorMap(): Table { Row(Locator(Href), 0, Row(Locator(Thumbprint), 1, End)) }
  function ProtectedHeaderMap(): Table {
    Row(Header(AlgId), 1, Row(Header(ContentType), 3, Row(Header(IssuerKeyId), 4, Row(Header(Meta), 8, End))))
  }
  function CorimMetaMap(): Table { Row(MetaPart(Signer), 0, Row(MetaPart(Validity), 1, End)) }
  function CorimEntityMap(): Table {
    Row(SignerPart(SignerName), 0, Row(SignerPart(SignerRegId), 1, Row(SignerPart(SignerRole), 2, End)))
  }
  function CorimRoles(): Table {
    Row(SignerRoleName(ManifestCreator), 1, Row(SignerRoleName(ManifestSigner), 2, End))
  }
  function HashAlgorithms(): Table { Row(Hash(Sha256), 1, Row(Hash(Sha384), 7, Row(Hash(Sha512), 8, End))) }
  function SignAlgorithms(): Table {
    Row(Sign(Es256), -7, Row(Sign(Es384), -35, Row(Sign(Es512), -36, End)))
  }
  function CorimCborTags(): Table {
    Row(CorimTag(Corim), 500, Row(CorimTag(UnsignedCorim), 501, Row(CorimTag(SignedCorim), 502,
    Row(CorimTag(ConciseSwid), 505, Row(CorimTag(ConciseMid), 506, End)))))
  }
  function ComidCborTags(): Table {
    Row(ComidTag(TaggedOid), 111, Row(ComidTag(TaggedUuid), 37, Row(ComidTag(TaggedUeid), 550,
    Row(ComidTag(TaggedSvn), 552, Row(ComidTag(TaggedMinSvn), 553, End)))))
  }
  function CoseTypes(): Table {
    Row(CoseType(CoseSign), 98, Row(CoseType(CoseSign1), 18, Row(CoseType(CoseEncrypt), 96,
    Row(CoseType(CoseEncrypt0), 16, Row(CoseType(CoseMac), 97, Row(CoseType(CoseMac0), 17, End))))))
  }

  // The codes of the names, table by table.
  function MidKeyCode(k: MidKey): int { match k case Language => 0 case TagIdentity => 1 case Entity => 2 case LinkedTags => 3 case Triples => 4 }
  function IdentityKeyCode(k: IdentityKey): int { match k case TagId => 0 case TagVersion => 1 }
  function EntityKeyCode(k: EntityKey): int { match k case EntityName => 0 case RegId => 1 case Role => 2 }
  function LinkKeyCode(k: LinkKey): int { match k case LinkedTagId => 0 case TagRel => 1 }
  function TriplesKeyCode(k: TriplesKey): int { match k case ReferenceTriples => 0 case EndorsedTriples => 1 case IdentityTriples => 2 case AttestKeyTriples => 3 }
  function EnvironmentKeyCode(k: EnvironmentKey): int { match k case Class => 0 case Instance => 1 case Group => 2 }
  function ClassKeyCode(k: ClassKey): int { match k case ClassId => 0 case Vendor => 1 case Model => 2 case Layer => 3 case Index => 4 }
  function MeasurementKeyCode(k: MeasurementKey): int { match k case Mkey => 0 case Mval => 1 }
  function ValueKeyCode(k: ValueKey): int { match k case Ver => 0 case Svn => 1 case Digests => 2 case FlagBits => 3 case RawValue => 4 case RawValueMask => 5 case MacAddr => 6 case IpAddr => 7 case SerialNumber => 8 case Ueid => 9 case Uuid => 10 case ValueName => 11 }
  function VersionKeyCode(k: VersionKey): int { match k case Version => 0 case VersionScheme => 1 }
  function VerificationKeyCode(k: VerificationKey): int { match k case VerifyKey => 0 case Keychain => 1 }
  function RelationChoiceCode(k: RelationChoice): int { match k case Supplements => 0 case Replaces => 1 }
  function RoleChoiceCode(k: RoleChoice): int { match k case TagCreator => 0 case Creator => 1 case Maintainer => 2 }
  function ManifestKeyCode(k: ManifestKey): int { match k case CorimId => 0 case CorimTags => 1 case DependentRims => 2 case Profile => 3 }
  function LocatorKeyCode(k: LocatorKey): int { match k case Href => 0 case Thumbprint => 1 }
  function HeaderKeyCode(k: HeaderKey): int { match k case AlgId => 1 case ContentType => 3 case IssuerKeyId => 4 case Meta => 8 }
  function MetaKeyCode(k: MetaKey): int { match k case Signer => 0 case Validity => 1 }
  function SignerKeyCode(k: SignerKey): int { match k case SignerName => 0 case SignerRegId => 1 case SignerRole => 2 }
  function SignerRoleChoiceCode(k: SignerRoleChoice): int { match k case ManifestCreator => 1 case ManifestSigner => 2 }
  function ValidityKeyCode(k: ValidityKey): int { match k case NotBefore => 0 case NotAfter => 1 }

  /** AllMapDict: the code of every key name and role name, whatever its context. */
  function CodeOf(name: Text): Option<int> {
    match name
    case Mid(k) => Some(MidKeyCode(k))
    case Identity(k) => Some(IdentityKeyCode(k))
    case EntityPart(k) => Some(EntityKeyCode(k))
    case Link(k) => Some(LinkKeyCode(k))
    case Triple(k) => Some(TriplesKeyCode(k))
    case Environment(k) => Some(EnvironmentKeyCode(k))
    case ClassPart(k) => Some(ClassKeyCode(k))
    case Measurement(k) => Some(MeasurementKeyCode(k))
    case Value(k) => Some(ValueKeyCode(k))
    case VersionPart(k) => Some(VersionKeyCode(k))
    case Verification(k) => Some(VerificationKeyCode(k))
    case Relation(k) => Some(RelationChoiceCode(k))
    case RoleName(k) => Some(RoleChoiceCode(k))
    case Manifest(k) => Some(ManifestKeyCode(k))
    case Locator(k) => Some(LocatorKeyCode(k))
    case Header(k) => Some(HeaderKeyCode(k))
    case MetaPart(k) => Some(MetaKeyCode(k))
    case SignerPart(k) => Some(SignerKeyCode(k))
    case SignerRoleName(k) => Some(SignerRoleChoiceCode(k))
    case ValidityPart(k) => Some(ValidityKeyCode(k))
    case _ => None
  }

  /** LogicMapList: the table that gives the keys of a map (or the items of a list) found under a name. */
  function LogicMap(context: Text): Option<Table> {
    match context
    case CorimTag(k) => if k == UnsignedCorim then Some(UnsignedCorimMap()) else None
    case CoseType(k) => if k == CoseSign1 then Some(ProtectedHeaderMap()) else None
    case Manifest(k) =>
      if k == CorimTags then Some(ConciseMidMap()) else if k == DependentRims then Some(CorimLocatorMap()) else None
    case Mid(k) =>
      (match k
       case TagIdentity => Some(TagIdentityMap())
       case Entity => Some(EntityMap())
       case LinkedTags => Some(LinkedTagMap())
       case Triples => Some(TriplesMap())
       case Language => None)
    case EntityPart(k) => if k == Role then Some(ComidRoles()) else None
    case Triple(_) => Some(EnvironmentMap())
    case Environment(k) => if k == Class then Some(ClassMap()) else None
    case Measurement(k) => if k == Mval then Some(MeasurementValueMap()) else None
    case Value(k) =>
      if k == Digests then Some(HashAlgorithms()) else if k == Ver then Some(VersionMap()) else None
    case Header(k) =>
      if k == Meta then Some(CorimMetaMap()) else if k == AlgId then Some(SignAlgorithms()) else None
    case MetaPart(k) => if k == Signer then Some(CorimEntityMap()) else None
    case SignerPart(k) => if k == SignerRole then Some(CorimRoles()) else None
    case _ => None
  }

  // ----- Looking a name up by its code -----

  datatype Scalar = Str(text: Text) | Int(value: int) | Bool(flag: bool) | Float(number: real) | Null

  /** Python's ==: true is 1, and 1.0 is 1. */
  predicate EqualsCode(s: Scalar, code: int) {
    match s
    case Int(n) => n == code
    case Bool(b) => (if b then 1 else 0) == code
    case Float(r) => r == code as real
    case _ => false
  }

  /** The first name with that code. */
  function KeyByValue(table: Table, s: Scalar): Option<Text> {
    match table
    case End => None
    case Row(name, code, rest) => if EqualsCode(s, code) then Some(name) else KeyByValue(rest, s)
  }

  function KeyInTables(tables: seq<Table>, s: Scalar): Option<Text> {
    if tables == [] then None
    else if KeyByValue(tables[0], s).Some? then KeyByValue(tables[0], s)
    else KeyInTables(tables[1..], s)
  }

  method GetKeyByValue(tables: seq<Table>, s: Scalar) returns (name: Option<Text>)
    ensures name == KeyInTables(tables, s)
  {
    for t := 0 to |tables|
      invariant KeyInTables(tables, s) == KeyInTables(tables[t..], s)
    {
      assert tables[t..][1..] == tables[t + 1..];
      var row := tables[t];
      while row.Row?
        invariant KeyByValue(tables[t], s) == KeyByValue(row, s)
        decreases row
      {
        if EqualsCode(s, row.code) {
          return Some(row.name);
        }
        row := row.rest;
      }
    }
    name := None;
  }

  predicate Contains(table: Table, name: Text) {
    table.Row? && (table.name == name || Contains(table.rest, name))
  }

  /** Codes ascend, so they are unambiguous, and are the codes the translator uses. */
  predicate Consistent(table: Table) {
    table.Row? ==>
      && CodeOf(table.name) == Some(table.code)
      && (table.rest.Row? ==> table.code < table.rest.code)
      && Consistent(table.rest)
  }

  lemma {:induction false} LaterCodesAreLarger(table: Table, name: Text)
    requires Consistent(table) && table.Row? && Contains(table.rest, name)
    ensures CodeOf(name).Some? && CodeOf(name).value > table.code
  {
    if table.rest.name != name {
      LaterCodesAreLarger(table.rest, name);
    }
  }

  /** In a consistent table every name is found by its code. */
  lemma {:induction false} NameRecovered(table: Table, name: Text)
    requires Consistent(table) && Contains(table, name)
    ensures CodeOf(name).Some? && KeyByValue(table, Int(CodeOf(name).value)) == Some(name)
  {
    if table.name != name {
      LaterCodesAreLarger(table, name);
      NameRecovered(table.rest, name);
    }
  }

  lemma AddressValuesConsistent()
    ensures Consistent(AddressValues())
  {
  }

  lemma MeasurementValuesConsistent()
    ensures Consistent(MeasurementValueMap())
  {
    AddressValuesConsistent();
  }

  lemma MidTablesConsistent()
    ensures Consistent(ConciseMidMap()) && Consistent(TagIdentityMap()) && Consistent(EntityMap())
  {
  }

  lemma TripleTablesConsistent()
    ensures Consistent(LinkedTagMap()) && Consistent(TriplesMap()) && Consistent(EnvironmentMap())
  {
  }

  lemma ClassMapConsistent()
    ensures Consistent(ClassMap())
  {
  }

  lemma ClassTablesConsistent()
    ensures Consistent(MeasurementMap()) && Consistent(VersionMap())
    ensures Consistent(ComidRoles()) && Consistent(CorimLocatorMap())
  {
  }

  lemma CorimTablesConsistent()
    ensures Consistent(UnsignedCorimMap()) && Consistent(CorimRoles()) && Consistent(CorimMetaMap())
  {
  }

  lemma HeaderTablesConsistent()
    ensures Consistent(ProtectedHeaderMap()) && Consistent(CorimEntityMap())
  {
  }

  /** The two tables of algorithm names hold no key names. */
  predicate NamesAlgorithms(context: Text) {
    context == Value(Digests) || context == Header(AlgId)
  }

  predicate IsComidContext(context: Text) {
    context.Mid? || context.EntityPart? || context.Triple? || context.Environment? || context.Measurement? || context.Value?
  }

  lemma ComidTablesConsistent(context: Text)
    requires LogicMap(context).Some? && IsComidContext(context) && context != Value(Digests)
    ensures Consistent(LogicMap(context).value)
  {
    MidTablesConsistent();
    TripleTablesConsistent();
    ClassMapConsistent();
    ClassTablesConsistent();
    MeasurementValuesConsistent();
  }

  lemma OtherTablesConsistent(context: Text)
    requires LogicMap(context).Some? && !IsComidContext(context) && context != Header(AlgId)
    ensures Consistent(LogicMap(context).value)
  {
    MidTablesConsistent();
    ClassTablesConsistent();
    CorimTablesConsistent();
    HeaderTablesConsistent();
  }

  /** Every table that gives the keys of a map is consistent. */
  lemma TablesConsistent(context: Text)
    requires LogicMap(context).Some? && !NamesAlgorithms(context)
    ensures Consistent(LogicMap(context).value)
  {
    if IsComidContext(context) {
      ComidTablesConsistent(context);
    } else {
      OtherTablesConsistent(context);
    }
  }
}
