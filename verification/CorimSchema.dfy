/** The schema written out by name, apart from the tables. */
module CorimSchema {
  import opened Words
  import opened CorimTables
  import opened CorimTrees
  import opened CorimRoundTrip
  import opened CorimExact

  // ----- Which keys a dict may have -----

  /** Under each name, the kind of keys that belong there. */
  predicate Allowed(context: Text, key: Text) {
    match context
    case CorimTag(UnsignedCorim) => key.Manifest?
    case CoseType(CoseSign1) => key.Header?
    case Manifest(CorimTags) => key.Mid?
    case Manifest(DependentRims) => key.Locator?
    case Mid(TagIdentity) => key.Identity?
    case Mid(Entity) => key.EntityPart?
    case Mid(LinkedTags) => key.Link?
    case Mid(Triples) => key.Triple?
    case EntityPart(Role) => key.RoleName?
    case Triple(_) => key.Environment?
    case Environment(Class) => key.ClassPart?
    case Measurement(Mval) => key.Value?
    case Value(Ver) => key.VersionPart?
    case Header(Meta) => key.MetaPart?
    case MetaPart(Signer) => key.SignerPart?
    case SignerPart(SignerRole) => key.SignerRoleName?
    case _ => false
  }

  function Names(table: Table): seq<Text> {
    match table case End => [] case Row(name, _, rest) => [name] + Names(rest)
  }

  lemma {:induction false} ContainsName(table: Table, key: Text)
    ensures Contains(table, key) <==> key in Names(table)
  {
    if table.Row? {
      ContainsName(table.rest, key);
    }
  }

  // Each table has exactly the names of one kind.

  lemma MidKeys(key: Text)
    ensures key in Names(ConciseMidMap()) <==> key.Mid?
  {
    var names :=
      [Mid(Language), Mid(TagIdentity), Mid(Entity), Mid(LinkedTags), Mid(Triples)];
    assert Names(ConciseMidMap()) == names;
    match key
    case Mid(k) => assert k.Language? || k.TagIdentity? || k.Entity? || k.LinkedTags? || k.Triples?;
    case _ =>
  }

  lemma IdentityKeys(key: Text)
    ensures key in Names(TagIdentityMap()) <==> key.Identity?
  {
    var names :=
      [Identity(TagId), Identity(TagVersion)];
    assert Names(TagIdentityMap()) == names;
    match key
    case Identity(k) => assert k.TagId? || k.TagVersion?;
    case _ =>
  }

  lemma EntityKeys(key: Text)
    ensures key in Names(EntityMap()) <==> key.EntityPart?
  {
    var names :=
      [EntityPart(EntityName), EntityPart(RegId), EntityPart(Role)];
    assert Names(EntityMap()) == names;
    match key
    case EntityPart(k) => assert k.EntityName? || k.RegId? || k.Role?;
    case _ =>
  }

  lemma LinkKeys(key: Text)
    ensures key in Names(LinkedTagMap()) <==> key.Link?
  {
    var names :=
      [Link(LinkedTagId), Link(TagRel)];
    assert Names(LinkedTagMap()) == names;
    match key
    case Link(k) => assert k.LinkedTagId? || k.TagRel?;
    case _ =>
  }

  lemma TripleKeys(key: Text)
    ensures key in Names(TriplesMap()) <==> key.Triple?
  {
    var names :=
      [Triple(ReferenceTriples), Triple(EndorsedTriples),
       Triple(IdentityTriples), Triple(AttestKeyTriples)];
    assert Names(TriplesMap()) == names;
    match key
    case Triple(k) => assert k.ReferenceTriples? || k.EndorsedTriples? || k.IdentityTriples? || k.AttestKeyTriples?;
    case _ =>
  }

  lemma EnvironmentKeys(key: Text)
    ensures key in Names(EnvironmentMap()) <==> key.Environment?
  {
    var names :=
      [Environment(Class), Environment(Instance), Environment(Group)];
    assert Names(EnvironmentMap()) == names;
    match key
    case Environment(k) => assert k.Class? || k.Instance? || k.Group?;
    case _ =>
  }

  lemma ClassKeys(key: Text)
    ensures key in Names(ClassMap()) <==> key.ClassPart?
  {
    var names :=
      [ClassPart(ClassId), ClassPart(Vendor),
       ClassPart(Model), ClassPart(Layer), ClassPart(Index)];
    assert Names(ClassMap()) == names;
    match key
    case ClassPart(k) => assert k.ClassId? || k.Vendor? || k.Model? || k.Layer? || k.Index?;
    case _ =>
  }

  lemma ValueKeys(key: Text)
    ensures key in Names(MeasurementValueMap()) <==> key.Value?
  {
    var names :=
      [Value(Ver), Value(Svn), Value(Digests), Value(FlagBits), Value(RawValue), Value(RawValueMask),
       Value(MacAddr), Value(IpAddr), Value(SerialNumber), Value(Ueid), Value(Uuid), Value(ValueName)];
    assert Names(MeasurementValueMap()) == names;
    match key
    case Value(k) => assert k.Ver? || k.Svn? || k.Digests? || k.FlagBits? || k.RawValue? || k.RawValueMask? || k.MacAddr? || k.IpAddr? || k.SerialNumber? || k.Ueid? || k.Uuid? || k.ValueName?;
    case _ =>
  }

  lemma VersionKeys(key: Text)
    ensures key in Names(VersionMap()) <==> key.VersionPart?
  {
    var names :=
      [VersionPart(Version), VersionPart(VersionScheme)];
    assert Names(VersionMap()) == names;
    match key
    case VersionPart(k) => assert k.Version? || k.VersionScheme?;
    case _ =>
  }

  lemma RoleNames(key: Text)
    ensures key in Names(ComidRoles()) <==> key.RoleName?
  {
    var names :=
      [RoleName(TagCreator), RoleName(Creator), RoleName(Maintainer)];
    assert Names(ComidRoles()) == names;
    match key
    case RoleName(k) => assert k.TagCreator? || k.Creator? || k.Maintainer?;
    case _ =>
  }

  lemma ManifestKeys(key: Text)
    ensures key in Names(UnsignedCorimMap()) <==> key.Manifest?
  {
    var names :=
      [Manifest(CorimId), Manifest(CorimTags), Manifest(DependentRims), Manifest(Profile)];
    assert Names(UnsignedCorimMap()) == names;
    match key
    case Manifest(k) => assert k.CorimId? || k.CorimTags? || k.DependentRims? || k.Profile?;
    case _ =>
  }

  lemma LocatorKeys(key: Text)
    ensures key in Names(CorimLocatorMap()) <==> key.Locator?
  {
    var names :=
      [Locator(Href), Locator(Thumbprint)];
    assert Names(CorimLocatorMap()) == names;
    match key
    case Locator(k) => assert k.Href? || k.Thumbprint?;
    case _ =>
  }

  lemma HeaderKeys(key: Text)
    ensures key in Names(ProtectedHeaderMap()) <==> key.Header?
  {
    var names :=
      [Header(AlgId), Header(ContentType), Header(IssuerKeyId), Header(Meta)];
    assert Names(ProtectedHeaderMap()) == names;
    match key
    case Header(k) => assert k.AlgId? || k.ContentType? || k.IssuerKeyId? || k.Meta?;
    case _ =>
  }

  lemma MetaKeys(key: Text)
    ensures key in Names(CorimMetaMap()) <==> key.MetaPart?
  {
    var names :=
      [MetaPart(Signer), MetaPart(Validity)];
    assert Names(CorimMetaMap()) == names;
    match key
    case MetaPart(k) => assert k.Signer? || k.Validity?;
    case _ =>
  }

  lemma SignerKeys(key: Text)
    ensures key in Names(CorimEntityMap()) <==> key.SignerPart?
  {
    var names :=
      [SignerPart(SignerName), SignerPart(SignerRegId), SignerPart(SignerRole)];
    assert Names(CorimEntityMap()) == names;
    match key
    case SignerPart(k) => assert k.SignerName? || k.SignerRegId? || k.SignerRole?;
    case _ =>
  }

  lemma SignerRoles(key: Text)
    ensures key in Names(CorimRoles()) <==> key.SignerRoleName?
  {
    var names :=
      [SignerRoleName(ManifestCreator), SignerRoleName(ManifestSigner)];
    assert Names(CorimRoles()) == names;
    match key
    case SignerRoleName(k) => assert k.ManifestCreator? || k.ManifestSigner?;
    case _ =>
  }

  function KeysOf(context: Text): Table {
    match LogicMap(context) case Some(table) => table case None => End
  }

  lemma MidAllows(k: MidKey, key: Text)
    ensures Contains(KeysOf(Mid(k)), key) <==> Allowed(Mid(k), key)
  {
    ContainsName(KeysOf(Mid(k)), key);
    match k
    case TagIdentity => IdentityKeys(key);
    case Entity => EntityKeys(key);
    case LinkedTags => LinkKeys(key);
    case Triples => TripleKeys(key);
    case Language =>
  }

  lemma ManifestAllows(k: ManifestKey, key: Text)
    ensures Contains(KeysOf(Manifest(k)), key) <==> Allowed(Manifest(k), key)
  {
    ContainsName(KeysOf(Manifest(k)), key);
    if k == CorimTags {
      MidKeys(key);
    } else if k == DependentRims {
      LocatorKeys(key);
    }
  }

  lemma ComidAllows(context: Text, key: Text)
    requires context.EntityPart? || context.Triple? || context.Environment? || context.Measurement? || context.Value?
    requires !NamesAlgorithms(context)
    ensures Contains(KeysOf(context), key) <==> Allowed(context, key)
  {
    ContainsName(KeysOf(context), key);
    match context
    case EntityPart(_) => RoleNames(key);
    case Triple(_) => EnvironmentKeys(key);
    case Environment(_) => ClassKeys(key);
    case Measurement(_) => ValueKeys(key);
    case Value(_) => VersionKeys(key);
  }

  lemma CorimAllows(context: Text, key: Text)
    requires context.CorimTag? || context.CoseType? || context.Header? || context.MetaPart? || context.SignerPart?
    requires !NamesAlgorithms(context)
    ensures Contains(KeysOf(context), key) <==> Allowed(context, key)
  {
    ContainsName(KeysOf(context), key);
    match context
    case CorimTag(_) => ManifestKeys(key);
    case CoseType(_) => HeaderKeys(key);
    case Header(_) => MetaKeys(key);
    case MetaPart(_) => SignerKeys(key);
    case SignerPart(_) => SignerRoles(key);
  }

  lemma TableAllows(context: Text, key: Text)
    requires !NamesAlgorithms(context)
    ensures Contains(KeysOf(context), key) <==> Allowed(context, key)
  {
    match context
    case Mid(k) => MidAllows(k, key);
    case Manifest(k) => ManifestAllows(k, key);
    case EntityPart(_) => ComidAllows(context, key);
    case Triple(_) => ComidAllows(context, key);
    case Environment(_) => ComidAllows(context, key);
    case Measurement(_) => ComidAllows(context, key);
    case Value(_) => ComidAllows(context, key);
    case CorimTag(_) => CorimAllows(context, key);
    case CoseType(_) => CorimAllows(context, key);
    case Header(_) => CorimAllows(context, key);
    case MetaPart(_) => CorimAllows(context, key);
    case SignerPart(_) => CorimAllows(context, key);
    case _ =>
  }

  /**
   * The schema used for the round trip is this one; under reference triples a dict without a class
   * is a measurement without a key.
   */
  lemma SchemaAllows(context: Text, fields: seq<(Text, Json)>, key: Text)
    ensures Contains(Schema(context, fields), key) <==>
              if context == Triple(ReferenceTriples) && !HasBase(fields, Environment(Class)) then key == Measurement(Mval)
              else Allowed(context, key)
  {
    if context == Triple(ReferenceTriples) && !HasBase(fields, Environment(Class)) {
      ContainsName(Row(Measurement(Mval), 1, End), key);
      assert Names(Row(Measurement(Mval), 1, End)) == [Measurement(Mval)];
    } else if !NamesAlgorithms(context) {
      TableAllows(context, key);
    }
  }

  // ----- Which codes in lists stand for which names -----

  /** The number a scalar equals in Python. */
  function NumberOf(s: Scalar): Option<int> {
    match s
    case Int(n) => Some(n)
    case Bool(b) => Some(if b then 1 else 0)
    case Float(r) => if r == r.Floor as real then Some(r.Floor) else None
    case _ => None
  }

  /** Role lists and digest lists, by number. */
  function ListName(context: Text, n: int): Option<Text> {
    match context
    case EntityPart(Role) =>
      if n == 0 then Some(RoleName(TagCreator)) else if n == 1 then Some(RoleName(Creator))
      else if n == 2 then Some(RoleName(Maintainer)) else None
    case Value(Digests) =>
      if n == 1 then Some(Hash(Sha256)) else if n == 7 then Some(Hash(Sha384)) else if n == 8 then Some(Hash(Sha512)) else None
    case SignerPart(SignerRole) =>
      if n == 1 then Some(SignerRoleName(ManifestCreator)) else if n == 2 then Some(SignerRoleName(ManifestSigner)) else None
    case _ => None
  }

  lemma {:induction false} ByNumber(table: Table, s: Scalar)
    ensures KeyByValue(table, s) == match NumberOf(s) case None => None case Some(n) => KeyByValue(table, Int(n))
  {
    if table.Row? {
      ByNumber(table.rest, s);
    }
  }

  lemma ThreeRows(table: Table, n: int)
    requires table.Row? && table.rest.Row? && table.rest.rest.Row? && table.rest.rest.rest == End
    ensures KeyByValue(table, Int(n))
         == if n == table.code then Some(table.name) else if n == table.rest.code then Some(table.rest.name)
            else if n == table.rest.rest.code then Some(table.rest.rest.name) else None
  {
    TwoRows(table.rest, n);
  }

  lemma TwoRows(table: Table, n: int)
    requires table.Row? && table.rest.Row? && table.rest.rest == End
    ensures KeyByValue(table, Int(n))
         == if n == table.code then Some(table.name) else if n == table.rest.code then Some(table.rest.name) else None
  {
    assert KeyByValue(table.rest.rest, Int(n)).None?;
  }

  /** In lists, a scalar is read as a name exactly when it equals one of these numbers. */
  lemma ListNames(context: Text, s: Scalar)
    ensures KeyByValue(ItemTable(context), s) == match NumberOf(s) case None => None case Some(n) => ListName(context, n)
  {
    ByNumber(ItemTable(context), s);
    if NumberOf(s).Some? {
      var n := NumberOf(s).value;
      if context == EntityPart(Role) {
        ThreeRows(ComidRoles(), n);
      } else if context == Value(Digests) {
        ThreeRows(HashAlgorithms(), n);
      } else if context == SignerPart(SignerRole) {
        TwoRows(CorimRoles(), n);
      }
    }
  }
}
