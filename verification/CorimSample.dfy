/**
 * Manifests of the shape of the repository's sample: one tag with its identity, an entity with
 * roles, and any number of reference triples, each a class with a digest or a version number.
 */
module CorimSample {
  import opened Words
  import opened CorimTables
  import opened CorimTrees
  import opened CorimRoundTrip
  import opened CorimExact
  import opened CorimSchema

  datatype Measured = Digest(digest: string) | VersionNumber(svn: int)

  datatype SampleTriple = SampleTriple(classId: string, vendor: string, model: string, layer: int, index: int, flags: int, measured: Measured)

  function Text(s: string): Json {
    Leaf(Str(Other(s)))
  }

  function Number(n: int): Json {
    Leaf(Int(n))
  }

  function ClassOf(t: SampleTriple): Json {
    Dict([(ClassPart(ClassId), Text(t.classId)), (ClassPart(Vendor), Text(t.vendor)), (ClassPart(Model), Text(t.model)),
          (ClassPart(Layer), Number(t.layer)), (ClassPart(Index), Number(t.index))])
  }

  function EnvironmentOf(t: SampleTriple): Json {
    Dict([(Environment(Class), ClassOf(t))])
  }

  /** A digest is a list of an algorithm and the digest. */
  function DigestsOf(algorithm: Json, digest: string): Json {
    List([List([algorithm, Text(digest)])])
  }

  /** SHA-512, by code or by name. */
  predicate IsAlgorithm(algorithm: Json) {
    algorithm == Number(8) || algorithm == Leaf(Str(Hash(Sha512)))
  }

  function ValueOf(t: SampleTriple, algorithm: Json): Json {
    match t.measured
    case Digest(d) => Dict([(Value(FlagBits), Number(t.flags)), (Value(Digests), DigestsOf(algorithm, d))])
    case VersionNumber(n) => Dict([(Value(FlagBits), Number(t.flags)), (Value(Svn), Number(n))])
  }

  function MeasurementOf(t: SampleTriple, algorithm: Json): Json {
    Dict([(Measurement(Mval), ValueOf(t, algorithm))])
  }

  function TripleOf(t: SampleTriple, algorithm: Json): Json {
    List([EnvironmentOf(t), MeasurementOf(t, algorithm)])
  }

  function TriplesOf(ts: seq<SampleTriple>, algorithm: Json): seq<Json> {
    seq(|ts|, i requires 0 <= i < |ts| => TripleOf(ts[i], algorithm))
  }

  /** The scalars around the triples. */
  datatype Labels = Labels(corimId: string, tagId: string, entity: string, regId: string)

  function EntityOf(l: Labels, roles: Json): Json {
    Dict([(EntityPart(EntityName), Text(l.entity)), (EntityPart(RegId), Text(l.regId)), (EntityPart(Role), roles)])
  }

  function TagOf(l: Labels, roles: Json, algorithm: Json, ts: seq<SampleTriple>): Json {
    Dict([(Mid(TagIdentity), Dict([(Identity(TagId), Text(l.tagId))])),
          (Mid(Entity), EntityOf(l, roles)),
          (Mid(Triples), Dict([(Triple(ReferenceTriples), List(TriplesOf(ts, algorithm)))]))])
  }

  function SampleManifest(l: Labels, roles: Json, algorithm: Json, ts: seq<SampleTriple>): Json {
    Dict([(Manifest(CorimId), Text(l.corimId)), (Manifest(CorimTags), List([TagOf(l, roles, algorithm, ts)]))])
  }

  // ----- It follows the schema -----

  lemma ClassFits(t: SampleTriple)
    ensures Fits(Environment(Class), ClassOf(t))
  {
    var fields := ClassOf(t).fields;
    forall i | 0 <= i < |fields| ensures FieldFits(Schema(Environment(Class), fields), fields[i]) {
      SchemaAllows(Environment(Class), fields, fields[i].0);
    }
  }

  lemma EnvironmentFits(t: SampleTriple)
    ensures Fits(Triple(ReferenceTriples), EnvironmentOf(t))
  {
    var fields := EnvironmentOf(t).fields;
    assert BaseKey(fields[0]) == Environment(Class);
    ClassFits(t);
    SchemaAllows(Triple(ReferenceTriples), fields, Environment(Class));
  }

  lemma DigestsFit(algorithm: Json, digest: string)
    requires IsAlgorithm(algorithm)
    ensures Fits(Value(Digests), DigestsOf(algorithm, digest))
  {
    var inner := List([algorithm, Text(digest)]);
    forall i | 0 <= i < |inner.items| ensures Fits(Value(Digests), inner.items[i]) {
    }
    SingleItem(Value(Digests), inner);
  }

  lemma ValueFits(t: SampleTriple, algorithm: Json)
    requires IsAlgorithm(algorithm)
    ensures Fits(Measurement(Mval), ValueOf(t, algorithm))
  {
    var fields := ValueOf(t, algorithm).fields;
    if t.measured.Digest? {
      DigestsFit(algorithm, t.measured.digest);
    }
    forall i | 0 <= i < |fields| ensures FieldFits(Schema(Measurement(Mval), fields), fields[i]) {
      SchemaAllows(Measurement(Mval), fields, fields[i].0);
    }
  }

  lemma MeasurementFits(t: SampleTriple, algorithm: Json)
    requires IsAlgorithm(algorithm)
    ensures Fits(Triple(ReferenceTriples), MeasurementOf(t, algorithm))
  {
    var fields := MeasurementOf(t, algorithm).fields;
    ValueFits(t, algorithm);
    assert forall i :: 0 <= i < |fields| ==> BaseKey(fields[i]) == Measurement(Mval);
    SchemaAllows(Triple(ReferenceTriples), fields, Measurement(Mval));
  }

  lemma TriplesFit(ts: seq<SampleTriple>, algorithm: Json)
    requires IsAlgorithm(algorithm)
    ensures Fits(Triple(ReferenceTriples), List(TriplesOf(ts, algorithm)))
  {
    var items := TriplesOf(ts, algorithm);
    forall i | 0 <= i < |items| ensures Fits(Triple(ReferenceTriples), items[i]) {
      var pair := items[i].items;
      EnvironmentFits(ts[i]);
      MeasurementFits(ts[i], algorithm);
      assert pair == [EnvironmentOf(ts[i]), MeasurementOf(ts[i], algorithm)];
    }
  }

  lemma EntityFits(l: Labels, roles: Json)
    requires roles.List? && Fits(EntityPart(Role), roles)
    ensures Fits(Mid(Entity), EntityOf(l, roles))
  {
    var fields := EntityOf(l, roles).fields;
    forall i | 0 <= i < |fields| ensures FieldFits(Schema(Mid(Entity), fields), fields[i]) {
      SchemaAllows(Mid(Entity), fields, fields[i].0);
    }
  }

  lemma IdentityFits(l: Labels)
    ensures Fits(Mid(TagIdentity), Dict([(Identity(TagId), Text(l.tagId))]))
  {
    var fields := [(Identity(TagId), Text(l.tagId))];
    SchemaAllows(Mid(TagIdentity), fields, Identity(TagId));
  }

  lemma TriplesDictFits(ts: seq<SampleTriple>, algorithm: Json)
    requires IsAlgorithm(algorithm)
    ensures Fits(Mid(Triples), Dict([(Triple(ReferenceTriples), List(TriplesOf(ts, algorithm)))]))
  {
    var fields := [(Triple(ReferenceTriples), List(TriplesOf(ts, algorithm)))];
    TriplesFit(ts, algorithm);
    SchemaAllows(Mid(Triples), fields, Triple(ReferenceTriples));
  }

  lemma TagFits(l: Labels, roles: Json, algorithm: Json, ts: seq<SampleTriple>)
    requires roles.List? && Fits(EntityPart(Role), roles)
    requires IsAlgorithm(algorithm)
    ensures Fits(Manifest(CorimTags), TagOf(l, roles, algorithm, ts))
  {
    var fields := TagOf(l, roles, algorithm, ts).fields;
    IdentityFits(l);
    EntityFits(l, roles);
    TriplesDictFits(ts, algorithm);
    forall i | 0 <= i < |fields| ensures FieldFits(Schema(Manifest(CorimTags), fields), fields[i]) {
      SchemaAllows(Manifest(CorimTags), fields, fields[i].0);
    }
  }

  lemma SampleFits(l: Labels, roles: Json, algorithm: Json, ts: seq<SampleTriple>)
    requires roles.List? && Fits(EntityPart(Role), roles)
    requires IsAlgorithm(algorithm)
    ensures FitsManifest(SampleManifest(l, roles, algorithm, ts))
  {
    var fields := SampleManifest(l, roles, algorithm, ts).fields;
    TagFits(l, roles, algorithm, ts);
    SingleItem(Manifest(CorimTags), TagOf(l, roles, algorithm, ts));
    forall i | 0 <= i < |fields| ensures FieldFits(Schema(CorimTag(UnsignedCorim), fields), fields[i]) {
      SchemaAllows(CorimTag(UnsignedCorim), fields, fields[i].0);
    }
    assert fields[1].0 == Manifest(CorimTags) && fields[1].1.List?;
  }

  // ----- What it decodes to -----

  lemma NamedDict(context: Text, fields: seq<(Text, Json)>, named: seq<(Text, Json)>)
    requires |fields| == |named| && forall i :: 0 <= i < |fields| ==> NamedField(fields[i]) == named[i]
    ensures Named(context, Dict(fields)) == Dict(named)
  {
    forall i | 0 <= i < |fields| ensures NamedFields(fields)[i] == named[i] {
      NamedFieldAt(fields, i);
    }
  }

  lemma NamedList(context: Text, items: seq<Json>, named: seq<Json>)
    requires |items| == |named| && forall i :: 0 <= i < |items| ==> Named(context, items[i]) == named[i]
    ensures Named(context, List(items)) == List(named)
  {
    forall i | 0 <= i < |items| ensures NamedItems(context, items)[i] == named[i] {
      NamedItemAt(context, items, i);
    }
  }

  function CodedRoles(): Json {
    List([Number(0), Number(1)])
  }

  function NamedRoles(): Json {
    List([Leaf(Str(RoleName(TagCreator))), Leaf(Str(RoleName(Creator)))])
  }

  lemma RolesNamed()
    ensures Fits(EntityPart(Role), CodedRoles()) && Fits(EntityPart(Role), NamedRoles())
    ensures Named(EntityPart(Role), CodedRoles()) == NamedRoles()
  {
    ListNames(EntityPart(Role), Int(0));
    ListNames(EntityPart(Role), Int(1));
    NamedList(EntityPart(Role), CodedRoles().items, NamedRoles().items);
    assert forall i :: 0 <= i < 2 ==> Fits(EntityPart(Role), NamedRoles().items[i]);
  }

  const SHA512 := Leaf(Str(Hash(Sha512)))

  lemma DigestsNamed(digest: string)
    ensures Named(Value(Digests), DigestsOf(Number(8), digest)) == DigestsOf(SHA512, digest)
  {
    var context := Value(Digests);
    ListNames(context, Int(8));
    ListNames(context, Str(Other(digest)));
    NamedList(context, [Number(8), Text(digest)], [SHA512, Text(digest)]);
    NamedList(context, [List([Number(8), Text(digest)])], [List([SHA512, Text(digest)])]);
  }

  lemma ValueNamed(t: SampleTriple)
    ensures Named(Measurement(Mval), ValueOf(t, Number(8))) == ValueOf(t, SHA512)
  {
    if t.measured.Digest? {
      DigestsNamed(t.measured.digest);
    }
    NamedDict(Measurement(Mval), ValueOf(t, Number(8)).fields, ValueOf(t, SHA512).fields);
  }

  lemma TripleNamed(t: SampleTriple)
    ensures Named(Triple(ReferenceTriples), TripleOf(t, Number(8))) == TripleOf(t, SHA512)
  {
    var context := Triple(ReferenceTriples);
    NamedDict(Environment(Class), ClassOf(t).fields, ClassOf(t).fields);
    NamedDict(context, EnvironmentOf(t).fields, EnvironmentOf(t).fields);
    ValueNamed(t);
    NamedDict(context, MeasurementOf(t, Number(8)).fields, MeasurementOf(t, SHA512).fields);
    NamedList(context, TripleOf(t, Number(8)).items, TripleOf(t, SHA512).items);
  }

  lemma TriplesNamed(ts: seq<SampleTriple>)
    ensures Named(Triple(ReferenceTriples), List(TriplesOf(ts, Number(8)))) == List(TriplesOf(ts, SHA512))
  {
    forall i | 0 <= i < |ts| ensures Named(Triple(ReferenceTriples), TriplesOf(ts, Number(8))[i]) == TriplesOf(ts, SHA512)[i] {
      TripleNamed(ts[i]);
    }
    NamedList(Triple(ReferenceTriples), TriplesOf(ts, Number(8)), TriplesOf(ts, SHA512));
  }

  lemma TagNamed(l: Labels, ts: seq<SampleTriple>)
    ensures Named(Manifest(CorimTags), TagOf(l, CodedRoles(), Number(8), ts)) == TagOf(l, NamedRoles(), SHA512, ts)
  {
    var identity := [(Identity(TagId), Text(l.tagId))];
    NamedDict(Mid(TagIdentity), identity, identity);
    RolesNamed();
    NamedDict(Mid(Entity), EntityOf(l, CodedRoles()).fields, EntityOf(l, NamedRoles()).fields);
    TriplesNamed(ts);
    NamedDict(Mid(Triples), [(Triple(ReferenceTriples), List(TriplesOf(ts, Number(8))))],
              [(Triple(ReferenceTriples), List(TriplesOf(ts, SHA512)))]);
    NamedDict(Manifest(CorimTags), TagOf(l, CodedRoles(), Number(8), ts).fields, TagOf(l, NamedRoles(), SHA512, ts).fields);
  }

  lemma SampleNamed(l: Labels, ts: seq<SampleTriple>)
    ensures Named(CorimTag(UnsignedCorim), SampleManifest(l, CodedRoles(), Number(8), ts)) == SampleManifest(l, NamedRoles(), SHA512, ts)
  {
    TagNamed(l, ts);
    NamedList(Manifest(CorimTags), [TagOf(l, CodedRoles(), Number(8), ts)], [TagOf(l, NamedRoles(), SHA512, ts)]);
    NamedDict(CorimTag(UnsignedCorim), SampleManifest(l, CodedRoles(), Number(8), ts).fields,
              SampleManifest(l, NamedRoles(), SHA512, ts).fields);
  }

  /**
   * The sample, with roles 0 and 1 and digests of algorithm 8, is translated, and decodes to itself
   * with the roles and the algorithm named: it does not come back unchanged.
   */
  lemma SampleDecodes(l: Labels, ts: seq<SampleTriple>)
    ensures var sample := SampleManifest(l, CodedRoles(), Number(8), ts);
            && Generate(sample).Some?
            && Decode(Generate(sample).value, NoName) == Some(Wrapped(SampleManifest(l, NamedRoles(), SHA512, ts)))
            && !ComesBack(sample)
  {
    RolesNamed();
    SampleFits(l, CodedRoles(), Number(8), ts);
    ManifestRoundTrip(SampleManifest(l, CodedRoles(), Number(8), ts));
    SampleNamed(l, ts);
    RolesDiffer(l, ts);
  }

  lemma RolesDiffer(l: Labels, ts: seq<SampleTriple>)
    ensures Wrapped(SampleManifest(l, NamedRoles(), SHA512, ts)) != Wrapped(SampleManifest(l, CodedRoles(), Number(8), ts))
  {
    var a, b := TagOf(l, NamedRoles(), SHA512, ts), TagOf(l, CodedRoles(), Number(8), ts);
    assert NamedRoles().items[0] != CodedRoles().items[0];
    assert EntityOf(l, NamedRoles()).fields[2] != EntityOf(l, CodedRoles()).fields[2];
    assert a.fields[1] != b.fields[1];
    assert List([a]).items[0] != List([b]).items[0];
    assert SampleManifest(l, NamedRoles(), SHA512, ts).fields[1] != SampleManifest(l, CodedRoles(), Number(8), ts).fields[1];
  }
}
