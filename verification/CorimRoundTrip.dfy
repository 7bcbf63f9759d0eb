/** Decoding a generated CoRIM tree gives the manifest back, with codes in lists replaced by names. */
module CorimRoundTrip {
  import opened Words
  import opened CorimTables
  import opened CorimTrees

  // ----- Which manifests follow the schema -----

  function BaseKey(field: (Text, Json)): Text {
    if field.0.TaggedKey? then field.0.base else field.0
  }

  predicate HasBase(fields: seq<(Text, Json)>, name: Text) {
    exists i :: 0 <= i < |fields| && BaseKey(fields[i]) == name
  }

  predicate DistinctBases(fields: seq<(Text, Json)>) {
    forall i, j :: 0 <= i < j < |fields| ==> BaseKey(fields[i]) != BaseKey(fields[j])
  }

  /**
   * The keys allowed in a dict: those of its context; under reference triples either an
   * environment that names its class, or a measurement without a key.
   */
  function Schema(context: Text, fields: seq<(Text, Json)>): Table {
    if context == Triple(ReferenceTriples) && !HasBase(fields, Environment(Class)) then Row(Measurement(Mval), 1, End)
    else if NamesAlgorithms(context) then End
    else match LogicMap(context) case Some(table) => table case None => End
  }

  /** A scalar member: roles and algorithms are given by name or null, a tagged key has a known tag. */
  predicate ScalarFits(key: Text, s: Scalar) {
    && (key == SignerPart(SignerRole) ==> s.Null? || (s.Str? && Contains(CorimRoles(), s.text)))
    && (key == Header(AlgId) ==> s.Null? || (s.Str? && Contains(SignAlgorithms(), s.text)))
    && (key.TaggedKey? ==> TagCode(key.tag).Some?)
  }

  /** A translated name stands only in lists of its own kind. */
  predicate ItemFits(context: Text, s: Scalar) {
    && context != CoseType(CoseSign1)
    && (s == Str(RoleName(TagCreator)) ==> context == EntityPart(Role))
    && (s == Str(Hash(Sha256)) ==> context == Value(Digests))
  }

  predicate Fits(context: Text, j: Json)
    decreases j, 1
  {
    match j
    case Leaf(s) => ItemFits(context, s)
    case List(items) => forall i :: 0 <= i < |items| ==> Fits(context, items[i])
    case Dict(fields) =>
      DistinctBases(fields) && forall i :: 0 <= i < |fields| ==> FieldFits(Schema(context, fields), fields[i])
  }

  predicate FieldFits(table: Table, field: (Text, Json))
    decreases field, 0
  {
    && Contains(table, BaseKey(field))
    && if field.1.Leaf? then ScalarFits(field.0, field.1.scalar)
       else !field.0.TaggedKey? && Fits(field.0, field.1)
  }

  // ----- What comes back -----

  /** A code standing for a name in a role or digest list is replaced by the name. */
  function NamedScalar(context: Text, s: Scalar): Scalar {
    match KeyByValue(ItemTable(context), s) case Some(name) => Str(name) case None => s
  }

  function Named(context: Text, j: Json): Json
    decreases j, 1
  {
    match j
    case Leaf(s) => Leaf(NamedScalar(context, s))
    case List(items) => List(NamedItems(context, items))
    case Dict(fields) => Dict(NamedFields(fields))
  }

  function NamedItems(context: Text, items: seq<Json>): (r: seq<Json>)
    ensures |r| == |items|
    decreases items, 0
  {
    if items == [] then [] else
    var n := |items| - 1;
    NamedItems(context, items[..n]) + [Named(context, items[n])]
  }

  function NamedField(field: (Text, Json)): (Text, Json)
    decreases field, 0
  {
    (field.0, if field.1.Leaf? then field.1 else Named(field.0, field.1))
  }

  function NamedFields(fields: seq<(Text, Json)>): (r: seq<(Text, Json)>)
    ensures |r| == |fields|
    decreases fields, 0
  {
    if fields == [] then [] else
    var n := |fields| - 1;
    NamedFields(fields[..n]) + [NamedField(fields[n])]
  }

  // ----- The round trip -----

  lemma RolesByName(text: Text)
    requires Contains(CorimRoles(), text)
    ensures CodeOf(text).Some? && KeyByValue(CorimRoles(), Int(CodeOf(text).value)) == Some(text)
  {
    CorimTablesConsistent();
    NameRecovered(CorimRoles(), text);
  }

  lemma AlgorithmsByName(text: Text)
    requires Contains(SignAlgorithms(), text)
    ensures SignCode(text).Some? && KeyByValue(SignAlgorithms(), Int(SignCode(text).value)) == Some(text)
  {
    var t := SignAlgorithms();
    assert text == t.name || Contains(t.rest, text);
    assert text == t.name || text == t.rest.name || Contains(t.rest.rest, text);
    assert text == t.name || text == t.rest.name || text == t.rest.rest.name || Contains(t.rest.rest.rest, text);
  }

  lemma TagsByName(tag: Text)
    requires TagCode(tag).Some?
    ensures TagCode(tag).value != 506 && KeyByValue(ComidCborTags(), Int(TagCode(tag).value)) == Some(tag)
  {
  }

  /** Items of lists: names survive, codes become names. */
  lemma ItemRoundTrip(context: Text, s: Scalar)
    requires ItemFits(context, s)
    ensures DecodeItemScalar(context, TranslateItemScalar(s)) == Some(Leaf(NamedScalar(context, s)))
  {
  }

  /** Scalar members of dicts come back under the same key. */
  lemma ScalarRoundTrip(table: Table, key: Text, s: Scalar)
    requires Consistent(table) && Contains(table, BaseKey((key, Leaf(s)))) && ScalarFits(key, s)
    ensures var t := TranslateScalar(key, s);
            && t.Some? && Some(t.value.0) == CodeOf(BaseKey((key, Leaf(s))))
            && DecodeEntry(table, t.value) == Some([(key, Leaf(s))])
  {
    NameRecovered(table, BaseKey((key, Leaf(s))));
    if key == SignerPart(SignerRole) {
      if s.Str? {
        RolesByName(s.text);
      }
    } else if key == Header(AlgId) {
      if s.Str? {
        AlgorithmsByName(s.text);
      }
    } else if key.TaggedKey? {
      TagsByName(key.tag);
    }
  }

  lemma {:induction false} RoundTrip(context: Text, j: Json)
    requires Fits(context, j)
    ensures Translate(j).Some? && !Translate(j).value.CTag? && (j.Leaf? <==> Translate(j).value.CLeaf?)
    ensures Decode(Translate(j).value, context) == Some(Named(context, j))
    decreases j, 1
  {
    match j
    case Leaf(s) => ItemRoundTrip(context, s);
    case List(items) => ItemsRoundTrip(context, items);
    case Dict(fields) => DictRoundTrip(context, fields);
  }

  /** Each element, and hence the list, is translated to something that decodes to its named form. */
  predicate ItemsReturn(context: Text, items: seq<Json>) {
    && TranslateItems(items).Some?
    && DecodeItems(TranslateItems(items).value, context) == Some(NamedItems(context, items))
  }

  lemma {:induction false} ItemsRoundTrip(context: Text, items: seq<Json>)
    requires forall i :: 0 <= i < |items| ==> Fits(context, items[i])
    ensures ItemsReturn(context, items)
    decreases items, 0
  {
    if items != [] {
      var n := |items| - 1;
      ItemsRoundTrip(context, items[..n]);
      RoundTrip(context, items[n]);
      ItemsReturnAppend(context, items[..n], items[n]);
      assert items[..n] + [items[n]] == items;
    }
  }

  lemma ItemsReturnAppend(context: Text, items: seq<Json>, j: Json)
    requires ItemsReturn(context, items)
    requires Translate(j).Some? && !Translate(j).value.CTag?
    requires Decode(Translate(j).value, context) == Some(Named(context, j))
    ensures ItemsReturn(context, items + [j])
  {
    var cs, c := TranslateItems(items).value, Translate(j).value;
    assert (items + [j])[..|items|] == items;
    assert (cs + [c])[..|cs|] == cs;
  }

  lemma TranslateFieldsAppend(fields: seq<(Text, Json)>, cs: seq<(int, Cbor)>, e: (int, Cbor))
    requires fields != [] && TranslateFields(fields[..|fields| - 1]) == Some(cs) && !HasKey(cs, e.0)
    requires TranslateField(fields[|fields| - 1]) == Some(e)
    ensures TranslateFields(fields) == Some(cs + [e])
  {
    PutNew(cs, e.0, e.1);
  }

  lemma DecodeFieldsAppend(table: Table, cs: seq<(int, Cbor)>, e: (int, Cbor), js: seq<(Text, Json)>, entry: (Text, Json))
    requires DecodeFields(table, cs) == Some(js) && DecodeEntry(table, e) == Some([entry]) && !HasKey(js, entry.0)
    ensures DecodeFields(table, cs + [e]) == Some(js + [entry])
  {
    assert (cs + [e])[..|cs|] == cs;
    PutNew(js, entry.0, entry.1);
  }

  lemma {:induction false} FieldRoundTrip(table: Table, field: (Text, Json))
    requires Consistent(table) && FieldFits(table, field)
    ensures var t := TranslateField(field);
            && t.Some? && Some(t.value.0) == CodeOf(BaseKey(field))
            && DecodeEntry(table, t.value) == Some([NamedField(field)])
    decreases field, 0
  {
    if field.1.Leaf? {
      ScalarRoundTrip(table, field.0, field.1.scalar);
    } else {
      NameRecovered(table, field.0);
      RoundTrip(field.0, field.1);
    }
  }

  /** Each field is translated on its own, under the code of its base key. */
  predicate CodesMatch(cs: seq<(int, Cbor)>, fields: seq<(Text, Json)>) {
    && |cs| == |fields|
    && forall i :: 0 <= i < |cs| ==> TranslateField(fields[i]) == Some(cs[i]) && Some(cs[i].0) == CodeOf(BaseKey(fields[i]))
  }

  lemma {:induction false} FieldsRoundTrip(table: Table, fields: seq<(Text, Json)>)
    requires Consistent(table) && DistinctBases(fields)
    requires forall i :: 0 <= i < |fields| ==> FieldFits(table, fields[i])
    ensures TranslateFields(fields).Some? && CodesMatch(TranslateFields(fields).value, fields)
    ensures DecodeFields(table, TranslateFields(fields).value) == Some(NamedFields(fields))
    decreases fields, 0
  {
    if fields != [] {
      var n := |fields| - 1;
      FieldsRoundTrip(table, fields[..n]);
      FieldRoundTrip(table, fields[n]);
      var cs, e := TranslateFields(fields[..n]).value, TranslateField(fields[n]).value;
      FreshCode(table, cs, fields, e.0);
      TranslateFieldsAppend(fields, cs, e);
      FreshKey(fields);
      DecodeFieldsAppend(table, cs, e, NamedFields(fields[..n]), NamedField(fields[n]));
    }
  }

  lemma FreshCode(table: Table, cs: seq<(int, Cbor)>, fields: seq<(Text, Json)>, code: int)
    requires Consistent(table) && fields != [] && DistinctBases(fields)
    requires forall i :: 0 <= i < |fields| ==> Contains(table, BaseKey(fields[i]))
    requires CodesMatch(cs, fields[..|fields| - 1]) && Some(code) == CodeOf(BaseKey(fields[|fields| - 1]))
    ensures !HasKey(cs, code)
  {
    var last := fields[|fields| - 1];
    forall i | 0 <= i < |cs|
      ensures cs[i].0 != code
    {
      assert BaseKey(fields[i]) != BaseKey(last);
      NameRecovered(table, BaseKey(fields[i]));
      NameRecovered(table, BaseKey(last));
    }
  }

  lemma {:induction false} NamedKeys(fields: seq<(Text, Json)>, i: nat)
    requires i < |fields|
    ensures NamedFields(fields)[i].0 == fields[i].0
  {
    if i < |fields| - 1 {
      NamedKeys(fields[..|fields| - 1], i);
    }
  }

  lemma FreshKey(fields: seq<(Text, Json)>)
    requires fields != [] && DistinctBases(fields)
    ensures !HasKey(NamedFields(fields[..|fields| - 1]), fields[|fields| - 1].0)
  {
    var n := |fields| - 1;
    forall i | 0 <= i < n
      ensures NamedFields(fields[..n])[i].0 != fields[n].0
    {
      NamedKeys(fields[..n], i);
      assert BaseKey(fields[i]) != BaseKey(fields[n]);
    }
  }

  /** The table the decoder uses for a fitting dict: measurements are read with the full measurement table. */
  function ReadTable(context: Text, fields: seq<(Text, Json)>): Table {
    if context == Triple(ReferenceTriples) && !HasBase(fields, Environment(Class)) then MeasurementMap()
    else Schema(context, fields)
  }

  lemma ReadTableFits(context: Text, fields: seq<(Text, Json)>)
    requires Fits(context, Dict(fields)) && fields != []
    ensures Consistent(ReadTable(context, fields))
    ensures forall i :: 0 <= i < |fields| ==> FieldFits(ReadTable(context, fields), fields[i])
  {
    assert FieldFits(Schema(context, fields), fields[0]);
    if context == Triple(ReferenceTriples) && !HasBase(fields, Environment(Class)) {
      ClassTablesConsistent();
      forall i | 0 <= i < |fields|
        ensures FieldFits(MeasurementMap(), fields[i])
      {
        assert FieldFits(Schema(context, fields), fields[i]);
      }
    } else {
      TablesConsistent(context);
    }
  }

  /** Key 0 stands for the class of an environment, and for nothing in a measurement. */
  lemma KeyZero(fields: seq<(Text, Json)>, cs: seq<(int, Cbor)>)
    requires Fits(Triple(ReferenceTriples), Dict(fields)) && CodesMatch(cs, fields)
    ensures HasKey(cs, 0) <==> HasBase(fields, Environment(Class))
  {
    if i :| 0 <= i < |fields| && BaseKey(fields[i]) == Environment(Class) {
      assert cs[i].0 == 0;
    } else {
      forall i | 0 <= i < |cs|
        ensures cs[i].0 != 0
      {
        assert FieldFits(Schema(Triple(ReferenceTriples), fields), fields[i]);
      }
    }
  }

  lemma SameTable(context: Text, fields: seq<(Text, Json)>, cs: seq<(int, Cbor)>)
    requires context != Triple(ReferenceTriples) && !NamesAlgorithms(context)
    ensures Schema(context, fields) == DictTable(context, cs)
  {
  }

  /** Nothing fits where only algorithm names stand. */
  lemma NotAlgorithms(context: Text, fields: seq<(Text, Json)>)
    requires Fits(context, Dict(fields)) && fields != []
    ensures !NamesAlgorithms(context)
  {
    assert FieldFits(Schema(context, fields), fields[0]);
  }

  /** The decoder's guess by key 0 is right for every fitting dict. */
  lemma TableChosen(context: Text, fields: seq<(Text, Json)>, cs: seq<(int, Cbor)>)
    requires Fits(context, Dict(fields)) && fields != [] && CodesMatch(cs, fields)
    ensures DictTable(context, cs) == ReadTable(context, fields)
  {
    if context == Triple(ReferenceTriples) {
      KeyZero(fields, cs);
    } else {
      NotAlgorithms(context, fields);
      SameTable(context, fields, cs);
    }
  }

  lemma {:induction false} DictRoundTrip(context: Text, fields: seq<(Text, Json)>)
    requires Fits(context, Dict(fields))
    ensures TranslateFields(fields).Some?
    ensures var cs := TranslateFields(fields).value;
            DecodeFields(DictTable(context, cs), cs) == Some(NamedFields(fields))
    decreases fields, 1
  {
    if fields != [] {
      ReadTableFits(context, fields);
      FieldsRoundTrip(ReadTable(context, fields), fields);
      TableChosen(context, fields, TranslateFields(fields).value);
    }
  }

  // ----- The whole manifest -----

  /** A manifest follows the schema and has a list of tags. */
  predicate FitsManifest(j: Json) {
    && j.Dict? && Fits(CorimTag(UnsignedCorim), j)
    && exists k :: 0 <= k < |j.fields| && j.fields[k].0 == Manifest(CorimTags) && j.fields[k].1.List?
  }

  lemma {:induction false} FindPut(cs: seq<(int, Cbor)>, key: int, k: nat, w: Cbor)
    requires k < |cs| && cs[k].0 == key && forall i :: 0 <= i < k ==> cs[i].0 != key
    ensures Find(cs, key) == Some(cs[k].1) && Put(cs, key, w) == cs[k := (key, w)]
  {
    if k > 0 {
      assert cs[0].0 != key;
      FindPut(cs[1..], key, k - 1, w);
      assert cs[k := (key, w)] == [cs[0]] + cs[1..][k - 1 := (key, w)];
    } else {
      assert cs[0 := (key, w)] == [(key, w)] + cs[1..];
    }
  }

  lemma {:induction false} DecodeFieldsSame(table: Table, cs: seq<(int, Cbor)>, cs': seq<(int, Cbor)>)
    requires |cs| == |cs'| && forall i :: 0 <= i < |cs| ==> DecodeEntry(table, cs[i]) == DecodeEntry(table, cs'[i])
    ensures DecodeFields(table, cs) == DecodeFields(table, cs')
  {
    if cs != [] {
      DecodeFieldsSame(table, cs[..|cs| - 1], cs'[..|cs| - 1]);
    }
  }

  lemma TagNames()
    ensures TagName(500) == CorimTag(Corim) && TagName(501) == CorimTag(UnsignedCorim)
  {
    assert KeyInTables([CorimCborTags(), CoseTypes()], Int(500)) == Some(CorimTag(Corim));
    assert KeyInTables([CorimCborTags(), CoseTypes()], Int(501)) == Some(CorimTag(UnsignedCorim));
  }

  /** The extra tag around the list of tags is seen through by the decoder. */
  lemma TagsEntry(table: Table, items: seq<Cbor>)
    ensures DecodeEntry(table, (1, CTag(506, CList(items)))) == DecodeEntry(table, (1, CList(items)))
  {
  }

  function Wrapped(j: Json): Json {
    Dict([(CorimTag(Corim), Dict([(CorimTag(UnsignedCorim), j)]))])
  }

  /**
   * For every manifest that follows the schema, generating the tagged tree and decoding it gives
   * the manifest back, with the codes in role and digest lists replaced by their names.
   */
  lemma ManifestRoundTrip(j: Json)
    requires FitsManifest(j)
    ensures Generate(j).Some?
    ensures Decode(Generate(j).value, NoName) == Some(Wrapped(Named(CorimTag(UnsignedCorim), j)))
  {
    var fields := j.fields;
    ReadTableFits(CorimTag(UnsignedCorim), fields);
    var k :| 0 <= k < |fields| && fields[k].0 == Manifest(CorimTags) && fields[k].1.List?;
    var cs' := WrappedTags(UnsignedCorimMap(), fields, k);
    DecodeWrapped(cs', NamedFields(fields));
  }

  lemma ListTranslates(field: (Text, Json))
    requires field.1.List? && TranslateField(field).Some?
    ensures TranslateField(field).value.1.CList?
  {
  }

  /** Wrapping the list of tags changes nothing for the decoder. */
  lemma WrappedTags(table: Table, fields: seq<(Text, Json)>, k: nat) returns (cs': seq<(int, Cbor)>)
    requires Consistent(table) && DistinctBases(fields)
    requires forall i :: 0 <= i < |fields| ==> FieldFits(table, fields[i])
    requires k < |fields| && fields[k].0 == Manifest(CorimTags) && fields[k].1.List?
    ensures Generate(Dict(fields)) == Some(CTag(500, CTag(501, CDict(cs'))))
    ensures DecodeFields(table, cs') == Some(NamedFields(fields))
  {
    FieldsRoundTrip(table, fields);
    var cs := TranslateFields(fields).value;
    assert TranslateField(fields[k]) == Some(cs[k]);
    ListTranslates(fields[k]);
    FirstWithCode(table, cs, fields, k);
    GenerateWraps(fields, cs, k);
    WrapIsInvisible(table, cs, k);
    cs' := cs[k := (1, CTag(506, cs[k].1))];
  }

  lemma GenerateWraps(fields: seq<(Text, Json)>, cs: seq<(int, Cbor)>, k: nat)
    requires TranslateFields(fields) == Some(cs) && k < |cs|
    requires cs[k].0 == 1 && forall i :: 0 <= i < k ==> cs[i].0 != 1
    ensures Generate(Dict(fields)) == Some(CTag(500, CTag(501, CDict(cs[k := (1, CTag(506, cs[k].1))]))))
  {
    FindPut(cs, 1, k, CTag(506, cs[k].1));
  }

  lemma WrapIsInvisible(table: Table, cs: seq<(int, Cbor)>, k: nat)
    requires k < |cs| && cs[k].0 == 1 && cs[k].1.CList?
    ensures DecodeFields(table, cs[k := (1, CTag(506, cs[k].1))]) == DecodeFields(table, cs)
  {
    TagsEntry(table, cs[k].1.items);
    DecodeFieldsSame(table, cs[k := (1, CTag(506, cs[k].1))], cs);
  }

  lemma DecodeWrapped(cs: seq<(int, Cbor)>, js: seq<(Text, Json)>)
    requires DecodeFields(UnsignedCorimMap(), cs) == Some(js)
    ensures Decode(CTag(500, CTag(501, CDict(cs))), NoName) == Some(Wrapped(Dict(js)))
  {
    TagNames();
    assert Decode(CDict(cs), CorimTag(UnsignedCorim)) == Some(Dict(js));
    assert Decode(CTag(501, CDict(cs)), CorimTag(Corim)) == Some(Dict([(CorimTag(UnsignedCorim), Dict(js))]));
  }

  lemma FirstWithCode(table: Table, cs: seq<(int, Cbor)>, fields: seq<(Text, Json)>, k: nat)
    requires Consistent(table) && DistinctBases(fields) && CodesMatch(cs, fields) && k < |cs|
    requires forall i :: 0 <= i < |fields| ==> Contains(table, BaseKey(fields[i]))
    ensures forall i :: 0 <= i < k ==> cs[i].0 != cs[k].0
  {
    forall i | 0 <= i < k
      ensures cs[i].0 != cs[k].0
    {
      assert BaseKey(fields[i]) != BaseKey(fields[k]);
      NameRecovered(table, BaseKey(fields[i]));
      NameRecovered(table, BaseKey(fields[k]));
    }
  }
}
