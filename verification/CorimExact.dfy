/** The round trip of the CoRIM tool is exact: precisely which manifests come back unchanged. */
module CorimExact {
  import opened Words
  import opened CorimTables
  import opened CorimTrees
  import opened CorimRoundTrip

  // ----- Names instead of codes -----

  /** No list holds a code where a name could stand. */
  predicate NoCodes(context: Text, j: Json)
    decreases j, 1
  {
    match j
    case Leaf(s) => KeyByValue(ItemTable(context), s).None?
    case List(items) => forall i :: 0 <= i < |items| ==> NoCodes(context, items[i])
    case Dict(fields) => forall i :: 0 <= i < |fields| ==> FieldNoCodes(fields[i])
  }

  predicate FieldNoCodes(field: (Text, Json))
    decreases field, 0
  {
    field.1.Leaf? || NoCodes(field.0, field.1)
  }

  lemma {:induction false} FoundNamesAreStrings(table: Table, s: Scalar)
    requires KeyByValue(table, s).Some?
    ensures !s.Str?
  {
    if !EqualsCode(s, table.code) {
      FoundNamesAreStrings(table.rest, s);
    }
  }

  lemma {:induction false} NamedItemAt(context: Text, items: seq<Json>, i: nat)
    requires i < |items|
    ensures NamedItems(context, items)[i] == Named(context, items[i])
  {
    if i < |items| - 1 {
      NamedItemAt(context, items[..|items| - 1], i);
    }
  }

  lemma {:induction false} NamedFieldAt(fields: seq<(Text, Json)>, i: nat)
    requires i < |fields|
    ensures NamedFields(fields)[i] == NamedField(fields[i])
  {
    if i < |fields| - 1 {
      NamedFieldAt(fields[..|fields| - 1], i);
    }
  }

  lemma LeafUnchanged(context: Text, s: Scalar)
    ensures Named(context, Leaf(s)) == Leaf(s) <==> NoCodes(context, Leaf(s))
  {
    if KeyByValue(ItemTable(context), s).Some? {
      FoundNamesAreStrings(ItemTable(context), s);
    }
  }

  /** Replacing codes by names changes nothing exactly when there are none. */
  lemma {:induction false} UnchangedExactlyWhen(context: Text, j: Json)
    ensures Named(context, j) == j <==> NoCodes(context, j)
    decreases j, 1
  {
    match j
    case Leaf(s) => LeafUnchanged(context, s);
    case List(items) => ItemsUnchanged(context, items);
    case Dict(fields) => FieldsUnchanged(context, fields);
  }

  lemma {:induction false} ItemsUnchanged(context: Text, items: seq<Json>)
    ensures Named(context, List(items)) == List(items) <==> NoCodes(context, List(items))
    decreases items, 0
  {
    var named := NamedItems(context, items);
    forall i | 0 <= i < |items|
      ensures named[i] == items[i] <==> NoCodes(context, items[i])
    {
      NamedItemAt(context, items, i);
      UnchangedExactlyWhen(context, items[i]);
    }
    assert named == items <==> forall i :: 0 <= i < |items| ==> named[i] == items[i];
  }

  lemma {:induction false} FieldsUnchanged(context: Text, fields: seq<(Text, Json)>)
    ensures Named(context, Dict(fields)) == Dict(fields) <==> NoCodes(context, Dict(fields))
    decreases fields, 0
  {
    var named := NamedFields(fields);
    forall i | 0 <= i < |fields|
      ensures named[i] == fields[i] <==> FieldNoCodes(fields[i])
    {
      NamedFieldAt(fields, i);
      FieldUnchanged(fields[i]);
    }
    assert named == fields <==> forall i :: 0 <= i < |fields| ==> named[i] == fields[i];
  }

  lemma {:induction false} FieldUnchanged(field: (Text, Json))
    ensures NamedField(field) == field <==> FieldNoCodes(field)
    decreases field, 0
  {
    if !field.1.Leaf? {
      UnchangedExactlyWhen(field.0, field.1);
    }
  }

  // ----- A manifest that comes back follows the schema -----

  lemma {:induction false} PutLength<K, V>(dict: seq<(K, V)>, key: K, value: V)
    ensures |Put(dict, key, value)| == if HasKey(dict, key) then |dict| else |dict| + 1
  {
    if dict != [] && dict[0].0 != key {
      PutLength(dict[1..], key, value);
      assert HasKey(dict, key) <==> HasKey(dict[1..], key) by {
        forall i | 0 <= i < |dict[1..]| && dict[1..][i].0 == key ensures HasKey(dict, key) { assert dict[i + 1].0 == key; }
        forall i | 0 <= i < |dict| && dict[i].0 == key ensures HasKey(dict[1..], key) { assert dict[1..][i - 1].0 == key; }
      }
    }
  }

  /** If no field was overwritten, each was translated to its own entry, under its own code. */
  lemma {:induction false} TranslatedEntries(fields: seq<(Text, Json)>)
    requires TranslateFields(fields).Some?
    ensures var cs := TranslateFields(fields).value;
            && |cs| <= |fields|
            && (|cs| == |fields| ==>
                  && (forall i :: 0 <= i < |cs| ==> TranslateField(fields[i]) == Some(cs[i]))
                  && (forall i, j :: 0 <= i < j < |cs| ==> cs[i].0 != cs[j].0))
  {
    if fields != [] {
      var n := |fields| - 1;
      TranslatedEntries(fields[..n]);
      var before, e := TranslateFields(fields[..n]).value, TranslateField(fields[n]).value;
      PutLength(before, e.0, e.1);
      if !HasKey(before, e.0) {
        PutNew(before, e.0, e.1);
      }
    }
  }

  /** No entry was dropped or overwritten only if each was decoded to its own field. */
  predicate EachDecoded(table: Table, cs: seq<(int, Cbor)>, js: seq<(Text, Json)>) {
    && |js| <= |cs|
    && (|js| == |cs| ==> forall i :: 0 <= i < |cs| ==> DecodeEntry(table, cs[i]) == Some([js[i]]))
  }

  lemma EachDecodedStep(table: Table, cs: seq<(int, Cbor)>, e: (int, Cbor), js: seq<(Text, Json)>, entry: (Text, Json))
    requires EachDecoded(table, cs, js) && DecodeEntry(table, e) == Some([entry])
    ensures EachDecoded(table, cs + [e], Put(js, entry.0, entry.1))
  {
    PutLength(js, entry.0, entry.1);
    if !HasKey(js, entry.0) {
      PutNew(js, entry.0, entry.1);
    }
  }

  lemma {:induction false} DecodedFields(table: Table, cs: seq<(int, Cbor)>)
    requires DecodeFields(table, cs).Some?
    ensures EachDecoded(table, cs, DecodeFields(table, cs).value)
  {
    if cs != [] {
      var n := |cs| - 1;
      DecodedFields(table, cs[..n]);
      var before, entry := DecodeFields(table, cs[..n]).value, DecodeEntry(table, cs[n]).value;
      EntryIsSingle(table, cs[n]);
      if entry != [] {
        EachDecodedStep(table, cs[..n], cs[n], before, entry[0]);
        assert cs[..n] + [cs[n]] == cs;
      }
    }
  }

  lemma EntryIsSingle(table: Table, field: (int, Cbor))
    requires DecodeEntry(table, field).Some?
    ensures |DecodeEntry(table, field).value| <= 1
  {
  }

  lemma {:induction false} FoundIsContained(table: Table, s: Scalar)
    requires KeyByValue(table, s).Some?
    ensures Contains(table, KeyByValue(table, s).value)
  {
    if !EqualsCode(s, table.code) {
      FoundIsContained(table.rest, s);
    }
  }

  lemma ItemConverse(context: Text, s: Scalar)
    requires DecodeItemScalar(context, TranslateItemScalar(s)) == Some(Leaf(s))
    ensures ItemFits(context, s)
  {
  }

  /** What a scalar member that comes back unchanged must look like. */
  lemma ScalarConverse(table: Table, key: Text, s: Scalar, e: (int, Cbor))
    requires TranslateScalar(key, s) == Some(e) && DecodeEntry(table, e) == Some([(key, Leaf(s))])
    ensures ScalarFits(key, s) && CodeOf(BaseKey((key, Leaf(s)))) == Some(e.0)
    ensures KeyByValue(table, Int(e.0)) == Some(BaseKey((key, Leaf(s))))
  {
    if key == SignerPart(SignerRole) || key == Header(AlgId) {
      NamedConverse(table, key, s, e);
    }
  }

  lemma NamedConverse(table: Table, key: Text, s: Scalar, e: (int, Cbor))
    requires key == SignerPart(SignerRole) || key == Header(AlgId)
    requires TranslateScalar(key, s) == Some(e) && DecodeEntry(table, e) == Some([(key, Leaf(s))])
    ensures ScalarFits(key, s)
  {
    if s.Str? {
      FoundIsContained(if key == SignerPart(SignerRole) then CorimRoles() else SignAlgorithms(), e.1.scalar);
    }
  }

  lemma FieldConverse(table: Table, field: (Text, Json), e: (int, Cbor))
    requires TranslateField(field) == Some(e) && DecodeEntry(table, e) == Some([field])
    ensures Contains(table, BaseKey(field)) && CodeOf(BaseKey(field)) == Some(e.0)
    ensures KeyByValue(table, Int(e.0)) == Some(BaseKey(field))
    ensures if field.1.Leaf? then ScalarFits(field.0, field.1.scalar)
            else !field.0.TaggedKey? && Translate(field.1) == Some(e.1) && Decode(e.1, field.0) == Some(field.1)
  {
    if field.1.Leaf? {
      ScalarConverse(table, field.0, field.1.scalar, e);
    } else {
      assert !e.1.CLeaf? && !e.1.CTag?;
    }
    FoundIsContained(table, Int(e.0));
  }

  lemma {:induction false} TranslatedItem(items: seq<Json>, i: nat)
    requires TranslateItems(items).Some? && i < |items|
    ensures |TranslateItems(items).value| == |items| && Translate(items[i]) == Some(TranslateItems(items).value[i])
  {
    var n := |items| - 1;
    if n > 0 {
      TranslatedItem(items[..n], if i < n then i else 0);
    }
  }

  lemma {:induction false} DecodedItem(cs: seq<Cbor>, context: Text, i: nat)
    requires DecodeItems(cs, context).Some? && i < |cs|
    ensures var js := DecodeItems(cs, context).value;
            |js| == |cs| && Decode(cs[i], context) == Some(js[i])
  {
    var n := |cs| - 1;
    if n > 0 {
      DecodedItem(cs[..n], context, if i < n then i else 0);
    }
  }

  /** Every tree that comes back unchanged follows the schema of its context. */
  lemma {:induction false} Converse(context: Text, j: Json)
    requires Translate(j).Some? && Decode(Translate(j).value, context) == Some(j)
    ensures Fits(context, j)
    decreases j, 1
  {
    match j
    case Leaf(s) => ItemConverse(context, s);
    case List(items) =>
      forall i | 0 <= i < |items|
        ensures Fits(context, items[i])
      {
        TranslatedItem(items, i);
        DecodedItem(TranslateItems(items).value, context, i);
        Converse(context, items[i]);
      }
    case Dict(fields) =>
      var cs := TranslateFields(fields).value;
      TranslatedEntries(fields);
      DecodedFields(DictTable(context, cs), cs);
      EntriesConverse(context, fields, cs);
  }

  /** A dict whose entries come back one by one. */
  predicate Returns(table: Table, fields: seq<(Text, Json)>, cs: seq<(int, Cbor)>) {
    && |cs| == |fields|
    && (forall i :: 0 <= i < |cs| ==> TranslateField(fields[i]) == Some(cs[i]) && DecodeEntry(table, cs[i]) == Some([fields[i]]))
    && (forall i, j :: 0 <= i < j < |cs| ==> cs[i].0 != cs[j].0)
  }

  lemma {:induction false} EntriesConverse(context: Text, fields: seq<(Text, Json)>, cs: seq<(int, Cbor)>)
    requires Returns(DictTable(context, cs), fields, cs)
    ensures Fits(context, Dict(fields))
    decreases fields, 0
  {
    var table := DictTable(context, cs);
    forall i, j | 0 <= i < j < |fields|
      ensures BaseKey(fields[i]) != BaseKey(fields[j])
    {
      FieldConverse(table, fields[i], cs[i]);
      FieldConverse(table, fields[j], cs[j]);
    }
    forall i | 0 <= i < |fields|
      ensures FieldFits(Schema(context, fields), fields[i])
    {
      FieldConverse(table, fields[i], cs[i]);
      SchemaContains(context, fields, cs, i);
      ValueConverse(fields[i]);
    }
  }

  lemma {:induction false} ValueConverse(field: (Text, Json))
    requires !field.1.Leaf? ==> Translate(field.1).Some? && Decode(Translate(field.1).value, field.0) == Some(field.1)
    ensures !field.1.Leaf? ==> Fits(field.0, field.1)
    decreases field, 0
  {
    if !field.1.Leaf? {
      Converse(field.0, field.1);
    }
  }

  lemma AlgorithmNamesHaveNoCode(name: Text)
    requires Contains(HashAlgorithms(), name) || Contains(SignAlgorithms(), name)
    ensures CodeOf(name).None?
  {
    var h, a := HashAlgorithms(), SignAlgorithms();
    assert Contains(h, name) ==> name == h.name || name == h.rest.name || Contains(h.rest.rest, name);
    assert Contains(h.rest.rest, name) ==> name == h.rest.rest.name || Contains(End, name);
    assert Contains(a, name) ==> name == a.name || name == a.rest.name || Contains(a.rest.rest, name);
    assert Contains(a.rest.rest, name) ==> name == a.rest.rest.name || Contains(End, name);
  }

  lemma MeasurementName(code: int)
    requires code != 0 && KeyByValue(MeasurementMap(), Int(code)).Some?
    ensures KeyByValue(MeasurementMap(), Int(code)) == Some(Measurement(Mval))
  {
    var rows := MeasurementMap();
    assert KeyByValue(rows, Int(code)) == KeyByValue(rows.rest, Int(code));
    assert KeyByValue(rows.rest.rest, Int(code)).None?;
  }

  /** Under reference triples key 0 tells environments from measurements. */
  lemma TriplesSchema(fields: seq<(Text, Json)>, cs: seq<(int, Cbor)>, i: nat)
    requires i < |fields| && |cs| == |fields|
    requires var table := if HasKey(cs, 0) then EnvironmentMap() else MeasurementMap();
             forall k :: 0 <= k < |cs| ==> KeyByValue(table, Int(cs[k].0)) == Some(BaseKey(fields[k]))
    ensures Contains(Schema(Triple(ReferenceTriples), fields), BaseKey(fields[i]))
  {
    if HasKey(cs, 0) {
      var k :| 0 <= k < |cs| && cs[k].0 == 0;
      assert BaseKey(fields[k]) == Environment(Class);
      FoundIsContained(EnvironmentMap(), Int(cs[i].0));
    } else {
      forall k | 0 <= k < |fields|
        ensures BaseKey(fields[k]) == Measurement(Mval)
      {
        MeasurementName(cs[k].0);
      }
    }
  }

  lemma KeysFound(table: Table, fields: seq<(Text, Json)>, cs: seq<(int, Cbor)>)
    requires Returns(table, fields, cs)
    ensures forall k :: 0 <= k < |cs| ==> KeyByValue(table, Int(cs[k].0)) == Some(BaseKey(fields[k]))
  {
    forall k | 0 <= k < |cs|
      ensures KeyByValue(table, Int(cs[k].0)) == Some(BaseKey(fields[k]))
    {
      FieldConverse(table, fields[k], cs[k]);
    }
  }

  /** The table the decoder used allows no more keys than the schema. */
  lemma SchemaContains(context: Text, fields: seq<(Text, Json)>, cs: seq<(int, Cbor)>, i: nat)
    requires Returns(DictTable(context, cs), fields, cs) && i < |fields|
    ensures Contains(Schema(context, fields), BaseKey(fields[i]))
  {
    if context == Triple(ReferenceTriples) {
      KeysFound(DictTable(context, cs), fields, cs);
      TriplesSchema(fields, cs, i);
    } else {
      FieldConverse(DictTable(context, cs), fields[i], cs[i]);
      OtherSchema(context, fields, cs, BaseKey(fields[i]));
    }
  }

  lemma OtherSchema(context: Text, fields: seq<(Text, Json)>, cs: seq<(int, Cbor)>, key: Text)
    requires context != Triple(ReferenceTriples)
    requires Contains(DictTable(context, cs), key) && CodeOf(key).Some?
    ensures Contains(Schema(context, fields), key)
  {
    if NamesAlgorithms(context) {
      AlgorithmTable(context, cs);
      AlgorithmNamesHaveNoCode(key);
      assert false;
    } else {
      SameTable(context, fields, cs);
    }
  }

  lemma AlgorithmTable(context: Text, cs: seq<(int, Cbor)>)
    requires NamesAlgorithms(context)
    ensures DictTable(context, cs) == if context == Value(Digests) then HashAlgorithms() else SignAlgorithms()
  {
  }

  // ----- The exact statement -----

  lemma {:induction false} PutSame(cs: seq<(int, Cbor)>, key: int, w: Cbor) returns (k: nat)
    requires Find(cs, key).Some?
    ensures k < |cs| && cs[k] == (key, Find(cs, key).value) && Put(cs, key, w) == cs[k := (key, w)]
  {
    if cs[0].0 == key {
      k := 0;
      assert cs[0 := (key, w)] == [(key, w)] + cs[1..];
    } else {
      k := PutSame(cs[1..], key, w);
      k := k + 1;
      assert cs[k := (key, w)] == [cs[0]] + cs[1..][k - 1 := (key, w)];
    }
  }

  /** Only a list of tags survives being wrapped. */
  lemma TagsConverse(table: Table, field: (Text, Json), e: (int, Cbor))
    requires TranslateField(field) == Some(e)
    requires DecodeEntry(table, (e.0, CTag(506, e.1))) == Some([field])
    ensures field.1.List? && DecodeEntry(table, e) == Some([field])
  {
    assert field.1.Dict? ==> e.1.CDict?;
    assert field.1.Leaf? ==> e.1.CLeaf? || e.1.CTag?;
    assert field.1.List? ==> e.1.CList?;
  }

  lemma UnwrapDecoded(cs: seq<(int, Cbor)>, fields: seq<(Text, Json)>)
    requires Decode(CTag(500, CTag(501, CDict(cs))), NoName) == Some(Wrapped(Dict(fields)))
    ensures DecodeFields(UnsignedCorimMap(), cs) == Some(fields)
  {
    TagNames();
    var inner := Decode(CTag(501, CDict(cs)), CorimTag(Corim));
    assert inner == Some(Dict([(CorimTag(UnsignedCorim), Dict(fields))]));
    assert Decode(CDict(cs), CorimTag(UnsignedCorim)) == Some(Dict(fields));
  }

  lemma EntriesReturn(table: Table, fields: seq<(Text, Json)>, cs: seq<(int, Cbor)>, k: nat)
    requires TranslateFields(fields) == Some(cs) && k < |cs|
    requires DecodeFields(table, cs[k := (cs[k].0, CTag(506, cs[k].1))]) == Some(fields)
    ensures Returns(table, fields, cs) && fields[k].1.List?
  {
    var cs' := cs[k := (cs[k].0, CTag(506, cs[k].1))];
    TranslatedEntries(fields);
    DecodedFields(table, cs');
    forall i | 0 <= i < |cs|
      ensures DecodeEntry(table, cs[i]) == Some([fields[i]])
    {
      assert DecodeEntry(table, cs'[i]) == Some([fields[i]]);
      if i == k {
        TagsConverse(table, fields[k], cs[k]);
      }
    }
    assert DecodeEntry(table, cs'[k]) == Some([fields[k]]);
    TagsConverse(table, fields[k], cs[k]);
  }

  /** Entries that come back, with a list under code 1, make a manifest. */
  lemma EntriesMakeManifest(fields: seq<(Text, Json)>, cs: seq<(int, Cbor)>, k: nat)
    requires Returns(UnsignedCorimMap(), fields, cs) && k < |cs| && cs[k].0 == 1 && fields[k].1.List?
    ensures FitsManifest(Dict(fields))
  {
    assert DictTable(CorimTag(UnsignedCorim), cs) == UnsignedCorimMap();
    EntriesConverse(CorimTag(UnsignedCorim), fields, cs);
    FieldConverse(UnsignedCorimMap(), fields[k], cs[k]);
    CodeOneIsTags();
    assert fields[k].0 == Manifest(CorimTags);
  }

  lemma CodeOneIsTags()
    ensures KeyByValue(UnsignedCorimMap(), Int(1)) == Some(Manifest(CorimTags))
  {
  }

  lemma ManifestConverse(j: Json)
    requires Generate(j).Some? && Decode(Generate(j).value, NoName) == Some(Wrapped(j))
    ensures FitsManifest(j)
  {
    var cs := TranslateFields(j.fields).value;
    var tags := Find(cs, 1).value;
    var k := PutSame(cs, 1, CTag(506, tags));
    UnwrapDecoded(Put(cs, 1, CTag(506, tags)), j.fields);
    EntriesReturn(UnsignedCorimMap(), j.fields, cs, k);
    EntriesMakeManifest(j.fields, cs, k);
  }

  predicate ComesBack(j: Json) {
    Generate(j).Some? && Decode(Generate(j).value, NoName) == Some(Wrapped(j))
  }

  /**
   * A manifest comes back unchanged from json_to_cbor followed by cbor_to_json exactly when it
   * follows the schema and uses names, not codes, in its role and digest lists.
   */
  lemma ComesBackExactlyWhen(j: Json)
    ensures ComesBack(j) <==> FitsManifest(j) && NoCodes(CorimTag(UnsignedCorim), j)
  {
    UnchangedExactlyWhen(CorimTag(UnsignedCorim), j);
    if ComesBack(j) {
      ManifestConverse(j);
    }
    if FitsManifest(j) {
      ManifestRoundTrip(j);
    }
  }

  lemma SingleItem(context: Text, item: Json)
    requires Fits(context, item)
    ensures Fits(context, List([item]))
  {
  }
}
