/** Exactly when the CoRIM translator raises an exception, and what the decoder does outside generated trees. */
module CorimErrors {
  import opened Words
  import opened CorimTables
  import opened CorimTrees
  import opened CorimTool
  import opened CorimRoundTrip
  import opened CorimExact

  // ----- Translating -----

  /** Key names and role names have codes; algorithms, tags and all other strings have none. */
  predicate HasCode(name: Text) {
    !(name.NoName? || name.TaggedKey? || name.Other? || name.Hash? || name.Sign? || name.CorimTag? || name.ComidTag? || name.CoseType?)
  }

  lemma CodeExactlyWhen(name: Text)
    ensures CodeOf(name).Some? <==> HasCode(name)
  {
  }

  lemma TagCodeExactlyWhen(name: Text)
    ensures TagCode(name).Some? <==> name.ComidTag?
    ensures SignCode(name).Some? <==> name.Sign?
  {
  }

  /** Every key can be coded, a role given by name has a code, an algorithm and a tag are known ones. */
  predicate Translatable(j: Json)
    decreases j, 1
  {
    match j
    case Leaf(_) => true
    case List(items) => forall i :: 0 <= i < |items| ==> Translatable(items[i])
    case Dict(fields) => forall i :: 0 <= i < |fields| ==> FieldTranslatable(fields[i])
  }

  predicate FieldTranslatable(field: (Text, Json))
    decreases field, 0
  {
    var key, value := field.0, field.1;
    if !value.Leaf? then HasCode(key) && Translatable(value)
    else if key == SignerPart(SignerRole) && value.scalar.Str? then HasCode(value.scalar.text)
    else if key == Header(AlgId) && value.scalar.Str? then value.scalar.text.Sign?
    else if key.TaggedKey? then HasCode(key.base) && key.tag.ComidTag?
    else HasCode(key)
  }

  lemma ScalarRaises(key: Text, s: Scalar)
    ensures TranslateScalar(key, s).Some? <==> FieldTranslatable((key, Leaf(s)))
  {
    CodeExactlyWhen(key);
    if s.Str? {
      CodeExactlyWhen(s.text);
      TagCodeExactlyWhen(s.text);
    }
    if key.TaggedKey? {
      CodeExactlyWhen(key.base);
      TagCodeExactlyWhen(key.tag);
    }
  }

  lemma {:induction false} FieldRaises(field: (Text, Json))
    ensures TranslateField(field).Some? <==> FieldTranslatable(field)
    decreases field, 0
  {
    if field.1.Leaf? {
      ScalarRaises(field.0, field.1.scalar);
      assert field == (field.0, Leaf(field.1.scalar));
    } else {
      CodeExactlyWhen(field.0);
      RaisesExactlyWhen(field.1);
    }
  }

  lemma {:induction false} FieldsRaise(fields: seq<(Text, Json)>)
    ensures TranslateFields(fields).Some? <==> forall i :: 0 <= i < |fields| ==> FieldTranslatable(fields[i])
    decreases fields, 0
  {
    if fields != [] {
      var n := |fields| - 1;
      FieldsRaise(fields[..n]);
      FieldRaises(fields[n]);
      assert forall i :: 0 <= i < n ==> fields[..n][i] == fields[i];
    }
  }

  lemma {:induction false} ItemsRaise(items: seq<Json>)
    ensures TranslateItems(items).Some? <==> forall i :: 0 <= i < |items| ==> Translatable(items[i])
    decreases items, 0
  {
    if items != [] {
      var n := |items| - 1;
      ItemsRaise(items[..n]);
      RaisesExactlyWhen(items[n]);
      assert forall i :: 0 <= i < n ==> items[..n][i] == items[i];
    }
  }

  /** Translation raises an exception exactly on the trees that are not translatable. */
  lemma {:induction false} RaisesExactlyWhen(j: Json)
    ensures Translate(j).Some? <==> Translatable(j)
    decreases j, 1
  {
    match j
    case Leaf(_) =>
    case List(items) => ItemsRaise(items);
    case Dict(fields) => FieldsRaise(fields);
  }

  /** Some member is coded 1: the place of the tags. */
  predicate HasEntryOne(fields: seq<(Text, Json)>) {
    exists i :: 0 <= i < |fields| && IsEntryOne(fields[i])
  }

  predicate IsEntryOne(field: (Text, Json)) {
    CodeOf(BaseKey(field)) == Some(1)
  }

  lemma EntryOneLast(fields: seq<(Text, Json)>, n: nat)
    requires |fields| == n + 1
    ensures HasEntryOne(fields) <==> HasEntryOne(fields[..n]) || IsEntryOne(fields[n])
  {
    assert forall i :: 0 <= i < n ==> fields[..n][i] == fields[i];
  }

  lemma TranslatedLast(fields: seq<(Text, Json)>, n: nat) returns (before: seq<(int, Cbor)>, code: int, value: Cbor)
    requires |fields| == n + 1 && TranslateFields(fields).Some?
    ensures TranslateFields(fields[..n]) == Some(before) && TranslateField(fields[n]) == Some((code, value))
    ensures TranslateFields(fields).value == Put(before, code, value)
  {
    before, code, value := TranslateFields(fields[..n]).value, TranslateField(fields[n]).value.0, TranslateField(fields[n]).value.1;
  }

  lemma TranslatedCode(field: (Text, Json))
    requires TranslateField(field).Some?
    ensures CodeOf(BaseKey(field)) == Some(TranslateField(field).value.0)
  {
  }

  lemma {:induction false} PutFound(dict: seq<(int, Cbor)>, key: int, value: Cbor, sought: int)
    ensures Find(Put(dict, key, value), sought) == if sought == key then Some(value) else Find(dict, sought)
  {
    if dict != [] && dict[0].0 != key {
      PutFound(dict[1..], key, value, sought);
    }
  }

  lemma {:induction false} EntryOneFound(fields: seq<(Text, Json)>)
    requires TranslateFields(fields).Some?
    ensures Find(TranslateFields(fields).value, 1).Some? <==> HasEntryOne(fields)
  {
    if fields != [] {
      var n := |fields| - 1;
      var before, code, value := TranslatedLast(fields, n);
      EntryOneFound(fields[..n]);
      TranslatedCode(fields[n]);
      PutFound(before, code, value, 1);
      EntryOneLast(fields, n);
    }
  }

  /** A manifest is generated exactly from a translatable dict that has an entry for the tags. */
  lemma GeneratedExactlyWhen(j: Json)
    ensures Generate(j).Some? <==> j.Dict? && Translatable(j) && HasEntryOne(j.fields)
  {
    if j.Dict? {
      FieldsRaise(j.fields);
      if TranslateFields(j.fields).Some? {
        EntryOneFound(j.fields);
      }
    }
  }

  // ----- Decoding what the tool does not generate -----

  /** An entry whose code the table does not have is kept without a name. */
  lemma UnknownCode(table: Table, code: int, s: Scalar)
    requires KeyByValue(table, Int(code)).None?
    ensures DecodeEntry(table, (code, CLeaf(s))) == Some([(NoName, Leaf(s))])
  {
  }

  /** An entry with a tag that is neither 506 nor a comid tag is dropped. */
  lemma UnknownTag(table: Table, cs: seq<(int, Cbor)>, code: int, tag: int, value: Cbor)
    requires tag != 506 && KeyByValue(ComidCborTags(), Int(tag)).None? && DecodeFields(table, cs).Some?
    ensures DecodeFields(table, cs + [(code, CTag(tag, value))]) == DecodeFields(table, cs)
  {
    assert (cs + [(code, CTag(tag, value))])[..|cs|] == cs;
  }

  /** A tagged scalar outside a dict is lost. */
  lemma TaggedScalar(context: Text, tag: int, s: Scalar)
    ensures Decode(CTag(tag, CLeaf(s)), context) == Some(Dict([]))
  {
  }

  /** A list with a tag among its items has no JSON form, wherever the tag stands. */
  lemma TagInList(items: seq<Cbor>, context: Text, i: nat)
    requires i < |items| && items[i].CTag?
    ensures DecodeItems(items, context).None?
  {
    assert items[..i + 1][i] == items[i];
    DecodeItemsFail(items, context, i + 1);
  }

  lemma OneScalar(table: Table, code: int, s: Scalar)
    ensures DecodeFields(table, [(code, CLeaf(s))]) == Some([(Name(table, code), DecodeScalar(Name(table, code), s))])
  {
    var fields: seq<(int, Cbor)> := [(code, CLeaf(s))];
    assert fields[..0] == [];
    assert DecodeFields(table, fields[..0]) == Some([]);
  }

  /**
   * Tag 506 around anything but a list: a scalar, an empty dict or a tagged scalar becomes an empty
   * list; a dict whose first entry is a scalar raises an exception.
   */
  lemma TagsWithoutList(table: Table, code: int, tag: int, other: int, s: Scalar)
    ensures var empty := Some([(Name(table, code), List([]))]);
            && DecodeEntry(table, (code, CTag(506, CLeaf(s)))) == empty
            && DecodeEntry(table, (code, CTag(506, CDict([])))) == empty
            && DecodeEntry(table, (code, CTag(506, CTag(tag, CLeaf(s))))) == empty
    ensures DecodeEntry(table, (code, CTag(506, CDict([(other, CLeaf(s))])))).None?
  {
    var fields, name := [(other, CLeaf(s))], Name(table, code);
    OneScalar(DictTable(name, fields), other, s);
    assert Decode(CDict(fields), name) != Some(Dict([]));
  }

  /** A comid tag under a code that the table does not have raises an exception. */
  lemma TagWithoutName(table: Table, code: int, tag: int, value: Cbor)
    requires tag in {37, 111, 550, 552, 553} && KeyByValue(table, Int(code)).None?
    ensures DecodeEntry(table, (code, CTag(tag, value))).None?
  {
  }
}
