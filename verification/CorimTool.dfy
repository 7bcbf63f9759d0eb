/** The CoRIM tool's recursive loops, proved to build the trees of CorimTrees. */
module CorimTool {
  import opened Words
  import opened CorimTables
  import opened CorimTrees

  // ----- An exception at one element is an exception of the whole -----

  lemma {:induction false} ItemsFail(items: seq<Json>, k: nat)
    requires k <= |items| && TranslateItems(items[..k]).None?
    ensures TranslateItems(items).None?
  {
    if k < |items| {
      assert items[..|items| - 1][..k] == items[..k];
      ItemsFail(items[..|items| - 1], k);
    } else {
      assert items[..k] == items;
    }
  }

  lemma {:induction false} FieldsFail(fields: seq<(Text, Json)>, k: nat)
    requires k <= |fields| && TranslateFields(fields[..k]).None?
    ensures TranslateFields(fields).None?
  {
    if k < |fields| {
      assert fields[..|fields| - 1][..k] == fields[..k];
      FieldsFail(fields[..|fields| - 1], k);
    } else {
      assert fields[..k] == fields;
    }
  }

  lemma {:induction false} DecodeItemsFail(items: seq<Cbor>, context: Text, k: nat)
    requires k <= |items| && DecodeItems(items[..k], context).None?
    ensures DecodeItems(items, context).None?
  {
    if k < |items| {
      assert items[..|items| - 1][..k] == items[..k];
      DecodeItemsFail(items[..|items| - 1], context, k);
    } else {
      assert items[..k] == items;
    }
  }

  lemma {:induction false} DecodeFieldsFail(table: Table, fields: seq<(int, Cbor)>, k: nat)
    requires k <= |fields| && DecodeFields(table, fields[..k]).None?
    ensures DecodeFields(table, fields).None?
  {
    if k < |fields| {
      assert fields[..|fields| - 1][..k] == fields[..k];
      DecodeFieldsFail(table, fields[..|fields| - 1], k);
    } else {
      assert fields[..k] == fields;
    }
  }

  // ----- translate_data and GenCbor -----

  method TranslateData(input: Json) returns (output: Option<Cbor>)
    ensures output == Translate(input)
    decreases input, 1
  {
    match input
    case Dict(fields) =>
      var cs := TranslateDict(fields);
      output := if cs.Some? then Some(CDict(cs.value)) else None;
    case List(items) =>
      var cs := TranslateList(items);
      output := if cs.Some? then Some(CList(cs.value)) else None;
    case Leaf(s) =>
      output := Some(CLeaf(TranslateItemScalar(s)));
  }

  method TranslateList(input: seq<Json>) returns (output: Option<seq<Cbor>>)
    ensures output == TranslateItems(input)
    decreases input, 0
  {
    var cs := [];
    for index := 0 to |input|
      invariant TranslateItems(input[..index]) == Some(cs)
    {
      var c := TranslateData(input[index]);
      assert input[..index + 1][..index] == input[..index];
      if c.None? {
        ItemsFail(input, index + 1);
        return None;
      }
      cs := cs + [c.value];
    }
    assert input[..|input|] == input;
    output := Some(cs);
  }

  method TranslateDict(input: seq<(Text, Json)>) returns (output: Option<seq<(int, Cbor)>>)
    ensures output == TranslateFields(input)
    decreases input, 0
  {
    var cs := [];
    for index := 0 to |input|
      invariant TranslateFields(input[..index]) == Some(cs)
    {
      var entry := TranslateEntry(input[index]);
      assert input[..index + 1][..index] == input[..index];
      if entry.None? {
        FieldsFail(input, index + 1);
        return None;
      }
      cs := Put(cs, entry.value.0, entry.value.1);
    }
    assert input[..|input|] == input;
    output := Some(cs);
  }

  method TranslateEntry(field: (Text, Json)) returns (entry: Option<(int, Cbor)>)
    ensures entry == TranslateField(field)
    decreases field, 0
  {
    if field.1.Leaf? {
      return TranslateScalar(field.0, field.1.scalar);
    }
    var code := CodeOf(field.0);
    if code.None? {
      return None;
    }
    var c := TranslateData(field.1);
    entry := if c.Some? then Some((code.value, c.value)) else None;
  }

  method GenCbor(input: Json) returns (tagged: Option<Cbor>)
    ensures tagged == Generate(input)
  {
    if !input.Dict? {
      return None;
    }
    var data := TranslateDict(input.fields);
    if data.None? {
      return None;
    }
    var tags := Find(data.value, 1);
    if tags.None? {
      return None;
    }
    tagged := Some(CTag(500, CTag(501, CDict(Put(data.value, 1, CTag(506, tags.value))))));
  }

  // ----- Decoder -----

  method Decoder(input: Cbor, lastKey: Text) returns (output: Option<Json>)
    ensures output == Decode(input, lastKey)
    decreases input, 1
  {
    match input
    case CTag(tag, value) =>
      var name := GetKeyByValue([CorimCborTags(), CoseTypes()], Int(tag));
      var key := if name.Some? then name.value else NoName;
      if value.CLeaf? {
        return Some(Dict([]));
      }
      var inner := Decoder(value, key);
      output := if inner.Some? then Some(Dict([(key, inner.value)])) else None;
    case CDict(fields) =>
      var js := DecodeDict(fields, DictTable(lastKey, fields));
      output := if js.Some? then Some(Dict(js.value)) else None;
    case CList(items) =>
      var js := DecodeList(items, lastKey);
      output := if js.Some? then Some(List(js.value)) else None;
    case CLeaf(s) =>
      output := DecodeItemScalar(lastKey, s);
  }

  method DecodeList(input: seq<Cbor>, lastKey: Text) returns (output: Option<seq<Json>>)
    ensures output == DecodeItems(input, lastKey)
    decreases input, 0
  {
    var js := [];
    for index := 0 to |input|
      invariant DecodeItems(input[..index], lastKey) == Some(js)
    {
      var j := None;
      if !input[index].CTag? {
        j := Decoder(input[index], lastKey);
      }
      assert input[..index + 1][..index] == input[..index];
      if j.None? {
        DecodeItemsFail(input, lastKey, index + 1);
        return None;
      }
      js := js + [j.value];
    }
    assert input[..|input|] == input;
    output := Some(js);
  }

  method DecodeDict(input: seq<(int, Cbor)>, table: Table) returns (output: Option<seq<(Text, Json)>>)
    ensures output == DecodeFields(table, input)
    decreases input, 0
  {
    var js := [];
    for index := 0 to |input|
      invariant DecodeFields(table, input[..index]) == Some(js)
    {
      var entry := DecodeMember(input[index], table);
      assert input[..index + 1][..index] == input[..index];
      if entry.None? {
        DecodeFieldsFail(table, input, index + 1);
        return None;
      }
      if entry.value != [] {
        js := Put(js, entry.value[0].0, entry.value[0].1);
      }
    }
    assert input[..|input|] == input;
    output := Some(js);
  }

  method DecodeMember(field: (int, Cbor), table: Table) returns (entry: Option<seq<(Text, Json)>>)
    ensures entry == DecodeEntry(table, field)
    decreases field, 0
  {
    var key := Name(table, field.0);
    match field.1
    case CLeaf(s) =>
      return Some([(key, DecodeScalar(key, s))]);
    case CTag(tag, value) =>
      if tag == 506 {
        if value.CLeaf? {
          return Some([(key, List([]))]);
        }
        var j := Decoder(value, key);
        if value.CList? {
          return if j.Some? then Some([(key, j.value)]) else None;
        }
        return if j == Some(Dict([])) then Some([(key, List([]))]) else None;
      }
      var tagName := KeyByValue(ComidCborTags(), Int(tag));
      if tagName.None? {
        return Some([]);
      }
      return if key == NoName || !value.CLeaf? then None
             else Some([(TaggedKey(key, tagName.value), Leaf(value.scalar))]);
    case _ =>
      var j := Decoder(field.1, key);
      return if j.Some? then Some([(key, j.value)]) else None;
  }
}
