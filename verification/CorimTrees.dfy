/**
 * The CoRIM tool's two translations: JSON manifest to tagged CBOR tree, and back. Python dicts are
 * sequences of pairs in insertion order; an exception is None.
 */
module CorimTrees {
  import opened Words
  import opened CorimTables

  datatype Json = Leaf(scalar: Scalar) | List(items: seq<Json>) | Dict(fields: seq<(Text, Json)>)

  datatype Cbor =
    | CLeaf(scalar: Scalar)
    | CList(items: seq<Cbor>)
    | CDict(fields: seq<(int, Cbor)>)
    | CTag(tag: int, value: Cbor)

  predicate HasKey<K(==), V>(dict: seq<(K, V)>, key: K) {
    exists i :: 0 <= i < |dict| && dict[i].0 == key
  }

  /** dict[key] = value: replaces in place, or appends. */
  function Put<K(==), V>(dict: seq<(K, V)>, key: K, value: V): (r: seq<(K, V)>) {
    if dict == [] then [(key, value)]
    else if dict[0].0 == key then [(key, value)] + dict[1..]
    else [dict[0]] + Put(dict[1..], key, value)
  }

  lemma {:induction false} PutNew<K, V>(dict: seq<(K, V)>, key: K, value: V)
    requires !HasKey(dict, key)
    ensures Put(dict, key, value) == dict + [(key, value)]
  {
    if dict != [] {
      assert dict[0].0 != key;
      assert !HasKey(dict[1..], key) by {
        forall i | 0 <= i < |dict| - 1 ensures dict[1..][i].0 != key { assert dict[i + 1].0 != key; }
      }
      PutNew(dict[1..], key, value);
    }
  }

  // ----- JSON to CBOR -----

  /** ComidCborTags by name. */
  function TagCode(name: Text): Option<int> {
    if !name.ComidTag? then None else
    match name.comidTag
    case TaggedOid => Some(111) case TaggedUuid => Some(37) case TaggedUeid => Some(550)
    case TaggedSvn => Some(552) case TaggedMinSvn => Some(553)
  }

  /** SignSupportAlgorithmMap by name. */
  function SignCode(name: Text): Option<int> {
    if !name.Sign? then None else
    match name.sign case Es256 => Some(-7) case Es384 => Some(-35) case Es512 => Some(-36)
  }

  /** The entry a scalar member of a dict becomes. */
  function TranslateScalar(key: Text, s: Scalar): Option<(int, Cbor)> {
    if key == SignerPart(SignerRole) && s.Str? then
      match (CodeOf(key), CodeOf(s.text))
      case (Some(code), Some(role)) => Some((code, CLeaf(Int(role))))
      case _ => None
    else if key == Header(AlgId) && s.Str? then
      match (CodeOf(key), SignCode(s.text))
      case (Some(code), Some(algorithm)) => Some((code, CLeaf(Int(algorithm))))
      case _ => None
    else if key.TaggedKey? then
      match (CodeOf(key.base), TagCode(key.tag))
      case (Some(code), Some(tag)) => Some((code, CTag(tag, CLeaf(s))))
      case _ => None
    else
      match CodeOf(key) case Some(code) => Some((code, CLeaf(s))) case None => None
  }

  /** Only two names are translated inside lists. */
  function TranslateItemScalar(s: Scalar): Scalar {
    if s == Str(RoleName(TagCreator)) then Int(0)
    else if s == Str(Hash(Sha256)) then Int(1)
    else s
  }

  /** translate_data on a list or a dict; on a scalar, what the enclosing list stores for it. */
  function Translate(j: Json): Option<Cbor>
    decreases j, 1
  {
    match j
    case Leaf(s) => Some(CLeaf(TranslateItemScalar(s)))
    case List(items) =>
      (match TranslateItems(items) case Some(cs) => Some(CList(cs)) case None => None)
    case Dict(fields) =>
      (match TranslateFields(fields) case Some(cs) => Some(CDict(cs)) case None => None)
  }

  function TranslateItems(items: seq<Json>): Option<seq<Cbor>>
    decreases items, 0
  {
    if items == [] then Some([]) else
    var n := |items| - 1;
    match (TranslateItems(items[..n]), Translate(items[n]))
    case (Some(cs), Some(c)) => Some(cs + [c])
    case _ => None
  }

  function TranslateField(field: (Text, Json)): Option<(int, Cbor)>
    decreases field, 0
  {
    if field.1.Leaf? then TranslateScalar(field.0, field.1.scalar) else
    match (CodeOf(field.0), Translate(field.1))
    case (Some(code), Some(c)) => Some((code, c))
    case _ => None
  }

  function TranslateFields(fields: seq<(Text, Json)>): Option<seq<(int, Cbor)>>
    decreases fields, 0
  {
    if fields == [] then Some([]) else
    var n := |fields| - 1;
    match (TranslateFields(fields[..n]), TranslateField(fields[n]))
    case (Some(cs), Some((code, c))) => Some(Put(cs, code, c))
    case _ => None
  }

  function Find(dict: seq<(int, Cbor)>, key: int): Option<Cbor> {
    if dict == [] then None else if dict[0].0 == key then Some(dict[0].1) else Find(dict[1..], key)
  }

  /** GenCbor: translate, wrap the tags of entry 1, wrap the whole. */
  function Generate(j: Json): Option<Cbor> {
    if !j.Dict? then None else
    match TranslateFields(j.fields)
    case None => None
    case Some(cs) =>
      match Find(cs, 1)
      case None => None
      case Some(tags) => Some(CTag(500, CTag(501, CDict(Put(cs, 1, CTag(506, tags))))))
  }

  // ----- CBOR to JSON -----

  function Name(table: Table, code: int): Text {
    match KeyByValue(table, Int(code)) case Some(name) => name case None => NoName
  }

  function TagName(tag: int): Text {
    match KeyInTables([CorimCborTags(), CoseTypes()], Int(tag)) case Some(name) => name case None => NoName
  }

  /** The table for a dict found under a name; reference triples are told apart by key 0. */
  function DictTable(context: Text, fields: seq<(int, Cbor)>): Table {
    match LogicMap(context)
    case None => End
    case Some(table) =>
      if context == Triple(ReferenceTriples) && !HasKey(fields, 0) then MeasurementMap() else table
  }

  /** Only in these lists are codes turned back into names. */
  function ItemTable(context: Text): Table {
    if context == EntityPart(Role) then ComidRoles()
    else if context == Value(Digests) then HashAlgorithms()
    else if context == SignerPart(SignerRole) then CorimRoles()
    else End
  }

  function DecodeItemScalar(context: Text, s: Scalar): Option<Json> {
    if context == CoseType(CoseSign1) then None
    else match KeyByValue(ItemTable(context), s)
         case Some(name) => Some(Leaf(Str(name)))
         case None => Some(Leaf(s))
  }

  function DecodeScalar(name: Text, s: Scalar): Json {
    if name == SignerPart(SignerRole) || name == Header(AlgId) then
      match KeyByValue(if name == SignerPart(SignerRole) then CorimRoles() else SignAlgorithms(), s)
      case Some(n) => Leaf(Str(n))
      case None => Leaf(Null)
    else Leaf(s)
  }

  /** Decoder: what it builds from a tree found under the name `context`. */
  function Decode(c: Cbor, context: Text): Option<Json>
    decreases c, 1
  {
    match c
    case CLeaf(s) => DecodeItemScalar(context, s)
    case CList(items) =>
      (match DecodeItems(items, context) case Some(js) => Some(List(js)) case None => None)
    case CDict(fields) =>
      (match DecodeFields(DictTable(context, fields), fields) case Some(js) => Some(Dict(js)) case None => None)
    case CTag(tag, value) =>
      var name := TagName(tag);
      if value.CLeaf? then Some(Dict([])) else
      match Decode(value, name) case Some(j) => Some(Dict([(name, j)])) case None => None
  }

  function DecodeItems(items: seq<Cbor>, context: Text): Option<seq<Json>>
    decreases items, 0
  {
    if items == [] then Some([]) else
    var n := |items| - 1;
    match (DecodeItems(items[..n], context), if items[n].CTag? then None else Decode(items[n], context))
    case (Some(js), Some(j)) => Some(js + [j])
    case _ => None
  }

  /**
   * What a dict entry adds to the output; None for an exception. Under tag 506 the output is a
   * list, so a dict or tag there may assign nothing.
   */
  function DecodeEntry(table: Table, field: (int, Cbor)): Option<seq<(Text, Json)>>
    decreases field, 0
  {
    var name, value := Name(table, field.0), field.1;
    match value
    case CLeaf(s) => Some([(name, DecodeScalar(name, s))])
    case CTag(tag, inner) =>
      if tag == 506 then
        (match inner
         case CList(_) => (match Decode(inner, name) case Some(j) => Some([(name, j)]) case None => None)
         case CLeaf(_) => Some([(name, List([]))])
         case _ => if Decode(inner, name) == Some(Dict([])) then Some([(name, List([]))]) else None)
      else
        (match KeyByValue(ComidCborTags(), Int(tag))
         case None => Some([])
         case Some(tagName) =>
           if name == NoName || !inner.CLeaf? then None
           else Some([(TaggedKey(name, tagName), Leaf(inner.scalar))]))
    case _ => (match Decode(value, name) case Some(j) => Some([(name, j)]) case None => None)
  }

  function DecodeFields(table: Table, fields: seq<(int, Cbor)>): Option<seq<(Text, Json)>>
    decreases fields, 0
  {
    if fields == [] then Some([]) else
    var n := |fields| - 1;
    match (DecodeFields(table, fields[..n]), DecodeEntry(table, fields[n]))
    case (Some(js), Some(entry)) => Some(if entry == [] then js else Put(js, entry[0].0, entry[0].1))
    case _ => None
  }
}
