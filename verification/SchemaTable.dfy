/** The run-time schema of a type: a table of all structs it refers to, in which struct types are
    indices. */
module SchemaTable {
  import opened Bytes
  import opened Counting
  import Wire

  type ScalarId = t: byte | 2 <= t <= 9 || 14 <= t <= 18 witness 2

  type ContainerId = t: byte | t == 11 || t == 12 witness 11

  /** A .NET type as far as its schema goes; structs are numbered. */
  datatype Type =
    | Basic(t: ScalarId)
    | Struct(struct: nat)
    | Bonded(of: Type)
    | Nullable(of: Type)
    | Blob
    | Container(container: ContainerId, elem: Type)
    | Map(key: Type, elem: Type)

  datatype StructType = StructType(base: Option<nat>, fields: seq<(nat, Type)>)

  predicate Refers(graph: seq<StructType>, t: Type) {
    match t
    case Basic(_) => true
    case Struct(s) => s < |graph|
    case Bonded(of) => Refers(graph, of)
    case Nullable(of) => Refers(graph, of)
    case Blob => true
    case Container(_, elem) => Refers(graph, elem)
    case Map(key, elem) => Refers(graph, key) && Refers(graph, elem)
  }

  /** Structs are numbered with bases first; fields may refer to any struct, in cycles or not. */
  predicate WellFormed(graph: seq<StructType>) {
    forall s :: 0 <= s < |graph| ==>
      && (graph[s].base.Some? ==> graph[s].base.value < s)
      && forall i :: 0 <= i < |graph[s].fields| ==> Refers(graph, graph[s].fields[i].1)
  }

  function DataTypeOf(t: Type): byte {
    match t
    case Basic(id) => id
    case Struct(_) => Wire.BT_STRUCT
    case Bonded(_) => Wire.BT_STRUCT
    case Nullable(_) => Wire.BT_LIST
    case Blob => Wire.BT_LIST
    case Container(id, _) => id
    case Map(_, _) => Wire.BT_MAP
  }

  /** `struct` is an index into the table if `id` is BT_STRUCT. */
  datatype TypeDef = TypeDef(id: byte, struct: nat, bonded: bool, key: Option<TypeDef>, element: Option<TypeDef>)

  datatype FieldEntry = FieldEntry(id: nat, t: TypeDef)

  datatype StructEntry = StructEntry(qualifiedName: string, base: Option<TypeDef>, fields: seq<FieldEntry>)

  /** Indices are stored in 16 bits. */
  const MAX_STRUCTS := 0x1_0000

  /** `d` describes `t` when entry `i` of the table stands for struct `types[i]`. A bonded type is
      described as the type it holds, with a flag. */
  predicate Describes(types: seq<nat>, d: TypeDef, t: Type)
    decreases t, 0
  {
    match t
    case Bonded(of) => d.bonded && Describes(types, if of.Bonded? then d else d.(bonded := false), of)
    case Struct(s) =>
      d.id == Wire.BT_STRUCT && !d.bonded && d.struct < |types| && types[d.struct] == s
      && d.key == None && d.element == None
    case Basic(id) => d == TypeDef(id, 0, false, None, None)
    case Blob => d == TypeDef(Wire.BT_LIST, 0, false, None, Some(TypeDef(Wire.BT_INT8, 0, false, None, None)))
    case Nullable(of) => d.id == Wire.BT_LIST && DescribesElement(types, d, of)
    case Container(id, elem) => d.id == id && DescribesElement(types, d, elem)
    case Map(key, elem) =>
      && d.id == Wire.BT_MAP && !d.bonded
      && d.key.Some? && Describes(types, d.key.value, key)
      && d.element.Some? && Describes(types, d.element.value, elem)
  }

  predicate DescribesElement(types: seq<nat>, d: TypeDef, elem: Type)
    decreases elem, 1
  {
    !d.bonded && d.key == None && d.element.Some? && Describes(types, d.element.value, elem)
  }

  predicate DescribesFields(types: seq<nat>, entries: seq<FieldEntry>, fields: seq<(nat, Type)>) {
    |entries| == |fields|
    && forall i :: 0 <= i < |fields| ==> entries[i].id == fields[i].0 && Describes(types, entries[i].t, fields[i].1)
  }

  predicate DescribesBase(types: seq<nat>, entry: Option<TypeDef>, base: Option<nat>) {
    match (entry, base)
    case (None, None) => true
    case (Some(d), Some(s)) => Describes(types, d, Struct(s))
    case _ => false
  }

  predicate DescribesStruct(types: seq<nat>, entry: StructEntry, struct: StructType) {
    DescribesBase(types, entry.base, struct.base) && DescribesFields(types, entry.fields, struct.fields)
  }

  lemma {:induction false} StillDescribes(types: seq<nat>, types': seq<nat>, d: TypeDef, t: Type)
    requires types <= types' && Describes(types, d, t)
    ensures Describes(types', d, t)
    decreases t
  {
    match t
    case Basic(_) =>
    case Struct(_) =>
    case Blob =>
    case Bonded(of) => StillDescribes(types, types', if of.Bonded? then d else d.(bonded := false), of);
    case Nullable(of) => StillDescribes(types, types', d.element.value, of);
    case Container(_, elem) => StillDescribes(types, types', d.element.value, elem);
    case Map(key, elem) =>
      StillDescribes(types, types', d.key.value, key);
      StillDescribes(types, types', d.element.value, elem);
  }

  lemma StillDescribesFields(types: seq<nat>, types': seq<nat>, entries: seq<FieldEntry>, fields: seq<(nat, Type)>)
    requires types <= types' && DescribesFields(types, entries, fields)
    ensures DescribesFields(types', entries, fields)
  {
    forall i | 0 <= i < |fields| ensures Describes(types', entries[i].t, fields[i].1) {
      StillDescribes(types, types', entries[i].t, fields[i].1);
    }
  }

  lemma StillDescribesStruct(types: seq<nat>, types': seq<nat>, entry: StructEntry, struct: StructType)
    requires types <= types' && DescribesStruct(types, entry, struct)
    ensures DescribesStruct(types', entry, struct)
  {
    StillDescribesFields(types, types', entry.fields, struct.fields);
    if struct.base.Some? {
      StillDescribes(types, types', entry.base.value, Struct(struct.base.value));
    }
  }

  // ------------------------------------------------------- what a reader makes of it

  /** The type that a definition stands for, to a reader of the table: by number, 10 is a struct, 11 and 12
      are containers, 13 is a map. */
  function Meaning(types: seq<nat>, d: TypeDef): Option<Type>
    decreases d, 1
  {
    if !d.bonded then Plain(types, d)
    else match Plain(types, d) case Some(t) => Some(Bonded(t)) case None => None
  }

  function Plain(types: seq<nat>, d: TypeDef): Option<Type>
    decreases d, 0
  {
    if d.id == 10 then if d.struct < |types| then Some(Struct(types[d.struct])) else None
    else if d.id == 11 || d.id == 12 then
      match d.element
      case None => None
      case Some(e) => match Meaning(types, e) case Some(elem) => Some(Container(d.id, elem)) case None => None
    else if d.id == 13 then
      match (d.key, d.element)
      case (Some(k), Some(e)) =>
        (match (Meaning(types, k), Meaning(types, e))
         case (Some(key), Some(elem)) => Some(Map(key, elem))
         case _ => None)
      case _ => None
    else if 2 <= d.id <= 18 then Some(Basic(d.id))
    else None
  }

  /** The type as it is on the wire: nullable types are lists, blobs lists of int8. */
  function OnWire(t: Type): Type {
    match t
    case Basic(_) => t
    case Struct(_) => t
    case Blob => Container(11, Basic(14))
    case Nullable(of) => Container(11, OnWire(of))
    case Container(id, elem) => Container(id, OnWire(elem))
    case Map(key, elem) => Map(OnWire(key), OnWire(elem))
    case Bonded(of) => if of.Bonded? then OnWire(of) else Bonded(OnWire(of))
  }

  /** What describes a type stands for that type. */
  lemma {:induction false} DescribedMeans(types: seq<nat>, d: TypeDef, t: Type)
    requires Describes(types, d, t)
    ensures Meaning(types, d) == Some(OnWire(t)) && (d.bonded <==> t.Bonded?)
    decreases t
  {
    match t
    case Basic(_) =>
    case Struct(_) =>
    case Blob =>
    case Bonded(of) =>
      if of.Bonded? {
        DescribedMeans(types, d, of);
      } else {
        DescribedMeans(types, d.(bonded := false), of);
        assert Plain(types, d) == Plain(types, d.(bonded := false));
      }
    case Nullable(of) => DescribedMeans(types, d.element.value, of);
    case Container(_, elem) => DescribedMeans(types, d.element.value, elem);
    case Map(key, elem) =>
      DescribedMeans(types, d.key.value, key);
      DescribedMeans(types, d.element.value, elem);
  }

  /** To its reader the entry has the base and the fields of the struct, in their order. */
  ghost predicate EntryMeans(types: seq<nat>, entry: StructEntry, struct: StructType) {
    && (entry.base == None <==> struct.base == None)
    && (entry.base.Some? && struct.base.Some? ==> Meaning(types, entry.base.value) == Some(Struct(struct.base.value)))
    && |entry.fields| == |struct.fields|
    && forall i :: 0 <= i < |struct.fields| ==>
         entry.fields[i].id == struct.fields[i].0
         && Meaning(types, entry.fields[i].t) == Some(OnWire(struct.fields[i].1))
  }

  lemma DescribedStructMeans(types: seq<nat>, entry: StructEntry, struct: StructType)
    requires DescribesStruct(types, entry, struct)
    ensures EntryMeans(types, entry, struct)
  {
    hide Meaning, OnWire;
    if struct.base.Some? {
      DescribedMeans(types, entry.base.value, Struct(struct.base.value));
      assert OnWire(Struct(struct.base.value)) == Struct(struct.base.value) by { StructOnWire(struct.base.value); }
    }
    forall i | 0 <= i < |struct.fields|
      ensures Meaning(types, entry.fields[i].t) == Some(OnWire(struct.fields[i].1))
    {
      DescribedMeans(types, entry.fields[i].t, struct.fields[i].1);
    }
  }

  lemma StructOnWire(s: nat)
    ensures OnWire(Struct(s)) == Struct(s)
  {
  }

  // ------------------------------------------------------------- reachability

  predicate RefersInto(t: Type, c: set<nat>) {
    match t
    case Basic(_) => true
    case Struct(s) => s in c
    case Bonded(of) => RefersInto(of, c)
    case Nullable(of) => RefersInto(of, c)
    case Blob => true
    case Container(_, elem) => RefersInto(elem, c)
    case Map(key, elem) => RefersInto(key, c) && RefersInto(elem, c)
  }

  /** A set of structs that has everything its members refer to. */
  predicate Closed(graph: seq<StructType>, c: set<nat>) {
    forall s :: s in c && s < |graph| ==>
      && (graph[s].base.Some? ==> graph[s].base.value in c)
      && (forall i :: 0 <= i < |graph[s].fields| ==> RefersInto(graph[s].fields[i].1, c))
  }

  predicate UniqueNames(names: seq<string>) {
    forall i, j :: 0 <= i < j < |names| ==> names[i] != names[j]
  }

  class Cache {
    const schema: seq<StructType>
    const names: seq<string>
    var structs: seq<StructEntry>
    ghost var types: seq<nat>

    ghost function Listed(): set<nat>
      reads this
    {
      set s | s in types
    }

    ghost predicate Valid()
      reads this
    {
      && WellFormed(schema) && |names| == |schema| <= MAX_STRUCTS && UniqueNames(names)
      && |types| == |structs| && |types| + Left(|schema|, Listed()) == |schema|
      && (forall i :: 0 <= i < |types| ==> types[i] < |schema| && structs[i].qualifiedName == names[types[i]])
      && (forall i, j :: 0 <= i < j < |types| ==> types[i] != types[j])
    }

    /** Only complete entries have been added, none beyond what `c` needs to be closed. */
    twostate predicate Extended(roots: Type)
      reads this
    {
      && Valid() && old(types) <= types && old(structs) <= structs
      && (forall i :: |old(structs)| <= i < |structs| ==> DescribesStruct(types, structs[i], schema[types[i]]))
      && (forall c, i :: Closed(schema, c) && RefersInto(roots, c) && |old(types)| <= i < |types| ==> types[i] in c)
    }

    constructor (graph: seq<StructType>, qualifiedNames: seq<string>)
      requires WellFormed(graph) && |qualifiedNames| == |graph| <= 0x1_0000 && UniqueNames(qualifiedNames)
      ensures Valid() && structs == [] && schema == graph && names == qualifiedNames
    {
      schema, names, structs, types := graph, qualifiedNames, [], [];
      new;
      NothingListed(|schema|);
      assert Listed() == {};
    }

    ghost predicate FieldsRefer(s: nat)
      requires s < |schema|
    {
      forall i :: 0 <= i < |schema[s].fields| ==> Refers(schema, schema[s].fields[i].1)
    }

    lemma FieldRefers(s: nat, i: nat)
      requires s < |schema| && i < |schema[s].fields| && FieldsRefer(s)
      ensures Refers(schema, schema[s].fields[i].1)
    {
    }

    /** The index of the entry with a name, or -1. */
    method FindIndex(name: string) returns (i: int)
      ensures -1 <= i < |structs| && (i >= 0 ==> structs[i].qualifiedName == name)
      ensures i == -1 ==> forall j :: 0 <= j < |structs| ==> structs[j].qualifiedName != name
    {
      i := 0;
      while i < |structs|
        invariant 0 <= i <= |structs|
        invariant forall j :: 0 <= j < i ==> structs[j].qualifiedName != name
      {
        if structs[i].qualifiedName == name {
          return;
        }
        i := i + 1;
      }
      i := -1;
    }

    /** Starts the entry of struct `s`. */
    method Add(s: nat)
      requires Valid() && s < |schema| && s !in types
      modifies this
      ensures Valid() && types == old(types) + [s] && structs == old(structs) + [StructEntry(names[s], None, [])]
      ensures Left(|schema|, Listed()) < Left(|schema|, old(Listed()))
    {
      ghost var before := Listed();
      structs := structs + [StructEntry(names[s], None, [])];
      types := types + [s];
      assert Listed() == before + {s};
      LeftAdds(|schema|, before, s);
    }

    method GetTypeDef(t: Type) returns (d: TypeDef)
      requires Valid() && Refers(schema, t)
      modifies this
      ensures Extended(t) && Describes(types, d, t) && Meaning(types, d) == Some(OnWire(t))
      decreases Left(|schema|, Listed()), 1, t, 1
    {
      hide Left, Closed, WellFormed, UniqueNames, DescribesStruct, Meaning, OnWire;
      if t.Bonded? {
        d := GetTypeDef(t.of);
        d := d.(bonded := true);
        StaysDescribed(types, d, t.of);
        DescribedMeans(types, d, t);
        return;
      }
      d := TypeDef(DataTypeOf(t), 0, false, None, None);
      match t {
        case Map(key, elem) =>
          var keyDef, element := GetPair(key, elem);
          d := d.(key := Some(keyDef), element := Some(element));
        case Struct(s) =>
          var i := GetStructIndex(s);
          d := d.(struct := i);
        case Nullable(of) =>
          var element := GetTypeDef(of);
          d := d.(element := Some(element));
        case Container(_, elem) =>
          var element := GetTypeDef(elem);
          d := d.(element := Some(element));
        case Blob => d := d.(element := Some(TypeDef(Wire.BT_INT8, 0, false, None, None)));
        case Basic(_) =>
      }
      DescribedMeans(types, d, t);
    }

    method GetPair(key: Type, elem: Type) returns (keyDef: TypeDef, element: TypeDef)
      requires Valid() && Refers(schema, key) && Refers(schema, elem)
      modifies this
      ensures Extended(Map(key, elem)) && Describes(types, keyDef, key) && Describes(types, element, elem)
      decreases Left(|schema|, Listed()), 1, Map(key, elem), 0
    {
      hide Left, Closed, WellFormed, UniqueNames, DescribesStruct, Describes;
      keyDef := GetTypeDef(key);
      ghost var mid, count := types, |structs|;
      ListedGrows(old(types), types, |schema|);
      element := GetTypeDef(elem);
      StillDescribes(mid, types, keyDef, key);
      forall i | |old(structs)| <= i < count ensures DescribesStruct(types, structs[i], schema[types[i]]) {
        StillDescribesStruct(mid, types, structs[i], schema[types[i]]);
      }
    }

    method GetStructIndex(s: nat) returns (index: nat)
      requires Valid() && s < |schema|
      modifies this
      ensures Extended(Struct(s)) && index < |types| && types[index] == s
      decreases Left(|schema|, Listed()), 0, 1
    {
      hide Left, Closed, WellFormed, DescribesStruct;
      var i := FindIndex(names[s]);
      if i == -1 {
        i := GetStructDef(s);
      }
      assert i < MAX_STRUCTS;
      index := i % MAX_STRUCTS;
    }

    /** Entry `index`, of struct `s`, is being filled: its base is there if `based`, and of its
        fields those in `done`; the entries behind it are complete. */
    ghost predicate Filling(index: nat, s: nat, based: bool, done: seq<(nat, Type)>)
      reads this
    {
      && Valid() && index < |types| && types[index] == s
      && (if based then DescribesBase(types, structs[index].base, schema[s].base) else structs[index].base == None)
      && DescribesFields(types, structs[index].fields, done)
      && (forall k :: index < k < |structs| ==> DescribesStruct(types, structs[k], schema[types[k]]))
      && (forall c, k :: Closed(schema, c) && s in c && index <= k < |types| ==> types[k] in c)
    }

    /** Describes a type for the entry being filled. */
    method GetPart(index: nat, s: nat, based: bool, done: seq<(nat, Type)>, t: Type) returns (d: TypeDef)
      requires Filling(index, s, based, done) && Refers(schema, t)
      requires forall c :: Closed(schema, c) && s in c ==> RefersInto(t, c)
      modifies this
      ensures Filling(index, s, based, done) && Describes(types, d, t)
      ensures old(types) <= types && old(structs) <= structs
      ensures Left(|schema|, Listed()) <= old(Left(|schema|, Listed()))
      decreases Left(|schema|, Listed()), 2, t
    {
      ghost var before, count := types, |structs|;
      ghost var base, fields := structs[index].base, structs[index].fields;
      d := GetTypeDef(t);
      ListedGrows(before, types, |schema|);
      StillDescribesFields(before, types, fields, done);
      if based && base.Some? {
        StillDescribes(before, types, base.value, Struct(schema[s].base.value));
      }
      forall k | index < k < |structs| ensures DescribesStruct(types, structs[k], schema[types[k]]) {
        if k < count {
          StillDescribesStruct(before, types, structs[k], schema[types[k]]);
        }
      }
    }

    method GetStructDef(s: nat) returns (index: nat)
      requires Valid() && s < |schema| && s !in types
      modifies this
      ensures Extended(Struct(s)) && index == |old(types)| < |types| && types[index] == s
      decreases Left(|schema|, Listed()), 0, 0
    {
      assert FieldsRefer(s);
      hide Left, WellFormed, UniqueNames, Describes, DescribesStruct, Filling, Closed, Refers, RefersInto, FieldsRefer;
      index := |structs|;
      Add(s);
      Started(index, s);
      FillBase(index, s);
      FillFields(index, s);
      Finished(index, s);
    }

    method FillBase(index: nat, s: nat)
      requires s < |schema| && Filling(index, s, false, []) && index < |structs|
      requires schema[s].base == None ==> Filling(index, s, true, [])
      requires schema[s].base.Some? ==> Refers(schema, Struct(schema[s].base.value))
      requires forall c :: Closed(schema, c) && s in c && schema[s].base.Some? ==>
                 RefersInto(Struct(schema[s].base.value), c)
      modifies this
      ensures Filling(index, s, true, [])
      ensures old(types) <= types && |old(structs)| <= |structs| && structs[..index] == old(structs[..index])
      ensures Left(|schema|, Listed()) <= old(Left(|schema|, Listed()))
      decreases Left(|schema|, Listed()), 3, 0
    {
      hide Left, WellFormed, Describes, DescribesStruct, Filling, Closed, Refers, RefersInto;
      var base := schema[s].base;
      if base.Some? {
        var t := GetPart(index, s, false, [], Struct(base.value));
        SetBase(index, s, t);
      }
    }

    method FillFields(index: nat, s: nat)
      requires s < |schema| && FieldsRefer(s) && Filling(index, s, true, []) && index < |structs|
      requires forall c :: Closed(schema, c) && s in c ==>
                 forall i :: 0 <= i < |schema[s].fields| ==> RefersInto(schema[s].fields[i].1, c)
      modifies this
      ensures Filling(index, s, true, schema[s].fields)
      ensures old(types) <= types && |old(structs)| <= |structs| && structs[..index] == old(structs[..index])
      decreases Left(|schema|, Listed()), 3, 0
    {
      hide Left, WellFormed, Describes, DescribesStruct, Filling, Closed, Refers, RefersInto, FieldsRefer;
      ghost var left := Left(|schema|, Listed());
      var fields := schema[s].fields;
      for i := 0 to |fields|
        invariant Filling(index, s, true, fields[..i])
        invariant old(types) <= types && |old(structs)| <= |structs| && structs[..index] == old(structs[..index])
        invariant Left(|schema|, Listed()) <= left
      {
        assert Refers(schema, fields[i].1) by { FieldRefers(s, i); }
        var t := GetPart(index, s, true, fields[..i], fields[i].1);
        AddField(index, s, fields, i, t);
      }
      assert fields[..|fields|] == fields;
    }

    lemma Started(index: nat, s: nat)
      requires Valid() && index == |types| - 1 && types[index] == s && structs[index] == StructEntry(names[s], None, [])
      ensures Filling(index, s, false, [])
      ensures schema[s].base == None ==> Filling(index, s, true, [])
      ensures forall c :: Closed(schema, c) && s in c ==>
                && (schema[s].base.Some? ==> RefersInto(Struct(schema[s].base.value), c))
                && forall i :: 0 <= i < |schema[s].fields| ==> RefersInto(schema[s].fields[i].1, c)
      ensures schema[s].base.Some? ==> Refers(schema, Struct(schema[s].base.value))
    {
    }

    lemma Finished(index: nat, s: nat)
      requires s < |schema| && Filling(index, s, true, schema[s].fields)
      ensures Valid() && index < |types| && types[index] == s
      ensures forall k :: index <= k < |structs| ==> DescribesStruct(types, structs[k], schema[types[k]])
      ensures forall c, k :: Closed(schema, c) && s in c && index <= k < |types| ==> types[k] in c
    {
    }

    method SetBase(index: nat, s: nat, t: TypeDef)
      requires Filling(index, s, false, []) && s < |schema| && schema[s].base.Some?
      requires Describes(types, t, Struct(schema[s].base.value))
      modifies this`structs
      ensures Filling(index, s, true, []) && |structs| == |old(structs)| && structs[..index] == old(structs[..index])
    {
      structs := structs[index := structs[index].(base := Some(t))];
    }

    method AddField(index: nat, s: nat, fields: seq<(nat, Type)>, i: nat, t: TypeDef)
      requires i < |fields| && Filling(index, s, true, fields[..i]) && Describes(types, t, fields[i].1)
      modifies this`structs
      ensures Filling(index, s, true, fields[..i + 1])
      ensures |structs| == |old(structs)| && structs[..index] == old(structs[..index])
    {
      structs := structs[index := structs[index].(fields := structs[index].fields + [FieldEntry(fields[i].0, t)])];
    }

    /** The whole table of `root`. Every struct in it is listed once, under its own index, and
        described completely, with all indices in range; the structs listed are the smallest set
        that has the root and everything its members refer to. */
    method GetSchema(root: nat) returns (index: nat)
      requires Valid() && structs == [] && root < |schema|
      modifies this
      ensures Valid() && index < |structs| && types[index] == root
      ensures forall i :: 0 <= i < |structs| ==> DescribesStruct(types, structs[i], schema[types[i]])
      ensures forall i :: 0 <= i < |structs| ==> EntryMeans(types, structs[i], schema[types[i]])
      ensures Closed(schema, Listed())
      ensures forall c :: Closed(schema, c) && root in c ==> Listed() <= c
    {
      index := GetStructDef(root);
      ListedIsClosed(schema, types, structs);
      forall i | 0 <= i < |structs| ensures EntryMeans(types, structs[i], schema[types[i]]) {
        DescribedStructMeans(types, structs[i], schema[types[i]]);
      }
      index := index % MAX_STRUCTS;
    }
  }

  lemma StaysDescribed(types: seq<nat>, d: TypeDef, of: Type)
    requires d.bonded && (Describes(types, d, of) || Describes(types, d.(bonded := false), of))
    ensures Describes(types, d, Bonded(of))
  {
  }

  lemma {:induction false} DescribedIsListed(types: seq<nat>, d: TypeDef, t: Type)
    requires Describes(types, d, t)
    ensures RefersInto(t, set s | s in types)
    decreases t
  {
    match t
    case Basic(_) =>
    case Struct(_) =>
    case Blob =>
    case Bonded(of) => DescribedIsListed(types, if of.Bonded? then d else d.(bonded := false), of);
    case Nullable(of) => DescribedIsListed(types, d.element.value, of);
    case Container(_, elem) => DescribedIsListed(types, d.element.value, elem);
    case Map(key, elem) =>
      DescribedIsListed(types, d.key.value, key);
      DescribedIsListed(types, d.element.value, elem);
  }

  lemma ListedIsClosed(graph: seq<StructType>, types: seq<nat>, structs: seq<StructEntry>)
    requires |types| == |structs| && forall i :: 0 <= i < |types| ==> types[i] < |graph|
    requires forall i :: 0 <= i < |structs| ==> DescribesStruct(types, structs[i], graph[types[i]])
    ensures Closed(graph, set s | s in types)
  {
    var c := set s | s in types;
    forall s | s in c
      ensures graph[s].base.Some? ==> graph[s].base.value in c
      ensures forall i :: 0 <= i < |graph[s].fields| ==> RefersInto(graph[s].fields[i].1, c)
    {
      var k :| 0 <= k < |types| && types[k] == s;
      assert DescribesStruct(types, structs[k], graph[s]);
      if graph[s].base.Some? {
        DescribedIsListed(types, structs[k].base.value, Struct(graph[s].base.value));
      }
      forall i | 0 <= i < |graph[s].fields| ensures RefersInto(graph[s].fields[i].1, c) {
        DescribedIsListed(types, structs[k].fields[i].t, graph[s].fields[i].1);
      }
    }
  }

  lemma ListedGrows(types: seq<nat>, types': seq<nat>, n: nat)
    requires types <= types'
    ensures Left(n, set s | s in types') <= Left(n, set s | s in types)
  {
    LeftShrinks(n, set s | s in types, set s | s in types');
  }
}
