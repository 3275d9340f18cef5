/** The deserializer generator: compiles a schema, cyclic or not, into code in which a nested struct
    is either inlined or a call of an indexed function. */
module Generator {
  import opened Bytes
  import opened Wire
  import opened Counting
  import opened Deserialization

  datatype Code =
    | ReadScalar(t: byte)
    | Call(index: nat)
    | Inline(code: StructCode)
    | Loop(t: byte, elemType: byte, elem: Code)
    | LoopMap(keyType: byte, elemType: byte, key: Code, elem: Code)

  datatype StructCode = StructCode(struct: nat, base: Option<StructCode>, fields: FieldCodes)

  datatype FieldCodes = NoCode | FieldCode(id: nat, required: bool, code: Code, rest: FieldCodes)

  // ------------------------------------------------------------ running the code

  function Exec(funcs: seq<StructCode>, code: Code, v: Value): Option<seq<Effect>>
    decreases SizeOf(v), 0, code
  {
    match code
    case ReadScalar(t) => if (v.Num? || v.Raw?) && Compatible(t, v.t) then Some([Leaf(v)]) else None
    case Call(index) =>
      if !v.Struct? || index >= |funcs| then None
      else
        (match ExecStruct(funcs, funcs[index], v.body, false)
         case None => None
         case Some((effects, _)) => Some([Fill(funcs[index].struct)] + effects + [Filled(funcs[index].struct)]))
    case Inline(body) =>
      if !v.Struct? then None
      else
        (match ExecStruct(funcs, body, v.body, false)
         case None => None
         case Some((effects, _)) => Some([Fill(body.struct)] + effects + [Filled(body.struct)]))
    case Loop(t, elemType, elem) =>
      if !v.List? || v.t != t || !Compatible(elemType, v.elem) then None
      else Then(Some([Resize(Count(v.items))]), ExecItems(funcs, elem, v.items))
    case LoopMap(keyType, elemType, key, elem) =>
      if !v.Map? || !Compatible(keyType, v.key) || !Compatible(elemType, v.elem) then None
      else Then(Some([Resize(CountEntries(v.entries))]), ExecEntries(funcs, key, elem, v.entries))
  }

  function ExecItems(funcs: seq<StructCode>, elem: Code, items: Items): Option<seq<Effect>>
    decreases SizeOfItems(items), 0, elem
  {
    match items
    case NoItems => Some([])
    case Item(head, tail) => Then(Exec(funcs, elem, head), ExecItems(funcs, elem, tail))
  }

  function ExecEntries(funcs: seq<StructCode>, key: Code, elem: Code, entries: Entries): Option<seq<Effect>>
    decreases SizeOfEntries(entries), 0, elem
  {
    match entries
    case NoEntries => Some([])
    case Entry(k, v, rest) => Then(Exec(funcs, key, k), Then(Exec(funcs, elem, v), ExecEntries(funcs, key, elem, rest)))
  }

  function ExecStruct(funcs: seq<StructCode>, code: StructCode, body: Body, isBase: bool): (r: Option<(seq<Effect>,
                      Body)>)
    ensures r.Some? ==> SizeOfBody(r.value.1) <= SizeOfBody(body)
    decreases SizeOfBody(body), 2, code
  {
    match code.base
    case None => ExecLevel(funcs, code.struct, code.fields, body, isBase)
    case Some(base) =>
      match ExecStruct(funcs, base, body, true)
      case None => None
      case Some((effects, rest)) => Before(Some(effects), ExecLevel(funcs, code.struct, code.fields, rest, isBase))
  }

  function ExecLevel(funcs: seq<StructCode>, s: nat, fields: FieldCodes, body: Body, isBase: bool)
    : (r: Option<(seq<Effect>, Body)>)
    ensures r.Some? ==> SizeOfBody(r.value.1) <= SizeOfBody(body)
    decreases SizeOfBody(body), 1, fields
  {
    match fields
    case NoCode =>
      (match LevelEnd(body, isBase)
       case None => None
       case Some(rest) => Some(([], rest)))
    case FieldCode(id, required, code, more) =>
      if !body.Field? || body.id > id then
        Before(Absent(required), ExecLevel(funcs, s, more, body, isBase))
      else if body.id == id then
        Before(Then(Some([Assign(s, id)]), Exec(funcs, code, body.value)),
               ExecLevel(funcs, s, more, body.next, isBase))
      else if HeaderId(body.next) > id then ExecLevel(funcs, s, more, body.next, isBase)
      else ExecLevel(funcs, s, fields, body.next, isBase)
  }

  // ------------------------------------------------- what code is code for what

  /** `types[i]` is the struct whose code is function `i`. */
  predicate CodeFor(types: seq<nat>, schema: seq<StructDef>, code: Code, ft: FieldType)
    requires WellFormed(schema) && Refers(schema, ft)
    decreases code
  {
    match (code, ft)
    case (ReadScalar(t), Scalar(t')) => t == t'
    case (Call(index), StructOf(s)) => index < |types| && types[index] == s
    case (Inline(body), StructOf(s)) => StructCodeFor(types, schema, body, s)
    case (Loop(t, elemType, elem), ContainerOf(t', elem')) =>
      t == t' && elemType == BondType(elem') && CodeFor(types, schema, elem, elem')
    case (LoopMap(keyType, elemType, key, elem), MapOf(key', elem')) =>
      && keyType == BondType(key') && elemType == BondType(elem')
      && CodeFor(types, schema, key, key') && CodeFor(types, schema, elem, elem')
    case _ => false
  }

  predicate StructCodeFor(types: seq<nat>, schema: seq<StructDef>, code: StructCode, s: nat)
    requires WellFormed(schema)
    decreases code
  {
    && s < |schema| && code.struct == s
    && (match (code.base, schema[s].base)
        case (None, None) => true
        case (Some(base), Some(b)) => StructCodeFor(types, schema, base, b)
        case _ => false)
    && FieldCodesFor(types, schema, code.fields, schema[s].fields)
  }

  predicate FieldCodesFor(types: seq<nat>, schema: seq<StructDef>, codes: FieldCodes, fields: Fields)
    requires WellFormed(schema) && AllRefer(schema, fields)
    decreases codes
  {
    match (codes, fields)
    case (NoCode, NoFields) => true
    case (FieldCode(id, required, code, more), FieldDef(id', required', ft, rest)) =>
      && id == id' && required == required' && CodeFor(types, schema, code, ft)
      && FieldCodesFor(types, schema, more, rest)
    case _ => false
  }

  /** Code stays good when more functions are added. */
  lemma {:induction false} CodeKept(types: seq<nat>, types': seq<nat>, schema: seq<StructDef>, code: Code,
                                    ft: FieldType)
    requires WellFormed(schema) && Refers(schema, ft) && types <= types' && CodeFor(types, schema, code, ft)
    ensures CodeFor(types', schema, code, ft)
    decreases code
  {
    match (code, ft)
    case (Inline(body), StructOf(s)) => StructCodeKept(types, types', schema, body, s);
    case (Loop(_, _, elem), ContainerOf(_, elem')) => CodeKept(types, types', schema, elem, elem');
    case (LoopMap(_, _, key, elem), MapOf(key', elem')) =>
      CodeKept(types, types', schema, key, key');
      CodeKept(types, types', schema, elem, elem');
    case _ =>
  }

  lemma {:induction false} StructCodeKept(types: seq<nat>, types': seq<nat>, schema: seq<StructDef>, code: StructCode,
                                          s: nat)
    requires WellFormed(schema) && types <= types' && StructCodeFor(types, schema, code, s)
    ensures StructCodeFor(types', schema, code, s)
    decreases code
  {
    FieldCodesKept(types, types', schema, code.fields, schema[s].fields);
    if code.base.Some? {
      StructCodeKept(types, types', schema, code.base.value, schema[s].base.value);
    }
  }

  lemma {:induction false} FieldCodesKept(types: seq<nat>, types': seq<nat>, schema: seq<StructDef>, codes: FieldCodes,
                                          fields: Fields)
    requires WellFormed(schema) && AllRefer(schema, fields) && types <= types'
    requires FieldCodesFor(types, schema, codes, fields)
    ensures FieldCodesFor(types', schema, codes, fields)
    decreases codes
  {
    match (codes, fields)
    case (FieldCode(_, _, code, more), FieldDef(_, _, ft, rest)) =>
      CodeKept(types, types', schema, code, ft);
      FieldCodesKept(types, types', schema, more, rest);
    case _ =>
  }

  /** A finished table of functions. */
  ghost predicate Complete(schema: seq<StructDef>, types: seq<nat>, funcs: seq<StructCode>)
    requires WellFormed(schema)
  {
    |types| == |funcs| && forall i :: 0 <= i < |funcs| ==> StructCodeFor(types, schema, funcs[i], types[i])
  }

  /** Good code does exactly what direct decoding does, inlined or called. */
  lemma {:induction false} ExecDecodes(schema: seq<StructDef>, types: seq<nat>, funcs: seq<StructCode>,
                                       code: Code, ft: FieldType, v: Value)
    requires WellFormed(schema) && Refers(schema, ft) && Complete(schema, types, funcs)
    requires CodeFor(types, schema, code, ft)
    ensures Exec(funcs, code, v) == Decode(schema, ft, v)
    decreases SizeOf(v), 0, code
  {
    match (code, ft)
    case (Call(index), StructOf(s)) =>
      if v.Struct? {
        ExecStructDecodes(schema, types, funcs, funcs[index], s, v.body, false);
      }
    case (Inline(body), StructOf(s)) =>
      if v.Struct? {
        ExecStructDecodes(schema, types, funcs, body, s, v.body, false);
      }
    case (Loop(_, _, elem), ContainerOf(_, elem')) =>
      if v.List? {
        ExecItemsDecodes(schema, types, funcs, elem, elem', v.items);
      }
    case (LoopMap(_, _, key, elem), MapOf(key', elem')) =>
      if v.Map? {
        ExecEntriesDecodes(schema, types, funcs, key, key', elem, elem', v.entries);
      }
    case _ =>
  }

  lemma {:induction false} ExecItemsDecodes(schema: seq<StructDef>, types: seq<nat>, funcs: seq<StructCode>,
                                            code: Code, ft: FieldType, items: Items)
    requires WellFormed(schema) && Refers(schema, ft) && Complete(schema, types, funcs)
    requires CodeFor(types, schema, code, ft)
    ensures ExecItems(funcs, code, items) == DecodeItems(schema, ft, items)
    decreases SizeOfItems(items), 0, code
  {
    match items
    case NoItems =>
    case Item(head, tail) =>
      ExecDecodes(schema, types, funcs, code, ft, head);
      ExecItemsDecodes(schema, types, funcs, code, ft, tail);
  }

  lemma {:induction false} ExecEntriesDecodes(schema: seq<StructDef>, types: seq<nat>, funcs: seq<StructCode>,
                                              key: Code, kt: FieldType, elem: Code, et: FieldType, entries: Entries)
    requires WellFormed(schema) && Refers(schema, kt) && Refers(schema, et) && Complete(schema, types, funcs)
    requires CodeFor(types, schema, key, kt) && CodeFor(types, schema, elem, et)
    ensures ExecEntries(funcs, key, elem, entries) == DecodeEntries(schema, kt, et, entries)
    decreases SizeOfEntries(entries), 0, elem
  {
    match entries
    case NoEntries =>
    case Entry(k, v, rest) =>
      ExecDecodes(schema, types, funcs, key, kt, k);
      ExecDecodes(schema, types, funcs, elem, et, v);
      ExecEntriesDecodes(schema, types, funcs, key, kt, elem, et, rest);
  }

  lemma {:induction false} ExecStructDecodes(schema: seq<StructDef>, types: seq<nat>, funcs: seq<StructCode>,
                                             code: StructCode, s: nat, body: Body, isBase: bool)
    requires WellFormed(schema) && Complete(schema, types, funcs)
    requires StructCodeFor(types, schema, code, s)
    ensures ExecStruct(funcs, code, body, isBase) == DecodeStruct(schema, s, body, isBase)
    decreases SizeOfBody(body), 2, code
  {
    if code.base.Some? {
      ExecStructDecodes(schema, types, funcs, code.base.value, schema[s].base.value, body, true);
      var r := ExecStruct(funcs, code.base.value, body, true);
      if r.Some? {
        ExecLevelDecodes(schema, types, funcs, s, code.fields, schema[s].fields, r.value.1, isBase);
      }
    } else {
      ExecLevelDecodes(schema, types, funcs, s, code.fields, schema[s].fields, body, isBase);
    }
  }

  lemma {:induction false} ExecLevelDecodes(schema: seq<StructDef>, types: seq<nat>, funcs: seq<StructCode>, s: nat,
                                            codes: FieldCodes, fields: Fields, body: Body, isBase: bool)
    requires WellFormed(schema) && AllRefer(schema, fields) && Complete(schema, types, funcs)
    requires FieldCodesFor(types, schema, codes, fields)
    ensures ExecLevel(funcs, s, codes, body, isBase) == DecodeLevel(schema, s, fields, body, isBase)
    decreases SizeOfBody(body), 1, codes
  {
    match (codes, fields)
    case (FieldCode(id, _, code, more), FieldDef(_, _, ft, rest)) =>
      if !body.Field? || body.id > id {
        ExecLevelDecodes(schema, types, funcs, s, more, rest, body, isBase);
      } else if body.id == id {
        ExecDecodes(schema, types, funcs, code, ft, body.value);
        ExecLevelDecodes(schema, types, funcs, s, more, rest, body.next, isBase);
      } else if HeaderId(body.next) > id {
        ExecLevelDecodes(schema, types, funcs, s, more, rest, body.next, isBase);
      } else {
        ExecLevelDecodes(schema, types, funcs, s, codes, fields, body.next, isBase);
      }
    case _ =>
  }

  // -------------------------------------------------------------- the generator

  class DeserializerTransform {
    const schema: seq<StructDef>
    const inlineNested: bool
    var deserializeFuncs: seq<Option<StructCode>>
    var deserializeIndex: map<nat, nat>
    var inProgress: seq<nat>
    ghost var types: seq<nat>

    ghost function Unindexed(): nat
      reads this
    {
      Left(|schema|, deserializeIndex.Keys)
    }

    ghost function NotInProgress(): nat
      reads this
    {
      Left(|schema|, set s | s in inProgress)
    }

    /** The index and the table are inverse to each other, and every function that is there is code
        for its struct. A slot is empty only while its function is being generated. */
    ghost predicate Valid()
      reads this
    {
      && WellFormed(schema) && |types| == |deserializeFuncs|
      && (forall i :: 0 <= i < |types| ==> types[i] in deserializeIndex && deserializeIndex[types[i]] == i)
      && (forall s :: s in deserializeIndex ==>
            s < |schema| && deserializeIndex[s] < |types| && types[deserializeIndex[s]] == s)
      && (forall i :: 0 <= i < |types| && deserializeFuncs[i].Some? ==>
            StructCodeFor(types, schema, deserializeFuncs[i].value, types[i]))
    }

    /** What generating a part may have done: added functions, all of them complete. */
    twostate predicate Extended()
      reads this
    {
      && Valid() && inProgress == old(inProgress) && old(types) <= types
      && old(deserializeFuncs) <= deserializeFuncs
      && (forall i :: |old(deserializeFuncs)| <= i < |deserializeFuncs| ==> deserializeFuncs[i].Some?)
      && old(deserializeIndex).Keys <= deserializeIndex.Keys
    }

    constructor (s: seq<StructDef>, inlining: bool)
      requires WellFormed(s)
      ensures Valid() && schema == s && inlineNested == inlining
      ensures deserializeFuncs == [] && inProgress == []
    {
      schema, inlineNested := s, inlining;
      deserializeFuncs, deserializeIndex, inProgress, types := [], map[], [], [];
    }

    /** A nested struct is inlined unless it is already being generated further out; otherwise its
        function is generated when it is first met, and called. */
    method Deserialize(s: nat) returns (code: Code)
      requires Valid() && s < |schema|
      modifies this
      ensures Extended() && CodeFor(types, schema, code, StructOf(s))
      ensures old(inProgress) == [] && old(deserializeFuncs) == [] ==> types != [] && types[0] == s && code == Call(0)
      ensures code.Inline? <==> inlineNested && old(inProgress) != [] && s !in old(inProgress)
      ensures code.Call? ==> code.index == if s in old(deserializeIndex) then old(deserializeIndex)[s] else |old(types)|
      decreases Unindexed(), NotInProgress(), 1, 0
    {
      hide Left, StructCodeFor, WellFormed;
      var inline := inlineNested && inProgress != [] && s !in inProgress;
      Push(s);
      if inline {
        var body := Struct(s);
        code := Inline(body);
      } else if s in deserializeIndex {
        code := Call(deserializeIndex[s]);
      } else {
        var index := NewFunction(s);
        code := Call(index);
      }
      inProgress := inProgress[..|inProgress| - 1];
    }

    method Push(s: nat)
      requires Valid() && s < |schema|
      modifies this`inProgress
      ensures Valid() && inProgress == old(inProgress) + [s]
      ensures NotInProgress() <= old(NotInProgress())
      ensures s !in old(inProgress) ==> NotInProgress() < old(NotInProgress())
    {
      hide Left, StructCodeFor, WellFormed;
      ghost var outer := set o | o in inProgress;
      inProgress := inProgress + [s];
      ghost var now := set o | o in inProgress;
      assert outer <= now && s in now;
      LeftShrinks(|schema|, outer, now);
    }

    method NewFunction(s: nat) returns (index: nat)
      requires Valid() && s < |schema| && s !in deserializeIndex
      modifies this
      ensures Extended() && index == |old(types)| < |types| && types[index] == s
      decreases Unindexed(), NotInProgress(), 0, 0
    {
      index := |deserializeFuncs|;
      Reserve(s);
      var body := Struct(s);
      deserializeFuncs := deserializeFuncs[index := Some(body)];
    }

    /** Takes the next slot for struct `s`. */
    method Reserve(s: nat)
      requires Valid() && s < |schema| && s !in deserializeIndex
      modifies this`deserializeIndex, this`deserializeFuncs, this`types
      ensures Valid() && types == old(types) + [s] && deserializeFuncs == old(deserializeFuncs) + [None]
      ensures deserializeIndex == old(deserializeIndex)[s := |old(deserializeFuncs)|]
      ensures Unindexed() < old(Unindexed())
    {
      ghost var before, keys := types, deserializeIndex.Keys;
      deserializeIndex := deserializeIndex[s := |deserializeFuncs|];
      deserializeFuncs := deserializeFuncs + [None];
      types := types + [s];
      LeftShrinks(|schema|, keys, deserializeIndex.Keys);
      forall i | 0 <= i < |types| && deserializeFuncs[i].Some?
        ensures StructCodeFor(types, schema, deserializeFuncs[i].value, types[i])
      {
        StructCodeKept(before, types, schema, deserializeFuncs[i].value, before[i]);
      }
    }

    method Struct(s: nat) returns (code: StructCode)
      requires Valid() && s < |schema|
      modifies this
      ensures Extended() && StructCodeFor(types, schema, code, s)
      decreases Unindexed(), NotInProgress(), 4, s
    {
      var base := None;
      if schema[s].base.Some? {
        var baseCode := Struct(schema[s].base.value);
        base := Some(baseCode);
      }
      ghost var before := types;
      LeftShrinks(|schema|, old(deserializeIndex.Keys), deserializeIndex.Keys);
      var fields := FieldValues(schema[s].fields);
      if base.Some? {
        StructCodeKept(before, types, schema, base.value, schema[s].base.value);
      }
      code := StructCode(s, base, fields);
    }

    method FieldValues(fields: Fields) returns (codes: FieldCodes)
      requires Valid() && AllRefer(schema, fields)
      modifies this
      ensures Extended() && FieldCodesFor(types, schema, codes, fields)
      decreases Unindexed(), NotInProgress(), 3, fields
    {
      match fields
      case NoFields => codes := NoCode;
      case FieldDef(id, required, ft, rest) =>
        var code := Value(ft);
        ghost var before := types;
        LeftShrinks(|schema|, old(deserializeIndex.Keys), deserializeIndex.Keys);
        var more := FieldValues(rest);
        CodeKept(before, types, schema, code, ft);
        codes := FieldCode(id, required, code, more);
    }

    method Value(ft: FieldType) returns (code: Code)
      requires Valid() && Refers(schema, ft)
      modifies this
      ensures Extended() && CodeFor(types, schema, code, ft)
      decreases Unindexed(), NotInProgress(), 2, ft
    {
      match ft
      case Scalar(t) => code := ReadScalar(t);
      case StructOf(s) => code := Deserialize(s);
      case ContainerOf(t, elem) =>
        var elemCode := Value(elem);
        code := Loop(t, BondType(elem), elemCode);
      case MapOf(key, elem) =>
        var keyCode := Value(key);
        ghost var before := types;
        LeftShrinks(|schema|, old(deserializeIndex.Keys), deserializeIndex.Keys);
        var elemCode := Value(elem);
        CodeKept(before, types, schema, keyCode, key);
        code := LoopMap(BondType(key), BondType(elem), keyCode, elemCode);
    }

    /** Generates the functions for `root`. Every slot is filled, every call in the code is of a
        slot, and calling the first function decodes any payload as the schema says, with or
        without inlining. */
    method Generate(root: nat) returns (funcs: seq<StructCode>)
      requires Valid() && root < |schema| && deserializeFuncs == [] && inProgress == []
      modifies this
      ensures Complete(schema, types, funcs) && types != [] && types[0] == root
      ensures forall v :: Exec(funcs, Call(0), v) == Decode(schema, StructOf(root), v)
    {
      var code := Deserialize(root);
      funcs := seq(|deserializeFuncs|,
                   i requires 0 <= i < |deserializeFuncs| && deserializeFuncs[i].Some? reads this =>
                     deserializeFuncs[i].value);
      forall v ensures Exec(funcs, Call(0), v) == Decode(schema, StructOf(root), v) {
        ExecDecodes(schema, types, funcs, Call(0), StructOf(root), v);
      }
    }
  }
}
