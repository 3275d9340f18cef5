/** What becomes of the bytes: on which schemas generated code reads every payload of a derived struct
    rightly into its base. */
module SlicedRuns {
  import opened Bytes
  import opened Wire
  import opened Deserialization
  import opened SimpleBinary
  import opened Slicing
  import opened Pairs
  import opened UntaggedCode
  import opened UntaggedGenerator
  import opened SlicedCode
  import opened Defaults
  import opened DefaultRuns
  import opened Misreading

  // ----------------------------------------------------------------- the slice as a whole

  /** What follows the levels of `s` in a value of `q`: default fields in the levels beyond, then `tail`. */
  function Extras(m: nat, schema: Schema, q: nat, s: nat, tail: Body): Option<Body>
    requires q < |schema| && s < |schema| && Ancestor(schema, s, q)
    decreases q
  {
    if q == s then Some(tail)
    else
      match DefaultFields(m, schema, schema[q].fields, tail)
      case None => None
      case Some(body) => Extras(m, schema, Base(schema, q).value, s, StopBase(body))
  }

  lemma {:induction false} ExtrasExist(m: nat, schema: Schema, q: nat, s: nat, tail: Body)
    requires Grounded(m, schema) && q < |schema| && s < |schema| && Ancestor(schema, s, q) && !tail.Field?
    ensures Extras(m, schema, q, s, tail).Some? && !Extras(m, schema, q, s, tail).value.Field?
    decreases q
  {
    hide DefaultFields;
    if q != s {
      AnyTail(m, schema, q, Stop, tail);
      ExtrasExist(m, schema, Base(schema, q).value, s,
                  StopBase(DefaultFields(m, schema, schema[q].fields, tail).value));
    }
  }

  /** The levels of `s` are misread, and what comes after them takes no fewer bytes than it has. */
  lemma {:induction false} MisreadSlice(c: Setting, q: nat, tail: Body, body: Body)
    requires Proper(c) && q < |c.schema| && Ancestor(c.schema, c.s, q) && !tail.Field?
    requires Extras(c.m, c.schema, q, c.s, tail).Some?
    requires var rest := Extras(c.m, c.schema, q, c.s, tail).value;
             Levels(c.schema, c.s, body) == Some(rest) && MisreadLevels(c, c.s, body, rest)
    ensures Levels(c.schema, q, body) == Some(tail)
    ensures forall code, fuel: nat, data, pos: nat ::
              StructCoded(c, code, q, c.s) && At(data, pos, EncodeSimpleBody(c.v2, body)) ==>
                Overruns(ExecStruct(fuel, c.v2, c.schema, c.funcs, code, data, pos),
                         pos + Len(c.v2, body) - Len(c.v2, tail))
    decreases q
  {
    hide Proper, DefaultFields, Levels, At, EncodeSimpleBody, SkipFields, FieldCodesFor, Level;
    ProperIs(c);
    if q != c.s {
      DeeperThanBase(c.schema, c.s, q);
      var base, own := Base(c.schema, q).value, DefaultFields(c.m, c.schema, c.schema[q].fields, tail).value;
      MisreadSlice(c, base, StopBase(own), body);
      NextLevel(c.schema, q, body, own);
      DefaultFieldsConform(c.m, c.schema, c.schema[q].fields, tail);
      MarkerIsFree(c.v2, own);
      forall code, fuel: nat, data, pos: nat
        | StructCoded(c, code, q, c.s) && At(data, pos, EncodeSimpleBody(c.v2, body))
        ensures Overruns(ExecStruct(fuel, c.v2, c.schema, c.funcs, code, data, pos),
                         pos + Len(c.v2, body) - Len(c.v2, tail))
      {
        assert code.DeeperCode? && StructCoded(c, code.inner, base, c.s);
        var r := ExecStruct(fuel, c.v2, c.schema, c.funcs, code.inner, data, pos);
        assert Overruns(r, pos + Len(c.v2, body) - Len(c.v2, own));
        if r.Some? && SkipFields(fuel, c.v2, c.schema, code.skipped, data, r.value.1).Some? {
          SkipFieldsLength(fuel, c.m, c.v2, c.schema, code.skipped, tail, data, r.value.1);
        }
      }
    }
  }

  /** Running the functions on the bytes of a value gives what decoding the value does, and ends behind it;
      `c.m` levels of nesting more than it has are within reach. */
  ghost predicate ReadsRightly(c: Setting, v: Value, data: seq<byte>, pos: nat, fuel: nat)
    requires c.p < |c.schema| && c.s < |c.schema|
  {
    Conforms(c.schema, StructOf(c.p), v) && At(data, pos, EncodeSimple(c.v2, v)) && fuel >= SizeOf(v) + c.m ==>
      && Decode(c.schema, StructOf(c.s), v).Some?
      && Exec(fuel, c.v2, c.schema, c.funcs, Call(0), data, pos)
         == Some((Decode(c.schema, StructOf(c.s), v).value, pos + |EncodeSimple(c.v2, v)|))
  }

  ghost predicate Right(c: Setting)
    requires c.p < |c.schema| && c.s < |c.schema|
  {
    forall v, data, pos: nat, fuel: nat :: ReadsRightly(c, v, data, pos, fuel)
  }

  /** If `s` can have itself inside, some payload is misread. */
  lemma SomeMisread(c: Setting)
    requires Heavy(c) && Reaches(c.schema, c.s, c.s)
    ensures !Right(c)
  {
    hide MisreadLevels, ExtraLength, Infallible, ClosedStructs, LevelsOf;
    InfallibleClosed(c);
    assert !LevelsOf(Infallible(c), c.schema, c.s);
    ExtrasExist(c.m, c.schema, c.p, c.s, Stop);
    var rest := Extras(c.m, c.schema, c.p, c.s, Stop).value;
    AnyTail(c.m, c.schema, c.s, Stop, rest);
    var body := MisreadStruct(c, c.m, c.s, rest);
    MisreadSlice(c, c.p, Stop, body);
    MisreadRoot(c, body);
  }

  lemma MisreadRoot(c: Setting, body: Body)
    requires Proper(c) && Levels(c.schema, c.p, body) == Some(Stop)
    requires forall code, fuel: nat, data, pos: nat ::
               StructCoded(c, code, c.p, c.s) && At(data, pos, EncodeSimpleBody(c.v2, body)) ==>
                 Overruns(ExecStruct(fuel, c.v2, c.schema, c.funcs, code, data, pos),
                          pos + Len(c.v2, body) - Len(c.v2, Stop))
    ensures !Right(c)
  {
    hide ExecStruct, Levels, StructCodeFor, Decode, EncodeSimpleBody;
    StopIsFree(c.v2);
    var v, data := Struct(body), EncodeSimpleBody(c.v2, body);
    var fuel := SizeOf(v) + c.m;
    assert StructCoded(c, c.funcs[0], c.p, c.s);
    assert At(data, 0, data);
    assert Overruns(ExecStruct(fuel - 1, c.v2, c.schema, c.funcs, c.funcs[0], data, 0), |data|);
    assert !ReadsRightly(c, v, data, 0, fuel);
  }

  // --------------------------------------------------------- extra levels without any bytes

  ghost predicate Weightless(c: Setting) {
    Proper(c) && ExtraLength(c.m, c.v2, c.schema, c.p, c.s) == 0
  }

  /** Whatever is read is read by the code too, which may need `c.m` more levels of nesting for passing over
      the levels without bytes. */
  ghost predicate Follows(r: Option<(seq<Effect>, nat)>, run: Option<(seq<Effect>, nat)>) {
    r.Some? ==> run == r
  }

  lemma {:induction false} FollowCode(c: Setting, fuel: nat, code: Code, ft: FieldType, data: seq<byte>, pos: nat)
    requires Weightless(c) && Coded(c, code, ft)
    ensures Follows(Read(fuel, c.v2, c.schema, ft, c.schema, ft, data, pos),
                    Exec(fuel + c.m, c.v2, c.schema, c.funcs, code, data, pos))
    decreases fuel, 0, code, 1, 0
  {
    hide ReadScalar, ReadCount, ExecStruct, ReadStruct, ExecItems, ReadItems, ExecEntries, ReadEntries, Weightless;
    match (code, ft)
    case (Call(index), StructOf(t)) => FollowStruct(c, fuel, code, t, data, pos);
    case (Inline(_), StructOf(t)) => FollowStruct(c, fuel, code, t, data, pos);
    case (Loop(elem), ContainerOf(_, te)) =>
      if ReadCount(c.v2, data, pos).Some? {
        var (count, start) := ReadCount(c.v2, data, pos).value;
        FollowItems(c, fuel, elem, ft, count, data, start);
      }
    case (LoopMap(key, elem), MapOf(_, _)) =>
      if ReadCount(c.v2, data, pos).Some? {
        var (count, start) := ReadCount(c.v2, data, pos).value;
        FollowEntries(c, fuel, key, elem, ft, count, data, start);
      }
    case _ =>
  }

  lemma {:induction false} FollowStruct(c: Setting, fuel: nat, code: Code, t: nat, data: seq<byte>, pos: nat)
    requires Weightless(c) && Coded(c, code, StructOf(t))
    ensures Follows(Read(fuel, c.v2, c.schema, StructOf(t), c.schema, StructOf(t), data, pos),
                    Exec(fuel + c.m, c.v2, c.schema, c.funcs, code, data, pos))
    decreases fuel, 0, code, 0, 0
  {
    hide ExecStruct, ReadStruct, StructCodeFor;
    if fuel > 0 {
      if code.Inline? {
        TargetIs(false, {c.s}, c.forms, c.schema, c.schema, code.struct, t, t);
        FollowLevels(c, fuel - 1, code.struct, t, data, pos);
      } else if t == c.s {
        assert code.index == 0 && StructCoded(c, c.funcs[0], c.p, c.s);
        TargetIs(false, {c.s}, c.forms, c.schema, c.schema, c.funcs[0], c.p, c.s);
        FollowSlice(c, fuel - 1, c.funcs[0], c.p, data, pos);
      } else {
        assert StructCoded(c, c.funcs[code.index], t, t);
        TargetIs(false, {c.s}, c.forms, c.schema, c.schema, c.funcs[code.index], t, t);
        FollowLevels(c, fuel - 1, c.funcs[code.index], t, data, pos);
      }
    }
  }

  lemma {:induction false} FollowItems(c: Setting, fuel: nat, elem: Code, ft: FieldType, count: nat, data: seq<byte>,
                                       pos: nat)
    requires Weightless(c) && ft.ContainerOf? && Coded(c, elem, ft.elem)
    ensures Follows(ReadItems(fuel, c.v2, c.schema, ft, c.schema, ft.elem, count, data, pos),
                    ExecItems(fuel + c.m, c.v2, c.schema, c.funcs, elem, count, data, pos))
    decreases fuel, 0, elem, 2, count
  {
    hide Exec, Read, CodeFor, Weightless;
    if count > 0 {
      FollowCode(c, fuel, elem, ft.elem, data, pos);
      var r := Read(fuel, c.v2, c.schema, ft.elem, c.schema, ft.elem, data, pos);
      if r.Some? {
        FollowItems(c, fuel, elem, ft, count - 1, data, r.value.1);
      }
    }
  }

  lemma {:induction false} FollowEntries(c: Setting, fuel: nat, key: Code, elem: Code, ft: FieldType, count: nat,
                                         data: seq<byte>, pos: nat)
    requires Weightless(c) && ft.MapOf? && Coded(c, key, ft.key) && Coded(c, elem, ft.elem)
    ensures Follows(ReadEntries(fuel, c.v2, c.schema, ft, c.schema, ft, count, data, pos),
                    ExecEntries(fuel + c.m, c.v2, c.schema, c.funcs, key, elem, count, data, pos))
    decreases fuel, 0, LoopMap(key, elem), 0, count
  {
    hide Exec, Read, CodeFor, Weightless;
    if count > 0 {
      FollowCode(c, fuel, key, ft.key, data, pos);
      var k := Read(fuel, c.v2, c.schema, ft.key, c.schema, ft.key, data, pos);
      if k.Some? {
        FollowCode(c, fuel, elem, ft.elem, data, k.value.1);
        var v := Read(fuel, c.v2, c.schema, ft.elem, c.schema, ft.elem, data, k.value.1);
        if v.Some? {
          FollowEntries(c, fuel, key, elem, ft, count - 1, data, v.value.1);
        }
      }
    }
  }

  lemma {:induction false} FollowLevels(c: Setting, fuel: nat, code: StructCode, t: nat, data: seq<byte>, pos: nat)
    requires Weightless(c) && t < |c.schema| && StructCoded(c, code, t, t)
    ensures Follows(ReadStruct(fuel, c.v2, c.schema, t, c.schema, t, data, pos),
                    ExecStruct(fuel + c.m, c.v2, c.schema, c.funcs, code, data, pos))
    decreases fuel, 1, code, 0, 0
  {
    hide ExecFields, ReadFields, FieldCodesFor, ExtraLength;
    SufficesAll(c.schema[t].fields, c.schema[t].fields);
    var mid := Some(([], pos));
    if code.base.Some? {
      var base := Base(c.schema, t).value;
      FollowLevels(c, fuel, code.base.value, base, data, pos);
      mid := ReadStruct(fuel, c.v2, c.schema, base, c.schema, base, data, pos);
    }
    if mid.Some? {
      FollowFields(c, fuel, code.fields, t, c.schema[t].fields, c.schema[t].fields, data, mid.value.1);
    }
  }

  lemma {:induction false} FollowFields(c: Setting, fuel: nat, codes: FieldCodes, t: nat, fields: Fields,
                                        targets: Fields, data: seq<byte>, pos: nat)
    requires Weightless(c) && Sorted(fields) && Suffices(fields, targets, fields)
    requires FieldCodesFor(false, {c.s}, c.forms, c.schema, c.schema, codes, fields, targets)
    ensures Follows(ReadFields(fuel, c.v2, c.schema, fields, c.schema, t, targets, data, pos),
                    ExecFields(fuel + c.m, c.v2, c.schema, c.funcs, t, codes, data, pos))
    decreases fuel, 1, codes, 0, 0
  {
    hide Exec, Read, Skip, CodeFor, Weightless;
    if fields.FieldDef? {
      assert Lookup(targets, fields.id) == Lookup(fields, fields.id) == Some(fields.ft);
      assert Coded(c, codes.code, fields.ft);
      FollowCode(c, fuel, codes.code, fields.ft, data, pos);
      var r := Read(fuel, c.v2, c.schema, fields.ft, c.schema, fields.ft, data, pos);
      if r.Some? {
        FollowFields(c, fuel, codes.rest, t, fields.rest, targets, data, r.value.1);
      }
    }
  }

  /** The code for `q` on a value of `s`: nothing is passed over behind it. */
  lemma {:induction false} FollowSlice(c: Setting, fuel: nat, code: StructCode, q: nat, data: seq<byte>, pos: nat)
    requires Weightless(c) && q < |c.schema| && Ancestor(c.schema, c.s, q) && StructCoded(c, code, q, c.s)
    requires ExtraLength(c.m, c.v2, c.schema, q, c.s) == 0
    ensures Follows(ReadStruct(fuel, c.v2, c.schema, c.s, c.schema, c.s, data, pos),
                    ExecStruct(fuel + c.m, c.v2, c.schema, c.funcs, code, data, pos))
    decreases fuel, 2, code, 0, 0
  {
    hide ReadStruct, SkipFields, FieldCodesFor, DefaultFields, Weightless;
    DeeperThanBase(c.schema, c.s, q);
    if q == c.s {
      FollowLevels(c, fuel, code, c.s, data, pos);
    } else {
      FollowSlice(c, fuel, code.inner, Base(c.schema, q).value, data, pos);
      var r := ReadStruct(fuel, c.v2, c.schema, c.s, c.schema, c.s, data, pos);
      if r.Some? {
        NoExtras(c, fuel + c.m, q, data, r.value.1);
      }
    }
  }

  lemma NoExtras(c: Setting, fuel: nat, q: nat, data: seq<byte>, pos: nat)
    requires Weightless(c) && q < |c.schema| && Ancestor(c.schema, c.s, q) && q != c.s
    requires ExtraLength(c.m, c.v2, c.schema, q, c.s) == 0
    ensures var r := SkipFields(fuel, c.v2, c.schema, c.schema[q].fields, data, pos);
            (r.Some? ==> r == Some(pos)) && (fuel >= c.m ==> r.Some?)
  {
    hide SkipFields, DefaultFields;
    AnyTail(c.m, c.schema, q, Stop, Stop);
    StopIsFree(c.v2);
    SkipNoFields(fuel, c.m, c.v2, c.schema, c.schema[q].fields, Stop, data, pos);
  }

  lemma {:induction false} ReadSliceInner(c: Setting, fuel: nat, q: nat, data: seq<byte>, pos: nat)
    requires Weightless(c) && q < |c.schema| && Ancestor(c.schema, c.s, q)
    requires ExtraLength(c.m, c.v2, c.schema, q, c.s) == 0
    ensures Follows(ReadStruct(fuel, c.v2, c.schema, q, c.schema, c.s, data, pos),
                    ReadStruct(fuel, c.v2, c.schema, c.s, c.schema, c.s, data, pos))
    decreases q
  {
    hide SkipFields, ReadFields, DefaultFields, Proper;
    ProperIs(c);
    DeeperThanBase(c.schema, c.s, q);
    if q != c.s {
      ReadSliceInner(c, fuel, Base(c.schema, q).value, data, pos);
      var r := ReadStruct(fuel, c.v2, c.schema, Base(c.schema, q).value, c.schema, c.s, data, pos);
      if r.Some? {
        NoExtras(c, fuel, q, data, r.value.1);
      }
    }
  }

  lemma WeightlessRight(c: Setting, v: Value, data: seq<byte>, pos: nat, fuel: nat)
    requires Weightless(c)
    ensures ReadsRightly(c, v, data, pos, fuel)
  {
    hide ReadStruct, ExecStruct, Decode, EncodeSimple, At, Conforms, ExtraLength;
    if Conforms(c.schema, StructOf(c.p), v) && At(data, pos, EncodeSimple(c.v2, v)) && fuel >= SizeOf(v) + c.m {
      var less := fuel - c.m;
      Slice(less, c.v2, c.schema, c.p, c.s, v, data, pos);
      ReadSliceInner(c, less - 1, c.p, data, pos);
      assert StructCoded(c, c.funcs[0], c.p, c.s);
      TargetIs(false, {c.s}, c.forms, c.schema, c.schema, c.funcs[0], c.p, c.s);
      FollowSlice(c, less - 1, c.funcs[0], c.p, data, pos);
    }
  }

  // ------------------------------------------------------------------------ the theorem

  lemma ConsistentRight(c: Setting, v: Value, data: seq<byte>, pos: nat, fuel: nat)
    requires Regular(c.schema) && c.p < |c.schema| && c.s < |c.schema| && Ancestor(c.schema, c.s, c.p)
    requires Consistent(c.forms, c.schema, c.schema, c.funcs) && c.forms != [] && c.forms[0] == (c.p, c.s)
    ensures ReadsRightly(c, v, data, pos, fuel)
  {
    hide Read, Exec, Decode, EncodeSimple, At, Conforms, Consistent;
    if Conforms(c.schema, StructOf(c.p), v) && At(data, pos, EncodeSimple(c.v2, v)) && fuel >= SizeOf(v) + c.m {
      Slice(fuel, c.v2, c.schema, c.p, c.s, v, data, pos);
      RootReads(fuel, c.v2, c.forms, c.schema, c.schema, c.funcs, c.p, c.s, data, pos);
    }
  }

  /** The functions for reading a derived struct `p` into its base `s` read every payload rightly if and only
      if the two are the same, or a value of `s` cannot have another one inside, or the levels of `p` beyond
      `s` take no bytes. All three can be told from the schema. */
  method ReadSlice(schema: Schema, p: nat, s: nat, inlineNested: bool, ghost m: nat, ghost v2: bool)
    returns (funcs: seq<StructCode>)
    requires WellFormed(schema) && Regular(schema) && Grounded(m, schema)
    requires s < |schema| && p < |schema| && Ancestor(schema, s, p)
    ensures Right(Setting(schema, [], funcs, p, s, m, v2))
       <==> p == s || !Reaches(schema, s, s) || ExtraLength(m, v2, schema, p, s) == 0
  {
    ghost var forms;
    funcs, forms := CompileSlice(schema, p, s, inlineNested);
    ghost var c, plain := Setting(schema, forms, funcs, p, s, m, v2), Setting(schema, [], funcs, p, s, m, v2);
    hide ReadsRightly, Reaches, ExtraLength, Complete;
    SameRuns(c, plain);
    if p == s || !Reaches(schema, s, s) {
      forall v, data, pos: nat, fuel: nat ensures ReadsRightly(c, v, data, pos, fuel) {
        ConsistentRight(c, v, data, pos, fuel);
      }
    } else if ExtraLength(m, v2, schema, p, s) == 0 {
      forall v, data, pos: nat, fuel: nat ensures ReadsRightly(c, v, data, pos, fuel) {
        WeightlessRight(c, v, data, pos, fuel);
      }
    } else {
      SomeMisread(c);
    }
  }

  lemma SameRuns(c: Setting, d: Setting)
    requires c.p < |c.schema| && c.s < |c.schema| && d == c.(forms := d.forms)
    ensures Right(c) <==> Right(d)
  {
    hide ReadsRightly;
    forall v, data, pos: nat, fuel: nat
      ensures ReadsRightly(c, v, data, pos, fuel) == ReadsRightly(d, v, data, pos, fuel)
    {
      SameRun(c, d, v, data, pos, fuel);
    }
  }

  lemma SameRun(c: Setting, d: Setting, v: Value, data: seq<byte>, pos: nat, fuel: nat)
    requires c.p < |c.schema| && c.s < |c.schema| && d == c.(forms := d.forms)
    ensures ReadsRightly(c, v, data, pos, fuel) == ReadsRightly(d, v, data, pos, fuel)
  {
    hide Exec, Decode, EncodeSimple, Conforms, At;
  }

  // ---------------------------------------------------------------------- a misread payload

  function Nesting(): Schema {
    [StructDef(None, FieldDef(0, false, ContainerOf(BT_LIST, StructOf(0)), NoFields)),
     StructDef(Some(0), FieldDef(0, false, Scalar(BT_INT32), NoFields))]
  }

  function Childless(): Value {
    Struct(Field(0, List(BT_LIST, BT_STRUCT, NoItems), Stop))
  }

  function OneChild(): Value {
    Struct(Field(0, List(BT_LIST, BT_STRUCT, Item(Childless(), NoItems)), StopBase(Field(0, Num(BT_INT32, 7), Stop))))
  }

  /** A base with a list of itself and a derived struct with a number. The child is read by the function
      for the derived struct, which passes over a number that is not there: twelve bytes are read as
      sixteen. */
  method MisreadChild(inlineNested: bool) returns (funcs: seq<StructCode>)
    ensures Conforms(Nesting(), StructOf(1), OneChild())
    ensures EncodeSimple(false, OneChild()) == [1, 0, 0, 0, 0, 0, 0, 0, 7, 0, 0, 0]
    ensures forall fuel: nat :: fuel >= 2 ==>
              var r := Exec(fuel, false, Nesting(), funcs, Call(0), [1, 0, 0, 0, 0, 0, 0, 0, 7, 0, 0, 0], 0);
              r.Some? && r.value.1 == 16
  {
    var schema := Nesting();
    assert Ancestor(schema, 0, 1) by { assert Ancestor(schema, 0, 0); }
    ghost var forms;
    funcs, forms := CompileSlice(schema, 1, 0, inlineNested);
    OneChildBytes();
    OneChildConforms();
    forall fuel: nat | fuel >= 2
      ensures var r := Exec(fuel, false, schema, funcs, Call(0), [1, 0, 0, 0, 0, 0, 0, 0, 7, 0, 0, 0], 0);
              r.Some? && r.value.1 == 16
    {
      RunOneChild(fuel, forms, funcs);
    }
  }

  lemma OneChildBytes()
    ensures EncodeSimple(false, OneChild()) == [1, 0, 0, 0, 0, 0, 0, 0, 7, 0, 0, 0]
  {
    assert LittleEndian(0, 3) == [0, 0, 0];
    assert LittleEndian(7, 4) == [7, 0, 0, 0] && LittleEndian(1, 4) == [1, 0, 0, 0];
    assert LittleEndian(0, 4) == [0, 0, 0, 0];
    hide LittleEndian;
    var items, last := Item(Childless(), NoItems), Field(0, Num(BT_INT32, 7), Stop);
    assert EncodeSimple(false, Childless()) == [0, 0, 0, 0] by {
      assert EncodeSimpleItems(false, NoItems) == [] && EncodeSimpleBody(false, Stop) == [];
    }
    assert EncodeSimpleItems(false, items) == [0, 0, 0, 0] && Count(items) == 1;
    assert EncodeSimpleBody(false, last) == [7, 0, 0, 0];
  }

  lemma OneChildConforms()
    ensures Conforms(Nesting(), StructOf(1), OneChild())
  {
    var schema, items, last := Nesting(), Item(Childless(), NoItems), Field(0, Num(BT_INT32, 7), Stop);
    assert Conforms(schema, StructOf(0), Childless()) by {
      assert Level(schema, NoFields, Stop) == Some(Stop);
      assert ConformItems(schema, StructOf(0), NoItems);
    }
    assert ConformItems(schema, StructOf(0), items) && Count(items) == 1;
    assert Level(schema, schema[1].fields, last) == Some(Stop);
    var body := Field(0, List(BT_LIST, BT_STRUCT, items), StopBase(last));
    assert Level(schema, schema[0].fields, body) == Some(StopBase(last));
    assert Levels(schema, 0, body) == Some(StopBase(last));
  }

  lemma RunOneChild(fuel: nat, forms: seq<Pair>, funcs: seq<StructCode>)
    requires SliceTable(Nesting(), forms, funcs, false, 1, 0) && fuel >= 2
    ensures var r := Exec(fuel, false, Nesting(), funcs, Call(0), [1, 0, 0, 0, 0, 0, 0, 0, 7, 0, 0, 0], 0);
            r.Some? && r.value.1 == 16
  {
    var schema, data := Nesting(), [1, 0, 0, 0, 0, 0, 0, 0, 7, 0, 0, 0];
    var skipped := FieldDef(0, false, Scalar(BT_INT32), NoFields);
    var loop := Loop(Call(0));
    var level := LevelCode(0, None, FieldCode(0, loop, NoCode));
    OneChildCode(forms, funcs);
    ReadSmallCounts(data);
    hide ReadCount;
    assert SkipFields(fuel - 2, false, schema, skipped, data, 8) == Some(12);
    assert ExecItems(fuel - 2, false, schema, funcs, Call(0), 0, data, 8) == Some(([], 8));
    assert Exec(fuel - 2, false, schema, funcs, loop, data, 4).Some?;
    RunOneField(fuel - 2, funcs, loop, data, 4);
    assert ExecStruct(fuel - 2, false, schema, funcs, level, data, 4).Some?
           && ExecStruct(fuel - 2, false, schema, funcs, level, data, 4).value.1 == 8;
    assert Exec(fuel - 1, false, schema, funcs, Call(0), data, 4).Some?
           && Exec(fuel - 1, false, schema, funcs, Call(0), data, 4).value.1 == 12;
    assert ExecItems(fuel - 1, false, schema, funcs, Call(0), 0, data, 12) == Some(([], 12));
    assert ExecItems(fuel - 1, false, schema, funcs, Call(0), 1, data, 4).Some?
           && ExecItems(fuel - 1, false, schema, funcs, Call(0), 1, data, 4).value.1 == 12;
    assert Exec(fuel - 1, false, schema, funcs, loop, data, 0).Some?;
    RunOneField(fuel - 1, funcs, loop, data, 0);
    assert ExecStruct(fuel - 1, false, schema, funcs, level, data, 0).Some?
           && ExecStruct(fuel - 1, false, schema, funcs, level, data, 0).value.1 == 12;
    assert SkipFields(fuel - 1, false, schema, skipped, data, 12) == Some(16);
  }

  lemma RunOneField(fuel: nat, funcs: seq<StructCode>, code: Code, data: seq<byte>, pos: nat)
    ensures var r := Exec(fuel, false, Nesting(), funcs, code, data, pos);
            var level := LevelCode(0, None, FieldCode(0, code, NoCode));
            var run := ExecStruct(fuel, false, Nesting(), funcs, level, data, pos);
            r.Some? ==> run.Some? && run.value.1 == r.value.1
  {
    hide Exec;
    var r := Exec(fuel, false, Nesting(), funcs, code, data, pos);
    if r.Some? {
      assert ExecFields(fuel, false, Nesting(), funcs, 0, NoCode, data, r.value.1) == Some(([], r.value.1));
    }
  }

  lemma ReadSmallCounts(data: seq<byte>)
    requires data == [1, 0, 0, 0, 0, 0, 0, 0, 7, 0, 0, 0]
    ensures ReadCount(false, data, 0) == Some((1, 4)) && ReadCount(false, data, 4) == Some((0, 8))
  {
    assert FromLittleEndian(data, 2, 2) == 0 && FromLittleEndian(data, 6, 2) == 0;
    assert FromLittleEndian(data, 0, 4) == 1 && FromLittleEndian(data, 4, 4) == 0;
  }

  lemma OneChildCode(forms: seq<Pair>, funcs: seq<StructCode>)
    requires SliceTable(Nesting(), forms, funcs, false, 1, 0)
    ensures funcs != []
    ensures funcs[0] == DeeperCode(LevelCode(0, None, FieldCode(0, Loop(Call(0)), NoCode)),
                                   FieldDef(0, false, Scalar(BT_INT32), NoFields))
  {
    var schema := Nesting();
    assert StructCodeFor(false, {0}, forms, schema, schema, funcs[0], forms[0].0, forms[0].1);
    assert Depth(schema, 0) == 1 && Depth(schema, 1) == 2;
    var inner := funcs[0].inner;
    assert StructCodeFor(false, {0}, forms, schema, schema, inner, 0, 0);
    assert Lookup(schema[0].fields, 0) == Some(ContainerOf(BT_LIST, StructOf(0)));
    assert FieldCodesFor(false, {0}, forms, schema, schema, inner.fields, schema[0].fields, schema[0].fields);
    var loop := inner.fields.code;
    var list := ContainerOf(BT_LIST, StructOf(0));
    assert CodeFor(false, {0}, forms, schema, schema, loop, list, list);
    assert CodeFor(false, {0}, forms, schema, schema, loop.elem, StructOf(0), StructOf(0));
    assert loop.elem.Call? && forms[loop.elem.index].1 == forms[0].1;
    assert FieldCodesFor(false, {0}, forms, schema, schema, inner.fields.rest, NoFields, schema[0].fields);
  }
}
