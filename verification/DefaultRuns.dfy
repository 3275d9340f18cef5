/** Generated code for a slice, run on default values: how far it goes. */
module DefaultRuns {
  import opened Bytes
  import opened Wire
  import opened Deserialization
  import opened SimpleBinary
  import opened Slicing
  import opened Pairs
  import opened UntaggedCode
  import opened SlicedCode
  import opened Defaults

  /** A slice: functions that read payload struct `p` of the schema into its base `s`. */
  datatype Setting = Setting(schema: Schema, forms: seq<Pair>, funcs: seq<StructCode>, p: nat, s: nat, m: nat, v2: bool)

  ghost predicate Proper(c: Setting) {
    && WellFormed(c.schema) && Regular(c.schema) && c.p < |c.schema| && c.s < |c.schema|
    && Ancestor(c.schema, c.s, c.p) && c.p != c.s && Grounded(c.m, c.schema)
    && SliceTable(c.schema, c.forms, c.funcs, false, c.p, c.s)
  }

  ghost predicate Coded(c: Setting, code: Code, ft: FieldType) {
    CodeFor(false, {c.s}, c.forms, c.schema, c.schema, code, ft, ft)
  }

  ghost predicate StructCoded(c: Setting, code: StructCode, q: nat, t: nat) {
    StructCodeFor(false, {c.s}, c.forms, c.schema, c.schema, code, q, t)
  }

  /** The bytes that the levels of `q` beyond those of `s` take at least. */
  function ExtraLength(m: nat, v2: bool, schema: Schema, q: nat, s: nat): nat
    requires q < |schema| && s < |schema| && Ancestor(schema, s, q)
    decreases q
  {
    if q == s then 0
    else
      ExtraLength(m, v2, schema, Base(schema, q).value, s)
      + match DefaultFields(m, schema, schema[q].fields, Stop)
        case None => 0
        case Some(body) => Len(v2, body)
  }

  /** Whether the default value has a value of `s` in it. */
  predicate Touches(m: nat, schema: Schema, ft: FieldType, s: nat)
    decreases m, 0, 0
  {
    ft.StructOf? && m > 0 && ft.struct < |schema| && (ft.struct == s || LevelsTouch(m - 1, schema, ft.struct, s))
  }

  predicate FieldsTouch(m: nat, schema: Schema, fields: Fields, s: nat)
    decreases m, 1, fields
  {
    fields.FieldDef? && (Touches(m, schema, fields.ft, s) || FieldsTouch(m, schema, fields.rest, s))
  }

  predicate LevelsTouch(m: nat, schema: Schema, t: nat, s: nat)
    requires t < |schema|
    decreases m, 2, t
  {
    FieldsTouch(m, schema, schema[t].fields, s)
    || (Base(schema, t).Some? && LevelsTouch(m, schema, Base(schema, t).value, s))
  }

  /** `r` ends at or beyond `pos + length`; beyond it if `touched`, or else exactly there if `exact`. */
  ghost predicate Ends(r: Option<(seq<Effect>, nat)>, pos: nat, length: int, touched: bool, exact: bool) {
    r.Some? ==>
      && r.value.1 >= pos + length
      && (touched ==> r.value.1 > pos + length)
      && (!touched && exact ==> r.value.1 == pos + length)
  }

  /** Code for the default value of a type takes no fewer bytes than it has; more if it has a value of `s`,
      which goes to the function for `p`; otherwise, where that value stands, exactly those. */
  lemma {:induction false} RunDefault(c: Setting, m: nat, fuel: nat, code: Code, ft: FieldType, data: seq<byte>,
                                      pos: nat)
    requires Proper(c) && ExtraLength(c.m, c.v2, c.schema, c.p, c.s) > 0
    requires Coded(c, code, ft) && DefaultOf(m, c.schema, ft).Some?
    ensures var e := EncodeSimple(c.v2, DefaultOf(m, c.schema, ft).value);
            Ends(Exec(fuel, c.v2, c.schema, c.funcs, code, data, pos), pos, |e|, Touches(m, c.schema, ft, c.s),
                 At(data, pos, e))
    decreases m, 0, 1
  {
    hide Proper, ExecStruct, DefaultLevels, ReadCount, ReadScalar, EncodeScalar, At;
    match ft
    case Scalar(t) => RunScalar(c, m, fuel, code, t, data, pos);
    case StructOf(t) =>
      StopIsFree(c.v2);
      RunStruct(c, m, fuel, code, t, data, pos);
    case ContainerOf(_, _) => RunCount(c.v2, data, pos);
    case MapOf(_, _) => RunCount(c.v2, data, pos);
  }

  lemma RunCount(v2: bool, data: seq<byte>, pos: nat)
    ensures EncodeCount(v2, 0) + [] == EncodeCount(v2, 0)
    ensures ReadCount(v2, data, pos).Some? ==> ReadCount(v2, data, pos).value.1 >= pos + |EncodeCount(v2, 0)|
    ensures At(data, pos, EncodeCount(v2, 0)) ==> ReadCount(v2, data, pos) == Some((0, pos + |EncodeCount(v2, 0)|))
  {
    if ReadCount(v2, data, pos).Some? {
      ReadCountLength(v2, data, pos);
    }
    if At(data, pos, EncodeCount(v2, 0)) {
      CountRoundTrip(v2, 0, data, pos);
    }
  }

  lemma RunScalar(c: Setting, m: nat, fuel: nat, code: Code, t: byte, data: seq<byte>, pos: nat)
    requires Coded(c, code, Scalar(t)) && DefaultOf(m, c.schema, Scalar(t)).Some?
    ensures var e := EncodeSimple(c.v2, DefaultOf(m, c.schema, Scalar(t)).value);
            Ends(Exec(fuel, c.v2, c.schema, c.funcs, code, data, pos), pos, |e|, false, At(data, pos, e))
  {
    hide ReadScalar, EncodeScalar, At;
    var v := DefaultOf(m, c.schema, Scalar(t)).value;
    ScalarLength(m, c.v2, c.schema, t, data, pos);
    if At(data, pos, EncodeSimple(c.v2, v)) {
      DefaultConforms(m, c.schema, Scalar(t));
      ScalarRoundTrip(c.v2, v, data, pos);
    }
  }

  /** A struct that is not `s` is read by code for it; `s` by the code for `p`. */
  lemma {:induction false} RunStruct(c: Setting, m: nat, fuel: nat, code: Code, t: nat, data: seq<byte>, pos: nat)
    requires Proper(c) && ExtraLength(c.m, c.v2, c.schema, c.p, c.s) > 0
    requires Coded(c, code, StructOf(t)) && DefaultOf(m, c.schema, StructOf(t)).Some?
    ensures var length := Len(c.v2, DefaultLevels(m - 1, c.schema, t, Stop).value);
            Ends(Exec(fuel, c.v2, c.schema, c.funcs, code, data, pos), pos, length,
                 Touches(m, c.schema, StructOf(t), c.s),
                 At(data, pos, EncodeSimpleBody(c.v2, DefaultLevels(m - 1, c.schema, t, Stop).value)))
    decreases m, 0, 0
  {
    hide ExecStruct, DefaultLevels, StructCodeFor, LevelsTouch, At;
    StopIsFree(c.v2);
    if fuel > 0 {
      if code.Inline? {
        RunLevels(c, m - 1, fuel - 1, code.struct, t, Stop, data, pos);
      } else if t == c.s {
        assert code.index == 0 && StructCoded(c, c.funcs[0], c.p, c.s);
        RunSlice(c, m - 1, fuel - 1, c.funcs[0], c.p, data, pos);
      } else {
        assert StructCoded(c, c.funcs[code.index], t, t);
        RunLevels(c, m - 1, fuel - 1, c.funcs[code.index], t, Stop, data, pos);
      }
    }
  }

  lemma {:induction false} RunSlice(c: Setting, m: nat, fuel: nat, code: StructCode, q: nat, data: seq<byte>, pos: nat)
    requires Proper(c) && ExtraLength(c.m, c.v2, c.schema, c.p, c.s) > 0
    requires q < |c.schema| && Ancestor(c.schema, c.s, q) && StructCoded(c, code, q, c.s)
    requires DefaultLevels(m, c.schema, c.s, Stop).Some?
    ensures ExecStruct(fuel, c.v2, c.schema, c.funcs, code, data, pos).Some? ==>
              ExecStruct(fuel, c.v2, c.schema, c.funcs, code, data, pos).value.1
              >= pos + Len(c.v2, DefaultLevels(m, c.schema, c.s, Stop).value)
                 + ExtraLength(c.m, c.v2, c.schema, q, c.s)
    decreases m, 3, q
  {
    hide DefaultLevels, LevelsTouch, At, SkipFields, DefaultFields, FieldCodesFor;
    DeeperThanBase(c.schema, c.s, q);
    var r := ExecStruct(fuel, c.v2, c.schema, c.funcs, code, data, pos);
    StopIsFree(c.v2);
    if q == c.s {
      RunLevels(c, m, fuel, code, c.s, Stop, data, pos);
    } else if r.Some? {
      RunSlice(c, m, fuel, code.inner, Base(c.schema, q).value, data, pos);
      var mid := ExecStruct(fuel, c.v2, c.schema, c.funcs, code.inner, data, pos).value.1;
      AnyTail(c.m, c.schema, q, Stop, Stop);
      SkipFieldsLength(fuel, c.m, c.v2, c.schema, c.schema[q].fields, Stop, data, mid);
    }
  }

  lemma {:induction false} RunLevels(c: Setting, m: nat, fuel: nat, code: StructCode, t: nat, tail: Body,
                                     data: seq<byte>, pos: nat)
    requires Proper(c) && ExtraLength(c.m, c.v2, c.schema, c.p, c.s) > 0
    requires t < |c.schema| && StructCoded(c, code, t, t) && DefaultLevels(m, c.schema, t, tail).Some?
    ensures var body := DefaultLevels(m, c.schema, t, tail).value;
            Ends(ExecStruct(fuel, c.v2, c.schema, c.funcs, code, data, pos), pos, Len(c.v2, body) - Len(c.v2, tail),
                 LevelsTouch(m, c.schema, t, c.s), At(data, pos, EncodeSimpleBody(c.v2, body)))
    decreases m, 2, t
  {
    hide Proper, DefaultFields, FieldCodesFor, ExecFields, FieldsTouch, At, ExtraLength;
    var own := DefaultFields(m, c.schema, c.schema[t].fields, tail).value;
    SufficesAll(c.schema[t].fields, c.schema[t].fields);
    assert Sorted(c.schema[t].fields) by { SortedFields(c, t); }
    var mid := pos;
    if code.base.Some? {
      var base := Base(c.schema, t).value;
      RunLevels(c, m, fuel, code.base.value, base, StopBase(own), data, pos);
      var r := ExecStruct(fuel, c.v2, c.schema, c.funcs, code.base.value, data, pos);
      if r == None {
        return;
      }
      mid := r.value.1;
      var body := DefaultLevels(m, c.schema, t, tail).value;
      if At(data, pos, EncodeSimpleBody(c.v2, body)) {
        SuffixAt(c, m, base, own, data, pos);
      }
    }
    RunFields(c, m, fuel, code.fields, t, c.schema[t].fields, c.schema[t].fields, tail, data, mid);
  }

  lemma SortedFields(c: Setting, t: nat)
    requires Proper(c) && t < |c.schema|
    ensures Sorted(c.schema[t].fields)
  {
  }

  /** What follows the levels of a struct follows their bytes. */
  lemma {:induction false} SuffixAt(c: Setting, m: nat, t: nat, tail: Body, data: seq<byte>, pos: nat)
    requires t < |c.schema| && DefaultLevels(m, c.schema, t, StopBase(tail)).Some?
    requires At(data, pos, EncodeSimpleBody(c.v2, DefaultLevels(m, c.schema, t, StopBase(tail)).value))
    ensures var body := DefaultLevels(m, c.schema, t, StopBase(tail)).value;
            && Len(c.v2, tail) <= Len(c.v2, body)
            && At(data, pos + Len(c.v2, body) - Len(c.v2, tail), EncodeSimpleBody(c.v2, tail))
  {
    var body := DefaultLevels(m, c.schema, t, StopBase(tail)).value;
    DefaultLevelsConform(m, c.schema, t, StopBase(tail));
    MarkerIsFree(c.v2, tail);
    LevelsSuffix(c.v2, c.schema, t, body, data, pos);
  }

  lemma {:induction false} LevelsSuffix(v2: bool, schema: Schema, t: nat, body: Body, data: seq<byte>, pos: nat)
    requires t < |schema| && Levels(schema, t, body).Some? && At(data, pos, EncodeSimpleBody(v2, body))
    ensures var rest := Levels(schema, t, body).value;
            Len(v2, rest) <= Len(v2, body) && At(data, pos + Len(v2, body) - Len(v2, rest), EncodeSimpleBody(v2, rest))
    decreases t
  {
    hide Level, At, EncodeSimpleBody;
    match Base(schema, t)
    case None => LevelSuffix(v2, schema, schema[t].fields, body, data, pos);
    case Some(base) =>
      LevelsSuffix(v2, schema, base, body, data, pos);
      var next := Levels(schema, base, body).value.next;
      assert EncodeSimpleBody(v2, StopBase(next)) == EncodeSimpleBody(v2, next) by { MarkerIsFree(v2, next); }
      LevelSuffix(v2, schema, schema[t].fields, next, data, pos + Len(v2, body) - Len(v2, next));
  }

  lemma MarkerIsFree(v2: bool, next: Body)
    ensures EncodeSimpleBody(v2, StopBase(next)) == EncodeSimpleBody(v2, next)
  {
  }

  lemma {:induction false} LevelSuffix(v2: bool, schema: Schema, fields: Fields, body: Body, data: seq<byte>, pos: nat)
    requires Level(schema, fields, body).Some? && At(data, pos, EncodeSimpleBody(v2, body))
    ensures var rest := Level(schema, fields, body).value;
            Len(v2, rest) <= Len(v2, body) && At(data, pos + Len(v2, body) - Len(v2, rest), EncodeSimpleBody(v2, rest))
    decreases fields
  {
    hide Conforms, At, EncodeSimple;
    if fields.FieldDef? {
      AtConcat(data, pos, EncodeSimple(v2, body.value), EncodeSimpleBody(v2, body.next));
      LevelSuffix(v2, schema, fields.rest, body.next, data, pos + |EncodeSimple(v2, body.value)|);
    }
  }

  lemma {:induction false} RunFields(c: Setting, m: nat, fuel: nat, codes: FieldCodes, t: nat, fields: Fields,
                                     targets: Fields, tail: Body, data: seq<byte>, pos: nat)
    requires Proper(c) && ExtraLength(c.m, c.v2, c.schema, c.p, c.s) > 0
    requires Sorted(fields) && Suffices(fields, targets, fields)
    requires FieldCodesFor(false, {c.s}, c.forms, c.schema, c.schema, codes, fields, targets)
    requires DefaultFields(m, c.schema, fields, tail).Some?
    ensures var body := DefaultFields(m, c.schema, fields, tail).value;
            Ends(ExecFields(fuel, c.v2, c.schema, c.funcs, t, codes, data, pos), pos, Len(c.v2, body) - Len(c.v2, tail),
                 FieldsTouch(m, c.schema, fields, c.s), At(data, pos, EncodeSimpleBody(c.v2, body)))
    decreases m, 1, fields
  {
    hide Proper, Exec, CodeFor, DefaultOf, Touches, EncodeSimple, At, ExtraLength;
    if fields.FieldDef? {
      assert Lookup(targets, fields.id) == Lookup(fields, fields.id) == Some(fields.ft);
      var v := DefaultOf(m, c.schema, fields.ft).value;
      RunDefault(c, m, fuel, codes.code, fields.ft, data, pos);
      var next := DefaultFields(m, c.schema, fields.rest, tail).value;
      AtConcat(data, pos, EncodeSimple(c.v2, v), EncodeSimpleBody(c.v2, next));
      var r := Exec(fuel, c.v2, c.schema, c.funcs, codes.code, data, pos);
      if r.Some? {
        RunFields(c, m, fuel, codes.rest, t, fields.rest, targets, tail, data, r.value.1);
      }
    }
  }
}
