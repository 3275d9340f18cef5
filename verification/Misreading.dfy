/** Values on which generated code for a slice goes too far: whatever has, somewhere inside, a value of the
    base that is sliced to. */
module Misreading {
  import opened Bytes
  import opened Wire
  import opened Deserialization
  import opened SimpleBinary
  import opened Defaults
  import opened Slicing
  import opened Pairs
  import opened UntaggedCode
  import opened SlicedCode
  import opened DefaultRuns

  ghost predicate Overruns(r: Option<(seq<Effect>, nat)>, end: int) {
    r.Some? ==> r.value.1 > end
  }

  ghost predicate RunsOver(c: Setting, code: Code, fuel: nat, data: seq<byte>, pos: nat, e: seq<byte>) {
    At(data, pos, e) ==> Overruns(Exec(fuel, c.v2, c.schema, c.funcs, code, data, pos), pos + |e|)
  }

  /** A value on which code for its type goes too far, or fails. */
  ghost predicate Misread(c: Setting, ft: FieldType, w: Value) {
    Conforms(c.schema, ft, w) &&
    forall code, fuel: nat, data, pos: nat ::
      Coded(c, code, ft) ==> RunsOver(c, code, fuel, data, pos, EncodeSimple(c.v2, w))
  }

  ghost predicate Fallible(c: Setting, t: nat) {
    exists w :: Misread(c, StructOf(t), w)
  }

  ghost function Infallible(c: Setting): set<nat> {
    set t | t in UpTo(|c.schema|) && !Fallible(c, t)
  }

  ghost predicate Heavy(c: Setting) {
    Proper(c) && ExtraLength(c.m, c.v2, c.schema, c.p, c.s) > 0
  }

  lemma TouchedMisread(c: Setting, m: nat, ft: FieldType)
    requires Heavy(c) && DefaultOf(m, c.schema, ft).Some? && Touches(m, c.schema, ft, c.s)
    ensures Misread(c, ft, DefaultOf(m, c.schema, ft).value)
  {
    hide Exec, DefaultOf, Touches, EncodeSimple, At, Conforms, CodeFor, Proper;
    DefaultConforms(m, c.schema, ft);
    var e := EncodeSimple(c.v2, DefaultOf(m, c.schema, ft).value);
    forall code, fuel: nat, data, pos: nat | Coded(c, code, ft) ensures RunsOver(c, code, fuel, data, pos, e) {
      RunDefault(c, m, fuel, code, ft, data, pos);
    }
  }

  lemma DefaultExists(m: nat, schema: Schema, ft: FieldType)
    requires Grounded(m, schema) && Refers(schema, ft)
    ensures DefaultOf(m + 1, schema, ft).Some?
  {
  }

  lemma {:induction false} MisreadType(c: Setting, ft: FieldType) returns (w: Value)
    requires Heavy(c) && Refers(c.schema, ft) && !AllOf(Infallible(c), ft)
    ensures Misread(c, ft, w)
    decreases ft
  {
    hide Misread, Proper, ExtraLength;
    match ft
    case StructOf(t) => w :| Misread(c, StructOf(t), w);
    case ContainerOf(t, elem) =>
      var head := MisreadType(c, elem);
      w := List(t, BondType(elem), Item(head, NoItems));
      MisreadItem(c, t, elem, head);
    case MapOf(key, elem) =>
      assert Grounded(c.m, c.schema) by { ProperIs(c); }
      DefaultExists(c.m, c.schema, key);
      DefaultExists(c.m, c.schema, elem);
      var dk, dv := DefaultOf(c.m + 1, c.schema, key).value, DefaultOf(c.m + 1, c.schema, elem).value;
      var k, v := dk, dv;
      if !AllOf(Infallible(c), key) {
        k := MisreadType(c, key);
      } else if Touches(c.m + 1, c.schema, key, c.s) {
        TouchedMisread(c, c.m + 1, key);
      } else {
        v := MisreadType(c, elem);
      }
      w := Map(BondType(key), BondType(elem), Entry(k, v, NoEntries));
      MisreadEntry(c, key, elem, k, v);
  }

  lemma ProperIs(c: Setting)
    requires Proper(c)
    ensures Grounded(c.m, c.schema) && Regular(c.schema) && WellFormed(c.schema)
    ensures c.p < |c.schema| && c.s < |c.schema| && Ancestor(c.schema, c.s, c.p) && c.p != c.s
    ensures SliceTable(c.schema, c.forms, c.funcs, false, c.p, c.s)
  {
  }

  lemma MisreadItem(c: Setting, t: byte, elem: FieldType, head: Value)
    requires (t == BT_LIST || t == BT_SET) && Misread(c, elem, head)
    ensures Misread(c, ContainerOf(t, elem), List(t, BondType(elem), Item(head, NoItems)))
  {
    var ft, w := ContainerOf(t, elem), List(t, BondType(elem), Item(head, NoItems));
    assert Conforms(c.schema, ft, w) by {
      hide Exec;
      assert ConformItems(c.schema, elem, NoItems);
      assert Count(Item(head, NoItems)) == 1;
    }
    hide Exec, EncodeCount, ReadCount, At, Conforms, EncodeSimple;
    var count, e := EncodeCount(c.v2, 1), EncodeSimple(c.v2, head);
    assert EncodeSimple(c.v2, w) == count + e by { ItemBytes(c.v2, t, elem, head); }
    forall code, fuel: nat, data, pos: nat | Coded(c, code, ft) ensures RunsOver(c, code, fuel, data, pos, count + e) {
      AtConcat(data, pos, count, e);
      if At(data, pos, count + e) {
        CountRoundTrip(c.v2, 1, data, pos);
        assert RunsOver(c, code.elem, fuel, data, pos + |count|, e);
        RunItem(fuel, c.v2, c.schema, c.funcs, code.elem, data, pos, pos + |count|);
      }
    }
  }

  lemma ItemBytes(v2: bool, t: byte, elem: FieldType, head: Value)
    ensures EncodeSimple(v2, List(t, BondType(elem), Item(head, NoItems)))
         == EncodeCount(v2, 1) + EncodeSimple(v2, head)
  {
    assert Count(Item(head, NoItems)) == 1;
    assert EncodeSimpleItems(v2, Item(head, NoItems)) == EncodeSimple(v2, head) + [];
    assert EncodeSimple(v2, head) + [] == EncodeSimple(v2, head);
  }

  lemma RunItem(fuel: nat, v2: bool, ps: Schema, funcs: seq<StructCode>, elem: Code, data: seq<byte>, pos: nat,
                start: nat)
    requires ReadCount(v2, data, pos) == Some((1, start))
    ensures var r := Exec(fuel, v2, ps, funcs, Loop(elem), data, pos);
            r.Some? ==> Exec(fuel, v2, ps, funcs, elem, data, start).Some?
                        && r.value.1 == Exec(fuel, v2, ps, funcs, elem, data, start).value.1
  {
    hide ReadCount;
    var one := Exec(fuel, v2, ps, funcs, elem, data, start);
    if one.Some? {
      assert ExecItems(fuel, v2, ps, funcs, elem, 0, data, one.value.1) == Some(([], one.value.1));
    }
    assert ExecItems(fuel, v2, ps, funcs, elem, 1, data, start).Some? ==> one.Some?;
  }

  /** Of an entry the key or, behind a key that is read exactly, the value is misread. */
  lemma MisreadEntry(c: Setting, key: FieldType, elem: FieldType, k: Value, v: Value)
    requires Heavy(c)
    requires DefaultOf(c.m + 1, c.schema, key).Some? && DefaultOf(c.m + 1, c.schema, elem).Some?
    requires (Misread(c, key, k) && v == DefaultOf(c.m + 1, c.schema, elem).value)
          || (k == DefaultOf(c.m + 1, c.schema, key).value && !Touches(c.m + 1, c.schema, key, c.s)
              && Misread(c, elem, v))
    ensures Misread(c, MapOf(key, elem), Map(BondType(key), BondType(elem), Entry(k, v, NoEntries)))
  {
    var ft, w := MapOf(key, elem), Map(BondType(key), BondType(elem), Entry(k, v, NoEntries));
    DefaultConforms(c.m + 1, c.schema, key);
    DefaultConforms(c.m + 1, c.schema, elem);
    assert Conforms(c.schema, ft, w) by {
      hide Exec;
      assert ConformEntries(c.schema, key, elem, NoEntries);
      assert CountEntries(Entry(k, v, NoEntries)) == 1;
    }
    hide Exec, EncodeCount, ReadCount, At, Conforms, EncodeSimple, DefaultOf, Touches, Proper, ExtraLength;
    var e := EncodeSimple(c.v2, w);
    forall code, fuel: nat, data, pos: nat | Coded(c, code, ft) ensures RunsOver(c, code, fuel, data, pos, e) {
      RunMisreadEntry(c, key, elem, k, v, code, fuel, data, pos);
    }
  }

  lemma RunMisreadEntry(c: Setting, key: FieldType, elem: FieldType, k: Value, v: Value, code: Code, fuel: nat,
                        data: seq<byte>, pos: nat)
    requires Heavy(c) && Coded(c, code, MapOf(key, elem))
    requires DefaultOf(c.m + 1, c.schema, key).Some? && DefaultOf(c.m + 1, c.schema, elem).Some?
    requires (Misread(c, key, k) && v == DefaultOf(c.m + 1, c.schema, elem).value)
          || (k == DefaultOf(c.m + 1, c.schema, key).value && !Touches(c.m + 1, c.schema, key, c.s)
              && Misread(c, elem, v))
    ensures RunsOver(c, code, fuel, data, pos,
                     EncodeSimple(c.v2, Map(BondType(key), BondType(elem), Entry(k, v, NoEntries))))
  {
    hide Exec, EncodeCount, ReadCount, At, EncodeSimple, DefaultOf, Touches, Heavy, CodeFor, Misread, Ends;
    assert Coded(c, code.key, key) && Coded(c, code.elem, elem) by { EntryCoded(c, key, elem, code); }
    var count, ek, ev := EncodeCount(c.v2, 1), EncodeSimple(c.v2, k), EncodeSimple(c.v2, v);
    EntryBytes(c.v2, key, elem, k, v);
    if At(data, pos, count + (ek + ev)) {
      var start := pos + |count|;
      AtConcat(data, pos, count, ek + ev);
      CountRoundTrip(c.v2, 1, data, pos);
      RunEntry(fuel, c.v2, c.schema, c.funcs, code.key, code.elem, data, pos, start);
      if Misread(c, key, k) && v == DefaultOf(c.m + 1, c.schema, elem).value {
        KeyMisread(c, key, elem, k, code, fuel, data, start);
      } else {
        ElementMisread(c, key, elem, v, code, fuel, data, start);
      }
    }
  }

  lemma EntryCoded(c: Setting, key: FieldType, elem: FieldType, code: Code)
    requires Coded(c, code, MapOf(key, elem))
    ensures code.LoopMap? && Coded(c, code.key, key) && Coded(c, code.elem, elem)
  {
  }

  /** A misread key, and a default value after it. */
  lemma KeyMisread(c: Setting, key: FieldType, elem: FieldType, k: Value, code: Code, fuel: nat,
                   data: seq<byte>, start: nat)
    requires Heavy(c) && code.LoopMap? && Coded(c, code.key, key) && Coded(c, code.elem, elem)
    requires Misread(c, key, k) && DefaultOf(c.m + 1, c.schema, elem).Some?
    requires At(data, start, EncodeSimple(c.v2, k) + EncodeSimple(c.v2, DefaultOf(c.m + 1, c.schema, elem).value))
    ensures var r := Exec(fuel, c.v2, c.schema, c.funcs, code.key, data, start);
            r.Some? && Exec(fuel, c.v2, c.schema, c.funcs, code.elem, data, r.value.1).Some? ==>
              Exec(fuel, c.v2, c.schema, c.funcs, code.elem, data, r.value.1).value.1
              > start + |EncodeSimple(c.v2, k)| + |EncodeSimple(c.v2, DefaultOf(c.m + 1, c.schema, elem).value)|
  {
    hide Exec, At, EncodeSimple, DefaultOf, Touches, Proper, ExtraLength, CodeFor, Conforms;
    var ek, ev := EncodeSimple(c.v2, k), EncodeSimple(c.v2, DefaultOf(c.m + 1, c.schema, elem).value);
    AtConcat(data, start, ek, ev);
    assert RunsOver(c, code.key, fuel, data, start, ek);
    hide Misread;
    var r := Exec(fuel, c.v2, c.schema, c.funcs, code.key, data, start);
    if r.Some? {
      RunDefault(c, c.m + 1, fuel, code.elem, elem, data, r.value.1);
    }
  }

  /** A default key that is read exactly, and a misread value after it. */
  lemma ElementMisread(c: Setting, key: FieldType, elem: FieldType, v: Value, code: Code, fuel: nat,
                       data: seq<byte>, start: nat)
    requires Heavy(c) && code.LoopMap? && Coded(c, code.key, key) && Coded(c, code.elem, elem)
    requires Misread(c, elem, v) && DefaultOf(c.m + 1, c.schema, key).Some?
    requires !Touches(c.m + 1, c.schema, key, c.s)
    requires At(data, start, EncodeSimple(c.v2, DefaultOf(c.m + 1, c.schema, key).value) + EncodeSimple(c.v2, v))
    ensures var r := Exec(fuel, c.v2, c.schema, c.funcs, code.key, data, start);
            r.Some? && Exec(fuel, c.v2, c.schema, c.funcs, code.elem, data, r.value.1).Some? ==>
              Exec(fuel, c.v2, c.schema, c.funcs, code.elem, data, r.value.1).value.1
              > start + |EncodeSimple(c.v2, DefaultOf(c.m + 1, c.schema, key).value)| + |EncodeSimple(c.v2, v)|
  {
    hide Exec, At, EncodeSimple, DefaultOf, Touches, Proper, ExtraLength, CodeFor, Conforms;
    var ek, ev := EncodeSimple(c.v2, DefaultOf(c.m + 1, c.schema, key).value), EncodeSimple(c.v2, v);
    AtConcat(data, start, ek, ev);
    assert RunsOver(c, code.elem, fuel, data, start + |ek|, ev);
    hide Misread;
    RunDefault(c, c.m + 1, fuel, code.key, key, data, start);
  }

  lemma EntryBytes(v2: bool, key: FieldType, elem: FieldType, k: Value, v: Value)
    ensures EncodeSimple(v2, Map(BondType(key), BondType(elem), Entry(k, v, NoEntries)))
         == EncodeCount(v2, 1) + (EncodeSimple(v2, k) + EncodeSimple(v2, v))
  {
    assert CountEntries(Entry(k, v, NoEntries)) == 1;
    assert EncodeSimpleEntries(v2, Entry(k, v, NoEntries)) == EncodeSimple(v2, k) + (EncodeSimple(v2, v) + []);
    assert EncodeSimple(v2, v) + [] == EncodeSimple(v2, v);
  }

  lemma RunEntry(fuel: nat, v2: bool, ps: Schema, funcs: seq<StructCode>, key: Code, elem: Code, data: seq<byte>,
                 pos: nat,
                 start: nat)
    requires ReadCount(v2, data, pos) == Some((1, start))
    ensures var r := Exec(fuel, v2, ps, funcs, LoopMap(key, elem), data, pos);
            r.Some? ==>
              var k := Exec(fuel, v2, ps, funcs, key, data, start);
              && k.Some? && Exec(fuel, v2, ps, funcs, elem, data, k.value.1).Some?
              && r.value.1 == Exec(fuel, v2, ps, funcs, elem, data, k.value.1).value.1
  {
    hide ReadCount;
    var k := Exec(fuel, v2, ps, funcs, key, data, start);
    if k.Some? {
      var v := Exec(fuel, v2, ps, funcs, elem, data, k.value.1);
      if v.Some? {
        assert ExecEntries(fuel, v2, ps, funcs, key, elem, 0, data, v.value.1) == Some(([], v.value.1));
      }
    }
    assert ExecEntries(fuel, v2, ps, funcs, key, elem, 1, data, start).Some? ==> k.Some?;
  }

  /** Code for a level goes too far on `body`, which has `tail` behind it. */
  ghost predicate MisreadLevel(c: Setting, fields: Fields, body: Body, tail: Body) {
    forall codes, targets, t, fuel: nat, data, pos: nat ::
      FieldCodesFor(false, {c.s}, c.forms, c.schema, c.schema, codes, fields, targets)
      && Suffices(fields, targets, fields) && At(data, pos, EncodeSimpleBody(c.v2, body)) ==>
        Overruns(ExecFields(fuel, c.v2, c.schema, c.funcs, t, codes, data, pos),
                 pos + Len(c.v2, body) - Len(c.v2, tail))
  }

  lemma MisreadField(c: Setting, m: nat, fields: Fields, tail: Body, w: Value)
    requires Heavy(c) && Sorted(fields) && fields.FieldDef? && !tail.Field?
    requires Misread(c, fields.ft, w) && DefaultFields(m, c.schema, fields.rest, tail).Some?
    ensures var body := Field(fields.id, w, DefaultFields(m, c.schema, fields.rest, tail).value);
            Level(c.schema, fields, body) == Some(tail) && MisreadLevel(c, fields, body, tail)
  {
    DefaultFieldsConform(m, c.schema, fields.rest, tail);
    hide ExecFields, At, EncodeSimple, Heavy, FieldCodesFor, Conforms, DefaultFields, Suffices, Misread;
    var body := Field(fields.id, w, DefaultFields(m, c.schema, fields.rest, tail).value);
    forall codes, targets, t, fuel: nat, data, pos: nat
      | FieldCodesFor(false, {c.s}, c.forms, c.schema, c.schema, codes, fields, targets)
        && Suffices(fields, targets, fields) && At(data, pos, EncodeSimpleBody(c.v2, body))
      ensures Overruns(ExecFields(fuel, c.v2, c.schema, c.funcs, t, codes, data, pos),
                       pos + Len(c.v2, body) - Len(c.v2, tail))
    {
      RunFirst(c, m, fields, tail, w, codes, targets, t, fuel, data, pos);
    }
  }

  lemma RunFirst(c: Setting, m: nat, fields: Fields, tail: Body, w: Value, codes: FieldCodes, targets: Fields, t: nat,
                 fuel: nat, data: seq<byte>, pos: nat)
    requires Heavy(c) && Sorted(fields) && fields.FieldDef? && Misread(c, fields.ft, w)
    requires DefaultFields(m, c.schema, fields.rest, tail).Some?
    requires FieldCodesFor(false, {c.s}, c.forms, c.schema, c.schema, codes, fields, targets)
    requires Suffices(fields, targets, fields)
    requires var body := Field(fields.id, w, DefaultFields(m, c.schema, fields.rest, tail).value);
             At(data, pos, EncodeSimpleBody(c.v2, body))
    ensures var body := Field(fields.id, w, DefaultFields(m, c.schema, fields.rest, tail).value);
            Overruns(ExecFields(fuel, c.v2, c.schema, c.funcs, t, codes, data, pos),
                     pos + Len(c.v2, body) - Len(c.v2, tail))
  {
    hide Exec, At, EncodeSimple, Proper, ExtraLength, CodeFor, DefaultFields, FieldsTouch, Misread;
    var next, e := DefaultFields(m, c.schema, fields.rest, tail).value, EncodeSimple(c.v2, w);
    assert Lookup(targets, fields.id) == Lookup(fields, fields.id) == Some(fields.ft);
    AtConcat(data, pos, e, EncodeSimpleBody(c.v2, next));
    assert Coded(c, codes.code, fields.ft);
    MisreadRun(c, fields.ft, w, codes.code, fuel, data, pos);
    var r := Exec(fuel, c.v2, c.schema, c.funcs, codes.code, data, pos);
    if r.Some? {
      RunFields(c, m, fuel, codes.rest, t, fields.rest, targets, tail, data, r.value.1);
    }
  }

  lemma MisreadRun(c: Setting, ft: FieldType, w: Value, code: Code, fuel: nat, data: seq<byte>, pos: nat)
    requires Misread(c, ft, w) && Coded(c, code, ft)
    ensures RunsOver(c, code, fuel, data, pos, EncodeSimple(c.v2, w))
  {
    hide Coded, RunsOver, Conforms, EncodeSimple;
  }

  /** A default value that is read exactly, and a level that is misread after it. */
  lemma MisreadLater(c: Setting, m: nat, fields: Fields, tail: Body, next: Body)
    requires Heavy(c) && Sorted(fields) && fields.FieldDef? && DefaultOf(m, c.schema, fields.ft).Some?
    requires !Touches(m, c.schema, fields.ft, c.s)
    requires Level(c.schema, fields.rest, next) == Some(tail) && MisreadLevel(c, fields.rest, next, tail)
    ensures var body := Field(fields.id, DefaultOf(m, c.schema, fields.ft).value, next);
            Level(c.schema, fields, body) == Some(tail) && MisreadLevel(c, fields, body, tail)
  {
    DefaultConforms(m, c.schema, fields.ft);
    hide ExecFields, At, EncodeSimple, Heavy, FieldCodesFor, Conforms, DefaultOf, Touches, Suffices;
    var v := DefaultOf(m, c.schema, fields.ft).value;
    var body := Field(fields.id, v, next);
    forall codes, targets, t, fuel: nat, data, pos: nat
      | FieldCodesFor(false, {c.s}, c.forms, c.schema, c.schema, codes, fields, targets)
        && Suffices(fields, targets, fields) && At(data, pos, EncodeSimpleBody(c.v2, body))
      ensures Overruns(ExecFields(fuel, c.v2, c.schema, c.funcs, t, codes, data, pos),
                       pos + Len(c.v2, body) - Len(c.v2, tail))
    {
      RunLater(c, m, fields, tail, next, codes, targets, t, fuel, data, pos);
    }
  }

  lemma RunLater(c: Setting, m: nat, fields: Fields, tail: Body, next: Body, codes: FieldCodes, targets: Fields, t: nat,
                 fuel: nat, data: seq<byte>, pos: nat)
    requires Heavy(c) && Sorted(fields) && fields.FieldDef? && DefaultOf(m, c.schema, fields.ft).Some?
    requires !Touches(m, c.schema, fields.ft, c.s) && MisreadLevel(c, fields.rest, next, tail)
    requires FieldCodesFor(false, {c.s}, c.forms, c.schema, c.schema, codes, fields, targets)
    requires Suffices(fields, targets, fields)
    requires At(data, pos, EncodeSimpleBody(c.v2, Field(fields.id, DefaultOf(m, c.schema, fields.ft).value, next)))
    ensures var body := Field(fields.id, DefaultOf(m, c.schema, fields.ft).value, next);
            Overruns(ExecFields(fuel, c.v2, c.schema, c.funcs, t, codes, data, pos),
                     pos + Len(c.v2, body) - Len(c.v2, tail))
  {
    hide Exec, At, EncodeSimple, Proper, ExtraLength, CodeFor, DefaultOf, Touches, MisreadLevel;
    var v := DefaultOf(m, c.schema, fields.ft).value;
    var e := EncodeSimple(c.v2, v);
    assert Lookup(targets, fields.id) == Lookup(fields, fields.id) == Some(fields.ft);
    AtConcat(data, pos, e, EncodeSimpleBody(c.v2, next));
    assert Coded(c, codes.code, fields.ft);
    RunDefault(c, m, fuel, codes.code, fields.ft, data, pos);
    RunMisread(c, fields.rest, next, tail, codes.rest, targets, t, fuel, data, pos + |e|);
  }

  lemma RunMisread(c: Setting, fields: Fields, body: Body, tail: Body, codes: FieldCodes, targets: Fields, t: nat,
                   fuel: nat, data: seq<byte>, pos: nat)
    requires MisreadLevel(c, fields, body, tail) && Suffices(fields, targets, fields)
    requires FieldCodesFor(false, {c.s}, c.forms, c.schema, c.schema, codes, fields, targets)
    requires At(data, pos, EncodeSimpleBody(c.v2, body))
    ensures Overruns(ExecFields(fuel, c.v2, c.schema, c.funcs, t, codes, data, pos),
                     pos + Len(c.v2, body) - Len(c.v2, tail))
  {
    hide ExecFields, FieldCodesFor, At, EncodeSimpleBody, Suffices;
  }

  lemma {:induction false} MisreadFields(c: Setting, m: nat, fields: Fields, tail: Body) returns (body: Body)
    requires Heavy(c) && Sorted(fields) && AllRefer(c.schema, fields) && !FieldsOf(Infallible(c), fields)
    requires DefaultFields(m, c.schema, fields, tail).Some? && !tail.Field?
    ensures Level(c.schema, fields, body) == Some(tail) && MisreadLevel(c, fields, body, tail)
    decreases fields
  {
    hide Proper, ExtraLength, DefaultOf, Touches, MisreadLevel, Level, Misread;
    if !AllOf(Infallible(c), fields.ft) {
      var w := MisreadType(c, fields.ft);
      MisreadField(c, m, fields, tail, w);
      body := Field(fields.id, w, DefaultFields(m, c.schema, fields.rest, tail).value);
    } else if Touches(m, c.schema, fields.ft, c.s) {
      TouchedMisread(c, m, fields.ft);
      MisreadField(c, m, fields, tail, DefaultOf(m, c.schema, fields.ft).value);
      body := Field(fields.id, DefaultOf(m, c.schema, fields.ft).value,
                    DefaultFields(m, c.schema, fields.rest, tail).value);
    } else {
      var next := MisreadFields(c, m, fields.rest, tail);
      MisreadLater(c, m, fields, tail, next);
      body := Field(fields.id, DefaultOf(m, c.schema, fields.ft).value, next);
    }
  }

  /** Code for the levels of `t` goes too far on `body`, which has `tail` behind them. */
  ghost predicate MisreadLevels(c: Setting, t: nat, body: Body, tail: Body) {
    forall code, fuel: nat, data, pos: nat ::
      StructCoded(c, code, t, t) && At(data, pos, EncodeSimpleBody(c.v2, body)) ==>
        Overruns(ExecStruct(fuel, c.v2, c.schema, c.funcs, code, data, pos), pos + Len(c.v2, body) - Len(c.v2, tail))
  }

  /** The base is misread, and default fields come after it. */
  lemma MisreadBase(c: Setting, m: nat, t: nat, tail: Body, body: Body)
    requires Heavy(c) && t < |c.schema| && Base(c.schema, t).Some? && !tail.Field?
    requires DefaultFields(m, c.schema, c.schema[t].fields, tail).Some?
    requires var own := DefaultFields(m, c.schema, c.schema[t].fields, tail).value;
             var base := Base(c.schema, t).value;
             Levels(c.schema, base, body) == Some(StopBase(own)) && MisreadLevels(c, base, body, StopBase(own))
    ensures Levels(c.schema, t, body) == Some(tail) && MisreadLevels(c, t, body, tail)
  {
    var base, fields := Base(c.schema, t).value, c.schema[t].fields;
    var own := DefaultFields(m, c.schema, fields, tail).value;
    DefaultFieldsConform(m, c.schema, fields, tail);
    hide ExecStruct, At, EncodeSimpleBody, Heavy, StructCodeFor, DefaultFields, Levels, Level, MisreadLevels;
    assert Levels(c.schema, t, body) == Some(tail) by { NextLevel(c.schema, t, body, own); }
    assert MisreadLevels(c, t, body, tail) by {
      forall code, fuel: nat, data, pos: nat
        | StructCoded(c, code, t, t) && At(data, pos, EncodeSimpleBody(c.v2, body))
        ensures Overruns(ExecStruct(fuel, c.v2, c.schema, c.funcs, code, data, pos),
                         pos + Len(c.v2, body) - Len(c.v2, tail))
      {
        RunBase(c, m, t, tail, body, code, fuel, data, pos);
      }
      AreMisread(c, t, body, tail);
    }
  }

  lemma AreMisread(c: Setting, t: nat, body: Body, tail: Body)
    requires forall code, fuel: nat, data, pos: nat ::
               StructCoded(c, code, t, t) && At(data, pos, EncodeSimpleBody(c.v2, body)) ==>
                 Overruns(ExecStruct(fuel, c.v2, c.schema, c.funcs, code, data, pos),
                          pos + Len(c.v2, body) - Len(c.v2, tail))
    ensures MisreadLevels(c, t, body, tail)
  {
    hide ExecStruct, At, EncodeSimpleBody, StructCodeFor;
  }

  lemma LevelsRun(c: Setting, t: nat, body: Body, tail: Body, code: StructCode, fuel: nat, data: seq<byte>, pos: nat)
    requires MisreadLevels(c, t, body, tail) && StructCoded(c, code, t, t)
    requires At(data, pos, EncodeSimpleBody(c.v2, body))
    ensures Overruns(ExecStruct(fuel, c.v2, c.schema, c.funcs, code, data, pos),
                     pos + Len(c.v2, body) - Len(c.v2, tail))
  {
    hide ExecStruct, At, EncodeSimpleBody, StructCodeFor;
  }

  lemma RunBase(c: Setting, m: nat, t: nat, tail: Body, body: Body, code: StructCode, fuel: nat, data: seq<byte>,
                pos: nat)
    requires Heavy(c) && t < |c.schema| && Base(c.schema, t).Some? && StructCoded(c, code, t, t)
    requires DefaultFields(m, c.schema, c.schema[t].fields, tail).Some?
    requires MisreadLevels(c, Base(c.schema, t).value, body,
                           StopBase(DefaultFields(m, c.schema, c.schema[t].fields, tail).value))
    requires At(data, pos, EncodeSimpleBody(c.v2, body))
    ensures Overruns(ExecStruct(fuel, c.v2, c.schema, c.funcs, code, data, pos),
                     pos + Len(c.v2, body) - Len(c.v2, tail))
  {
    hide ExecFields, At, EncodeSimpleBody, Proper, ExtraLength, FieldCodesFor, DefaultFields, FieldsTouch,
      MisreadLevels;
    var base, fields := Base(c.schema, t).value, c.schema[t].fields;
    var own := DefaultFields(m, c.schema, fields, tail).value;
    SufficesAll(fields, fields);
    SortedFields(c, t);
    MarkerIsFree(c.v2, own);
    assert StructCoded(c, code.base.value, base, base);
    LevelsRun(c, base, body, StopBase(own), code.base.value, fuel, data, pos);
    var r := ExecStruct(fuel, c.v2, c.schema, c.funcs, code.base.value, data, pos);
    if r.Some? {
      RunFields(c, m, fuel, code.fields, t, fields, fields, tail, data, r.value.1);
    }
  }

  lemma NextLevel(schema: Schema, t: nat, body: Body, own: Body)
    requires t < |schema| && Base(schema, t).Some? && Levels(schema, Base(schema, t).value, body) == Some(StopBase(own))
    ensures Levels(schema, t, body) == Level(schema, schema[t].fields, own)
  {
  }

  /** A default base that is read exactly, and the fields of the level misread after it. */
  lemma MisreadOwn(c: Setting, m: nat, t: nat, tail: Body, own: Body)
    requires Heavy(c) && t < |c.schema| && !tail.Field?
    requires Level(c.schema, c.schema[t].fields, own) == Some(tail) && MisreadLevel(c, c.schema[t].fields, own, tail)
    requires Base(c.schema, t).Some? ==>
               && DefaultLevels(m, c.schema, Base(c.schema, t).value, StopBase(own)).Some?
               && !LevelsTouch(m, c.schema, Base(c.schema, t).value, c.s)
    ensures var body := if Base(c.schema, t).Some?
                        then DefaultLevels(m, c.schema, Base(c.schema, t).value, StopBase(own)).value else own;
            Levels(c.schema, t, body) == Some(tail) && MisreadLevels(c, t, body, tail)
  {
    hide ExecStruct, At, EncodeSimpleBody, Heavy, StructCodeFor, DefaultLevels, LevelsTouch, Level;
    var body := own;
    if Base(c.schema, t).Some? {
      var base := Base(c.schema, t).value;
      body := DefaultLevels(m, c.schema, base, StopBase(own)).value;
      DefaultLevelsConform(m, c.schema, base, StopBase(own));
    }
    forall code, fuel: nat, data, pos: nat
      | StructCoded(c, code, t, t) && At(data, pos, EncodeSimpleBody(c.v2, body))
      ensures Overruns(ExecStruct(fuel, c.v2, c.schema, c.funcs, code, data, pos),
                       pos + Len(c.v2, body) - Len(c.v2, tail))
    {
      RunOwn(c, m, t, tail, own, code, fuel, data, pos);
    }
  }

  lemma RunOwn(c: Setting, m: nat, t: nat, tail: Body, own: Body, code: StructCode, fuel: nat, data: seq<byte>,
               pos: nat)
    requires Heavy(c) && t < |c.schema| && MisreadLevel(c, c.schema[t].fields, own, tail)
    requires Base(c.schema, t).Some? ==>
               && DefaultLevels(m, c.schema, Base(c.schema, t).value, StopBase(own)).Some?
               && !LevelsTouch(m, c.schema, Base(c.schema, t).value, c.s)
    requires StructCoded(c, code, t, t)
    requires var body := if Base(c.schema, t).Some?
                         then DefaultLevels(m, c.schema, Base(c.schema, t).value, StopBase(own)).value else own;
             At(data, pos, EncodeSimpleBody(c.v2, body))
    ensures var body := if Base(c.schema, t).Some?
                        then DefaultLevels(m, c.schema, Base(c.schema, t).value, StopBase(own)).value else own;
            Overruns(ExecStruct(fuel, c.v2, c.schema, c.funcs, code, data, pos),
                     pos + Len(c.v2, body) - Len(c.v2, tail))
  {
    hide ExecFields, At, EncodeSimpleBody, Proper, ExtraLength, FieldCodesFor, DefaultLevels, LevelsTouch, MisreadLevel,
      Suffices;
    var fields := c.schema[t].fields;
    SufficesAll(fields, fields);
    var mid := pos;
    if Base(c.schema, t).Some? {
      var base := Base(c.schema, t).value;
      assert StructCoded(c, code.base.value, base, base);
      MarkerIsFree(c.v2, own);
      RunLevels(c, m, fuel, code.base.value, base, StopBase(own), data, pos);
      SuffixAt(c, m, base, own, data, pos);
      mid := pos + Len(c.v2, DefaultLevels(m, c.schema, base, StopBase(own)).value) - Len(c.v2, own);
    }
    RunMisread(c, fields, own, tail, code.fields, fields, t, fuel, data, mid);
  }

  lemma TouchedLevels(c: Setting, m: nat, t: nat, tail: Body)
    requires Heavy(c) && t < |c.schema| && !tail.Field?
    requires DefaultLevels(m, c.schema, t, tail).Some? && LevelsTouch(m, c.schema, t, c.s)
    ensures var body := DefaultLevels(m, c.schema, t, tail).value;
            Levels(c.schema, t, body) == Some(tail) && MisreadLevels(c, t, body, tail)
  {
    hide ExecStruct, At, EncodeSimpleBody, Proper, ExtraLength, StructCodeFor, DefaultLevels, LevelsTouch, Levels;
    DefaultLevelsConform(m, c.schema, t, tail);
    var body := DefaultLevels(m, c.schema, t, tail).value;
    forall code, fuel: nat, data, pos: nat
      | StructCoded(c, code, t, t) && At(data, pos, EncodeSimpleBody(c.v2, body))
      ensures Overruns(ExecStruct(fuel, c.v2, c.schema, c.funcs, code, data, pos),
                       pos + Len(c.v2, body) - Len(c.v2, tail))
    {
      RunLevels(c, m, fuel, code, t, tail, data, pos);
    }
  }

  lemma {:induction false} MisreadStruct(c: Setting, m: nat, t: nat, tail: Body) returns (body: Body)
    requires Heavy(c) && t < |c.schema| && !tail.Field? && !LevelsOf(Infallible(c), c.schema, t)
    requires DefaultLevels(m, c.schema, t, tail).Some?
    ensures Levels(c.schema, t, body) == Some(tail) && MisreadLevels(c, t, body, tail)
    decreases t
  {
    hide Proper, ExtraLength, DefaultFields, MisreadLevel, MisreadLevels, Levels, Level, FieldsTouch;
    ProperIs(c);
    var own := DefaultFields(m, c.schema, c.schema[t].fields, tail).value;
    if LevelsTouch(m, c.schema, t, c.s) {
      TouchedLevels(c, m, t, tail);
      body := DefaultLevels(m, c.schema, t, tail).value;
    } else if Base(c.schema, t).Some? && !LevelsOf(Infallible(c), c.schema, Base(c.schema, t).value) {
      body := MisreadStruct(c, m, Base(c.schema, t).value, StopBase(own));
      MisreadBase(c, m, t, tail, body);
    } else {
      var bad := MisreadFields(c, m, c.schema[t].fields, tail);
      if Base(c.schema, t).Some? {
        AnyTail(m, c.schema, Base(c.schema, t).value, StopBase(own), StopBase(bad));
      }
      MisreadOwn(c, m, t, tail, bad);
      body := if Base(c.schema, t).Some? then DefaultLevels(m, c.schema, Base(c.schema, t).value, StopBase(bad)).value
              else bad;
    }
  }

  /** A struct, not `s`, whose levels are misread, is. */
  lemma MisreadNested(c: Setting, t: nat, body: Body)
    requires Proper(c) && t < |c.schema| && t != c.s
    requires Levels(c.schema, t, body) == Some(Stop) && MisreadLevels(c, t, body, Stop)
    ensures Misread(c, StructOf(t), Struct(body))
  {
    hide ExecStruct, At, EncodeSimpleBody, StructCodeFor, Levels;
    StopIsFree(c.v2);
    forall code, fuel: nat, data, pos: nat | Coded(c, code, StructOf(t))
      ensures RunsOver(c, code, fuel, data, pos, EncodeSimple(c.v2, Struct(body)))
    {
      if fuel > 0 && At(data, pos, EncodeSimpleBody(c.v2, body)) {
        var inner := if code.Inline? then code.struct else c.funcs[code.index];
        assert StructCoded(c, inner, t, t);
        assert Overruns(ExecStruct(fuel - 1, c.v2, c.schema, c.funcs, inner, data, pos),
                        pos + Len(c.v2, body) - Len(c.v2, Stop));
      }
    }
  }

  lemma SlicedIsFallible(c: Setting)
    requires Heavy(c)
    ensures Fallible(c, c.s)
  {
    hide Misread, ExtraLength, LevelsTouch;
    assert DefaultOf(c.m + 1, c.schema, StructOf(c.s)).Some?;
    TouchedMisread(c, c.m + 1, StructOf(c.s));
  }

  lemma InfallibleClosed(c: Setting)
    requires Heavy(c)
    ensures ClosedStructs(Infallible(c), c.schema) && c.s !in Infallible(c)
  {
    hide Misread, MisreadLevels, ExtraLength;
    SlicedIsFallible(c);
    forall t | t in Infallible(c) ensures LevelsOf(Infallible(c), c.schema, t) {
      if !LevelsOf(Infallible(c), c.schema, t) {
        var body := MisreadStruct(c, c.m, t, Stop);
        MisreadNested(c, t, body);
      }
    }
  }
}
