/** Simple Binary in numbers: values one after the other, without types, identifiers and markers. */
module SimpleFormat {
  import opened Bytes
  import opened Wire
  import opened SimpleBinary
  import Format

  /** Counts: four bytes, least significant first; in version 2 variable. */
  lemma CountBytes(v2: bool, n: nat)
    requires n < 0x1_0000_0000
    ensures if v2 then Format.Grouped(EncodeCount(v2, n), n) else Format.Fixed(EncodeCount(v2, n), n, 4)
  {
    hide Format.Grouped, Format.Fixed;
    if v2 {
      Format.GroupedBytes(n);
    } else {
      assert Format.Power(256, 2) == 0x1_0000 && Format.Power(256, 3) == 0x100_0000;
      assert Format.Power(256, 4) == 0x1_0000_0000;
      Format.FixedBytes(n, 4);
    }
  }

  /** Numbers of any width are little-endian; strings have the number of their code units before them. */
  lemma ScalarBytes(v2: bool, v: Value)
    requires Valid(v) && (v.Num? || v.Raw?)
    ensures v.Num? ==>
              var k := Format.NumberSize(v.t);
              Format.Fixed(EncodeSimple(v2, v), if v.n < 0 then v.n + Format.Power(256, k) else v.n, k)
    ensures v.Raw? ==>
              EncodeSimple(v2, v)
              == (if v.t == 9 then EncodeCount(v2, |v.raw|)
                  else if v.t == 18 then EncodeCount(v2, |v.raw| / 2) else []) + v.raw
  {
    hide Format.Fixed, Format.Power, EncodeNum;
    if v.Num? {
      Format.NumberBytes(Fast, v.t, v.n);
      assert EncodeValue(Fast, v) == EncodeNum(Fast, v.t, v.n);
    } else {
      assert [] + v.raw == v.raw;
    }
  }

  /** Containers: the count, then the items, or keys and values in turn. */
  lemma ContainerBytes(v2: bool, items: Items, entries: Entries, t: byte, key: byte, elem: byte)
    ensures EncodeSimple(v2, List(t, elem, items)) == EncodeCount(v2, Count(items)) + EncodeSimpleItems(v2, items)
    ensures EncodeSimple(v2, Map(key, elem, entries))
         == EncodeCount(v2, CountEntries(entries)) + EncodeSimpleEntries(v2, entries)
    ensures items.Item? ==>
              EncodeSimpleItems(v2, items) == EncodeSimple(v2, items.head) + EncodeSimpleItems(v2, items.tail)
    ensures entries.Entry? ==>
              EncodeSimpleEntries(v2, entries)
              == EncodeSimple(v2, entries.key) + EncodeSimple(v2, entries.value)
                 + EncodeSimpleEntries(v2, entries.rest)
    ensures EncodeSimpleItems(v2, NoItems) == [] && EncodeSimpleEntries(v2, NoEntries) == []
  {
    hide EncodeCount, EncodeScalar, Count, CountEntries;
    if entries.Entry? {
      var a, b := EncodeSimple(v2, entries.key), EncodeSimple(v2, entries.value);
      assert a + (b + EncodeSimpleEntries(v2, entries.rest)) == a + b + EncodeSimpleEntries(v2, entries.rest);
    }
  }

  /** Structs: the values of the fields, root-most level first. */
  lemma StructBytes(v2: bool, body: Body)
    ensures body == Stop ==> EncodeSimple(v2, Struct(body)) == []
    ensures body.StopBase? ==> EncodeSimple(v2, Struct(body)) == EncodeSimple(v2, Struct(body.next))
    ensures body.Field? ==>
              EncodeSimple(v2, Struct(body)) == EncodeSimple(v2, body.value) + EncodeSimple(v2, Struct(body.next))
  {
  }
}
