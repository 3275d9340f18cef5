/** The reader of the tagged protocols: a position in a payload that each read advances, and the
    skipper. `None` or `false` is an exception. */
module Reader {
  import opened Bytes
  import opened Input
  import opened Wire
  import opened Grammar
  import Counter

  /** What fits in one memory buffer. */
  type Payload = s: seq<byte> | |s| <= INT_MAX

  /** The element size for which a container's items are passed over in one step, or 0. */
  function BulkSize(p: Protocol, elem: byte): nat {
    if elem == BT_UINT8 || elem == BT_INT8 then 1
    else if elem == BT_FLOAT then 4
    else if elem == BT_DOUBLE then 8
    else if p == Fast && Numeric(elem) then Size(elem)
    else 0
  }

  lemma {:induction false} BulkItems(p: Protocol, elem: byte, count: nat, data: seq<byte>, pos: nat)
    requires BulkSize(p, elem) > 0 && ParseItems(p, elem, count, data, pos).Some?
    ensures ParseItems(p, elem, count, data, pos).value.1 == pos + count * BulkSize(p, elem)
    decreases count
  {
    if count > 0 {
      var w := BulkSize(p, elem);
      var mid := ParseValue(p, elem, data, pos).value.1;
      assert mid == pos + w;
      BulkItems(p, elem, count - 1, data, mid);
      assert (count - 1) * w + w == count * w;
    }
  }

  lemma Int32Fits(x: nat)
    requires x <= INT_MAX
    ensures Counter.Int32(x) == x
  {
  }

  class TaggedReader {
    const protocol: Protocol
    const data: Payload
    var position: nat

    constructor (p: Protocol, payload: Payload)
      ensures protocol == p && data == payload && position == 0
    {
      protocol, data, position := p, payload, 0;
    }

    method Clone() returns (r: TaggedReader)
      ensures fresh(r) && r.protocol == protocol && r.data == data && r.position == position
    {
      r := new TaggedReader(protocol, data);
      r.position := position;
    }

    method UInt8() returns (r: Option<byte>)
      modifies this
      ensures match ReadUInt8(data, old(position))
              case None => r == None && position == old(position)
              case Some((b, next)) => r == Some(b) && position == next
    {
      if position >= |data| {
        return None;
      }
      r := Some(data[position]);
      position := position + 1;
    }

    method UInt16() returns (r: Option<nat>)
      modifies this
      ensures match ReadFixed(data, old(position), 2)
              case None => r == None && position == old(position)
              case Some((n, next)) => r == Some(n) && position == next
    {
      if position + 2 > |data| {
        return None;
      }
      var n: nat := data[position];
      position := position + 1;
      var high: nat := data[position];
      n := n + 256 * high;
      position := position + 1;
      r := Some(n);
      assert FromLittleEndian(data, position, 0) == 0;
      assert FromLittleEndian(data, position - 1, 1) == data[position - 1];
    }

    method VarInt(width: nat) returns (r: Option<nat>)
      requires width == 2 || width == 4 || width == 8
      modifies this
      ensures match ReadVar(data, old(position), width)
              case None => r == None && position == old(position)
              case Some((n, next)) => r == Some(n) && position == next
    {
      match ReadVar(data, position, width)
      case None => r := None;
      case Some((n, next)) =>
        r := Some(n);
        position := next;
    }

    method Blob(count: nat) returns (r: Option<seq<byte>>)
      modifies this
      ensures match ReadBytes(data, old(position), count)
              case None => r == None && position == old(position)
              case Some((bytes, next)) => r == Some(bytes) && position == next
    {
      if position + count > |data| {
        return None;
      }
      r := Some(data[position..position + count]);
      position := position + count;
    }

    /** Moves without looking: the position may leave the payload, where every read then fails. */
    method SkipBytes(count: nat)
      modifies this
      ensures position == old(position) + count
    {
      position := position + count;
    }

    /** Reads and drops the length prefix of a version 2 struct. */
    method ReadStructBegin() returns (ok: bool)
      modifies this
      ensures match ParseLength(protocol, data, old(position))
              case None => !ok && position == old(position)
              case Some((_, next)) => ok && position == next
    {
      ok := true;
      if protocol == CompactV2 {
        var length := VarInt(4);
        ok := length.Some?;
      }
    }

    method ReadFieldBegin() returns (r: Option<(byte, nat)>)
      modifies this
      ensures match ParseFieldHeader(protocol, data, old(position))
              case None => r == None && old(position) <= position
              case Some((t, id, next)) => r == Some((t, id)) && position == next
      ensures old(position) <= |data| ==> position <= |data|
    {
      var raw := UInt8();
      if raw == None {
        return None;
      }
      if protocol == Fast {
        if raw.value == BT_STOP || raw.value == BT_STOP_BASE {
          return Some((raw.value, 0));
        }
        var id := UInt16();
        return if id == None then None else Some((raw.value, id.value));
      }
      var t, form := raw.value % 32, raw.value / 32;
      if form < 6 {
        r := Some((t, form));
      } else if form == 6 {
        var id := UInt8();
        r := if id == None then None else Some((t, id.value));
      } else {
        var id := UInt16();
        r := if id == None then None else Some((t, id.value));
      }
    }

    method ReadListBegin() returns (r: Option<(byte, nat)>)
      modifies this
      ensures match ParseListHeader(protocol, data, old(position))
              case None => r == None && old(position) <= position
              case Some((elem, count, next)) => r == Some((elem, count)) && position == next
      ensures old(position) <= |data| ==> position <= |data|
    {
      var raw := UInt8();
      if raw == None {
        return None;
      }
      var elem: byte := if protocol == Fast then raw.value else raw.value % 32;
      if protocol == CompactV2 && raw.value / 32 != 0 {
        r := Some((elem, raw.value / 32 - 1));
      } else {
        var count := VarInt(4);
        r := if count == None then None else Some((elem, count.value));
      }
    }

    method ReadMapBegin() returns (r: Option<(byte, byte, nat)>)
      modifies this
      ensures match ParseMapHeader(data, old(position))
              case None => r == None && old(position) <= position
              case Some((key, elem, count, next)) => r == Some((key, elem, count)) && position == next
      ensures old(position) <= |data| ==> position <= |data|
    {
      var key := UInt8();
      if key == None {
        return None;
      }
      var elem := UInt8();
      if elem == None {
        return None;
      }
      var count := VarInt(4);
      r := if count == None then None else Some((key.value, elem.value, count.value));
    }

    method ReadNum(t: byte) returns (r: Option<int>)
      requires Numeric(t)
      modifies this
      ensures match ParseNum(protocol, t, data, old(position))
              case None => r == None && position == old(position)
              case Some((n, next)) => r == Some(n) && position == next
    {
      match ParseNum(protocol, t, data, position)
      case None => r := None;
      case Some((n, next)) =>
        r := Some(n);
        position := next;
    }

    method ReadRaw(t: byte) returns (r: Option<seq<byte>>)
      requires Opaque(t)
      modifies this
      ensures match ParseRaw(t, data, old(position))
              case None => r == None
              case Some((raw, next)) => r == Some(raw) && position == next
      ensures old(position) <= position
      ensures r.Some? ==> position <= |data|
    {
      if t == BT_FLOAT {
        r := Blob(4);
      } else if t == BT_DOUBLE {
        r := Blob(8);
      } else {
        var units := VarInt(4);
        if units == None {
          return None;
        }
        var count := if t == BT_WSTRING then 2 * units.value else units.value;
        if count > INT_MAX {
          return None;
        }
        r := Blob(count);
      }
    }

    // ------------------------------------------------------------------ skipping

    /** Skips a value of type `t`. Wherever a well-formed payload has such a value, the reader ends
        up exactly where reading the value would have left it. */
    method Skip(t: byte) returns (ok: bool)
      modifies this
      ensures match ParseValue(protocol, t, data, old(position))
              case None => true
              case Some((_, next)) => ok && position == next
      ensures ok ==> old(position) < position
      decreases if position < |data| then |data| - position else 0, 1
    {
      ok := true;
      if t == BT_BOOL || t == BT_UINT8 || t == BT_INT8 {
        SkipBytes(1);
      } else if Numeric(t) {
        if protocol == Fast {
          SkipBytes(Size(t));
        } else {
          var n := VarInt(Size(t));
          ok := n.Some?;
        }
      } else if t == BT_FLOAT {
        SkipBytes(4);
      } else if t == BT_DOUBLE {
        SkipBytes(8);
      } else if t == BT_STRING || t == BT_WSTRING {
        var units := VarInt(4);
        if units == None {
          return false;
        }
        var count := if t == BT_WSTRING then 2 * units.value else units.value;
        if count > INT_MAX {
          return false;
        }
        SkipBytes(count);
      } else if t == BT_LIST || t == BT_SET {
        ok := SkipContainer();
      } else if t == BT_MAP {
        ok := SkipMap();
      } else if t == BT_STRUCT {
        ok := SkipStruct();
      } else {
        ok := false;
      }
    }

    method SkipContainer() returns (ok: bool)
      modifies this
      ensures match ParseListHeader(protocol, data, old(position))
              case None => true
              case Some((elem, count, start)) =>
                match ParseItems(protocol, elem, count, data, start)
                case None => true
                case Some((_, next)) => count <= INT_MAX ==> ok && position == next
      ensures ok ==> old(position) < position
      decreases if position < |data| then |data| - position else 0, 0
    {
      hide ParseValue, ParseListHeader, Counter.Int32, BulkSize;
      ok := true;
      var header := ReadListBegin();
      if header == None {
        return false;
      }
      var (elem, unsigned) := header.value;
      var count := Counter.Int32(unsigned);
      var size := BulkSize(protocol, elem);
      ghost var start := position;
      if size > 0 {
        var bytes := Counter.Int32(count * size);
        if unsigned <= INT_MAX && ParseItems(protocol, elem, unsigned, data, start).Some? {
          BulkItems(protocol, elem, unsigned, data, start);
          Int32Fits(unsigned);
          Int32Fits(unsigned * size);
        }
        if bytes < 0 {
          return false;
        }
        SkipBytes(bytes);
      } else {
        ghost var items := ParseItems(protocol, elem, unsigned, data, start);
        if unsigned <= INT_MAX {
          Int32Fits(unsigned);
        }
        while count > 0
          invariant start <= position
          invariant unsigned <= INT_MAX && items.Some? ==>
                      var left := ParseItems(protocol, elem, if count > 0 then count else 0, data, position);
                      left.Some? && left.value.1 == items.value.1
          decreases count
        {
          count := count - 1;
          ok := Skip(elem);
          if !ok {
            return;
          }
        }
      }
    }

    method SkipMap() returns (ok: bool)
      modifies this
      ensures match ParseMapHeader(data, old(position))
              case None => true
              case Some((key, elem, count, start)) =>
                match ParseEntries(protocol, key, elem, count, data, start)
                case None => true
                case Some((_, next)) => count <= INT_MAX ==> ok && position == next
      ensures ok ==> old(position) < position
      decreases if position < |data| then |data| - position else 0, 0
    {
      hide ParseValue, ParseMapHeader, Counter.Int32;
      ok := true;
      var header := ReadMapBegin();
      if header == None {
        return false;
      }
      var (key, elem, unsigned) := header.value;
      var count := Counter.Int32(unsigned);
      if unsigned <= INT_MAX {
        Int32Fits(unsigned);
      }
      ghost var start := position;
      ghost var entries := ParseEntries(protocol, key, elem, unsigned, data, start);
      while count > 0
        invariant start <= position
        invariant unsigned <= INT_MAX && entries.Some? ==>
                    var left := ParseEntries(protocol, key, elem, if count > 0 then count else 0, data, position);
                    left.Some? && left.value.1 == entries.value.1
        decreases count
      {
        count := count - 1;
        ok := Skip(key);
        if !ok {
          return;
        }
        ok := Skip(elem);
        if !ok {
          return;
        }
      }
    }

    /** Version 2 jumps over the struct; the others walk its fields. */
    method SkipStruct() returns (ok: bool)
      modifies this
      ensures match ParseValue(protocol, BT_STRUCT, data, old(position))
              case None => true
              case Some((_, next)) => ok && position == next
      ensures ok ==> old(position) < position
      decreases if position < |data| then |data| - position else 0, 0
    {
      if protocol == CompactV2 {
        var length := VarInt(4);
        if length == None || length.value > INT_MAX {
          return false;
        }
        SkipBytes(length.value);
        return true;
      }
      ghost var body := ParseBody(protocol, data, position);
      ghost var start := position;
      while true
        invariant start <= position
        invariant body.Some? ==>
                    var left := ParseBody(protocol, data, position);
                    left.Some? && left.value.1 == body.value.1
        decreases if position < |data| then |data| - position else 0
      {
        var header := ReadFieldBegin();
        if header == None {
          return false;
        }
        var (t, id) := header.value;
        if t == BT_STOP_BASE {
          continue;
        }
        if t == BT_STOP {
          return true;
        }
        ok := Skip(t);
        if !ok {
          return;
        }
      }
    }
  }
}
