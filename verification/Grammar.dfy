/** The grammar of a payload: which value, if any, stands at a position of an arbitrary byte
    string, and where it ends. A count the source would read as a negative integer and a struct
    whose length prefix is wrong are not in the grammar. */
module Grammar {
  import opened Bytes
  import opened Varint
  import opened Input
  import opened Wire

  function ParseNum(p: Protocol, t: byte, data: seq<byte>, pos: nat): (r: Option<(int, nat)>)
    ensures r.Some? ==> pos < r.value.1 <= |data|
  {
    var m := Modulus(Size(t));
    if Size(t) == 1 then
      match ReadUInt8(data, pos)
      case None => None
      case Some((b, next)) =>
        Some((if t == BT_BOOL then if b != 0 then 1 else 0 else if t == BT_INT8 then Signed(b, m) else b, next))
    else
      match if p == Fast then ReadFixed(data, pos, Size(t)) else ReadVar(data, pos, Size(t))
      case None => None
      case Some((u, next)) =>
        Some((if !IsSigned(t) then u else if p == Fast then Signed(u, m) else DecodeZigzag(u, m), next))
  }

  function ParseRaw(t: byte, data: seq<byte>, pos: nat): (r: Option<(seq<byte>, nat)>)
    ensures r.Some? ==> pos < r.value.1 <= |data|
  {
    if t == BT_FLOAT then ReadBytes(data, pos, 4)
    else if t == BT_DOUBLE then ReadBytes(data, pos, 8)
    else
      match ReadVar(data, pos, 4)
      case None => None
      case Some((units, next)) =>
        var count := if t == BT_WSTRING then 2 * units else units;
        if count <= INT_MAX then ReadBytes(data, next, count) else None
  }

  /** Type, identifier and next position; a Fast stop marker carries no identifier. */
  function ParseFieldHeader(p: Protocol, data: seq<byte>, pos: nat): (r: Option<(byte, nat, nat)>)
    ensures r.Some? ==> pos < r.value.2 <= |data| && r.value.1 < U16
  {
    match ReadUInt8(data, pos)
    case None => None
    case Some((raw, next)) =>
      if p == Fast then
        if raw == BT_STOP || raw == BT_STOP_BASE then Some((raw, 0, next))
        else
          match ReadFixed(data, next, 2)
          case None => None
          case Some((id, after)) => Some((raw, id, after))
      else if raw / 32 < 6 then Some((raw % 32, raw / 32, next))
      else if raw / 32 == 6 then
        match ReadUInt8(data, next)
        case None => None
        case Some((id, after)) => Some((raw % 32, id as nat, after))
      else
        match ReadFixed(data, next, 2)
        case None => None
        case Some((id, after)) => Some((raw % 32, id, after))
  }

  /** Element type, count as the unsigned number that was read, next position. */
  function ParseListHeader(p: Protocol, data: seq<byte>, pos: nat): (r: Option<(byte, nat, nat)>)
    ensures r.Some? ==> pos < r.value.2 <= |data|
  {
    match ReadUInt8(data, pos)
    case None => None
    case Some((raw, next)) =>
      var elem: byte := if p == Fast then raw else raw % 32;
      if p == CompactV2 && raw / 32 != 0 then Some((elem, raw / 32 - 1, next))
      else
        match ReadVar(data, next, 4)
        case None => None
        case Some((count, after)) => Some((elem, count, after))
  }

  function ParseMapHeader(data: seq<byte>, pos: nat): (r: Option<(byte, byte, nat, nat)>)
    ensures r.Some? ==> pos < r.value.3 <= |data|
  {
    if pos + 2 > |data| then None
    else
      match ReadVar(data, pos + 2, 4)
      case None => None
      case Some((count, after)) => Some((data[pos], data[pos + 1], count, after))
  }

  function ParseLength(p: Protocol, data: seq<byte>, pos: nat): (r: Option<(nat, nat)>)
    ensures r.Some? ==> pos <= r.value.1
    ensures r.Some? && pos <= |data| ==> r.value.1 <= |data|
  {
    if p == CompactV2 then ReadVar(data, pos, 4) else Some((0, pos))
  }

  function ParseValue(p: Protocol, t: byte, data: seq<byte>, pos: nat): (r: Option<(Value, nat)>)
    ensures r.Some? ==> pos < r.value.1 <= |data| && TypeOf(r.value.0) == t
    decreases if pos < |data| then |data| - pos else 0, 1, 0
  {
    if pos >= |data| then None
    else if Numeric(t) then
      match ParseNum(p, t, data, pos)
      case None => None
      case Some((n, next)) => Some((Num(t, n), next))
    else if Opaque(t) then
      match ParseRaw(t, data, pos)
      case None => None
      case Some((raw, next)) => Some((Raw(t, raw), next))
    else if t == BT_LIST || t == BT_SET then
      match ParseListHeader(p, data, pos)
      case None => None
      case Some((elem, count, start)) =>
        if count > INT_MAX || !DataType(elem) then None else
        match ParseItems(p, elem, count, data, start)
        case None => None
        case Some((items, next)) => Some((List(t, elem, items), next))
    else if t == BT_MAP then
      match ParseMapHeader(data, pos)
      case None => None
      case Some((key, elem, count, start)) =>
        if count > INT_MAX || !DataType(key) || !DataType(elem) then None else
        match ParseEntries(p, key, elem, count, data, start)
        case None => None
        case Some((entries, next)) => Some((Map(key, elem, entries), next))
    else if t == BT_STRUCT then
      match ParseLength(p, data, pos)
      case None => None
      case Some((length, start)) =>
        match ParseBody(p, data, start)
        case None => None
        case Some((body, next)) =>
          if p == CompactV2 && next != start + length then None else Some((Struct(body), next))
    else None
  }

  function ParseItems(p: Protocol, elem: byte, count: nat, data: seq<byte>, pos: nat): (r: Option<(Items, nat)>)
    ensures r.Some? ==> pos <= r.value.1 && (pos <= |data| ==> r.value.1 <= |data|)
    ensures r.Some? ==> Count(r.value.0) == count
    decreases if pos < |data| then |data| - pos else 0, 2, count
  {
    if count == 0 then Some((NoItems, pos))
    else
      match ParseValue(p, elem, data, pos)
      case None => None
      case Some((head, mid)) =>
        match ParseItems(p, elem, count - 1, data, mid)
        case None => None
        case Some((tail, next)) => Some((Item(head, tail), next))
  }

  function ParseEntries(p: Protocol, key: byte, elem: byte, count: nat, data: seq<byte>, pos: nat)
    : (r: Option<(Entries, nat)>)
    ensures r.Some? ==> pos <= r.value.1 && (pos <= |data| ==> r.value.1 <= |data|)
    ensures r.Some? ==> CountEntries(r.value.0) == count
    decreases if pos < |data| then |data| - pos else 0, 2, count
  {
    if count == 0 then Some((NoEntries, pos))
    else
      match ParseValue(p, key, data, pos)
      case None => None
      case Some((k, mid)) =>
        match ParseValue(p, elem, data, mid)
        case None => None
        case Some((v, after)) =>
          match ParseEntries(p, key, elem, count - 1, data, after)
          case None => None
          case Some((rest, next)) => Some((Entry(k, v, rest), next))
  }

  function ParseBody(p: Protocol, data: seq<byte>, pos: nat): (r: Option<(Body, nat)>)
    ensures r.Some? ==> pos < r.value.1 <= |data|
    decreases if pos < |data| then |data| - pos else 0, 0, 1
  {
    match ParseFieldHeader(p, data, pos)
    case None => None
    case Some((t, id, start)) => ParseAfterHeader(p, t, id, data, start)
  }

  /** The rest of a struct once the header of its next field has been read. */
  function ParseAfterHeader(p: Protocol, t: byte, id: nat, data: seq<byte>, pos: nat): (r: Option<(Body, nat)>)
    ensures r.Some? && pos <= |data| ==> pos <= r.value.1 <= |data|
    decreases if pos < |data| then |data| - pos else 0, 2, 0
  {
    if t == BT_STOP then Some((Stop, pos))
    else if t == BT_STOP_BASE then
      match ParseBody(p, data, pos)
      case None => None
      case Some((next, end)) => Some((StopBase(next), end))
    else
      match ParseValue(p, t, data, pos)
      case None => None
      case Some((v, mid)) =>
        match ParseBody(p, data, mid)
        case None => None
        case Some((next, end)) => Some((Field(id, v, next), end))
  }
}
