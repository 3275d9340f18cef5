/** The tagged formats in numbers: which bytes the encoding of a value consists of, without the names that
    encoding goes by elsewhere. */
module Format {
  import opened Bytes
  import opened Varint
  import opened Input
  import opened Wire
  import opened Grammar

  function Power(base: nat, k: nat): (r: nat)
    ensures base > 0 ==> r > 0
  {
    if k == 0 then 1 else base * Power(base, k - 1)
  }

  /** `e` is `n` in `k` bytes, least significant first. */
  ghost predicate Fixed(e: seq<byte>, n: nat, k: nat) {
    |e| == k && n < Power(256, k) && forall i :: 0 <= i < k ==> e[i] == n / Power(256, i) % 256
  }

  /** `e` is `n` in groups of seven bits, least significant first, as few as there can be; all but the last
      are flagged. */
  ghost predicate Grouped(e: seq<byte>, n: nat) {
    && |e| >= 1 && n < Power(128, |e|) && (|e| > 1 ==> Power(128, |e| - 1) <= n)
    && forall i :: 0 <= i < |e| ==> e[i] == n / Power(128, i) % 128 + if i < |e| - 1 then 128 else 0
  }

  lemma TypeNumbers()
    ensures BT_STOP == 0 && BT_STOP_BASE == 1
    ensures BT_BOOL == 2 && BT_UINT8 == 3 && BT_UINT16 == 4 && BT_UINT32 == 5 && BT_UINT64 == 6
    ensures BT_FLOAT == 7 && BT_DOUBLE == 8 && BT_STRING == 9 && BT_STRUCT == 10
    ensures BT_LIST == 11 && BT_SET == 12 && BT_MAP == 13
    ensures BT_INT8 == 14 && BT_INT16 == 15 && BT_INT32 == 16 && BT_INT64 == 17 && BT_WSTRING == 18
  {
  }

  /** The width in bytes of the type with number `t`. */
  function NumberSize(t: byte): nat {
    match t
    case 4 => 2 case 15 => 2
    case 5 => 4 case 16 => 4
    case 6 => 8 case 17 => 8
    case _ => 1
  }

  /** The numbers there are of each type. */
  lemma Numbers(t: byte, n: int)
    ensures Valid(Num(t, n)) <==>
              match t
              case 2 => 0 <= n < 2
              case 3 => 0 <= n < 0x100
              case 4 => 0 <= n < 0x1_0000
              case 5 => 0 <= n < 0x1_0000_0000
              case 6 => 0 <= n < 0x1_0000_0000_0000_0000
              case 14 => -0x80 <= n < 0x80
              case 15 => -0x8000 <= n < 0x8000
              case 16 => -0x8000_0000 <= n < 0x8000_0000
              case 17 => -0x8000_0000_0000_0000 <= n < 0x8000_0000_0000_0000
              case _ => false
  {
  }

  lemma Multiple(a: nat, b: nat, d: nat)
    requires a < b
    ensures (a + 1) * d <= b * d
  {
  }

  lemma Quotient(n: nat, d: nat, q: nat, r: nat)
    requires r < d && n == q * d + r
    ensures n / d == q
  {
    var q' := n / d;
    if q' < q {
      Multiple(q', q, d);
    } else if q' > q {
      Multiple(q, q', d);
    }
  }

  lemma Distribute(q: nat, r: nat, a: nat, b: nat)
    ensures (q * b + r) * a == q * (a * b) + r * a
    ensures a > 0 && b > 0 ==> a * b > 0
    ensures r < b ==> r * a + a <= a * b
  {
    if r < b {
      Multiple(r, b, a);
    }
  }

  lemma DivideTwice(n: nat, a: nat, b: nat)
    requires a > 0 && b > 0
    ensures a * b > 0 && n / a / b == n / (a * b)
  {
    var m, r := n / a, n % a;
    var q', r' := m / b, m % b;
    Distribute(q', r', a, b);
    Quotient(n, a * b, q', r' * a + r);
  }

  lemma {:induction false} FixedBytes(n: nat, k: nat)
    requires n < Power(256, k)
    ensures Fixed(LittleEndian(n, k), n, k)
  {
    if k > 0 {
      var e, rest := LittleEndian(n, k), LittleEndian(n / 256, k - 1);
      FixedBytes(n / 256, k - 1);
      forall i | 0 <= i < k ensures e[i] == n / Power(256, i) % 256 {
        if i > 0 {
          assert e[i] == rest[i - 1];
          DivideTwice(n, 256, Power(256, i - 1));
        }
      }
    }
  }

  lemma Digit(n: nat, i: nat)
    ensures n / 128 / Power(128, i) == n / Power(128, i + 1)
  {
    DivideTwice(n, 128, Power(128, i));
  }

  lemma OneMoreGroup(n: nat, rest: seq<byte>)
    requires n >= 128 && Grouped(rest, n / 128)
    ensures Grouped([n % 128 + 128] + rest, n)
  {
    var e := [n % 128 + 128] + rest;
    var top := Power(128, |rest| - 1);
    assert Power(128, |e|) == 128 * Power(128, |rest|) && Power(128, |e| - 1) == 128 * top;
    assert top <= n / 128 by { assert Power(128, 0) == 1; }
    forall i | 0 <= i < |e| ensures e[i] == n / Power(128, i) % 128 + if i < |e| - 1 then 128 else 0 {
      if i == 0 {
        assert Power(128, 0) == 1;
      } else {
        Digit(n, i - 1);
        assert e[i] == rest[i - 1] == n / 128 / Power(128, i - 1) % 128 + if i < |e| - 1 then 128 else 0;
      }
    }
  }

  /** Variable-length integers. */
  lemma {:induction false} GroupedBytes(n: nat)
    ensures Grouped(Encode(n), n)
  {
    if n < 128 {
      assert Power(128, 1) == 128 * Power(128, 0) == 128;
    } else {
      hide Grouped;
      GroupedBytes(n / 128);
      OneMoreGroup(n, Encode(n / 128));
    }
  }

  // -------------------------------------------------------------------- values

  lemma Widths(t: byte)
    ensures Numeric(t) ==> Size(t) == NumberSize(t) && Modulus(Size(t)) == Power(256, NumberSize(t))
    ensures Power(256, 1) == 0x100
  {
    assert Power(256, 1) == 0x100 && Power(256, 2) == 0x1_0000 && Power(256, 3) == 0x100_0000;
    assert Power(256, 4) == 0x1_0000_0000 && Power(256, 5) == 0x100_0000_0000;
    assert Power(256, 6) == 0x1_0000_0000_0000 && Power(256, 8) == 0x1_0000_0000_0000_0000;
  }

  /** The pattern of a number in its own width. */
  lemma Pattern(t: byte, n: int)
    requires Valid(Num(t, n))
    ensures var m := Power(256, NumberSize(t));
            && 0 <= (if n < 0 then n + m else n) < m && Unsigned(n, m) == if n < 0 then n + m else n
    ensures t >= 14 ==> -(Modulus(Size(t)) as int) <= 2 * n < Modulus(Size(t))
    ensures t < 14 ==> n >= 0
  {
    hide Power;
    Widths(t);
    WrapOnce(n, Modulus(Size(t)));
  }

  /** Numbers: little-endian in Fast and where one byte is enough; else variable, zigzag if signed. */
  lemma NumberBytes(p: Protocol, t: byte, n: int)
    requires Valid(Num(t, n))
    ensures var e, k := EncodeValue(p, Num(t, n)), NumberSize(t);
            && (p == Fast || k == 1 ==> Fixed(e, if n < 0 then n + Power(256, k) else n, k))
            && (p != Fast && k > 1 ==> Grouped(e, if t < 14 then n else if n < 0 then -2 * n - 1 else 2 * n))
  {
    hide Fixed, Grouped, Power, Unsigned, Modulus, NumberSize, EncodeZigzag, InRange, LittleEndian, Encode;
    Widths(t);
    Pattern(t, n);
    if p == Fast || NumberSize(t) == 1 {
      var u := if n < 0 then n + Power(256, NumberSize(t)) else n;
      FixedBytes(u, NumberSize(t));
      OneByte(u);
    } else if t < 14 {
      GroupedBytes(n);
    } else {
      ZigzagRoundTrip(n, Modulus(Size(t)));
      GroupedBytes(if n < 0 then -2 * n - 1 else 2 * n);
    }
  }

  lemma OneByte(u: nat)
    ensures u < 256 ==> LittleEndian(u, 1) == [u]
  {
    assert LittleEndian(u, 1) == [u % 256] + LittleEndian(u / 256, 0) == [u % 256];
  }

  /** Floats are their bytes as they are; strings have the number of their code units before them. */
  lemma TextBytes(p: Protocol, t: byte, raw: seq<byte>)
    ensures Valid(Raw(t, raw)) <==>
              match t
              case 7 => |raw| == 4
              case 8 => |raw| == 8
              case 9 => |raw| < 0x8000_0000
              case 18 => |raw| % 2 == 0 && |raw| < 0x8000_0000
              case _ => false
    ensures Valid(Raw(t, raw)) ==>
              EncodeValue(p, Raw(t, raw))
              == (if t == 9 then Encode(|raw|) else if t == 18 then Encode(|raw| / 2) else []) + raw
  {
    assert [] + raw == raw;
  }

  /** Lists and sets: the type of the items, their number, the items. Version 2 has a number below seven in
      the upper bits of the type. */
  lemma ListBytes(p: Protocol, v: Value)
    requires v.List? && Valid(v)
    ensures v.t == 11 || v.t == 12
    ensures var n := Count(v.items);
            EncodeValue(p, v)
            == (if p == CompactV2 && n < 7 then [v.elem + 32 * (n + 1)] else [v.elem] + Encode(n))
               + EncodeItems(p, v.elem, v.items)
    ensures v.items.Item? ==>
              EncodeItems(p, v.elem, v.items)
              == EncodeValue(p, v.items.head) + EncodeItems(p, v.elem, v.items.tail)
              && TypeOf(v.items.head) == v.elem
    ensures v.items == NoItems ==> EncodeItems(p, v.elem, v.items) == []
  {
  }

  /** Maps: the type of the keys, that of the values, their number, keys and values in turn. */
  lemma MapBytes(p: Protocol, v: Value)
    requires v.Map? && Valid(v)
    ensures EncodeValue(p, v)
         == [v.key, v.elem] + Encode(CountEntries(v.entries)) + EncodeEntries(p, v.key, v.elem, v.entries)
    ensures v.entries.Entry? ==>
              EncodeEntries(p, v.key, v.elem, v.entries)
              == EncodeValue(p, v.entries.key) + EncodeValue(p, v.entries.value)
                 + EncodeEntries(p, v.key, v.elem, v.entries.rest)
              && TypeOf(v.entries.key) == v.key && TypeOf(v.entries.value) == v.elem
    ensures v.entries == NoEntries ==> EncodeEntries(p, v.key, v.elem, v.entries) == []
  {
    var e := EncodeEntries(p, v.key, v.elem, v.entries);
    if v.entries.Entry? {
      var a, b := EncodeValue(p, v.entries.key), EncodeValue(p, v.entries.value);
      var rest := EncodeEntries(p, v.key, v.elem, v.entries.rest);
      assert a + (b + rest) == a + b + rest;
    }
  }

  /** Structs: in version 2 the length of what follows, then the levels, root-most first. */
  lemma StructBytes(p: Protocol, body: Body)
    requires ValidBody(body)
    ensures EncodeValue(p, Struct(body))
         == (if p == CompactV2 then Encode(|EncodeBody(p, body)|) else []) + EncodeBody(p, body)
    ensures body == Stop ==> EncodeBody(p, body) == [0]
    ensures body.StopBase? ==> EncodeBody(p, body) == [1] + EncodeBody(p, body.next)
  {
  }

  /** A field: type and identifier, three bytes in Fast and one to three in Compact, then the value. */
  lemma FieldBytes(p: Protocol, id: nat, v: Value, next: Body)
    requires ValidBody(Field(id, v, next))
    ensures var t := TypeOf(v);
            2 <= t <= 18
            && EncodeBody(p, Field(id, v, next))
               == (match p
                   case Fast => [t, id % 256, id / 256]
                   case _ =>
                     if id <= 5 then [t + 32 * id]
                     else if id < 256 then [t + 192, id]
                     else [t + 224, id % 256, id / 256])
                  + EncodeValue(p, v) + EncodeBody(p, next)
  {
    var h, a, b := EncodeFieldHeader(p, TypeOf(v), id), EncodeValue(p, v), EncodeBody(p, next);
    TwoBytes(id);
    assert h + (a + b) == h + a + b;
  }

  lemma TwoBytes(n: nat)
    requires n < U16
    ensures LittleEndian(n, 2) == [n % 256, n / 256]
  {
    OneByte(n / 256);
    assert LittleEndian(n, 2) == [n % 256] + LittleEndian(n / 256, 1);
  }

  lemma SampleNumber(p: Protocol)
    ensures Valid(Num(15, -2)) && EncodeValue(p, Num(15, -2)) == if p == Fast then [254, 255] else [3]
  {
    NumberBytes(p, 15, -2);
    assert Power(256, 2) == 0x1_0000 && Power(256, 1) == 256 && Power(256, 0) == 1;
    assert EncodeValue(p, Num(15, -2)) == EncodeNum(p, 15, -2);
    TwoBytes(0xFFFE);
    assert Encode(3) == [3];
  }

  lemma SampleList(p: Protocol)
    ensures Valid(List(11, 16, NoItems))
    ensures EncodeValue(p, List(11, 16, NoItems)) == if p == CompactV2 then [48] else [16, 0]
  {
    ListBytes(p, List(11, 16, NoItems));
    assert Encode(0) == [0];
  }

  lemma SampleLevel(p: Protocol)
    ensures var level := Field(300, Num(15, -2), Stop);
            && ValidBody(StopBase(level))
            && EncodeBody(p, StopBase(level))
               == if p == Fast then [1, 15, 44, 1, 254, 255, 0] else [1, 239, 44, 1, 3, 0]
  {
    hide EncodeBody, EncodeValue, Valid;
    SampleNumber(p);
    var level := Field(300, Num(15, -2), Stop);
    assert ValidBody(level);
    FieldBytes(p, 300, Num(15, -2), Stop);
    StructBytes(p, Stop);
    StructBytes(p, StopBase(level));
  }

  /** An empty list of int32, a field of identifier 300 and a base, in all protocols. */
  lemma Sample(p: Protocol)
    ensures var body := Field(0, List(11, 16, NoItems), StopBase(Field(300, Num(15, -2), Stop)));
            && ValidBody(body)
            && EncodeValue(p, Struct(body))
               == match p
                  case Fast => [11, 0, 0, 16, 0, 1, 15, 44, 1, 254, 255, 0]
                  case CompactV1 => [11, 16, 0, 1, 239, 44, 1, 3, 0]
                  case CompactV2 => [8, 11, 48, 1, 239, 44, 1, 3, 0]
  {
    hide EncodeBody, EncodeValue, Valid;
    SampleList(p);
    SampleLevel(p);
    var list, rest := List(11, 16, NoItems), StopBase(Field(300, Num(15, -2), Stop));
    var body := Field(0, list, rest);
    assert ValidBody(body);
    FieldBytes(p, 0, list, rest);
    StructBytes(p, body);
    assert Encode(8) == [8];
  }

  // ------------------------------------------------------- any bytes, written or not

  /** The `m` groups of seven bits from `pos` on, flags left off. */
  function Weighed(data: seq<byte>, pos: nat, m: nat): nat
    requires pos + m <= |data|
  {
    if m == 0 then 0 else Weighed(data, pos, m - 1) + data[pos + m - 1] % 128 * Power(128, m - 1)
  }

  lemma {:induction false} WeighedFirst(data: seq<byte>, pos: nat, m: nat)
    requires pos + m + 1 <= |data|
    ensures Weighed(data, pos, m + 1) == data[pos] % 128 + 128 * Weighed(data, pos + 1, m)
  {
    if m == 0 {
      assert Power(128, 0) == 1 && Weighed(data, pos, 1) == Weighed(data, pos, 0) + data[pos] % 128 * 1;
    } else {
      WeighedFirst(data, pos, m - 1);
      var b := data[pos + m] % 128;
      assert b * Power(128, m) == 128 * (b * Power(128, m - 1));
    }
  }

  /** The decoders read up to the first byte without a flag, or the `k`th, which counts whole. */
  lemma {:induction false} GroupsRead(data: seq<byte>, pos: nat, k: nat)
    requires k >= 1 && pos + k <= |data|
    ensures var g := Groups(data, pos, k);
            var last := g.1 - 1;
            && pos <= last < pos + k && (forall i :: pos <= i < last ==> data[i] >= 128)
            && (data[last] < 128 || last == pos + k - 1)
            && g.0 == Weighed(data, pos, last - pos) + data[last] * Power(128, last - pos)
    decreases k
  {
    hide Power, Weighed;
    NothingWeighed(data, pos);
    if data[pos] >= 128 && k > 1 {
      GroupsRead(data, pos + 1, k - 1);
      var last := Groups(data, pos + 1, k - 1).1 - 1;
      WeighedFirst(data, pos, last - pos - 1);
      Shifted(data[last], last - pos - 1);
    } else {
      assert data[pos] * Power(128, 0) == data[pos];
    }
  }

  lemma NothingWeighed(data: seq<byte>, pos: nat)
    requires pos <= |data|
    ensures Power(128, 0) == 1 && Weighed(data, pos, 0) == 0
  {
  }

  lemma Shifted(b: nat, k: nat)
    ensures 128 * (b * Power(128, k)) == b * Power(128, k + 1)
  {
  }

  /** Values are cut to their width; of ten bytes the ninth has bit 63 in its flag and the tenth is ignored. */
  lemma WidthsRead(data: seq<byte>, pos: nat)
    ensures pos + 3 <= |data| ==> var g := Groups(data, pos, 3); Decode16(data, pos) == (g.0 % 0x1_0000, g.1)
    ensures pos + 5 <= |data| ==> var g := Groups(data, pos, 5); Decode32(data, pos) == (g.0 % 0x1_0000_0000, g.1)
    ensures pos + 10 <= |data| ==>
              var g := Groups(data, pos, 9);
              && g.0 < 0x1_0000_0000_0000_0000
              && Decode64(data, pos) == (g.0, if g.1 == pos + 9 && data[pos + 8] >= 128 then pos + 10 else g.1)
  {
    if pos + 10 <= |data| {
      GroupsBound(data, pos, 9);
      Pow128Values();
    }
  }

  /** All forms of a header are read for any identifier they can hold; a stop marker has none in Fast. */
  lemma HeadersRead(p: Protocol, data: seq<byte>, pos: nat)
    requires pos + 3 <= |data|
    ensures var a, b, c := data[pos], data[pos + 1], data[pos + 2];
            ParseFieldHeader(p, data, pos)
            == Some(if p == Fast then if a < 2 then (a, 0, pos + 1) else (a, b as nat + 256 * c as nat, pos + 3)
                    else if a < 192 then (a % 32, a / 32, pos + 1)
                    else if a < 224 then (a % 32, b as nat, pos + 2)
                    else (a % 32, b as nat + 256 * c as nat, pos + 3))
  {
    assert FromLittleEndian(data, pos + 1, 2) == data[pos + 1] + 256 * FromLittleEndian(data, pos + 2, 1);
    assert FromLittleEndian(data, pos + 2, 1) == data[pos + 2] + 256 * FromLittleEndian(data, pos + 3, 0);
  }
}
