/** Variable-length reads of the C++ input buffer: an unrolled reader where the longest input fits,
    a byte-by-byte loop near the end of the buffer. */
module InputBuffer {
  import opened Bytes
  import opened Varint
  import opened Input

  function GroupCount(width: nat): nat {
    if width == 2 then 3 else if width == 4 then 5 else 9
  }

  function Decode(width: nat, data: seq<byte>, pos: nat): (nat, nat)
    requires (width == 2 || width == 4 || width == 8) && pos + width * 8 / 7 < |data|
  {
    if width == 2 then Decode16(data, pos) else if width == 4 then Decode32(data, pos) else Decode64(data, pos)
  }

  /** Reads from group `j` on, unrolled in C++. The last group of two and four bytes is shifted
      whole; that of eight bytes carries bit 63 in its flag, and the byte after it is ignored. */
  method ReadUnchecked(data: array<byte>, p: nat, j: nat, low: nat, width: nat, ghost start: nat)
    returns (value: nat, next: nat)
    requires (width == 2 || width == 4 || width == 8) && start + width * 8 / 7 < data.Length
    requires 1 <= j < GroupCount(width) && p == start + j
    requires Continues(data[..], p, GroupCount(width) - j, Groups(data[..], start, GroupCount(width)), low, j)
    ensures (value, next) == Decode(width, data[..], start)
    decreases GroupCount(width) - j
  {
    hide Continues, Groups, Shl7;
    ghost var whole := Groups(data[..], start, GroupCount(width));
    Shl7Values(1);
    if j == GroupCount(width) - 1 {
      if width == 4 {
        value, next := ReadLastGroup32(data, p, low, whole);
        return;
      }
      var raw: nat := data[p];
      value, next := low + Shl7(raw, j), p + 1;
      LastWhole(data[..], p, j, low, whole);
      if width == 2 {
        value := value % U16;
      } else if raw >= 0x80 {
        next := next + 1;
      }
    } else {
      var raw;
      value, raw, next := ReadGroup(data, p, GroupCount(width) - j, low, j, whole);
      if raw >= 0x80 {
        value, next := ReadUnchecked(data, next, j + 1, value, width, start);
      } else {
        Short(data[..], start, width, value, next);
      }
    }
  }

  /** A value that ends before the last group fits its width. */
  lemma Short(data: seq<byte>, start: nat, width: nat, value: nat, next: nat)
    requires (width == 2 || width == 4 || width == 8) && start + width * 8 / 7 < |data|
    requires Groups(data, start, GroupCount(width)) == (value, next) && next < start + GroupCount(width)
    ensures Decode(width, data, start) == (value, next)
  {
    ShortGroups(data, start, GroupCount(width));
    Pow128Values();
  }

  lemma {:induction false} ShortGroups(data: seq<byte>, pos: nat, k: nat)
    requires k >= 1 && pos + k <= |data| && Groups(data, pos, k).1 < pos + k
    ensures Groups(data, pos, k).0 < Pow128(k - 1)
    decreases k
  {
    if data[pos] >= 128 {
      ShortGroups(data, pos + 1, k - 1);
    } else {
      assert k >= 2 && Pow128(k - 1) >= 128;
    }
  }

  /** The loop without a limit on groups. */
  function Unlimited(data: seq<byte>, pos: nat): (r: Option<(nat, nat)>)
    decreases if pos < |data| then |data| - pos else 0
  {
    if pos >= |data| then None
    else if data[pos] < 128 then Some((data[pos] as nat, pos + 1))
    else
      match Unlimited(data, pos + 1)
      case None => None
      case Some((rest, next)) => Some((data[pos] - 128 + 128 * rest, next))
  }

  lemma {:induction false} UnlimitedDecodes(data: seq<byte>, pos: nat, n: nat)
    requires At(data, pos, Encode(n))
    ensures Unlimited(data, pos) == Some((n, pos + |Encode(n)|))
    decreases n
  {
    if n < 128 {
      assert data[pos] == n;
    } else {
      AtByte(data, pos, n % 128 + 128, Encode(n / 128));
      UnlimitedDecodes(data, pos + 1, n / 128);
    }
  }

  /** What has been read so far is `low`; what comes from `pos` on is shifted `j` times. */
  ghost predicate Gathering(whole: Option<(nat, nat)>, data: seq<byte>, pos: nat, low: nat, j: nat) {
    match (whole, Unlimited(data, pos))
    case (Some((v, end)), Some((rest, next))) => v == low + Shl7(rest, j) && end == next
    case (None, None) => true
    case _ => false
  }

  lemma Gather(whole: Option<(nat, nat)>, data: seq<byte>, pos: nat, low: nat, j: nat)
    requires Gathering(whole, data, pos, low, j)
    ensures pos >= |data| ==> whole == None
    ensures pos < |data| && data[pos] < 128 ==> whole == Some((low + Shl7(data[pos] % 128, j), pos + 1))
    ensures pos < |data| && data[pos] >= 128 ==>
              Gathering(whole, data, pos + 1, low + Shl7(data[pos] % 128, j), j + 1)
  {
    hide Shl7;
    if pos < |data| && data[pos] >= 128 {
      match Unlimited(data, pos + 1)
      case None =>
      case Some((rest, _)) => Shl7Split(data[pos] % 128, rest, j);
    }
  }

  class Stream {
    const content: array<byte>
    var pointer: nat

    constructor (bytes: array<byte>)
      ensures content == bytes && pointer == 0
    {
      content, pointer := bytes, 0;
    }

    /** `None` is the exception for reading out of bounds. */
    method Read() returns (r: Option<byte>)
      requires pointer <= content.Length
      modifies this
      ensures r == if old(pointer) < content.Length then Some(content[old(pointer)]) else None
      ensures pointer == if r.Some? then old(pointer) + 1 else old(pointer)
    {
      if pointer == content.Length {
        return None;
      }
      r := Some(content[pointer]);
      pointer := pointer + 1;
    }

    method GenericReadVariableUnsigned(width: nat) returns (r: Option<nat>)
      requires pointer <= content.Length && (width == 2 || width == 4 || width == 8)
      modifies this
      ensures pointer <= content.Length
      ensures match Unlimited(content[..], old(pointer))
              case None => r == None
              case Some((v, next)) => r == Some(v % Modulus(width)) && pointer == next
    {
      hide Shl7, Unlimited, Gathering;
      ghost var start := pointer;
      ghost var whole := Unlimited(content[..], start);
      var value: nat, groups: nat := 0, 0;
      Unshifted(content[..], start);
      while true
        invariant start <= pointer <= content.Length
        invariant Gathering(whole, content[..], pointer, value, groups)
        decreases content.Length - pointer
      {
        Gather(whole, content[..], pointer, value, groups);
        var byte := Read();
        if byte == None {
          return None;
        }
        value := value + Shl7(byte.value % 128, groups);
        groups := groups + 1;
        if byte.value < 0x80 {
          return Some(value % Modulus(width));
        }
      }
    }

    /** Reads what the C# stream reads, on any bytes, so that it undoes writing wherever in the buffer
        the encoding stands; the unrolled reader never looks beyond the end. */
    method ReadVariableUnsigned(width: nat) returns (r: Option<nat>)
      requires pointer <= content.Length && (width == 2 || width == 4 || width == 8)
      modifies this
      ensures pointer <= content.Length
      ensures match ReadVar(content[..], old(pointer), width)
              case None => r == None
              case Some((v, next)) => r == Some(v) && pointer == next
      ensures forall n: nat :: n < Modulus(width) && At(content[..], old(pointer), Encode(n)) ==>
                r == Some(n) && pointer == old(pointer) + |Encode(n)|
    {
      hide Decode, Continues, Groups, Encode, Unlimited, ReadVar;
      ghost var start := pointer;
      Decodes(content[..], start, width);
      SameRead(content[..], start, width);
      if content.Length > pointer + width * 8 / 7 {
        FirstGroup(content[..], start, GroupCount(width));
        var raw: nat := content[pointer];
        if raw >= 0x80 {
          var value, next := ReadUnchecked(content, pointer + 1, 1, raw % 128, width, start);
          r, pointer := Some(value), next;
        } else {
          r, pointer := Some(raw), pointer + 1;
          Short(content[..], start, width, raw, pointer);
        }
        DecodeBound(content[..], start, width);
      } else {
        r := GenericReadVariableUnsigned(width);
      }
    }
  }

  lemma {:induction false} CheckedIsUnlimited(data: seq<byte>, pos: nat, k: nat)
    requires k >= 1 && pos + k > |data|
    ensures Checked(data, pos, k) == Unlimited(data, pos)
    decreases k
  {
    if pos < |data| && data[pos] >= 128 {
      CheckedIsUnlimited(data, pos + 1, k - 1);
    }
  }

  /** The two languages read the same integer and stop at the same byte, on whatever bytes: near the end
      of the buffer, where only C++ sets no limit on the number of groups, the limit is not reached. */
  lemma SameRead(data: seq<byte>, pos: nat, width: nat)
    requires width == 2 || width == 4 || width == 8
    ensures ReadVar(data, pos, width)
         == if pos + width * 8 / 7 < |data| then Some(Decode(width, data, pos))
            else match Unlimited(data, pos)
                 case None => None
                 case Some((v, next)) => Some((v % Modulus(width), next))
  {
    hide Checked, Unlimited;
    if pos + width * 8 / 7 >= |data| {
      CheckedIsUnlimited(data, pos, 10);
    }
  }

  lemma Unshifted(data: seq<byte>, start: nat)
    ensures Gathering(Unlimited(data, start), data, start, 0, 0)
  {
  }

  lemma DecodeBound(data: seq<byte>, pos: nat, width: nat)
    requires (width == 2 || width == 4 || width == 8) && pos + width * 8 / 7 < |data|
    ensures Decode(width, data, pos).1 <= |data|
  {
  }

  lemma Decodes(data: seq<byte>, pos: nat, width: nat)
    requires width == 2 || width == 4 || width == 8
    ensures forall n: nat :: n < Modulus(width) && At(data, pos, Encode(n)) ==>
              && Unlimited(data, pos) == Some((n, pos + |Encode(n)|))
              && (pos + width * 8 / 7 < |data| ==> Decode(width, data, pos) == (n, pos + |Encode(n)|))
  {
    forall n: nat | n < Modulus(width) && At(data, pos, Encode(n))
      ensures Unlimited(data, pos) == Some((n, pos + |Encode(n)|))
      ensures pos + width * 8 / 7 < |data| ==> Decode(width, data, pos) == (n, pos + |Encode(n)|)
    {
      UnlimitedDecodes(data, pos, n);
      if pos + width * 8 / 7 < |data| {
        if width == 2 {
          Decode16RoundTrip(data, pos, n);
        } else if width == 4 {
          Decode32RoundTrip(data, pos, n);
        } else {
          Decode64RoundTrip(data, pos, n);
        }
      }
    }
  }
}
