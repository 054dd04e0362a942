/** The Protocol Buffers wire format as examples/unity/protocol.go writes and reads it. */
module UnityWire {
  import opened Binary

  datatype WireError =
    | VarintIncomplete
    | VarintOverflow
    | VarintTooLong
    | BadFieldNumber
    | Fixed64Incomplete
    | BytesIncomplete
    | Fixed32Incomplete
    | UnsupportedWireType
    | BadWireType

  datatype Reading<T> = Read(value: T, used: nat) | Malformed(error: WireError)

  // Base 128 varints

  function Varint(value: nat): seq<byte> {
    if value < 0x80 then [value] else [value % 0x80 + 0x80] + Varint(value / 0x80)
  }

  /** appendVarintValue; the low seven bits with the continuation bit are value % 128 + 128. */
  method AppendVarintValue(data: seq<byte>, value: uint64) returns (out: seq<byte>)
    ensures out == data + Varint(value)
  {
    out := data;
    var v: nat := value;
    while v >= 0x80
      invariant out + Varint(v) == data + Varint(value)
    {
      out := out + [v % 0x80 + 0x80];
      v := v / 0x80;
    }
    out := out + [v];
  }

  /** The number that a little-endian sequence of seven-bit groups stands for. */
  function GroupsValue(groups: seq<byte>): nat {
    if groups == [] then 0 else groups[0] % 0x80 + 0x80 * GroupsValue(groups[1..])
  }

  /** One to ten bytes, all but the last with the continuation bit, and below 2^64. */
  predicate IsVarint(groups: seq<byte>) {
    && 1 <= |groups| <= 10
    && (forall i :: 0 <= i < |groups| - 1 ==> groups[i] >= 0x80)
    && groups[|groups| - 1] < 0x80
    && (|groups| == 10 ==> groups[9] <= 1)
  }

  /** Reading from group number `index` on. */
  function ReadGroups(s: seq<byte>, index: nat): Reading<nat>
    decreases |s|
  {
    if index >= 10 then Malformed(VarintTooLong)
    else if s == [] then Malformed(VarintIncomplete)
    else if index == 9 && s[0] > 1 then Malformed(VarintOverflow)
    else if s[0] < 0x80 then Read(s[0], 1)
    else
      match ReadGroups(s[1..], index + 1)
      case Malformed(e) => Malformed(e)
      case Read(v, used) => Read(s[0] % 0x80 + 0x80 * v, used + 1)
  }

  function ReadVarint(s: seq<byte>): Reading<nat> { ReadGroups(s, 0) }

  /** What is left of 2^64 after `index` groups. */
  function Room(index: nat): nat
    decreases 9 - index
  {
    if index >= 9 then 2 else 0x80 * Room(index + 1)
  }

  lemma {:induction false} ReadGroupsBounds(s: seq<byte>, index: nat)
    requires index <= 9
    ensures var r := ReadGroups(s, index);
            && r != Malformed(VarintTooLong)
            && (r.Read? ==> 0 < r.used <= |s| && r.used <= 10 - index && r.value < Room(index))
    decreases |s|
  {
    if s != [] && s[0] >= 0x80 && index < 9 {
      ReadGroupsBounds(s[1..], index + 1);
    } else if index < 9 {
      RoomAtLeast(index);
    }
  }

  lemma {:induction false} RoomAtLeast(index: nat)
    requires index < 9
    ensures Room(index) >= 0x80
    decreases 9 - index
  {
    if index < 8 {
      RoomAtLeast(index + 1);
    }
  }

  lemma RoomAll()
    ensures Room(0) == TWO64
  {
    assert Room(9) == 2;
    assert Room(8) == 0x100;
    assert Room(7) == 0x8000;
    assert Room(6) == 0x40_0000;
    assert Room(5) == 0x2000_0000;
    assert Room(4) == 0x10_0000_0000;
    assert Room(3) == 0x800_0000_0000;
    assert Room(2) == 0x4_0000_0000_0000;
    assert Room(1) == 0x200_0000_0000_0000;
  }

  /** Every accepted varint has the value of its groups, below 2^64, in at most ten bytes; the
      "too long" result is never reached. */
  lemma VarintMeaning(s: seq<byte>)
    ensures var r := ReadVarint(s);
            && r != Malformed(VarintTooLong)
            && (r.Read? ==> 0 < r.used <= |s| && r.used <= 10 && IsVarint(s[..r.used])
                            && r.value == GroupsValue(s[..r.used]) && r.value < TWO64)
  {
    ReadGroupsBounds(s, 0);
    RoomAll();
    if ReadVarint(s).Read? {
      ReadGroupsMeaning(s, 0);
    }
  }

  lemma {:induction false} ReadGroupsMeaning(s: seq<byte>, index: nat)
    requires ReadGroups(s, index).Read?
    ensures var r := ReadGroups(s, index);
            && 0 < r.used <= |s| && index + r.used <= 10
            && (forall i :: 0 <= i < r.used - 1 ==> s[i] >= 0x80) && s[r.used - 1] < 0x80
            && (index + r.used == 10 ==> s[r.used - 1] <= 1)
            && r.value == GroupsValue(s[..r.used])
    decreases |s|
  {
    var r := ReadGroups(s, index);
    if s[0] < 0x80 {
      assert s[..1][1..] == [];
    } else {
      ReadGroupsMeaning(s[1..], index + 1);
      assert s[..r.used][1..] == s[1..][..r.used - 1];
    }
  }

  /** Conversely a well-formed varint is accepted, whatever follows it. */
  lemma VarintAccepted(groups: seq<byte>, rest: seq<byte>)
    requires IsVarint(groups)
    ensures ReadVarint(groups + rest) == Read(GroupsValue(groups), |groups|)
  {
    GroupsAccepted(groups, rest, 0);
  }

  lemma {:induction false} GroupsAccepted(groups: seq<byte>, rest: seq<byte>, index: nat)
    requires 1 <= |groups| && index + |groups| <= 10
    requires forall i :: 0 <= i < |groups| - 1 ==> groups[i] >= 0x80
    requires groups[|groups| - 1] < 0x80 && (index + |groups| == 10 ==> groups[|groups| - 1] <= 1)
    ensures ReadGroups(groups + rest, index) == Read(GroupsValue(groups), |groups|)
    decreases |groups|
  {
    if |groups| > 1 {
      GroupsAccepted(groups[1..], rest, index + 1);
      assert (groups + rest)[1..] == groups[1..] + rest;
    } else {
      assert groups[1..] == [];
    }
  }

  /** What was written is read back. */
  lemma VarintRoundTrip(value: uint64, rest: seq<byte>)
    ensures ReadVarint(Varint(value) + rest) == Read(value, |Varint(value)|)
  {
    RoomAll();
    GroupsRoundTrip(value, 0, rest);
  }

  lemma {:induction false} GroupsRoundTrip(value: nat, index: nat, rest: seq<byte>)
    requires index <= 9 && value < Room(index)
    ensures ReadGroups(Varint(value) + rest, index) == Read(value, |Varint(value)|)
    decreases value
  {
    if value >= 0x80 {
      GroupsRoundTrip(value / 0x80, index + 1, rest);
      assert (Varint(value) + rest)[1..] == Varint(value / 0x80) + rest;
    }
  }

  /** readUnityVarint: the loop over at most ten bytes from an offset. The position it returns is in
      bounds, and the statement after the loop cannot be reached. */
  method ReadUnityVarint(data: seq<byte>, offset: nat) returns (r: Reading<nat>, next: nat)
    requires offset <= |data|
    ensures r == ReadVarint(data[offset..])
    ensures offset <= next <= |data|
    ensures r.Read? ==> next == offset + r.used > offset && r.value < TWO64
  {
    VarintMeaning(data[offset..]);
    var value: nat, scale: nat, index := 0, 1, 0;
    next := offset;
    while index < 10
      invariant 0 <= index <= 10 && next == offset + index <= |data|
      invariant ReadVarint(data[offset..]) == Shift(ReadGroups(data[next..], index), value, scale, index)
    {
      if next >= |data| {
        return Malformed(VarintIncomplete), next;
      }
      var current := data[next];
      next := next + 1;
      assert data[next - 1..][1..] == data[next..];
      if index == 9 && current > 1 {
        return Malformed(VarintOverflow), next;
      }
      if current < 0x80 {
        return Read(value + scale * current, index + 1), next;
      }
      ShiftStep(data[next - 1..], index, value, scale);
      value, scale := value + scale * (current % 0x80), scale * 0x80;
      index := index + 1;
    }
    // the loop ends only by returning: a tenth byte above 1 overflows, one below stops the varint
    assert false;
    r := Malformed(VarintTooLong);
  }

  /** The result of the groups from `index` on, seen from the start of the varint. */
  function Shift(r: Reading<nat>, value: nat, scale: nat, index: nat): Reading<nat> {
    match r case Malformed(e) => Malformed(e) case Read(v, used) => Read(value + scale * v, index + used)
  }

  lemma ShiftStep(s: seq<byte>, index: nat, value: nat, scale: nat)
    requires index < 10 && s != [] && !(index == 9 && s[0] > 1) && s[0] >= 0x80
    ensures Shift(ReadGroups(s, index), value, scale, index)
         == Shift(ReadGroups(s[1..], index + 1), value + scale * (s[0] % 0x80), scale * 0x80, index + 1)
  {
    var r := ReadGroups(s[1..], index + 1);
    if r.Read? {
      var g := s[0] % 0x80;
      assert scale * (g + 0x80 * r.value) == scale * g + scale * 0x80 * r.value;
    }
  }
}
