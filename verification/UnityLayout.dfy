/** The layout of the messages on the wire: which field numbers and wire types a generic Protocol Buffers reader finds
    in what is written, and with which values. */
module UnityLayout {
  import opened Options
  import opened Binary
  import opened UnityWire
  import opened UnityFields
  import opened UnityMessages
  import W = UnityWorld
  import V = Visibility

  /** A signed number is its 64-bit two's complement. */
  function Signed(num: nat, n: int32): Field { Field(num, 0, [], (n + TWO64) % TWO64) }

  function Unsigned(num: nat, n: uint32): Field { Field(num, 0, [], n) }

  function Bits(num: nat, bits: uint32): Field { Field(num, 5, PutU32(bits), 0) }

  function Bytes(num: nat, value: seq<byte>): Field { Field(num, 2, value, 0) }

  function Text(num: nat, text: UnityMessages.Text): seq<Field> { if text == [] then [] else [Bytes(num, text)] }

  /** These fields are what is written, in this order, and nothing else. */
  predicate Reads(data: seq<byte>, fields: seq<Field>) { ParseFields(data) == (fields, None) }

  lemma ExtendIs(n: int32)
    ensures Extend(n) == (n + TWO64) % TWO64
  {
  }

  lemma ReadsNothing()
    ensures Reads([], [])
  {
  }

  lemma ReadsFirst(field: seq<byte>, f: Field, rest: seq<byte>, fields: seq<Field>)
    requires ReadField(field + rest) == Read(f, |field|) && |field| > 0 && Reads(rest, fields)
    ensures Reads(field + rest, [f] + fields)
  {
    hide ReadField;
    assert (field + rest)[|field|..] == rest;
  }

  lemma ReadsSigned(num: nat, n: int32, rest: seq<byte>, fields: seq<Field>)
    requires 1 <= num <= 15 && Reads(rest, fields)
    ensures Reads(VarintField(num, Extend(n)) + rest, [Signed(num, n)] + fields)
  {
    hide ReadField, Reads;
    ExtendIs(n);
    ReadVarintField(num, Extend(n), rest);
    ReadsFirst(VarintField(num, Extend(n)), Signed(num, n), rest, fields);
  }

  lemma ReadsUnsigned(num: nat, n: uint32, rest: seq<byte>, fields: seq<Field>)
    requires 1 <= num <= 15 && Reads(rest, fields)
    ensures Reads(VarintField(num, n) + rest, [Unsigned(num, n)] + fields)
  {
    hide ReadField, Reads;
    ReadVarintField(num, n, rest);
    ReadsFirst(VarintField(num, n), Unsigned(num, n), rest, fields);
  }

  lemma ReadsBits(num: nat, bits: uint32, rest: seq<byte>, fields: seq<Field>)
    requires 1 <= num <= 15 && Reads(rest, fields)
    ensures Reads(Fixed32Field(num, bits) + rest, [Bits(num, bits)] + fields)
  {
    hide ReadField, Reads;
    ReadFixed32Field(num, bits, rest);
    ReadsFirst(Fixed32Field(num, bits), Bits(num, bits), rest, fields);
  }

  lemma ReadsBytes(num: nat, value: seq<byte>, rest: seq<byte>, fields: seq<Field>)
    requires 1 <= num <= 15 && |value| < TWO64 && Reads(rest, fields)
    ensures Reads(BytesField(num, value) + rest, [Bytes(num, value)] + fields)
  {
    hide ReadField, Reads;
    ReadBytesField(num, value, rest);
    ReadsFirst(BytesField(num, value), Bytes(num, value), rest, fields);
  }

  lemma ReadsText(num: nat, text: UnityMessages.Text, rest: seq<byte>, fields: seq<Field>)
    requires 1 <= num <= 15 && InMemory(text) && Reads(rest, fields)
    ensures Reads(OptionalText(num, text) + rest, Text(num, text) + fields)
  {
    hide Reads;
    if text == [] {
      assert OptionalText(num, text) + rest == rest && Text(num, text) + fields == fields;
    } else {
      ReadsBytes(num, text, rest, fields);
    }
  }

  // The messages

  lemma PositionLayout(p: Position)
    ensures Reads(MarshalPosition(p), [Bits(1, p.x), Bits(2, p.y), Bits(3, p.z), Bits(4, p.v)])
  {
    hide Reads, Fixed32Field, Bits;
    var b, c, d := Fixed32Field(2, p.y), Fixed32Field(3, p.z), Fixed32Field(4, p.v);
    ReadsNothing();
    ReadsBits(4, p.v, [], []);
    ReadsBits(3, p.z, d + [], [Bits(4, p.v)] + []);
    ReadsBits(2, p.y, c + (d + []), [Bits(3, p.z)] + ([Bits(4, p.v)] + []));
    ReadsBits(1, p.x, b + (c + (d + [])), [Bits(2, p.y)] + ([Bits(3, p.z)] + ([Bits(4, p.v)] + [])));
    assert MarshalPosition(p) == Fixed32Field(1, p.x) + (b + (c + (d + [])));
    assert [Bits(1, p.x)] + ([Bits(2, p.y)] + ([Bits(3, p.z)] + ([Bits(4, p.v)] + [])))
        == [Bits(1, p.x), Bits(2, p.y), Bits(3, p.z), Bits(4, p.v)];
  }

  lemma SyncPidLayout(m: SyncPid)
    ensures Reads(MarshalSyncPid(m), [Signed(1, m.pid)])
  {
    hide Reads, VarintField, Signed;
    ReadsNothing();
    ReadsSigned(1, m.pid, [], []);
    assert VarintField(1, Extend(m.pid)) + [] == VarintField(1, Extend(m.pid));
    assert [Signed(1, m.pid)] + [] == [Signed(1, m.pid)];
  }

  lemma PlayerLayout(m: Player)
    ensures Reads(MarshalPlayer(m), [Signed(1, m.pid), Bytes(2, MarshalPosition(m.p))])
  {
    hide Reads, VarintField, BytesField, Signed, Bytes, MarshalPosition;
    PlayerSize(m);
    ReadsNothing();
    ReadsBytes(2, MarshalPosition(m.p), [], []);
    ReadsSigned(1, m.pid, BytesField(2, MarshalPosition(m.p)) + [], [Bytes(2, MarshalPosition(m.p))] + []);
    assert MarshalPlayer(m) == VarintField(1, Extend(m.pid)) + (BytesField(2, MarshalPosition(m.p)) + []);
    assert [Signed(1, m.pid)] + ([Bytes(2, MarshalPosition(m.p))] + [])
        == [Signed(1, m.pid), Bytes(2, MarshalPosition(m.p))];
  }

  function PlayerFields(players: seq<Player>): seq<Field> {
    if players == [] then [] else [Bytes(1, MarshalPlayer(players[0]))] + PlayerFields(players[1..])
  }

  lemma {:induction false} PlayersLayout(players: seq<Player>)
    ensures Reads(MarshalPlayers(players), PlayerFields(players))
  {
    hide Reads, BytesField, Bytes, MarshalPlayer;
    if players == [] {
      ReadsNothing();
    } else {
      PlayersLayout(players[1..]);
      PlayerSize(players[0]);
      ReadsBytes(1, MarshalPlayer(players[0]), MarshalPlayers(players[1..]), PlayerFields(players[1..]));
    }
  }

  lemma MovePackageLayout(m: MovePackage)
    ensures Reads(MarshalMovePackage(m), [Bytes(1, MarshalPosition(m.p)), Signed(2, m.actionData)])
  {
    hide Reads, VarintField, BytesField, Signed, Bytes, MarshalPosition;
    PlayerSize(Player(0, m.p));
    var b := VarintField(2, Extend(m.actionData));
    ReadsNothing();
    ReadsSigned(2, m.actionData, [], []);
    ReadsBytes(1, MarshalPosition(m.p), b + [], [Signed(2, m.actionData)] + []);
    assert MarshalMovePackage(m) == BytesField(1, MarshalPosition(m.p)) + (b + []);
    assert [Bytes(1, MarshalPosition(m.p))] + ([Signed(2, m.actionData)] + [])
        == [Bytes(1, MarshalPosition(m.p)), Signed(2, m.actionData)];
  }

  lemma TalkLayout(m: Talk)
    requires InMemory(m.content)
    ensures Reads(MarshalTalk(m), [Bytes(1, m.content)])
  {
    hide Reads, BytesField, Bytes;
    ReadsNothing();
    ReadsBytes(1, m.content, [], []);
    assert BytesField(1, m.content) + [] == BytesField(1, m.content);
    assert [Bytes(1, m.content)] + [] == [Bytes(1, m.content)];
  }

  /** Player 1, type 2, text 3, position 4 and action 5; an empty text, a missing position and action 0 are left out. */
  lemma BroadCastLayout(m: BroadCast)
    requires InMemory(m.content)
    ensures Reads(MarshalBroadCast(m),
                  [Signed(1, m.pid)] + ([Signed(2, m.tp)] + (Text(3, m.content)
                  + ((if m.p.Some? then [Bytes(4, MarshalPosition(m.p.value))] else [])
                  + (if m.actionData != 0 then [Signed(5, m.actionData)] else [])))))
  {
    hide Reads, VarintField, BytesField, OptionalText, Signed, Bytes, Text, MarshalPosition;
    var e := if m.actionData != 0 then VarintField(5, Extend(m.actionData)) else [];
    var e' := if m.actionData != 0 then [Signed(5, m.actionData)] else [];
    ReadsNothing();
    if m.actionData != 0 {
      ReadsSigned(5, m.actionData, [], []);
      assert e + [] == e && e' + [] == e';
    }
    var d := if m.p.Some? then BytesField(4, MarshalPosition(m.p.value)) else [];
    var d' := if m.p.Some? then [Bytes(4, MarshalPosition(m.p.value))] else [];
    if m.p.Some? {
      PlayerSize(Player(0, m.p.value));
      ReadsBytes(4, MarshalPosition(m.p.value), e, e');
    } else {
      assert d + e == e && d' + e' == e';
    }
    ReadsText(3, m.content, d + e, d' + e');
    ReadsSigned(2, m.tp, OptionalText(3, m.content) + (d + e), Text(3, m.content) + (d' + e'));
    ReadsSigned(1, m.pid, VarintField(2, Extend(m.tp)) + (OptionalText(3, m.content) + (d + e)),
                [Signed(2, m.tp)] + (Text(3, m.content) + (d' + e')));
  }

  lemma RoomRequestLayout(m: RoomRequest)
    ensures Reads(MarshalRoomRequest(m), [Unsigned(1, m.roomId)])
  {
    hide Reads, VarintField, Unsigned;
    ReadsNothing();
    ReadsUnsigned(1, m.roomId, [], []);
    assert VarintField(1, m.roomId) + [] == VarintField(1, m.roomId);
    assert [Unsigned(1, m.roomId)] + [] == [Unsigned(1, m.roomId)];
  }

  lemma RoomResponseLayout(m: RoomResponse)
    requires InMemory(m.message)
    ensures Reads(MarshalRoomResponse(m),
                  [Unsigned(1, m.roomId)] + ([Signed(2, m.code)] + (Text(3, m.message) + [Unsigned(4, m.playerCount)])))
  {
    hide Reads, VarintField, OptionalText, Signed, Unsigned, Text;
    var d, d' := VarintField(4, m.playerCount), [Unsigned(4, m.playerCount)];
    ReadsNothing();
    ReadsUnsigned(4, m.playerCount, [], []);
    assert d + [] == d && d' + [] == d';
    ReadsText(3, m.message, d, d');
    ReadsSigned(2, m.code, OptionalText(3, m.message) + d, Text(3, m.message) + d');
    ReadsUnsigned(1, m.roomId, VarintField(2, Extend(m.code)) + (OptionalText(3, m.message) + d),
                  [Signed(2, m.code)] + (Text(3, m.message) + d'));
  }

  lemma RoomEventLayout(m: RoomEvent)
    requires InMemory(m.content)
    ensures Reads(MarshalRoomEvent(m),
                  [Unsigned(1, m.roomId)] + ([Signed(2, m.playerId)] + Text(3, m.content)))
  {
    hide Reads, VarintField, OptionalText, Signed, Unsigned, Text;
    ReadsNothing();
    ReadsText(3, m.content, [], []);
    assert OptionalText(3, m.content) + [] == OptionalText(3, m.content);
    assert Text(3, m.content) + [] == Text(3, m.content);
    ReadsSigned(2, m.playerId, OptionalText(3, m.content), Text(3, m.content));
    ReadsUnsigned(1, m.roomId, VarintField(2, Extend(m.playerId)) + OptionalText(3, m.content),
                  [Signed(2, m.playerId)] + Text(3, m.content));
  }

  // The packets of the server

  /** A broadcast of this type about this player, at its place. */
  predicate Announces(packet: V.Packet, p: W.WorldPlayer, tp: int32) {
    packet.id == 200
    && Reads(packet.data,
             [Signed(1, p.pid)] + ([Signed(2, tp)] + ([Bytes(4, MarshalPosition(p.position))]
             + (if p.actionData != 0 then [Signed(5, p.actionData)] else []))))
  }

  /** Message 1 tells a client its own player, 201 a player that is gone, 202 the players around; 200 is of type 2 for
      a player that comes into view, of type 3 for one that moves, and of type 1 for what a connection says. */
  lemma PacketLayouts(p: W.WorldPlayer, list: seq<W.WorldPlayer>, c: uint32, content: UnityMessages.Text)
    requires InMemory(content)
    ensures V.SyncPid(p.pid).id == 1 && Reads(V.SyncPid(p.pid).data, [Signed(1, p.pid)])
    ensures V.Leave(p.pid).id == 201 && Reads(V.Leave(p.pid).data, [Signed(1, p.pid)])
    ensures V.SyncPlayers(list).id == 202 && Reads(V.SyncPlayers(list).data, PlayerFields(V.Snapshot(list)))
    ensures Announces(V.Joined(p), p, 2) && Announces(V.Moved(p), p, 3)
    ensures V.Said(c, content).id == 200
            && Reads(V.Said(c, content).data,
                     [Signed(1, ToInt32(c))] + ([Signed(2, 1)] + Text(3, content)))
  {
    hide Reads, MarshalBroadCast, MarshalPosition, Signed, Bytes;
    SyncPidLayout(SyncPid(p.pid));
    PlayersLayout(V.Snapshot(list));
    BroadCastLayout(BroadCast(p.pid, 2, [], Some(p.position), p.actionData));
    BroadCastLayout(BroadCast(p.pid, 3, [], Some(p.position), p.actionData));
    BroadCastLayout(BroadCast(ToInt32(c), 1, content, None, 0));
    var place := [Bytes(4, MarshalPosition(p.position))];
    var action := if p.actionData != 0 then [Signed(5, p.actionData)] else [];
    assert Text(3, []) + (place + action) == place + action;
    assert Text(3, content) + ([] + []) == Text(3, content);
  }

  /** The players around are listed with their ids and places, in order. */
  lemma {:induction false} SnapshotIs(list: seq<W.WorldPlayer>)
    ensures |V.Snapshot(list)| == |list|
    ensures forall i :: 0 <= i < |list| ==> V.Snapshot(list)[i] == Player(list[i].pid, list[i].position)
  {
    if list != [] {
      SnapshotIs(list[1..]);
    }
  }
}
