/** The messages of examples/unity/protocol.go, and their Marshal and Unmarshal. Floats are carried as
    their 32-bit patterns, strings as their bytes. */
module UnityMessages {
  import opened Options
  import opened Binary
  import opened UnityWire
  import opened UnityFields

  type int32 = x: int | -0x8000_0000 <= x < 0x8000_0000

  /** A Go string, as its bytes. */
  type Text = seq<byte>

  /** Every Go string is that short: its length is a signed 64-bit number. */
  predicate InMemory(text: Text) { |text| < 0x8000_0000_0000_0000 }

  datatype Position = Position(x: uint32, y: uint32, z: uint32, v: uint32)
  datatype SyncPid = SyncPid(pid: int32)
  datatype Player = Player(pid: int32, p: Position)
  datatype SyncPlayers = SyncPlayers(players: seq<Player>)
  datatype MovePackage = MovePackage(p: Position, actionData: int32)
  datatype Talk = Talk(content: Text)
  datatype BroadCast = BroadCast(pid: int32, tp: int32, content: Text, p: Option<Position>, actionData: int32)
  datatype RoomRequest = RoomRequest(roomId: uint32)
  datatype RoomResponse = RoomResponse(roomId: uint32, code: int32, message: Text, playerCount: uint32)
  datatype RoomEvent = RoomEvent(roomId: uint32, playerId: int32, content: Text)

  const ORIGIN := Position(0, 0, 0, 0)

  /** uint64(int64(n)): negative numbers are sign-extended. */
  function Extend(n: int32): uint64 { if n < 0 then n + TWO64 else n }

  /** int32(number): the low 32 bits as a signed number. */
  function ToInt32(number: nat): int32 {
    var low := number % TWO32;
    if low < 0x8000_0000 then low else low - TWO32
  }

  function ToUint32(number: nat): uint32 { number % TWO32 }

  lemma ExtendRoundTrip(n: int32)
    ensures ToInt32(Extend(n)) == n
  {
    if n < 0 {
      assert n + TWO64 == TWO32 * (TWO32 - 1) + (n + TWO32);
      assert (n + TWO64) % TWO32 == n + TWO32;
    }
  }

  /** A negative number takes ten bytes on the wire. */
  lemma NegativeTakesTenBytes(n: int32)
    requires n < 0
    ensures |Varint(Extend(n))| == 10
  {
    VarintTen(Extend(n));
  }

  lemma VarintTen(v: nat)
    requires 0x8000_0000_0000_0000 <= v < TWO64
    ensures |Varint(v)| == 10
  {
    var a := v / 0x80;
    var b := a / 0x80;
    var c := b / 0x80;
    var d := c / 0x80;
    var e := d / 0x80;
    var f := e / 0x80;
    var g := f / 0x80;
    var h := g / 0x80;
    var i := h / 0x80;
    assert i == 1;
    assert |Varint(i)| == 1;
    assert |Varint(h)| == 2;
    assert |Varint(g)| == 3;
    assert |Varint(f)| == 4;
    assert |Varint(e)| == 5;
    assert |Varint(d)| == 6;
    assert |Varint(c)| == 7;
    assert |Varint(b)| == 8;
    assert |Varint(a)| == 9;
  }

  function Bad<M>(m: M): Decoded<M> { Decoded(m, Some(BadWireType)) }
  function Fine<M>(m: M): Decoded<M> { Decoded(m, None) }

  // Marshal

  function MarshalPosition(p: Position): seq<byte> {
    Fixed32Field(1, p.x) + Fixed32Field(2, p.y) + Fixed32Field(3, p.z) + Fixed32Field(4, p.v)
  }

  function MarshalSyncPid(m: SyncPid): seq<byte> { VarintField(1, Extend(m.pid)) }

  function MarshalPlayer(m: Player): seq<byte> {
    VarintField(1, Extend(m.pid)) + BytesField(2, MarshalPosition(m.p))
  }

  function MarshalPlayers(players: seq<Player>): seq<byte> {
    if players == [] then [] else BytesField(1, MarshalPlayer(players[0])) + MarshalPlayers(players[1..])
  }

  function MarshalSyncPlayers(m: SyncPlayers): seq<byte> { MarshalPlayers(m.players) }

  function MarshalMovePackage(m: MovePackage): seq<byte> {
    BytesField(1, MarshalPosition(m.p)) + VarintField(2, Extend(m.actionData))
  }

  function MarshalTalk(m: Talk): seq<byte> { BytesField(1, m.content) }

  function OptionalText(num: nat, text: Text): seq<byte> { if text == [] then [] else BytesField(num, text) }

  function MarshalBroadCast(m: BroadCast): seq<byte> {
    VarintField(1, Extend(m.pid)) + (VarintField(2, Extend(m.tp)) + (OptionalText(3, m.content)
    + ((if m.p.Some? then BytesField(4, MarshalPosition(m.p.value)) else [])
    + (if m.actionData != 0 then VarintField(5, Extend(m.actionData)) else []))))
  }

  function MarshalRoomRequest(m: RoomRequest): seq<byte> { VarintField(1, m.roomId) }

  function MarshalRoomResponse(m: RoomResponse): seq<byte> {
    VarintField(1, m.roomId) + (VarintField(2, Extend(m.code)) + (OptionalText(3, m.message)
    + VarintField(4, m.playerCount)))
  }

  function MarshalRoomEvent(m: RoomEvent): seq<byte> {
    VarintField(1, m.roomId) + (VarintField(2, Extend(m.playerId)) + OptionalText(3, m.content))
  }

  // Unmarshal: what the callbacks do to the receiver with one field

  function PositionField(m: Position, f: Field): Decoded<Position> {
    if !(1 <= f.num <= 4) then Fine(m)
    else if f.wire != 5 || |f.value| != 4 then Bad(m)
    else
      var bits := GetU32(f.value);
      Fine(if f.num == 1 then m.(x := bits) else if f.num == 2 then m.(y := bits)
           else if f.num == 3 then m.(z := bits) else m.(v := bits))
  }

  function SyncPidField(m: SyncPid, f: Field): Decoded<SyncPid> {
    if f.num != 1 then Fine(m) else if f.wire != 0 then Bad(m) else Fine(SyncPid(ToInt32(f.number)))
  }

  function PlayerField(m: Player, f: Field): Decoded<Player> {
    if f.num == 1 then
      if f.wire != 0 then Bad(m) else Fine(m.(pid := ToInt32(f.number)))
    else if f.num == 2 then
      if f.wire != 2 then Bad(m)
      else
        var d := Decode(f.value, m.p, PositionField);
        Decoded(m.(p := d.msg), d.err)
    else Fine(m)
  }

  function SyncPlayersField(m: SyncPlayers, f: Field): Decoded<SyncPlayers> {
    if f.num != 1 then Fine(m)
    else if f.wire != 2 then Bad(m)
    else
      var d := Decode(f.value, Player(0, ORIGIN), PlayerField);
      if d.err.Some? then Decoded(m, d.err) else Fine(SyncPlayers(m.players + [d.msg]))
  }

  function MovePackageField(m: MovePackage, f: Field): Decoded<MovePackage> {
    if f.num == 1 then
      if f.wire != 2 then Bad(m)
      else
        var d := Decode(f.value, m.p, PositionField);
        Decoded(m.(p := d.msg), d.err)
    else if f.num == 2 then
      if f.wire != 0 then Bad(m) else Fine(m.(actionData := ToInt32(f.number)))
    else Fine(m)
  }

  function TalkField(m: Talk, f: Field): Decoded<Talk> {
    if f.num != 1 then Fine(m) else if f.wire != 2 then Bad(m) else Fine(Talk(f.value))
  }

  function BroadCastField(m: BroadCast, f: Field): Decoded<BroadCast> {
    if f.num == 1 || f.num == 2 || f.num == 5 then
      if f.wire != 0 then Bad(m)
      else
        var n := ToInt32(f.number);
        Fine(if f.num == 1 then m.(pid := n) else if f.num == 2 then m.(tp := n) else m.(actionData := n))
    else if f.num == 3 then
      if f.wire != 2 then Bad(m) else Fine(m.(content := f.value))
    else if f.num == 4 then
      if f.wire != 2 then Bad(m)
      else
        var d := Decode(f.value, ORIGIN, PositionField);
        if d.err.Some? then Decoded(m, d.err) else Fine(m.(p := Some(d.msg)))
    else Fine(m)
  }

  function RoomRequestField(m: RoomRequest, f: Field): Decoded<RoomRequest> {
    if f.num != 1 then Fine(m) else if f.wire != 0 then Bad(m) else Fine(RoomRequest(ToUint32(f.number)))
  }

  function RoomResponseField(m: RoomResponse, f: Field): Decoded<RoomResponse> {
    if f.num == 1 || f.num == 2 || f.num == 4 then
      if f.wire != 0 then Bad(m)
      else Fine(if f.num == 1 then m.(roomId := ToUint32(f.number))
                else if f.num == 2 then m.(code := ToInt32(f.number)) else m.(playerCount := ToUint32(f.number)))
    else if f.num == 3 then
      if f.wire != 2 then Bad(m) else Fine(m.(message := f.value))
    else Fine(m)
  }

  function RoomEventField(m: RoomEvent, f: Field): Decoded<RoomEvent> {
    if f.num == 1 || f.num == 2 then
      if f.wire != 0 then Bad(m)
      else Fine(if f.num == 1 then m.(roomId := ToUint32(f.number)) else m.(playerId := ToInt32(f.number)))
    else if f.num == 3 then
      if f.wire != 2 then Bad(m) else Fine(m.(content := f.value))
    else Fine(m)
  }

  /** SyncPlayers.Unmarshal first forgets the players of its receiver. */
  function UnmarshalSyncPlayers(s: seq<byte>, m: SyncPlayers): Decoded<SyncPlayers> {
    Decode(s, SyncPlayers([]), SyncPlayersField)
  }

  /** SyncPlayers.Marshal: the loop over the players. */
  method WriteSyncPlayers(m: SyncPlayers) returns (data: seq<byte>)
    ensures data == MarshalSyncPlayers(m)
  {
    hide MarshalPlayer, BytesField;
    data := [];
    for i := 0 to |m.players|
      invariant data + MarshalPlayers(m.players[i..]) == MarshalSyncPlayers(m)
    {
      PlayerSize(m.players[i]);
      assert m.players[i..][1..] == m.players[i + 1..];
      data := AppendBytes(data, 1, MarshalPlayer(m.players[i]));
    }
  }

  // Round trips

  lemma DecodeNothing<M>(msg: M, callback: Callback<M>)
    ensures Decode([], msg, callback) == Fine(msg)
  {
  }

  lemma DecodeVarint<M>(num: nat, value: uint64, rest: seq<byte>, msg: M, callback: Callback<M>, after: M)
    requires 1 <= num <= 15 && callback(msg, Field(num, 0, [], value)) == Fine(after)
    ensures Decode(VarintField(num, value) + rest, msg, callback) == Decode(rest, after, callback)
  {
    hide Decode, ReadField;
    ReadVarintField(num, value, rest);
    DecodeField(VarintField(num, value), Field(num, 0, [], value), rest, msg, callback);
  }

  lemma DecodeFixed32<M>(num: nat, bits: uint32, rest: seq<byte>, msg: M, callback: Callback<M>, after: M)
    requires 1 <= num <= 15 && callback(msg, Field(num, 5, PutU32(bits), 0)) == Fine(after)
    ensures Decode(Fixed32Field(num, bits) + rest, msg, callback) == Decode(rest, after, callback)
  {
    hide Decode, ReadField;
    ReadFixed32Field(num, bits, rest);
    DecodeField(Fixed32Field(num, bits), Field(num, 5, PutU32(bits), 0), rest, msg, callback);
  }

  lemma DecodeBytes<M>(num: nat, value: seq<byte>, rest: seq<byte>, msg: M, callback: Callback<M>, after: M)
    requires 1 <= num <= 15 && |value| < TWO64 && callback(msg, Field(num, 2, value, 0)) == Fine(after)
    ensures Decode(BytesField(num, value) + rest, msg, callback) == Decode(rest, after, callback)
  {
    hide Decode, ReadField;
    ReadBytesField(num, value, rest);
    DecodeField(BytesField(num, value), Field(num, 2, value, 0), rest, msg, callback);
  }

  lemma DecodeText<M>(num: nat, text: Text, rest: seq<byte>, msg: M, callback: Callback<M>, after: M)
    requires 1 <= num <= 15 && InMemory(text)
    requires if text == [] then after == msg else callback(msg, Field(num, 2, text, 0)) == Fine(after)
    ensures Decode(OptionalText(num, text) + rest, msg, callback) == Decode(rest, after, callback)
  {
    hide Decode;
    if text == [] {
      assert OptionalText(num, text) + rest == rest;
    } else {
      DecodeBytes(num, text, rest, msg, callback, after);
    }
  }

  lemma PositionBits(m: Position, num: nat, bits: uint32)
    requires 1 <= num <= 4
    ensures PositionField(m, Field(num, 5, PutU32(bits), 0))
         == Fine(if num == 1 then m.(x := bits) else if num == 2 then m.(y := bits)
                 else if num == 3 then m.(z := bits) else m.(v := bits))
  {
    GetPut(bits, []);
    assert PutU32(bits) + [] == PutU32(bits);
  }

  /** A position is read back over any receiver: all four fields are written. */
  lemma PositionRoundTrip(p: Position, receiver: Position)
    ensures Decode(MarshalPosition(p), receiver, PositionField) == Fine(p)
  {
    hide Decode, Fixed32Field, PutU32, PositionField;
    var d, c, b := Fixed32Field(4, p.v), Fixed32Field(3, p.z), Fixed32Field(2, p.y);
    assert MarshalPosition(p) == Fixed32Field(1, p.x) + (b + (c + (d + [])));
    var m1 := receiver.(x := p.x);
    var m2 := m1.(y := p.y);
    var m3 := m2.(z := p.z);
    PositionBits(receiver, 1, p.x);
    PositionBits(m1, 2, p.y);
    PositionBits(m2, 3, p.z);
    PositionBits(m3, 4, p.v);
    DecodeFixed32(1, p.x, b + (c + (d + [])), receiver, PositionField, m1);
    DecodeFixed32(2, p.y, c + (d + []), m1, PositionField, m2);
    DecodeFixed32(3, p.z, d + [], m2, PositionField, m3);
    DecodeFixed32(4, p.v, [], m3, PositionField, p);
    DecodeNothing(p, PositionField);
  }

  lemma SyncPidRoundTrip(m: SyncPid)
    ensures Decode(MarshalSyncPid(m), SyncPid(0), SyncPidField) == Fine(m)
  {
    hide Decode, VarintField;
    ExtendRoundTrip(m.pid);
    assert MarshalSyncPid(m) == VarintField(1, Extend(m.pid)) + [];
    DecodeVarint(1, Extend(m.pid), [], SyncPid(0), SyncPidField, m);
    DecodeNothing(m, SyncPidField);
  }

  lemma {:induction false} VarintSize(v: nat, k: nat)
    requires v < TWO64 && k <= 9 && v < Room(9 - k)
    ensures |Varint(v)| <= k + 1
    decreases k
  {
    if v >= 0x80 {
      VarintSize(v / 0x80, k - 1);
    }
  }

  /** An encoded player is small. */
  lemma PlayerSize(m: Player)
    ensures |MarshalPosition(m.p)| == 20 && |MarshalPlayer(m)| < 100
  {
    RoomAll();
    VarintSize(Extend(m.pid), 9);
  }

  lemma PlayerRoundTrip(m: Player)
    ensures Decode(MarshalPlayer(m), Player(0, ORIGIN), PlayerField) == Fine(m)
  {
    hide Decode, VarintField, BytesField, MarshalPosition;
    ExtendRoundTrip(m.pid);
    PlayerSize(m);
    PositionRoundTrip(m.p, ORIGIN);
    var b := BytesField(2, MarshalPosition(m.p));
    assert MarshalPlayer(m) == VarintField(1, Extend(m.pid)) + (b + []);
    DecodeVarint(1, Extend(m.pid), b + [], Player(0, ORIGIN), PlayerField, Player(m.pid, ORIGIN));
    DecodeBytes(2, MarshalPosition(m.p), [], Player(m.pid, ORIGIN), PlayerField, m);
    DecodeNothing(m, PlayerField);
  }

  lemma {:induction false} PlayersRoundTrip(players: seq<Player>, before: seq<Player>)
    ensures Decode(MarshalPlayers(players), SyncPlayers(before), SyncPlayersField)
              == Fine(SyncPlayers(before + players))
    decreases |players|
  {
    hide Decode, BytesField, MarshalPlayer;
    if players == [] {
      DecodeNothing(SyncPlayers(before), SyncPlayersField);
      assert before + players == before;
    } else {
      PlayerSize(players[0]);
      PlayerRoundTrip(players[0]);
      var after := before + [players[0]];
      DecodeBytes(1, MarshalPlayer(players[0]), MarshalPlayers(players[1..]), SyncPlayers(before), SyncPlayersField,
                  SyncPlayers(after));
      PlayersRoundTrip(players[1..], after);
      assert after + players[1..] == before + players;
    }
  }

  /** Any number of players, over any receiver. */
  lemma SyncPlayersRoundTrip(m: SyncPlayers, receiver: SyncPlayers)
    ensures UnmarshalSyncPlayers(MarshalSyncPlayers(m), receiver) == Fine(m)
  {
    PlayersRoundTrip(m.players, []);
    assert [] + m.players == m.players;
  }

  lemma MovePackageRoundTrip(m: MovePackage)
    ensures Decode(MarshalMovePackage(m), MovePackage(ORIGIN, 0), MovePackageField) == Fine(m)
  {
    hide Decode, VarintField, BytesField, MarshalPosition;
    ExtendRoundTrip(m.actionData);
    PlayerSize(Player(0, m.p));
    PositionRoundTrip(m.p, ORIGIN);
    var b := VarintField(2, Extend(m.actionData));
    assert MarshalMovePackage(m) == BytesField(1, MarshalPosition(m.p)) + (b + []);
    DecodeBytes(1, MarshalPosition(m.p), b + [], MovePackage(ORIGIN, 0), MovePackageField, MovePackage(m.p, 0));
    DecodeVarint(2, Extend(m.actionData), [], MovePackage(m.p, 0), MovePackageField, m);
    DecodeNothing(m, MovePackageField);
  }

  lemma TalkRoundTrip(m: Talk)
    requires InMemory(m.content)
    ensures Decode(MarshalTalk(m), Talk([]), TalkField) == Fine(m)
  {
    hide Decode, BytesField;
    assert MarshalTalk(m) == BytesField(1, m.content) + [];
    DecodeBytes(1, m.content, [], Talk([]), TalkField, m);
    DecodeNothing(m, TalkField);
  }

  lemma BroadCastRoundTrip(m: BroadCast)
    requires InMemory(m.content)
    ensures Decode(MarshalBroadCast(m), BroadCast(0, 0, [], None, 0), BroadCastField) == Fine(m)
  {
    hide Decode, VarintField, BytesField, MarshalPosition, OptionalText;
    var m1 := BroadCast(m.pid, 0, [], None, 0);
    var m2 := m1.(tp := m.tp);
    var m3 := m2.(content := m.content);
    var m4 := m3.(p := m.p);
    var e := if m.actionData != 0 then VarintField(5, Extend(m.actionData)) else [];
    var d := if m.p.Some? then BytesField(4, MarshalPosition(m.p.value)) else [];
    ExtendRoundTrip(m.pid);
    ExtendRoundTrip(m.tp);
    var c := OptionalText(3, m.content) + (d + e);
    DecodeVarint(1, Extend(m.pid), VarintField(2, Extend(m.tp)) + c, BroadCast(0, 0, [], None, 0), BroadCastField, m1);
    DecodeVarint(2, Extend(m.tp), c, m1, BroadCastField, m2);
    DecodeText(3, m.content, d + e, m2, BroadCastField, m3);
    BroadCastPosition(m.p, e, m3);
    BroadCastAction(m.actionData, m4);
  }

  lemma BroadCastPosition(p: Option<Position>, rest: seq<byte>, m: BroadCast)
    requires m.p.None?
    ensures var d := if p.Some? then BytesField(4, MarshalPosition(p.value)) else [];
            Decode(d + rest, m, BroadCastField) == Decode(rest, m.(p := p), BroadCastField)
  {
    hide Decode, BytesField, MarshalPosition;
    if p.Some? {
      PlayerSize(Player(0, p.value));
      PositionRoundTrip(p.value, ORIGIN);
      DecodeBytes(4, MarshalPosition(p.value), rest, m, BroadCastField, m.(p := p));
    } else {
      assert [] + rest == rest;
    }
  }

  lemma BroadCastAction(action: int32, m: BroadCast)
    requires m.actionData == 0
    ensures var e := if action != 0 then VarintField(5, Extend(action)) else [];
            Decode(e, m, BroadCastField) == Fine(m.(actionData := action))
  {
    hide Decode, VarintField;
    ExtendRoundTrip(action);
    if action != 0 {
      assert VarintField(5, Extend(action)) + [] == VarintField(5, Extend(action));
      DecodeVarint(5, Extend(action), [], m, BroadCastField, m.(actionData := action));
    }
    DecodeNothing(m.(actionData := action), BroadCastField);
  }

  lemma RoomRequestRoundTrip(m: RoomRequest)
    ensures Decode(MarshalRoomRequest(m), RoomRequest(0), RoomRequestField) == Fine(m)
  {
    hide Decode, VarintField;
    assert MarshalRoomRequest(m) == VarintField(1, m.roomId) + [];
    DecodeVarint(1, m.roomId, [], RoomRequest(0), RoomRequestField, m);
    DecodeNothing(m, RoomRequestField);
  }

  lemma RoomResponseRoundTrip(m: RoomResponse)
    requires InMemory(m.message)
    ensures Decode(MarshalRoomResponse(m), RoomResponse(0, 0, [], 0), RoomResponseField) == Fine(m)
  {
    hide Decode, VarintField, OptionalText;
    ExtendRoundTrip(m.code);
    var m1 := RoomResponse(m.roomId, 0, [], 0);
    var m2 := m1.(code := m.code);
    var m3 := m2.(message := m.message);
    var d := VarintField(4, m.playerCount);
    assert d + [] == d;
    var c := OptionalText(3, m.message) + d;
    DecodeVarint(1, m.roomId, VarintField(2, Extend(m.code)) + c, RoomResponse(0, 0, [], 0), RoomResponseField, m1);
    DecodeVarint(2, Extend(m.code), c, m1, RoomResponseField, m2);
    DecodeText(3, m.message, d, m2, RoomResponseField, m3);
    DecodeVarint(4, m.playerCount, [], m3, RoomResponseField, m);
    DecodeNothing(m, RoomResponseField);
  }

  lemma RoomEventRoundTrip(m: RoomEvent)
    requires InMemory(m.content)
    ensures Decode(MarshalRoomEvent(m), RoomEvent(0, 0, []), RoomEventField) == Fine(m)
  {
    hide Decode, VarintField, OptionalText;
    ExtendRoundTrip(m.playerId);
    var m1 := RoomEvent(m.roomId, 0, []);
    var m2 := m1.(playerId := m.playerId);
    var c := OptionalText(3, m.content);
    assert c + [] == c;
    DecodeVarint(1, m.roomId, VarintField(2, Extend(m.playerId)) + c, RoomEvent(0, 0, []), RoomEventField, m1);
    DecodeVarint(2, Extend(m.playerId), c, m1, RoomEventField, m2);
    DecodeText(3, m.content, [], m2, RoomEventField, m);
    DecodeNothing(m, RoomEventField);
  }

  // Unknown fields

  /** No field of the part has one of the numbers of a message with fields 1 to n. */
  predicate Unknown(part: seq<byte>, n: nat) {
    forall f :: f in ParseFields(part).0 ==> f.num > n
  }

  /** The same for every message type: fields beyond the last known one, wherever they are inserted,
      change neither the message nor the error. */
  lemma UnknownFieldsChangeNothing(a: seq<byte>, unknown: seq<byte>, b: seq<byte>, m: BroadCast, p: Position,
                                   players: SyncPlayers, player: Player, move: MovePackage, talk: Talk,
                                   pid: SyncPid, request: RoomRequest, response: RoomResponse, event: RoomEvent)
    requires WellFormed(a) && WellFormed(unknown)
    ensures Unknown(unknown, 5) ==> Decode(a + unknown + b, m, BroadCastField) == Decode(a + b, m, BroadCastField)
    ensures Unknown(unknown, 4) ==> Decode(a + unknown + b, p, PositionField) == Decode(a + b, p, PositionField)
    ensures Unknown(unknown, 4) ==>
              Decode(a + unknown + b, response, RoomResponseField) == Decode(a + b, response, RoomResponseField)
    ensures Unknown(unknown, 3) ==>
              Decode(a + unknown + b, event, RoomEventField) == Decode(a + b, event, RoomEventField)
    ensures Unknown(unknown, 2) ==> Decode(a + unknown + b, player, PlayerField) == Decode(a + b, player, PlayerField)
    ensures Unknown(unknown, 2) ==>
              Decode(a + unknown + b, move, MovePackageField) == Decode(a + b, move, MovePackageField)
    ensures Unknown(unknown, 1) ==>
              UnmarshalSyncPlayers(a + unknown + b, players) == UnmarshalSyncPlayers(a + b, players)
    ensures Unknown(unknown, 1) ==> Decode(a + unknown + b, talk, TalkField) == Decode(a + b, talk, TalkField)
    ensures Unknown(unknown, 1) ==> Decode(a + unknown + b, pid, SyncPidField) == Decode(a + b, pid, SyncPidField)
    ensures Unknown(unknown, 1) ==>
              Decode(a + unknown + b, request, RoomRequestField) == Decode(a + b, request, RoomRequestField)
  {
    hide Decode, ParseFields;
    if Unknown(unknown, 1) {
      UnknownFieldsIgnored(a, unknown, b, SyncPlayers([]), SyncPlayersField);
      UnknownFieldsIgnored(a, unknown, b, talk, TalkField);
      UnknownFieldsIgnored(a, unknown, b, pid, SyncPidField);
      UnknownFieldsIgnored(a, unknown, b, request, RoomRequestField);
    }
    if Unknown(unknown, 2) {
      UnknownFieldsIgnored(a, unknown, b, player, PlayerField);
      UnknownFieldsIgnored(a, unknown, b, move, MovePackageField);
    }
    if Unknown(unknown, 3) {
      UnknownFieldsIgnored(a, unknown, b, event, RoomEventField);
    }
    if Unknown(unknown, 4) {
      UnknownFieldsIgnored(a, unknown, b, p, PositionField);
      UnknownFieldsIgnored(a, unknown, b, response, RoomResponseField);
    }
    if Unknown(unknown, 5) {
      UnknownFieldsIgnored(a, unknown, b, m, BroadCastField);
    }
  }
}
