/** gcore/room.go: rooms of connections, and the manager that holds them. A connection is its id. */
module Rooms {
  import opened Binary
  import opened Options
  import opened Sorting

  datatype RoomState = Waiting | Running | Closed

  datatype RoomError = RoomClosed | AlreadyJoined | RoomFull | NotInRoom | RoomExists | NoSuchRoom

  /** A room as a value. */
  datatype RoomView = RoomView(id: uint32, maxPlayers: int, state: RoomState, members: set<uint32>)

  /** No limit when maxPlayers is not positive. */
  function JoinError(r: RoomView, c: uint32): Option<RoomError> {
    if r.state == Closed then Some(RoomClosed)
    else if c in r.members then Some(AlreadyJoined)
    else if r.maxPlayers > 0 && |r.members| >= r.maxPlayers then Some(RoomFull)
    else None
  }

  /** A closed room has no members, and no room exceeds its capacity. */
  predicate RoomFits(r: RoomView) {
    (r.state == Closed ==> r.members == {}) && (r.maxPlayers > 0 ==> |r.members| <= r.maxPlayers)
  }

  class Room {
    const id: uint32
    const maxPlayers: int
    var state: RoomState
    var members: set<uint32>

    ghost predicate Valid() reads this { RoomFits(View()) }

    ghost function View(): RoomView reads this { RoomView(id, maxPlayers, state, members) }

    constructor (id: uint32, maxPlayers: int)
      ensures Valid() && View() == RoomView(id, maxPlayers, Waiting, {})
    {
      this.id, this.maxPlayers := id, maxPlayers;
      state, members := Waiting, {};
    }

    method Join(c: uint32) returns (err: Option<RoomError>)
      requires Valid()
      modifies this`members
      ensures Valid()
      ensures err == JoinError(old(View()), c)
      ensures err.None? <==>
                state != Closed && c !in old(members) && (maxPlayers <= 0 || |old(members)| < maxPlayers)
      ensures members == old(members) + if err.None? then {c} else {}
    {
      if state == Closed {
        return Some(RoomClosed);
      }
      if c in members {
        return Some(AlreadyJoined);
      }
      if maxPlayers > 0 && |members| >= maxPlayers {
        return Some(RoomFull);
      }
      members := members + {c};
      err := None;
    }

    method Leave(c: uint32) returns (err: Option<RoomError>)
      requires Valid()
      modifies this`members
      ensures Valid()
      ensures err == if c in old(members) then None else Some(NotInRoom)
      ensures members == old(members) - {c}
    {
      if c !in members {
        return Some(NotInRoom);
      }
      members := members - {c};
      err := None;
    }

    method Start() returns (err: Option<RoomError>)
      requires Valid()
      modifies this`state
      ensures Valid()
      ensures if old(state) == Closed then err == Some(RoomClosed) && state == Closed else err.None? && state == Running
    {
      if state == Closed {
        return Some(RoomClosed);
      }
      state := Running;
      err := None;
    }

    method Close()
      modifies this
      ensures Valid() && View() == RoomView(id, maxPlayers, Closed, {})
    {
      state := Closed;
      members := {};
    }

    /** Members: an ascending snapshot, whatever order the map is walked in. */
    method Members() returns (ids: seq<int>)
      ensures ListOf(ids, set c | c in members :: c as int)
    {
      var found: seq<int> := [];
      var rest := members;
      while rest != {}
        invariant rest <= members && Distinct(found)
        invariant forall x :: x in found <==> x in members && x !in rest
        decreases rest
      {
        var c :| c in rest;
        rest := rest - {c};
        found := found + [c];
      }
      SortKeeps(found);
      ids := Sort(found);
    }

    /** broadcast: one send to each member but the excluded one, in ascending order, and the errors of those
        that failed. Which sends fail is a parameter. */
    method Broadcast(excluded: Option<int>, failing: set<int>) returns (sent: seq<int>, errors: seq<int>)
      ensures ListOf(sent, set c | c in members && Some(c as int) != excluded :: c as int)
      ensures ListOf(errors, set c | c in members && Some(c as int) != excluded && (c as int) in failing :: c as int)
    {
      var ids := Members();
      sent, errors := [], [];
      for i := 0 to |ids|
        invariant Ascending(sent) && Ascending(errors)
        invariant forall x :: x in sent <==> x in ids[..i] && Some(x) != excluded
        invariant forall x :: x in errors <==> x in sent && x in failing
      {
        assert ids[..i + 1] == ids[..i] + [ids[i]];
        if excluded != Some(ids[i]) {
          forall j | 0 <= j < |sent| ensures sent[j] < ids[i] {
            assert sent[j] in sent;
          }
          forall j | 0 <= j < |errors| ensures errors[j] < ids[i] {
            assert errors[j] in errors;
          }
          sent := sent + [ids[i]];
          if ids[i] in failing {
            errors := errors + [ids[i]];
          }
        }
      }
      assert ids[..|ids|] == ids;
    }
  }

  class RoomManager {
    var rooms: map<uint32, Room>

    ghost predicate Valid() reads this, rooms.Values {
      forall r :: r in rooms ==> rooms[r].id == r && rooms[r].Valid()
    }

    ghost function View(): map<uint32, RoomView> reads this, rooms.Values {
      map r | r in rooms :: rooms[r].View()
    }

    constructor ()
      ensures Valid() && rooms == map[] && View() == map[]
    {
      rooms := map[];
    }

    method CreateRoom(id: uint32, maxPlayers: int) returns (r: Result<Room, RoomError>)
      requires Valid()
      modifies this
      ensures Valid()
      ensures r.Ok? <==> id !in old(rooms)
      ensures r.Ok? ==> fresh(r.value) && rooms == old(rooms)[id := r.value]
                        && View() == old(View())[id := RoomView(id, maxPlayers, Waiting, {})]
      ensures r.Err? ==> r == Err(RoomExists) && rooms == old(rooms)
    {
      if id in rooms {
        return Err(RoomExists);
      }
      var room := new Room(id, maxPlayers);
      rooms := rooms[id := room];
      r := Ok(room);
    }

    /** RemoveRoom also closes the room, for those who still hold it. */
    method RemoveRoom(id: uint32) returns (r: Result<Room, RoomError>)
      requires Valid()
      modifies this, rooms.Values
      ensures Valid() && rooms == old(rooms) - {id} && View() == old(View()) - {id}
      ensures r.Ok? <==> id in old(rooms)
      ensures r.Ok? ==> r.value == old(rooms)[id]
                        && r.value.View() == old(rooms[id].View()).(state := Closed, members := {})
      ensures r.Err? ==> r == Err(NoSuchRoom)
    {
      if id !in rooms {
        assert rooms - {id} == rooms;
        assert View() - {id} == View();
        return Err(NoSuchRoom);
      }
      var room := rooms[id];
      rooms := rooms - {id};
      room.Close();
      r := Ok(room);
    }
  }
}
