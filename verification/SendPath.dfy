/** The outbound path of one connection, gnet/connection.go: senders pass a gate one at a time, a bounded
    queue takes their packets, and a single writer puts them on the socket with short writes. Contexts,
    deadlines and the peer are nondeterministic. */
module SendPath {
  import opened Options
  import opened Counting
  import opened Binary
  import opened Framing

  datatype SendError = ConnectionClosed | ContextDone | QueueFull | PackFailed(error: FrameError)

  datatype Outcome = Sent | Failed(error: SendError)

  /** Where a call of send is; from Gated to Leaving it holds the gate. */
  datatype SendPc =
    | Entered
    | Checked
    | AtGate
    | Gated
    | GateChecked
    | Packed(packet: seq<byte>)
    | Ready(packet: seq<byte>)
    | Leaving(outcome: Outcome)
    | Returned(outcome: Outcome)

  datatype Send = Send(id: uint32, data: seq<byte>, nonblocking: bool, pc: SendPc)

  /** A packet in the queue, and the call that sent it. */
  datatype Packet = Packet(sender: nat, bytes: seq<byte>)

  datatype Writer = Selecting | Writing(rest: seq<byte>) | Gone

  datatype Path = Path(
    capacity: nat,
    limit: uint32,
    gate: nat,
    sends: seq<Send>,
    queue: seq<Packet>,
    writer: Writer,
    closed: bool,
    cancelled: bool,
    socketClosed: bool,
    socket: seq<byte>,
    taken: seq<Packet>,
    accepted: seq<Packet>)

  datatype Action =
    | Call(id: uint32, data: seq<byte>, nonblocking: bool)
    // one call of send
    | CheckClosed(p: nat)
    | CheckContext(p: nat, done: bool)
    | EnterGate(p: nat)
    | LeaveAtGate(p: nat, byContext: bool)
    | CheckClosedGated(p: nat)
    | PackMessage(p: nat, done: bool)
    | CheckContextGated(p: nat, done: bool)
    | Enqueue(p: nat)
    | GiveUp(p: nat, byContext: bool)
    | ReleaseGate(p: nat)
    // StartWriter
    | Take
    | Write(n: nat)
    | WriteFails(n: nat)
    | WriterExit
    // Stop
    | MarkClosed
    | Cancel
    | CloseSocket

  function Init(capacity: nat, limit: uint32): Path {
    Path(capacity, limit, 0, [], [], Selecting, false, false, false, [], [], [])
  }

  function Goto(s: Path, p: nat, pc: SendPc): Path
    requires p < |s.sends|
  {
    s.(sends := s.sends[p := s.sends[p].(pc := pc)])
  }

  predicate CanSend(s: Path) {
    |s.queue| < s.capacity || (s.queue == [] && s.writer.Selecting?)
  }

  predicate IsSendAction(a: Action) {
    a.CheckClosed? || a.CheckContext? || a.EnterGate? || a.LeaveAtGate? || a.CheckClosedGated? || a.PackMessage?
    || a.CheckContextGated? || a.Enqueue? || a.GiveUp? || a.ReleaseGate?
  }

  function Next(s: Path, a: Action): Option<Path> {
    match a
    case Call(id, data, nonblocking) => Some(s.(sends := s.sends + [Send(id, data, nonblocking, Entered)]))
    case Take =>
      if !s.writer.Selecting? || s.queue == [] then None
      else
        var t := s.(queue := s.queue[1..], taken := s.taken + [s.queue[0]]);
        // a closed connection drops the packet; setting the deadline may fail, which WriteFails(0) covers
        Some(if s.closed then t.(writer := Gone) else t.(writer := Writing(s.queue[0].bytes)))
    case Write(n) =>
      if !s.writer.Writing? || s.socketClosed || n == 0 || n > |s.writer.rest| then None
      else Some(s.(socket := s.socket + s.writer.rest[..n],
                   writer := if n == |s.writer.rest| then Selecting else Writing(s.writer.rest[n..])))
    case WriteFails(n) =>
      if !s.writer.Writing? || n > |s.writer.rest| || (s.socketClosed && n > 0) then None
      else Some(s.(socket := s.socket + s.writer.rest[..n], writer := Gone, closed := true))
    case WriterExit => if s.writer.Selecting? && s.socketClosed then Some(s.(writer := Gone)) else None
    case MarkClosed => Some(s.(closed := true))
    case Cancel => if s.closed then Some(s.(cancelled := true)) else None
    case CloseSocket => if s.cancelled then Some(s.(socketClosed := true)) else None
    case _ => if a.p < |s.sends| then NextSend(s, a) else None
  }

  function NextSend(s: Path, a: Action): Option<Path>
    requires IsSendAction(a) && a.p < |s.sends|
  {
    var p, me := a.p, s.sends[a.p];
    match a
    case CheckClosed(_) =>
      if !me.pc.Entered? then None
      else Some(Goto(s, p, if s.closed then Returned(Failed(ConnectionClosed)) else Checked))
    case CheckContext(_, done) =>
      if !me.pc.Checked? then None
      else Some(Goto(s, p, if done then Returned(Failed(ContextDone)) else AtGate))
    case EnterGate(_) =>
      if me.pc.AtGate? && s.gate == 0 then Some(Goto(s, p, Gated).(gate := 1)) else None
    case LeaveAtGate(_, byContext) =>
      if !me.pc.AtGate? then None
      else if me.nonblocking then
        if s.gate > 0 && !byContext then Some(Goto(s, p, Returned(Failed(QueueFull)))) else None
      else if byContext then Some(Goto(s, p, Returned(Failed(ContextDone))))
      else if s.cancelled then Some(Goto(s, p, Returned(Failed(ConnectionClosed)))) else None
    case CheckClosedGated(_) =>
      if !me.pc.Gated? then None
      else Some(Goto(s, p, if s.closed then Leaving(Failed(ConnectionClosed)) else GateChecked))
    case PackMessage(_, done) =>
      if !me.pc.GateChecked? then None
      else if done then Some(Goto(s, p, Leaving(Failed(ContextDone))))
      else
        var r := Pack(NewMsgPackage(me.id, me.data), s.limit);
        Some(Goto(s, p, if r.Ok? then Packed(r.value) else Leaving(Failed(PackFailed(r.error)))))
    case CheckContextGated(_, done) =>
      if !me.pc.Packed? then None
      else Some(Goto(s, p, if done then Leaving(Failed(ContextDone)) else Ready(me.pc.packet)))
    case Enqueue(_) =>
      if !me.pc.Ready? || !CanSend(s) then None
      else
        var packet := Packet(p, me.pc.packet);
        Some(Goto(s, p, Leaving(Sent)).(queue := s.queue + [packet], accepted := s.accepted + [packet]))
    case GiveUp(_, byContext) =>
      if !me.pc.Ready? then None
      else if me.nonblocking then
        if !CanSend(s) && !byContext then Some(Goto(s, p, Leaving(Failed(QueueFull)))) else None
      else if byContext then Some(Goto(s, p, Leaving(Failed(ContextDone))))
      else if s.cancelled then Some(Goto(s, p, Leaving(Failed(ConnectionClosed)))) else None
    case ReleaseGate(_) =>
      if me.pc.Leaving? && s.gate > 0 then Some(Goto(s, p, Returned(me.pc.outcome)).(gate := s.gate - 1)) else None
  }

  function Run(s: Path, actions: seq<Action>): Option<Path>
    decreases |actions|
  {
    if actions == [] then Some(s)
    else
      match Next(s, actions[0])
      case None => None
      case Some(t) => Run(t, actions[1..])
  }

  // What every interleaving keeps

  function Holds(m: Send): nat {
    if m.pc.Gated? || m.pc.GateChecked? || m.pc.Packed? || m.pc.Ready? || m.pc.Leaving? then 1 else 0
  }

  function MessageOf(m: Send): Message { NewMsgPackage(m.id, m.data) }

  /** A packed call carries the packet of its own message. */
  predicate SendInv(m: Send, limit: uint32) {
    && (m.pc.Packed? ==> Pack(MessageOf(m), limit) == Ok(m.pc.packet))
    && (m.pc.Ready? ==> Pack(MessageOf(m), limit) == Ok(m.pc.packet))
  }

  predicate DidSend(m: Send) { m.pc == Leaving(Sent) || m.pc == Returned(Sent) }

  /** Accepted packets are those of the calls that succeeded, once each. */
  ghost predicate AcceptedInv(accepted: seq<Packet>, sends: seq<Send>, limit: uint32) {
    && (forall k :: 0 <= k < |accepted| ==>
          var x := accepted[k];
          x.sender < |sends| && DidSend(sends[x.sender]) && Pack(MessageOf(sends[x.sender]), limit) == Ok(x.bytes))
    && (forall k, l :: 0 <= k < l < |accepted| ==> accepted[k].sender != accepted[l].sender)
    && (forall p :: 0 <= p < |sends| && DidSend(sends[p]) ==>
          exists k :: 0 <= k < |accepted| && accepted[k].sender == p)
  }

  /** The bytes of these packets, one after the other. */
  function Bytes(packets: seq<Packet>): seq<byte> {
    if packets == [] then [] else Bytes(packets[..|packets| - 1]) + packets[|packets| - 1].bytes
  }

  /** The writer has taken a prefix of the accepted packets and written a prefix of their bytes. */
  ghost predicate StreamInv(s: Path) {
    && s.accepted == s.taken + s.queue
    && match s.writer
       case Selecting => s.socket == Bytes(s.taken)
       case Writing(rest) => s.socket + rest == Bytes(s.taken)
       case Gone => s.socket <= Bytes(s.taken)
  }

  ghost predicate Inv(s: Path) {
    && s.gate == Sum(s.sends, Holds) && s.gate <= 1
    && (forall p :: 0 <= p < |s.sends| ==> SendInv(s.sends[p], s.limit))
    && AcceptedInv(s.accepted, s.sends, s.limit)
    && StreamInv(s)
  }

  lemma {:induction false} BytesAppend(packets: seq<Packet>, x: Packet)
    ensures Bytes(packets + [x]) == Bytes(packets) + x.bytes
  {
    assert (packets + [x])[..|packets|] == packets;
  }

  lemma {:induction false} BytesPrefix(packets: seq<Packet>, n: nat)
    requires n <= |packets|
    ensures Bytes(packets[..n]) <= Bytes(packets)
  {
    if n < |packets| {
      BytesPrefix(packets[..|packets| - 1], n);
      assert packets[..|packets| - 1][..n] == packets[..n];
    } else {
      assert packets[..n] == packets;
    }
  }

  lemma AcceptedKept(s: Path, p: nat, m: Send)
    requires AcceptedInv(s.accepted, s.sends, s.limit) && p < |s.sends|
    requires m.id == s.sends[p].id && m.data == s.sends[p].data && DidSend(m) == DidSend(s.sends[p])
    ensures AcceptedInv(s.accepted, s.sends[p := m], s.limit)
  {
  }

  lemma AcceptedGrows(s: Path, p: nat, m: Send, x: Packet)
    requires AcceptedInv(s.accepted, s.sends, s.limit) && p < |s.sends|
    requires m.id == s.sends[p].id && m.data == s.sends[p].data && DidSend(m) && !DidSend(s.sends[p])
    requires x.sender == p && Pack(MessageOf(m), s.limit) == Ok(x.bytes)
    ensures AcceptedInv(s.accepted + [x], s.sends[p := m], s.limit)
  {
    var after, sends := s.accepted + [x], s.sends[p := m];
    assert after[|s.accepted|] == x;
    forall q | 0 <= q < |sends| && DidSend(sends[q]) ensures exists k :: 0 <= k < |after| && after[k].sender == q {
      if q != p {
        var k :| 0 <= k < |s.accepted| && s.accepted[k].sender == q;
        assert after[k].sender == q;
      }
    }
  }

  lemma GateStep(s: Path, a: Action)
    requires Inv(s) && IsSendAction(a) && a.p < |s.sends| && NextSend(s, a).Some?
    ensures var t := NextSend(s, a).value; t.gate == Sum(t.sends, Holds) && t.gate <= 1
  {
    hide AcceptedInv, StreamInv, SendInv, Pack, Sum;
    var t := NextSend(s, a).value;
    SumUpdate(s.sends, a.p, t.sends[a.p], Holds);
    assert t.sends == s.sends[a.p := t.sends[a.p]];
  }

  lemma OneSend(s: Path, a: Action)
    requires IsSendAction(a) && a.p < |s.sends| && NextSend(s, a).Some? && SendInv(s.sends[a.p], s.limit)
    ensures SendInv(NextSend(s, a).value.sends[a.p], s.limit)
    ensures a.Enqueue? ==> s.sends[a.p].pc.Ready?
                           && Pack(MessageOf(s.sends[a.p]), s.limit) == Ok(s.sends[a.p].pc.packet)
  {
    hide Pack;
  }

  lemma PacketsStep(s: Path, a: Action)
    requires Inv(s) && IsSendAction(a) && a.p < |s.sends| && NextSend(s, a).Some?
    ensures var t := NextSend(s, a).value;
            && (forall p :: 0 <= p < |t.sends| ==> SendInv(t.sends[p], t.limit))
            && AcceptedInv(t.accepted, t.sends, t.limit)
  {
    hide AcceptedInv, StreamInv, Pack, Sum, SendInv;
    var t := NextSend(s, a).value;
    var m := t.sends[a.p];
    OneSend(s, a);
    assert t.sends == s.sends[a.p := m];
    if a.Enqueue? {
      AcceptedGrows(s, a.p, m, Packet(a.p, s.sends[a.p].pc.packet));
    } else {
      AcceptedKept(s, a.p, m);
    }
  }

  lemma SendStep(s: Path, a: Action)
    requires Inv(s) && IsSendAction(a) && a.p < |s.sends| && NextSend(s, a).Some?
    ensures Inv(NextSend(s, a).value)
  {
    hide AcceptedInv, SendInv, StreamInv, NextSend;
    GateStep(s, a);
    PacketsStep(s, a);
    QueueStep(s, a);
  }

  lemma QueueStep(s: Path, a: Action)
    requires StreamInv(s) && IsSendAction(a) && a.p < |s.sends| && NextSend(s, a).Some?
    ensures StreamInv(NextSend(s, a).value)
  {
    hide Pack, Bytes;
    if a.Enqueue? {
      assert s.accepted + [Packet(a.p, s.sends[a.p].pc.packet)]
          == s.taken + (s.queue + [Packet(a.p, s.sends[a.p].pc.packet)]);
    }
  }

  lemma CallStep(s: Path, a: Action)
    requires Inv(s) && a.Call?
    ensures Inv(Next(s, a).value)
  {
    hide Pack, Bytes;
    SumAppend(s.sends, Send(a.id, a.data, a.nonblocking, Entered), Holds);
    var sends := Next(s, a).value.sends;
    forall p | 0 <= p < |sends| && DidSend(sends[p])
      ensures exists k :: 0 <= k < |s.accepted| && s.accepted[k].sender == p
    {
      assert sends[p] == s.sends[p];
    }
  }

  lemma TakeStep(s: Path)
    requires StreamInv(s) && Next(s, Take).Some?
    ensures StreamInv(Next(s, Take).value)
  {
    hide Bytes;
    BytesAppend(s.taken, s.queue[0]);
    assert s.taken + [s.queue[0]] + s.queue[1..] == s.taken + s.queue;
  }

  lemma WriteStep(s: Path, n: nat)
    requires StreamInv(s) && s.writer.Writing? && n <= |s.writer.rest|
    ensures s.socket + s.writer.rest[..n] + s.writer.rest[n..] == Bytes(s.taken)
    ensures s.socket + s.writer.rest[..n] <= Bytes(s.taken)
    ensures n == |s.writer.rest| ==> s.socket + s.writer.rest[..n] == Bytes(s.taken)
  {
    assert s.writer.rest[..n] + s.writer.rest[n..] == s.writer.rest;
    assert s.socket + s.writer.rest[..n] + s.writer.rest[n..] == s.socket + s.writer.rest;
  }

  lemma WriterStep(s: Path, a: Action)
    requires Inv(s) && !IsSendAction(a) && !a.Call? && Next(s, a).Some?
    ensures Inv(Next(s, a).value)
  {
    hide AcceptedInv, SendInv, NextSend, Bytes, Sum;
    if a.Take? {
      TakeStep(s);
    } else if a.Write? || a.WriteFails? {
      WriteStep(s, a.n);
    }
  }

  lemma {:induction false} InvRun(s: Path, actions: seq<Action>)
    requires Inv(s) && Run(s, actions).Some?
    ensures Inv(Run(s, actions).value) && Run(s, actions).value.limit == s.limit
    decreases |actions|
  {
    hide Inv;
    if actions != [] {
      var a := actions[0];
      if a.Call? {
        CallStep(s, a);
      } else if IsSendAction(a) {
        SendStep(s, a);
      } else {
        WriterStep(s, a);
      }
      InvRun(Next(s, a).value, actions[1..]);
    }
  }

  // The promises of the send path

  /** At most one call is between the gate and its release. */
  lemma OneInsideGate(capacity: nat, limit: uint32, actions: seq<Action>, p: nat, q: nat)
    requires Run(Init(capacity, limit), actions).Some?
    requires var s := Run(Init(capacity, limit), actions).value;
             p < q < |s.sends| && Holds(s.sends[p]) == 1
    ensures Holds(Run(Init(capacity, limit), actions).value.sends[q]) == 0
  {
    InvRun(Init(capacity, limit), actions);
    var s := Run(Init(capacity, limit), actions).value;
    TwoHolders(s.sends, p, q);
  }

  lemma {:induction false} TwoHolders(sends: seq<Send>, p: nat, q: nat)
    requires p < q < |sends|
    ensures Holds(sends[p]) + Holds(sends[q]) <= Sum(sends, Holds)
  {
    var last := |sends| - 1;
    if q == last {
      SumBounds(sends[..last], p, Holds);
    } else {
      TwoHolders(sends[..last], p, q);
    }
  }

  function CountBy(packets: seq<Packet>, p: nat): nat {
    if packets == [] then 0
    else CountBy(packets[..|packets| - 1], p) + if packets[|packets| - 1].sender == p then 1 else 0
  }

  /** A call that returned an error enqueued nothing; one that returned nil enqueued its message once. */
  lemma ErrorEnqueuesNothing(capacity: nat, limit: uint32, actions: seq<Action>, p: nat)
    requires Run(Init(capacity, limit), actions).Some?
    requires var s := Run(Init(capacity, limit), actions).value; p < |s.sends| && s.sends[p].pc.Returned?
    ensures var s := Run(Init(capacity, limit), actions).value;
            && (s.sends[p].pc.outcome.Sent? <==> exists k :: 0 <= k < |s.accepted| && s.accepted[k].sender == p)
            && CountBy(s.accepted, p) == (if s.sends[p].pc.outcome.Sent? then 1 else 0)
            && (forall k :: 0 <= k < |s.accepted| && s.accepted[k].sender == p ==>
                  Pack(MessageOf(s.sends[p]), limit) == Ok(s.accepted[k].bytes))
  {
    InvRun(Init(capacity, limit), actions);
    var s := Run(Init(capacity, limit), actions).value;
    CountDistinct(s.accepted, p);
  }

  lemma {:induction false} CountDistinct(packets: seq<Packet>, p: nat)
    requires forall k, l :: 0 <= k < l < |packets| ==> packets[k].sender != packets[l].sender
    ensures CountBy(packets, p) == if exists k :: 0 <= k < |packets| && packets[k].sender == p then 1 else 0
  {
    if packets != [] {
      var last := |packets| - 1;
      CountDistinct(packets[..last], p);
      if k :| 0 <= k < last && packets[k].sender == p {
        assert packets[..last][k].sender == p;
        assert packets[k].sender != packets[last].sender;
      } else if packets[last].sender == p {
        assert packets[last].sender == p;
        assert !exists k :: 0 <= k < |packets[..last]| && packets[..last][k].sender == p;
      }
    }
  }

  /** The messages of the accepted calls, in the order they were enqueued. */
  function AcceptedMessages(accepted: seq<Packet>, sends: seq<Send>): seq<Message>
    requires forall k :: 0 <= k < |accepted| ==> accepted[k].sender < |sends|
  {
    seq(|accepted|, k requires 0 <= k < |accepted| => MessageOf(sends[accepted[k].sender]))
  }

  lemma {:induction false} FramesAppend(messages: seq<Message>, m: Message)
    ensures Frames(messages + [m]) == Frames(messages) + Frame(m)
  {
    hide Frame;
    if messages == [] {
      assert [m][1..] == [];
    } else {
      FramesAppend(messages[1..], m);
      assert (messages + [m])[1..] == messages[1..] + [m];
    }
  }

  lemma {:induction false} BytesAreFrames(accepted: seq<Packet>, sends: seq<Send>, limit: uint32)
    requires forall k :: 0 <= k < |accepted| ==> accepted[k].sender < |sends|
    requires forall k :: 0 <= k < |accepted| ==>
               Pack(MessageOf(sends[accepted[k].sender]), limit) == Ok(accepted[k].bytes)
    ensures Bytes(accepted) == Frames(AcceptedMessages(accepted, sends))
  {
    if accepted != [] {
      var last := |accepted| - 1;
      BytesAreFrames(accepted[..last], sends, limit);
      var m := MessageOf(sends[accepted[last].sender]);
      assert AcceptedMessages(accepted, sends) == AcceptedMessages(accepted[..last], sends) + [m];
      FramesAppend(AcceptedMessages(accepted[..last], sends), m);
    }
  }

  /** What a peer makes of the bytes it has received: it has read the first k accepted messages, and up to the
      first one that is 2^32 bytes or longer nothing but exactly those that are complete. That one it never
      reads as it was sent. */
  predicate PeerHas(messages: seq<Message>, received: seq<byte>, peerLimit: uint32, k: nat) {
    var u, read := Untruncated(messages), ParseAll(received, peerLimit);
    && k <= u && messages[..k] <= read
    && (k < u || u == |messages| ==> read == messages[..k])
    && (k < u ==> |received| < |Frames(messages[..k + 1])|)
    && (u < |messages| && u < |read| ==> read[u] != messages[u])
  }

  /** The bytes on the socket are a prefix of the accepted packets, concatenated in enqueue order, and a
      peer that has received any part of them has read exactly a prefix of the accepted messages, as far as
      their lengths fit 32 bits. */
  lemma PeerReadsPrefix(capacity: nat, limit: uint32, actions: seq<Action>, received: seq<byte>, peerLimit: uint32)
      returns (k: nat)
    requires Run(Init(capacity, limit), actions).Some?
    requires received <= Run(Init(capacity, limit), actions).value.socket
    requires peerLimit == 0 || (limit > 0 && limit <= peerLimit)
    ensures var s := Run(Init(capacity, limit), actions).value;
            && s.socket <= Bytes(s.accepted)
            && (forall i :: 0 <= i < |s.accepted| ==> s.accepted[i].sender < |s.sends|)
            && PeerHas(AcceptedMessages(s.accepted, s.sends), received, peerLimit, k)
  {
    hide Inv, Next, PeerHas, Bytes;
    InitInv(capacity, limit);
    InvRun(Init(capacity, limit), actions);
    k := PeerReads(Run(Init(capacity, limit), actions).value, received, peerLimit);
  }

  /** A peer that receives all packets reads all messages as they were sent, if and only if each of them is
      shorter than 2^32 bytes. */
  lemma AllArriveExactly(capacity: nat, limit: uint32, actions: seq<Action>, peerLimit: uint32)
    requires Run(Init(capacity, limit), actions).Some?
    requires peerLimit == 0 || (limit > 0 && limit <= peerLimit)
    ensures var s := Run(Init(capacity, limit), actions).value;
            && (forall i :: 0 <= i < |s.accepted| ==> s.accepted[i].sender < |s.sends|)
            && (s.socket == Bytes(s.accepted) ==>
                  (ParseAll(s.socket, peerLimit) == AcceptedMessages(s.accepted, s.sends)
                   <==> forall i :: 0 <= i < |s.accepted| ==> |s.sends[s.accepted[i].sender].data| < TWO32))
  {
    hide Inv, Next, ParseAll, Frames, Bytes, Pack;
    var s := Run(Init(capacity, limit), actions).value;
    var k := PeerReadsPrefix(capacity, limit, actions, s.socket, peerLimit);
    InitInv(capacity, limit);
    InvRun(Init(capacity, limit), actions);
    SocketPrefix(s);
    BytesAreFrames(s.accepted, s.sends, s.limit);
    var messages := AcceptedMessages(s.accepted, s.sends);
    assert forall i :: 0 <= i < |messages| ==> messages[i].data == s.sends[s.accepted[i].sender].data;
    if s.socket == Bytes(s.accepted) && k < Untruncated(messages) {
      FramesSplit(messages, k + 1);
    }
    ParsedIsShort(s.socket, peerLimit);
    if Untruncated(messages) < |messages| {
      assert messages[Untruncated(messages)] in messages;
    }
  }

  lemma InitInv(capacity: nat, limit: uint32)
    ensures Inv(Init(capacity, limit))
  {
  }

  /** In a reachable state: what a peer makes of the part it has received. */
  lemma PeerReads(s: Path, received: seq<byte>, peerLimit: uint32) returns (k: nat)
    requires Inv(s) && received <= s.socket
    requires peerLimit == 0 || (s.limit > 0 && s.limit <= peerLimit)
    ensures s.socket <= Bytes(s.accepted)
    ensures forall i :: 0 <= i < |s.accepted| ==> s.accepted[i].sender < |s.sends|
    ensures PeerHas(AcceptedMessages(s.accepted, s.sends), received, peerLimit, k)
  {
    hide Inv, ParseAll, Frames, Bytes, Pack, PeerHas, Untruncated;
    SocketPrefix(s);
    BytesAreFrames(s.accepted, s.sends, s.limit);
    var messages := AcceptedMessages(s.accepted, s.sends);
    forall i | 0 <= i < Untruncated(messages) ensures Sendable(messages[i], peerLimit) {
      assert |messages[i].data| < TWO32;
      PackedIsSendable(s.sends[s.accepted[i].sender], s.limit, peerLimit);
    }
    k := PeerParses(messages, received, peerLimit);
  }

  lemma PeerParses(messages: seq<Message>, received: seq<byte>, peerLimit: uint32) returns (k: nat)
    requires received <= Frames(messages)
    requires forall i :: 0 <= i < Untruncated(messages) ==> Sendable(messages[i], peerLimit)
    ensures PeerHas(messages, received, peerLimit, k)
  {
    hide ParseAll, Frames, Untruncated, Sendable;
    var u := Untruncated(messages);
    var good := messages[..u];
    FramesSplit(messages, u);
    if u == |messages| {
      assert good == messages;
    }
    ParsedIsShort(received, peerLimit);
    if |received| <= |Frames(good)| {
      assert received <= Frames(good);
      k := ParsePrefix(good, received, peerLimit);
      assert good[..k] == messages[..k];
      assert k < u ==> good[..k + 1] == messages[..k + 1];
    } else {
      k := u;
      var rest := received[|Frames(good)|..];
      assert received == Frames(good) + rest;
      ParseFrames(good, rest, peerLimit);
    }
  }

  lemma PackedIsSendable(m: Send, limit: uint32, peerLimit: uint32)
    requires Pack(MessageOf(m), limit).Ok? && |m.data| < TWO32
    requires peerLimit == 0 || (limit > 0 && limit <= peerLimit)
    ensures Sendable(MessageOf(m), peerLimit)
  {
  }

  lemma SocketPrefix(s: Path)
    requires Inv(s)
    ensures s.socket <= Bytes(s.accepted)
    ensures forall i :: 0 <= i < |s.accepted| ==>
              s.accepted[i].sender < |s.sends|
              && Pack(MessageOf(s.sends[s.accepted[i].sender]), s.limit) == Ok(s.accepted[i].bytes)
  {
    BytesPrefix(s.accepted, |s.taken|);
    assert s.accepted[..|s.taken|] == s.taken;
  }

  // writeFull

  /** A socket whose Write takes any part of the data it is given, or fails. */
  class Socket {
    var written: seq<byte>

    /** On failure some bytes may have been written all the same. */
    method Write(data: seq<byte>) returns (n: nat, ok: bool)
      modifies this
      ensures n <= |data| && written == old(written) + data[..n]
    {
      n :| 0 <= n <= |data|;
      ok := *;
      written := written + data[..n];
    }
  }

  /** writeFull: the whole packet, or an error after a prefix of it. */
  method WriteFull(socket: Socket, data: seq<byte>) returns (ok: bool)
    modifies socket
    ensures ok ==> socket.written == old(socket.written) + data
    ensures old(socket.written) <= socket.written <= old(socket.written) + data
  {
    var rest := data;
    while |rest| > 0
      invariant socket.written + rest == old(socket.written) + data
      invariant old(socket.written) <= socket.written
      decreases |rest|
    {
      var n, fine := socket.Write(rest);
      assert rest == rest[..n] + rest[n..];
      if !fine || n == 0 {
        assert socket.written + rest[n..] == old(socket.written) + data;
        return false;
      }
      rest := rest[n..];
    }
    ok := true;
  }
}
