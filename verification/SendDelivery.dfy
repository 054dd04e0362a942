/** What becomes of calls and of accepted packets on the outbound path of SendPath: a lone call's answer, the reason of
    every failure, delivery while the connection is open, and the end of everything after Stop. */
module SendDelivery {
  import opened Options
  import opened Counting
  import opened Binary
  import opened Framing
  import opened SendPath

  // Delivery

  /** Stop goes through its stages in order; the writer goes only with the connection, and has something to write. */
  predicate StageInv(s: Path) {
    && (s.writer.Gone? ==> s.closed)
    && (s.cancelled ==> s.closed) && (s.socketClosed ==> s.cancelled)
    && (s.writer.Writing? ==> s.writer.rest != [])
  }

  lemma PacketsHaveBytes(s: Path)
    requires Inv(s)
    ensures forall k :: 0 <= k < |s.queue| ==> s.queue[k].bytes != []
  {
    hide StreamInv, SendInv, Sum;
    var n := |s.taken|;
    assert s.accepted == s.taken + s.queue by {
      Streams(s);
    }
    forall k | 0 <= k < |s.queue| ensures s.queue[k].bytes != [] {
      assert s.queue[k] == s.accepted[n + k];
      PackedHasBytes(MessageOf(s.sends[s.accepted[n + k].sender]), s.limit);
    }
  }

  lemma Streams(s: Path)
    requires StreamInv(s)
    ensures s.accepted == s.taken + s.queue
    ensures s.writer.Selecting? ==> s.socket == Bytes(s.taken)
  {
  }

  lemma PackedHasBytes(m: Message, limit: uint32)
    ensures Pack(m, limit).Ok? ==> |Pack(m, limit).value| >= 8
  {
  }

  lemma StageStep(s: Path, a: Action)
    requires Inv(s) && StageInv(s) && Next(s, a).Some?
    ensures StageInv(Next(s, a).value)
  {
    hide Inv, Pack;
    PacketsHaveBytes(s);
  }

  lemma InvStep(s: Path, a: Action)
    requires Inv(s) && Next(s, a).Some?
    ensures Inv(Next(s, a).value) && Next(s, a).value.limit == s.limit
  {
    hide Inv, Next;
    assert [a][1..] == [];
    assert Run(s, [a]) == Next(s, a) by {
      assert Run(Next(s, a).value, []) == Next(s, a);
    }
    InvRun(s, [a]);
  }

  lemma {:induction false} StageRun(s: Path, actions: seq<Action>)
    requires Inv(s) && StageInv(s) && Run(s, actions).Some?
    ensures Inv(Run(s, actions).value) && StageInv(Run(s, actions).value)
    decreases |actions|
  {
    hide Inv, Next, StageInv;
    if actions != [] {
      InvStep(s, actions[0]);
      StageStep(s, actions[0]);
      StageRun(Next(s, actions[0]).value, actions[1..]);
    }
  }

  /** The writer's steps that do not fail. */
  predicate IsWriting(a: Action) { a.Take? || a.Write? }

  function Weight(p: Packet): nat { 1 + |p.bytes| }

  /** What the writer still has to do. */
  function Unwritten(s: Path): nat {
    Sum(s.queue, Weight) + if s.writer.Writing? then |s.writer.rest| else 0
  }

  lemma {:induction false} SumHead(packets: seq<Packet>)
    requires packets != []
    ensures Sum(packets, Weight) == Weight(packets[0]) + Sum(packets[1..], Weight)
  {
    var last := |packets| - 1;
    if last > 0 {
      SumHead(packets[..last]);
      assert packets[1..][..last - 1] == packets[..last][1..];
    } else {
      assert packets[1..] == [] && packets[..0] == [];
    }
  }

  lemma WritingFalls(s: Path, a: Action)
    requires !s.closed && IsWriting(a) && Next(s, a).Some?
    ensures var t := Next(s, a).value;
            Unwritten(t) < Unwritten(s) && !t.closed && t.accepted == s.accepted && t.sends == s.sends
  {
    hide Sum;
    if a.Take? {
      SumHead(s.queue);
    }
  }

  lemma {:induction false} WritingRun(s: Path, actions: seq<Action>)
    requires !s.closed && (forall a :: a in actions ==> IsWriting(a)) && Run(s, actions).Some?
    ensures var t := Run(s, actions).value;
            |actions| + Unwritten(t) <= Unwritten(s) && !t.closed && t.accepted == s.accepted && t.sends == s.sends
    decreases |actions|
  {
    hide Next, Unwritten;
    if actions != [] {
      WritingFalls(s, actions[0]);
      WritingRun(Next(s, actions[0]).value, actions[1..]);
    }
  }

  /** An open connection whose writer can do nothing has written everything. */
  lemma IdleMeansWritten(s: Path)
    requires Inv(s) && StageInv(s) && !s.closed
    requires Next(s, Take).None?
    requires s.writer.Writing? ==> Next(s, Write(|s.writer.rest|)).None?
    ensures s.socket == Bytes(s.accepted)
  {
    hide AcceptedInv, SendInv, StreamInv, Bytes, Sum, NextSend;
    Streams(s);
    assert s.writer.Selecting? && s.queue == [];
    assert s.taken + [] == s.taken;
  }

  /** While a connection is open its writer does not go away. And from any reachable open state the steps of the
      writer alone, none of which fails, are at most as many as it has bytes and packets to write; where they end,
      the socket has all accepted packets, and a peer reads all accepted messages as they were sent, if and only if
      each is shorter than 2^32 bytes. */
  lemma EverythingArrives(capacity: nat, limit: uint32, actions: seq<Action>, later: seq<Action>, peerLimit: uint32)
    requires Run(Init(capacity, limit), actions).Some?
    requires var s := Run(Init(capacity, limit), actions).value;
             !s.closed && (forall a :: a in later ==> IsWriting(a)) && Run(s, later).Some?
    requires peerLimit == 0 || (limit > 0 && limit <= peerLimit)
    ensures var s := Run(Init(capacity, limit), actions).value;
            var t := Run(s, later).value;
            && !s.writer.Gone? && |later| <= Unwritten(s)
            && !t.closed && t.accepted == s.accepted
            && (forall i :: 0 <= i < |s.accepted| ==> s.accepted[i].sender < |s.sends|)
            && ((forall a :: IsWriting(a) ==> Next(t, a).None?) ==>
                  t.socket == Bytes(s.accepted)
                  && (ParseAll(t.socket, peerLimit) == AcceptedMessages(s.accepted, s.sends)
                      <==> forall i :: 0 <= i < |s.accepted| ==> |s.sends[s.accepted[i].sender].data| < TWO32))
  {
    hide Inv, StageInv, Next, Unwritten, ParseAll, Bytes;
    InitInv(capacity, limit);
    InitStages(capacity, limit);
    StageRun(Init(capacity, limit), actions);
    var s := Run(Init(capacity, limit), actions).value;
    StageRun(s, later);
    WritingRun(s, later);
    Stays(s);
    RunAppend(Init(capacity, limit), actions, later);
    AllArriveExactly(capacity, limit, actions + later, peerLimit);
    var t := Run(s, later).value;
    if forall a :: IsWriting(a) ==> Next(t, a).None? {
      IdleMeansWritten(t);
    }
  }

  lemma InitStages(capacity: nat, limit: uint32)
    ensures StageInv(Init(capacity, limit))
  {
  }

  lemma Stays(s: Path)
    requires StageInv(s)
    ensures s.writer.Gone? ==> s.closed
  {
  }

  lemma {:induction false} RunAppend(s: Path, first: seq<Action>, second: seq<Action>)
    requires Run(s, first).Some?
    ensures Run(s, first + second) == Run(Run(s, first).value, second)
    decreases |first|
  {
    hide Next;
    if first == [] {
      assert first + second == second;
    } else {
      assert (first + second)[1..] == first[1..] + second;
      RunAppend(Next(s, first[0]).value, first[1..], second);
    }
  }

  /** There is such a run of the writer. */
  lemma {:induction false} WriterDelivers(s: Path) returns (later: seq<Action>)
    requires Inv(s) && StageInv(s) && !s.closed
    ensures (forall a :: a in later ==> IsWriting(a)) && Run(s, later).Some?
    ensures Run(s, later).value.socket == Bytes(s.accepted) && !Run(s, later).value.closed
    decreases Unwritten(s)
  {
    hide Inv, StageInv, Next, Unwritten, Bytes;
    var whole := if s.writer.Writing? then Write(|s.writer.rest|) else Take;
    var a := if Next(s, Take).Some? then Take else whole;
    if Next(s, a).None? {
      IdleMeansWritten(s);
      later := [];
    } else {
      WritingFalls(s, a);
      InvStep(s, a);
      StageStep(s, a);
      var rest := WriterDelivers(Next(s, a).value);
      later := [a] + rest;
    }
  }

  // The answer to a lone call

  predicate Own(a: Action, p: nat) { IsSendAction(a) && a.p == p }

  /** The context of the call ends. */
  predicate Ends(a: Action) {
    match a
    case CheckContext(_, done) => done
    case PackMessage(_, done) => done
    case CheckContextGated(_, done) => done
    case LeaveAtGate(_, byContext) => byContext
    case GiveUp(_, byContext) => byContext
    case _ => false
  }

  /** The queue takes a packet at once: it has room, or the writer waits at it. */
  predicate HasRoom(s: Path) { |s.queue| < s.capacity || (s.queue == [] && s.writer.Selecting?) }

  /** What a call that has just begun is to be answered, by the state it finds. */
  function Verdict(s: Path, p: nat): Outcome
    requires p < |s.sends|
  {
    var packed := Pack(MessageOf(s.sends[p]), s.limit);
    if s.closed then Failed(ConnectionClosed)
    else if s.gate > 0 && s.sends[p].nonblocking then Failed(QueueFull)
    else if packed.Err? then Failed(PackFailed(packed.error))
    else if !HasRoom(s) then Failed(QueueFull)
    else Sent
  }

  /** Exactly this call's packet is accepted, if its outcome is Sent; nothing else changes. */
  predicate Effect(s: Path, t: Path, p: nat, outcome: Outcome)
    requires p < |s.sends|
  {
    var m := MessageOf(s.sends[p]);
    var own := if outcome.Sent? && Pack(m, s.limit).Ok? then [Packet(p, Pack(m, s.limit).value)] else [];
    && t.queue == s.queue + own && t.accepted == s.accepted + own && t.gate == s.gate
    && t.closed == s.closed && t.writer == s.writer && t.socket == s.socket
  }

  /** Answered as it must be: by the verdict, unless the context of the call has ended; and who waits is never told
      that the queue is full. */
  predicate Fair(s: Path, p: nat, outcome: Outcome, ended: bool)
    requires p < |s.sends|
  {
    && outcome == (if ended then Failed(ContextDone) else Verdict(s, p))
    && (outcome == Failed(QueueFull) ==> s.sends[p].nonblocking)
  }

  /** How far call p, begun in s, has come in t. */
  predicate Along(s: Path, t: Path, p: nat, ended: bool) {
    && p < |s.sends| == |t.sends| && s.sends[p].pc.Entered? && t.sends[p].(pc := Entered) == s.sends[p]
    && t.limit == s.limit && t.capacity == s.capacity && t.closed == s.closed && t.cancelled == s.cancelled
    && t.writer == s.writer && t.socket == s.socket
    && (ended ==> t.sends[p].pc.Leaving? || t.sends[p].pc.Returned?)
    && var packed := Pack(MessageOf(s.sends[p]), s.limit);
       match t.sends[p].pc
       case Entered => Effect(s, t, p, Failed(QueueFull))
       case Checked => !s.closed && Effect(s, t, p, Failed(QueueFull))
       case AtGate => !s.closed && Effect(s, t, p, Failed(QueueFull))
       case Gated => Inside(s, t)
       case GateChecked => Inside(s, t)
       case Packed(bytes) => Inside(s, t) && packed == Ok(bytes)
       case Ready(bytes) => Inside(s, t) && packed == Ok(bytes)
       case Leaving(o) => s.gate == 0 && t.gate == 1 && Effect(s, t.(gate := 0), p, o) && Fair(s, p, o, ended)
       case Returned(o) => Effect(s, t, p, o) && Fair(s, p, o, ended)
  }

  predicate Inside(s: Path, t: Path) {
    !s.closed && s.gate == 0 && t.gate == 1 && t.queue == s.queue && t.accepted == s.accepted
  }

  lemma AlongStep(s: Path, t: Path, p: nat, a: Action, ended: bool)
    requires Along(s, t, p, ended) && Own(a, p) && Next(t, a).Some? && (s.cancelled ==> s.closed)
    ensures Along(s, Next(t, a).value, p, ended || Ends(a))
  {
    hide Pack;
  }

  lemma {:induction false} AlongRun(s: Path, t: Path, actions: seq<Action>, p: nat, ended: bool)
    requires Along(s, t, p, ended) && (s.cancelled ==> s.closed)
    requires (forall a :: a in actions ==> Own(a, p)) && Run(t, actions).Some?
    ensures Along(s, Run(t, actions).value, p, ended || exists a :: a in actions && Ends(a))
    decreases |actions|
  {
    hide Along, Next;
    if actions != [] {
      var more := ended || Ends(actions[0]);
      AlongStep(s, t, p, actions[0], ended);
      AlongRun(s, Next(t, actions[0]).value, actions[1..], p, more);
      assert (more || exists a :: a in actions[1..] && Ends(a)) == (ended || exists a :: a in actions && Ends(a)) by {
        assert actions == [actions[0]] + actions[1..];
      }
    }
  }

  /** A call that runs alone in a reachable state gets the answer that the state decides: closed on a closed
      connection; otherwise queue full when another call is inside the gate and it does not wait; otherwise what is
      wrong with its message; otherwise queue full when the queue has no room and it does not wait; and sent, with
      exactly its own packet enqueued, when there is room. If its context ends while it is at work, it is told so. */
  lemma AnswerIsExact(capacity: nat, limit: uint32, before: seq<Action>, actions: seq<Action>, p: nat)
    requires Run(Init(capacity, limit), before).Some?
    requires var s := Run(Init(capacity, limit), before).value;
             p < |s.sends| && s.sends[p].pc.Entered? && (forall a :: a in actions ==> Own(a, p))
             && Run(s, actions).Some? && p < |Run(s, actions).value.sends|
             && Run(s, actions).value.sends[p].pc.Returned?
    ensures var s := Run(Init(capacity, limit), before).value;
            var t := Run(s, actions).value;
            var outcome := t.sends[p].pc.outcome;
            && Effect(s, t, p, outcome)
            && outcome == (if exists a :: a in actions && Ends(a) then Failed(ContextDone) else Verdict(s, p))
            && (outcome == Failed(QueueFull) ==> s.sends[p].nonblocking)
  {
    hide Inv, StageInv, Next, Pack;
    InitInv(capacity, limit);
    InitStages(capacity, limit);
    StageRun(Init(capacity, limit), before);
    var s := Run(Init(capacity, limit), before).value;
    Closing(s);
    AlongRun(s, s, actions, p, false);
  }

  lemma Closing(s: Path)
    requires StageInv(s)
    ensures s.cancelled ==> s.closed
  {
  }

  function StepsLeft(pc: SendPc): nat {
    match pc
    case Entered => 8 case Checked => 7 case AtGate => 6 case Gated => 5 case GateChecked => 4
    case Packed(_) => 3 case Ready(_) => 2 case Leaving(_) => 1 case Returned(_) => 0
  }

  /** A call that waits for the gate or for room in the queue. */
  predicate Waits(s: Path, p: nat)
    requires p < |s.sends|
  {
    !s.sends[p].nonblocking && (s.gate > 0 || (Pack(MessageOf(s.sends[p]), s.limit).Ok? && !HasRoom(s)))
  }

  lemma AlongFacts(s: Path, t: Path, p: nat, ended: bool)
    requires Along(s, t, p, ended)
    ensures p < |s.sends| == |t.sends| && t.sends[p].nonblocking == s.sends[p].nonblocking
    ensures t.sends[p].pc.AtGate? ==> t.gate == s.gate && !s.closed
    ensures t.sends[p].pc.Ready? ==>
              && !s.closed && t.queue == s.queue && t.writer == s.writer && t.capacity == s.capacity
              && Pack(MessageOf(s.sends[p]), s.limit).Ok?
    ensures t.sends[p].pc.Leaving? ==> t.gate == 1
  {
    hide Pack;
  }

  lemma OwnMove(s: Path, t: Path, p: nat) returns (a: Action)
    requires Along(s, t, p, false) && !t.sends[p].pc.Returned? && (s.closed || !Waits(s, p))
    ensures Own(a, p) && !Ends(a) && Next(t, a).Some?
    ensures var u := Next(t, a).value; p < |u.sends| && StepsLeft(u.sends[p].pc) < StepsLeft(t.sends[p].pc)
  {
    hide Pack, Along, Waits, NextSend, StepsLeft;
    AlongFacts(s, t, p, false);
    match t.sends[p].pc
    case AtGate => a := GateMove(s, t, p);
    case Ready(_) => a := QueueMove(s, t, p);
    case _ => a := FreeMove(t, p);
  }

  /** Elsewhere a call waits for nothing. */
  lemma FreeMove(t: Path, p: nat) returns (a: Action)
    requires p < |t.sends| && !t.sends[p].pc.AtGate? && !t.sends[p].pc.Ready? && !t.sends[p].pc.Returned?
    requires t.sends[p].pc.Leaving? ==> t.gate > 0
    ensures Own(a, p) && !Ends(a) && NextSend(t, a).Some?
    ensures var u := NextSend(t, a).value; p < |u.sends| && StepsLeft(u.sends[p].pc) < StepsLeft(t.sends[p].pc)
  {
    hide Pack;
    match t.sends[p].pc
    case Entered => a := CheckClosed(p);
    case Checked => a := CheckContext(p, false);
    case Gated => a := CheckClosedGated(p);
    case GateChecked => a := PackMessage(p, false);
    case Packed(_) => a := CheckContextGated(p, false);
    case Leaving(_) => a := ReleaseGate(p);
  }

  lemma GateMove(s: Path, t: Path, p: nat) returns (a: Action)
    requires p < |s.sends| == |t.sends| && t.sends[p].nonblocking == s.sends[p].nonblocking && !Waits(s, p)
    requires t.sends[p].pc.AtGate? && t.gate == s.gate
    ensures a == EnterGate(p) || a == LeaveAtGate(p, false)
    ensures NextSend(t, a).Some? && p < |NextSend(t, a).value.sends|
    ensures StepsLeft(NextSend(t, a).value.sends[p].pc) < StepsLeft(t.sends[p].pc)
  {
    hide Pack;
    a := if t.gate == 0 then EnterGate(p) else LeaveAtGate(p, false);
  }

  lemma QueueMove(s: Path, t: Path, p: nat) returns (a: Action)
    requires p < |s.sends| == |t.sends| && t.sends[p].nonblocking == s.sends[p].nonblocking && !Waits(s, p)
    requires t.sends[p].pc.Ready? && t.queue == s.queue && t.writer == s.writer && t.capacity == s.capacity
    requires Pack(MessageOf(s.sends[p]), s.limit).Ok?
    ensures a == Enqueue(p) || a == GiveUp(p, false)
    ensures NextSend(t, a).Some? && p < |NextSend(t, a).value.sends|
    ensures StepsLeft(NextSend(t, a).value.sends[p].pc) < StepsLeft(t.sends[p].pc)
  {
    hide Pack;
    a := if HasRoom(t) then Enqueue(p) else GiveUp(p, false);
  }

  lemma {:induction false} AnswerReached(s: Path, t: Path, p: nat) returns (actions: seq<Action>)
    requires Along(s, t, p, false) && (s.closed || !Waits(s, p)) && (s.cancelled ==> s.closed)
    ensures (forall a :: a in actions ==> Own(a, p)) && Run(t, actions).Some?
    ensures p < |Run(t, actions).value.sends| && Run(t, actions).value.sends[p].pc == Returned(Verdict(s, p))
    decreases StepsLeft(t.sends[p].pc)
  {
    hide Next, Verdict, StepsLeft, Waits;
    if t.sends[p].pc.Returned? {
      actions := [];
    } else {
      hide Along;
      var a := OwnMove(s, t, p);
      AlongStep(s, t, p, a, false);
      var rest := AnswerReached(s, Next(t, a).value, p);
      actions := [a] + rest;
    }
  }

  /** And unless it waits for others, its own steps take it there. */
  lemma CallReturns(s: Path, p: nat) returns (actions: seq<Action>)
    requires StageInv(s) && p < |s.sends| && s.sends[p].pc.Entered? && (s.closed || !Waits(s, p))
    ensures (forall a :: a in actions ==> Own(a, p)) && Run(s, actions).Some?
    ensures p < |Run(s, actions).value.sends| && Run(s, actions).value.sends[p].pc == Returned(Verdict(s, p))
  {
    hide Next, Verdict, Waits, Pack;
    assert Along(s, s, p, false);
    actions := AnswerReached(s, s, p);
  }

  /** In any interleaving an error has its reason in the state in which it arises: the connection is closed; the
      gate is taken or the queue has no room, and the call does not wait; the message cannot be packed; or the
      context of the call has ended. */
  lemma FailureReasons(s: Path, a: Action, p: nat, error: SendError)
    requires Inv(s) && StageInv(s) && Next(s, a).Some? && p < |s.sends|
    requires !IsAnswered(s.sends[p].pc, Failed(error)) && p < |Next(s, a).value.sends|
    requires IsAnswered(Next(s, a).value.sends[p].pc, Failed(error))
    ensures match error
            case ConnectionClosed => s.closed
            case QueueFull => s.sends[p].nonblocking && (s.gate > 0 || !HasRoom(s))
            case PackFailed(e) => Pack(MessageOf(s.sends[p]), s.limit) == Err(e)
            case ContextDone => Ends(a)
  {
    hide Pack, Inv, NextSend, CanSend;
    if IsSendAction(a) {
      OthersStay(s, a);
      SendReasons(s, a, p, error);
    }
  }

  lemma OthersStay(s: Path, a: Action)
    requires IsSendAction(a) && a.p < |s.sends| && NextSend(s, a).Some?
    ensures NextSend(s, a).value.sends == s.sends[a.p := NextSend(s, a).value.sends[a.p]]
  {
    hide Pack;
  }

  lemma SendReasons(s: Path, a: Action, p: nat, error: SendError)
    requires StageInv(s) && IsSendAction(a) && a.p == p < |s.sends| && NextSend(s, a).Some?
    requires !IsAnswered(s.sends[p].pc, Failed(error)) && p < |NextSend(s, a).value.sends|
    requires IsAnswered(NextSend(s, a).value.sends[p].pc, Failed(error))
    ensures match error
            case ConnectionClosed => s.closed
            case QueueFull => s.sends[p].nonblocking && (s.gate > 0 || !HasRoom(s))
            case PackFailed(e) => Pack(MessageOf(s.sends[p]), s.limit) == Err(e)
            case ContextDone => Ends(a)
  {
    hide Pack;
  }

  predicate IsAnswered(pc: SendPc, outcome: Outcome) { pc == Leaving(outcome) || pc == Returned(outcome) }

  // After Stop

  /** A call that has not been past the check inside the gate, or has failed. */
  predicate NotSent(pc: SendPc) {
    match pc
    case Entered => true
    case Checked => true
    case AtGate => true
    case Gated => true
    case Leaving(o) => o.Failed?
    case Returned(o) => o.Failed?
    case _ => false
  }

  lemma NotSentStep(s: Path, a: Action, p: nat)
    requires s.closed && p < |s.sends| && NotSent(s.sends[p].pc) && Next(s, a).Some?
    ensures var t := Next(s, a).value; t.closed && p < |t.sends| && NotSent(t.sends[p].pc)
  {
    hide Pack, NextSend, CanSend;
    if IsSendAction(a) {
      NotSentSend(s, a, p);
    }
  }

  lemma NotSentSend(s: Path, a: Action, p: nat)
    requires s.closed && p < |s.sends| && NotSent(s.sends[p].pc)
    requires IsSendAction(a) && a.p < |s.sends| && NextSend(s, a).Some?
    ensures var t := NextSend(s, a).value; t.closed && p < |t.sends| && NotSent(t.sends[p].pc)
  {
    hide Pack, CanSend;
  }

  /** No call that comes through the gate after the connection was closed is sent, whatever happens later. */
  lemma {:induction false} NothingSentOnceClosed(s: Path, actions: seq<Action>, p: nat)
    requires s.closed && p < |s.sends| && NotSent(s.sends[p].pc) && Run(s, actions).Some?
    ensures var t := Run(s, actions).value; p < |t.sends| && !DidSend(t.sends[p])
    decreases |actions|
  {
    hide Next;
    if actions != [] {
      NotSentStep(s, actions[0], p);
      NothingSentOnceClosed(Next(s, actions[0]).value, actions[1..], p);
    }
  }

  /** Once Stop has closed the socket, and where neither the writer nor a call can move, the writer is gone and every
      call has returned: nobody keeps waiting, with or without a context. */
  lemma StopEndsAll(capacity: nat, limit: uint32, actions: seq<Action>)
    requires Run(Init(capacity, limit), actions).Some?
    requires var s := Run(Init(capacity, limit), actions).value;
             s.socketClosed
             && forall a :: (IsSendAction(a) && !Ends(a)) || a.Take? || a.WriterExit? || a == WriteFails(0) ==>
                  Next(s, a).None?
    ensures var s := Run(Init(capacity, limit), actions).value;
            s.writer.Gone? && forall p :: 0 <= p < |s.sends| ==> s.sends[p].pc.Returned?
  {
    hide Inv, StageInv, Next;
    InitInv(capacity, limit);
    InitStages(capacity, limit);
    StageRun(Init(capacity, limit), actions);
    var s := Run(Init(capacity, limit), actions).value;
    if !s.writer.Gone? {
      WriterEnds(s);
    }
    forall p | 0 <= p < |s.sends| ensures s.sends[p].pc.Returned? {
      if !s.sends[p].pc.Returned? {
        var a := CallEnds(s, p);
      }
    }
  }

  lemma WriterEnds(s: Path)
    requires s.socketClosed && !s.writer.Gone?
    ensures Next(s, WriterExit).Some? || Next(s, WriteFails(0)).Some?
  {
  }

  lemma CallEnds(s: Path, p: nat) returns (a: Action)
    requires Inv(s) && StageInv(s) && s.socketClosed && p < |s.sends| && !s.sends[p].pc.Returned?
    ensures IsSendAction(a) && !Ends(a) && Next(s, a).Some?
  {
    hide AcceptedInv, SendInv, StreamInv, Pack, Sum;
    SumBounds(s.sends, p, Holds);
    a := match s.sends[p].pc
      case Entered => CheckClosed(p)
      case Checked => CheckContext(p, false)
      case AtGate => if s.gate == 0 then EnterGate(p) else LeaveAtGate(p, false)
      case Gated => CheckClosedGated(p)
      case GateChecked => PackMessage(p, false)
      case Packed(_) => CheckContextGated(p, false)
      case Ready(_) => if CanSend(s) then Enqueue(p) else GiveUp(p, false)
      case _ => ReleaseGate(p);
  }

  /** Stop itself waits for nothing. */
  lemma StopCloses(s: Path)
    ensures var run := Run(s, [MarkClosed, Cancel, CloseSocket]);
            run.Some? && run.value.closed && run.value.cancelled && run.value.socketClosed
  {
    var a := Next(s, MarkClosed).value;
    var b := Next(a, Cancel).value;
    var c := Next(b, CloseSocket).value;
    assert [MarkClosed, Cancel, CloseSocket][1..] == [Cancel, CloseSocket];
    assert [Cancel, CloseSocket][1..] == [CloseSocket] && [CloseSocket][1..] == [];
    assert Run(b, [CloseSocket]) == Run(c, []);
    assert Run(a, [Cancel, CloseSocket]) == Run(b, [CloseSocket]);
  }
}
