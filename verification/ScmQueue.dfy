/**
 Descriptor passing over a local socket (fs/sock.c): the sets of descriptors are queued beside the host
 socket, which carries only a placeholder for each. Any number of senders and receivers of one peer.
 */
module ScmQueue {

  type Tid = nat
  type SetId = nat

  datatype Option<+T> = None | Some(value: T)

  /** What the host socket holds: a message with a placeholder, which was sent for `set`, or without. */
  datatype Message = Placeholder(set_: SetId) | Plain

  /** sys_sendmsg from scm_send_lock on. */
  datatype Sender = Outside | Locked(s: SetId) | Queued(s: SetId) | Failed(s: SetId) | Finishing

  /** `wants` is what the receiver between the host's recvmsg and the pop ought to get; whether the guest's
      buffers can be written decides if it comes to the pop. */
  datatype Receiver = Waiting | Received(wants: SetId, writable: bool)

  datatype Delivery = Delivery(wants: SetId, got: Option<SetId>)

  /** `sent` and `delivered` only record history; `next` names the sets. */
  datatype State = State(queue: seq<SetId>, wire: seq<Message>, holder: Option<Tid>,
                         senders: map<Tid, Sender>, receivers: map<Tid, Receiver>,
                         next: SetId, sent: seq<SetId>, delivered: seq<Delivery>)

  datatype Step =
    | Lock(t: Tid)
    | NoPeer(t: Tid)
    | Enqueue(t: Tid)
    | HostSend(t: Tid)
    | HostRefuses(t: Tid)
    | Unqueue(t: Tid)
    | Unlock(t: Tid)
    | SendPlain
    | HostReceive(t: Tid, writable: bool)
    | HostPeek(t: Tid)
    | ReceiveWithoutControl(t: Tid)
    | CopyFaults(t: Tid)
    | Pop(t: Tid)

  function SenderOf(s: State, t: Tid): Sender { if t in s.senders then s.senders[t] else Outside }

  function ReceiverOf(s: State, t: Tid): Receiver { if t in s.receivers then s.receivers[t] else Waiting }

  function Remove(queue: seq<SetId>, x: SetId): seq<SetId> {
    if queue == [] then [] else if queue[0] == x then queue[1..] else [queue[0]] + Remove(queue[1..], x)
  }

  predicate Enabled(s: State, step: Step) {
    match step
    case Lock(t) => SenderOf(s, t) == Outside && s.holder == None
    case NoPeer(t) => SenderOf(s, t).Locked?
    case Enqueue(t) => SenderOf(s, t).Locked?
    case HostSend(t) => SenderOf(s, t).Queued?
    case HostRefuses(t) => SenderOf(s, t).Queued?
    case Unqueue(t) => SenderOf(s, t).Failed?
    case Unlock(t) => SenderOf(s, t).Finishing?
    case SendPlain => true
    case HostReceive(t, _) => ReceiverOf(s, t) == Waiting && s.wire != []
    case HostPeek(t) => ReceiverOf(s, t) == Waiting && s.wire != []
    case ReceiveWithoutControl(t) => ReceiverOf(s, t) == Waiting && s.wire != []
    case CopyFaults(t) => ReceiverOf(s, t).Received? && !ReceiverOf(s, t).writable
    case Pop(t) => ReceiverOf(s, t).Received? && ReceiverOf(s, t).writable
  }

  function Next(s: State, step: Step): State
    requires Enabled(s, step)
  {
    match step
    case Lock(t) => s.(holder := Some(t), senders := s.senders[t := Locked(s.next)], next := s.next + 1)
    case NoPeer(t) => s.(senders := s.senders[t := Finishing])
    case Enqueue(t) => s.(queue := s.queue + [SenderOf(s, t).s], senders := s.senders[t := Queued(SenderOf(s, t).s)])
    case HostSend(t) =>
      s.(wire := s.wire + [Placeholder(SenderOf(s, t).s)], senders := s.senders[t := Finishing], sent := s.sent + [SenderOf(s, t).s])
    case HostRefuses(t) => s.(senders := s.senders[t := Failed(SenderOf(s, t).s)])
    case Unqueue(t) => s.(queue := Remove(s.queue, SenderOf(s, t).s), senders := s.senders[t := Finishing])
    case Unlock(t) => s.(holder := None, senders := s.senders[t := Outside])
    case SendPlain => s.(wire := s.wire + [Plain])
    case HostReceive(t, writable) =>
      if s.wire[0].Plain? then s.(wire := s.wire[1..])
      else s.(wire := s.wire[1..], receivers := s.receivers[t := Received(s.wire[0].set_, writable)])
    case HostPeek(t) => s
    case ReceiveWithoutControl(t) => s.(wire := s.wire[1..])
    case CopyFaults(t) => s.(receivers := s.receivers[t := Waiting])
    case Pop(t) =>
      var got := if s.queue == [] then None else Some(s.queue[0]);
      s.(queue := if s.queue == [] then [] else s.queue[1..], receivers := s.receivers[t := Waiting],
         delivered := s.delivered + [Delivery(ReceiverOf(s, t).wants, got)])
  }

  /** Messages with descriptors are read one receiver at a time, with a control buffer, and into memory
      that can be written. */
  ghost predicate Careful(s: State, step: Step) {
    && (step.HostReceive? && s.wire != [] && s.wire[0].Placeholder? ==> step.writable && forall t: Tid :: ReceiverOf(s, t) == Waiting)
    && (step.ReceiveWithoutControl? ==> s.wire == [] || s.wire[0].Plain?)
  }

  // ---------------------------------------------------------------------------------------------
  // The order of the queue is the order of the wire
  // ---------------------------------------------------------------------------------------------

  /** The sets the placeholders on the wire stand for. */
  function OnWire(wire: seq<Message>): seq<SetId> {
    if wire == [] then [] else (if wire[0].Plain? then [] else [wire[0].set_]) + OnWire(wire[1..])
  }

  /** Queued by the sender that holds the lock, and not on the wire yet, or never to be. */
  function Pending(s: State): seq<SetId> {
    if s.holder.Some? && (SenderOf(s, s.holder.value).Queued? || SenderOf(s, s.holder.value).Failed?)
    then [SenderOf(s, s.holder.value).s] else []
  }

  /** What a receiver has taken off the wire and not popped. */
  ghost predicate InFlight(s: State, flight: seq<SetId>) {
    || (flight == [] && forall t: Tid :: ReceiverOf(s, t) == Waiting)
    || (|flight| == 1 && exists t: Tid :: ReceiverOf(s, t) == Received(flight[0], true)
                                          && forall u: Tid :: u != t ==> ReceiverOf(s, u) == Waiting)
  }

  ghost predicate HolderOk(s: State) {
    && (forall t: Tid :: SenderOf(s, t) != Outside ==> s.holder == Some(t))
    && (s.holder.Some? ==> SenderOf(s, s.holder.value) != Outside)
    && (forall t: Tid :: SenderOf(s, t).Locked? || SenderOf(s, t).Queued? || SenderOf(s, t).Failed? ==>
          SenderOf(s, t).s < s.next && SenderOf(s, t).s !in s.sent)
    && (forall i :: 0 <= i < |s.sent| ==> s.sent[i] < s.next) && Distinct(s.sent)
  }

  predicate Distinct(sets: seq<SetId>) {
    forall i, j :: 0 <= i < j < |sets| ==> sets[i] != sets[j]
  }

  /** The queue, when `front` is ahead of what the wire stands for. */
  predicate QueueIs(s: State, front: seq<SetId>) {
    s.queue == front + OnWire(s.wire) + Pending(s)
  }

  function Wants(delivered: seq<Delivery>): seq<SetId> {
    if delivered == [] then [] else Wants(delivered[..|delivered| - 1]) + [delivered[|delivered| - 1].wants]
  }

  predicate Matched(delivered: seq<Delivery>) {
    forall i :: 0 <= i < |delivered| ==> delivered[i].got == Some(delivered[i].wants)
  }

  ghost predicate Ordered(s: State, flight: seq<SetId>) {
    && InFlight(s, flight) && QueueIs(s, flight)
    && s.sent == Wants(s.delivered) + flight + OnWire(s.wire) && Matched(s.delivered)
  }

  ghost predicate Inv(s: State) {
    HolderOk(s) && exists flight :: Ordered(s, flight)
  }

  lemma {:induction false} OnWireAppend(wire: seq<Message>, m: Message)
    ensures OnWire(wire + [m]) == OnWire(wire) + (if m.Plain? then [] else [m.set_])
  {
    if wire == [] {
      assert wire + [m] == [m] && [m][1..] == [];
    } else {
      OnWireAppend(wire[1..], m);
      assert (wire + [m])[1..] == wire[1..] + [m];
    }
  }

  /** Taking the last element out again. */
  lemma {:induction false} RemoveLast(queue: seq<SetId>, x: SetId)
    requires x !in queue
    ensures Remove(queue + [x], x) == queue
  {
    if queue != [] {
      RemoveLast(queue[1..], x);
      assert (queue + [x])[1..] == queue[1..] + [x];
    } else {
      assert [x][1..] == [];
    }
  }

  /** Only the senders' side changed. */
  lemma {:induction false} SameReceivers(s: State, after: State, flight: seq<SetId>)
    requires InFlight(s, flight) && after.receivers == s.receivers
    ensures InFlight(after, flight)
  {
    assert forall t: Tid :: ReceiverOf(after, t) == ReceiverOf(s, t);
  }

  /** Only the receivers' side changed. */
  lemma {:induction false} SameSenders(s: State, after: State)
    requires HolderOk(s) && after.senders == s.senders && after.holder == s.holder && after.sent == s.sent && after.next == s.next
    ensures HolderOk(after) && Pending(after) == Pending(s)
  {
    assert forall t: Tid :: SenderOf(after, t) == SenderOf(s, t);
  }

  lemma {:induction false} LockKeepsHolder(s: State, t: Tid)
    requires HolderOk(s) && Enabled(s, Lock(t))
    ensures HolderOk(Next(s, Lock(t))) && Pending(s) == [] && Pending(Next(s, Lock(t))) == []
  {
    var after := Next(s, Lock(t));
    assert forall u: Tid :: u != t ==> SenderOf(after, u) == SenderOf(s, u);
  }

  /** The holder's own moves. */
  lemma {:induction false} HolderMoves(s: State, step: Step)
    requires HolderOk(s) && Enabled(s, step)
    requires step.NoPeer? || step.Enqueue? || step.HostSend? || step.HostRefuses? || step.Unqueue? || step.Unlock?
    ensures HolderOk(Next(s, step)) && s.holder == Some(step.t)
    ensures Pending(s) == if step.HostSend? || step.HostRefuses? || step.Unqueue? then [SenderOf(s, step.t).s] else []
    ensures Pending(Next(s, step)) == if step.Enqueue? || step.HostRefuses? then [SenderOf(s, step.t).s] else []
  {
    var after := Next(s, step);
    assert s.holder == Some(step.t);
    assert forall u: Tid :: u != step.t ==> SenderOf(after, u) == SenderOf(s, u) && SenderOf(s, u) == Outside;
  }

  lemma {:induction false} SenderStepKeepsQueue(s: State, step: Step, front: seq<SetId>)
    requires HolderOk(s) && QueueIs(s, front) && Enabled(s, step)
    requires step.Lock? || step.NoPeer? || step.Enqueue? || step.HostRefuses? || step.Unlock?
    ensures HolderOk(Next(s, step)) && QueueIs(Next(s, step), front)
  {
    if step.Lock? { LockKeepsHolder(s, step.t); } else { HolderMoves(s, step); }
    if step.Enqueue? { NoTail(front + OnWire(s.wire), SenderOf(s, step.t).s); }
  }

  lemma NoTail(a: seq<SetId>, x: SetId)
    ensures a + [] + [x] == a + [x] && a + [] == a
  {}

  lemma {:induction false} HostSendKeepsQueue(s: State, t: Tid, front: seq<SetId>)
    requires HolderOk(s) && QueueIs(s, front) && Enabled(s, HostSend(t))
    ensures HolderOk(Next(s, HostSend(t))) && QueueIs(Next(s, HostSend(t)), front)
    ensures OnWire(Next(s, HostSend(t)).wire) == OnWire(s.wire) + [SenderOf(s, t).s]
  {
    var x := SenderOf(s, t).s;
    HolderMoves(s, HostSend(t));
    OnWireAppend(s.wire, Placeholder(x));
    SentOrder(front, OnWire(s.wire), x, []);
  }

  lemma SentOrder(flight: seq<SetId>, wire: seq<SetId>, x: SetId, wants: seq<SetId>)
    ensures flight + wire + [x] == flight + (wire + [x]) + []
    ensures wants + flight + wire + [x] == wants + flight + (wire + [x])
  {}

  lemma {:induction false} UnqueueKeepsQueue(s: State, t: Tid, front: seq<SetId>)
    requires HolderOk(s) && QueueIs(s, front) && Enabled(s, Unqueue(t)) && SenderOf(s, t).s !in front + OnWire(s.wire)
    ensures HolderOk(Next(s, Unqueue(t))) && QueueIs(Next(s, Unqueue(t)), front)
  {
    var x := SenderOf(s, t).s;
    HolderMoves(s, Unqueue(t));
    RemoveLast(front + OnWire(s.wire), x);
    NoTail(front + OnWire(s.wire), x);
  }

  lemma {:induction false} DropPlainKeepsQueue(s: State, step: Step, front: seq<SetId>)
    requires HolderOk(s) && QueueIs(s, front) && Enabled(s, step)
    requires (step.HostReceive? || step.ReceiveWithoutControl?) && s.wire[0].Plain?
    ensures HolderOk(Next(s, step)) && QueueIs(Next(s, step), front) && OnWire(Next(s, step).wire) == OnWire(s.wire)
  {
    var after := Next(s, step);
    SameSenders(s, after);
    assert OnWire(s.wire) == OnWire(after.wire) by { assert [] + OnWire(after.wire) == OnWire(after.wire); }
  }

  lemma {:induction false} SenderStepKeepsInv(s: State, step: Step, flight: seq<SetId>)
    requires HolderOk(s) && Ordered(s, flight) && Enabled(s, step)
    requires step.Lock? || step.NoPeer? || step.Enqueue? || step.HostRefuses? || step.Unlock?
    ensures HolderOk(Next(s, step)) && Ordered(Next(s, step), flight)
  {
    SameReceivers(s, Next(s, step), flight);
    SenderStepKeepsQueue(s, step, flight);
  }

  lemma {:induction false} HostSendKeepsInv(s: State, t: Tid, flight: seq<SetId>)
    requires HolderOk(s) && Ordered(s, flight) && Enabled(s, HostSend(t))
    ensures HolderOk(Next(s, HostSend(t))) && Ordered(Next(s, HostSend(t)), flight)
  {
    SameReceivers(s, Next(s, HostSend(t)), flight);
    HostSendKeepsQueue(s, t, flight);
    SentOrder(flight, OnWire(s.wire), SenderOf(s, t).s, Wants(s.delivered));
  }

  lemma {:induction false} UnqueueKeepsInv(s: State, t: Tid, flight: seq<SetId>)
    requires HolderOk(s) && Ordered(s, flight) && Enabled(s, Unqueue(t))
    ensures HolderOk(Next(s, Unqueue(t))) && Ordered(Next(s, Unqueue(t)), flight)
  {
    SameReceivers(s, Next(s, Unqueue(t)), flight);
    NotSent(Wants(s.delivered), flight, OnWire(s.wire), SenderOf(s, t).s);
    UnqueueKeepsQueue(s, t, flight);
  }

  lemma NotSent(wants: seq<SetId>, flight: seq<SetId>, wire: seq<SetId>, x: SetId)
    requires x !in wants + flight + wire
    ensures x !in flight + wire
  {
    assert wants + flight + wire == wants + (flight + wire);
  }

  lemma {:induction false} PlainKeepsInv(s: State, flight: seq<SetId>)
    requires HolderOk(s) && Ordered(s, flight)
    ensures HolderOk(Next(s, SendPlain)) && Ordered(Next(s, SendPlain), flight)
  {
    var after := Next(s, SendPlain);
    SameReceivers(s, after, flight);
    SameSenders(s, after);
    OnWireAppend(s.wire, Plain);
    NoTail(OnWire(s.wire), 0);
  }

  lemma {:induction false} DropPlainKeepsInv(s: State, step: Step, flight: seq<SetId>)
    requires HolderOk(s) && Ordered(s, flight) && Enabled(s, step)
    requires (step.HostReceive? || step.ReceiveWithoutControl?) && s.wire[0].Plain?
    ensures HolderOk(Next(s, step)) && Ordered(Next(s, step), flight)
  {
    SameReceivers(s, Next(s, step), flight);
    DropPlainKeepsQueue(s, step, flight);
  }

  lemma {:induction false} ReceiveKeepsInv(s: State, t: Tid, flight: seq<SetId>)
    requires HolderOk(s) && Ordered(s, flight) && Enabled(s, HostReceive(t, true)) && Careful(s, HostReceive(t, true)) && s.wire[0].Placeholder?
    ensures HolderOk(Next(s, HostReceive(t, true))) && Ordered(Next(s, HostReceive(t, true)), [s.wire[0].set_])
  {
    var after := Next(s, HostReceive(t, true));
    SameSenders(s, after);
    assert flight == [];
    assert ReceiverOf(after, t) == Received(s.wire[0].set_, true);
    assert forall u: Tid :: u != t ==> ReceiverOf(after, u) == ReceiverOf(s, u);
    Shift(Wants(s.delivered), OnWire(after.wire), s.wire[0].set_, Pending(s));
  }

  lemma Shift(a: seq<SetId>, b: seq<SetId>, x: SetId, c: seq<SetId>)
    ensures a + [] + ([x] + b) == a + [x] + b && [] + ([x] + b) + c == [x] + b + c
  {}

  lemma {:induction false} PopKeepsInv(s: State, t: Tid, flight: seq<SetId>)
    requires HolderOk(s) && Ordered(s, flight) && Enabled(s, Pop(t))
    ensures HolderOk(Next(s, Pop(t))) && Ordered(Next(s, Pop(t)), [])
  {
    var x := ReceiverOf(s, t).wants;
    SameSenders(s, Next(s, Pop(t)));
    PopReceivers(s, t, flight);
    Popped(s.queue, x, OnWire(s.wire), Pending(s));
    Delivered(s.delivered, x, OnWire(s.wire));
  }

  lemma {:induction false} PopReceivers(s: State, t: Tid, flight: seq<SetId>)
    requires InFlight(s, flight) && Enabled(s, Pop(t))
    ensures flight == [ReceiverOf(s, t).wants] && InFlight(Next(s, Pop(t)), [])
  {
    var after := Next(s, Pop(t));
    assert |flight| == 1 && flight[0] == ReceiverOf(s, t).wants;
    assert forall u: Tid :: ReceiverOf(after, u) == if u == t then Waiting else ReceiverOf(s, u);
  }

  lemma Popped(queue: seq<SetId>, x: SetId, b: seq<SetId>, c: seq<SetId>)
    requires queue == [x] + b + c
    ensures queue != [] && queue[0] == x && queue[1..] == [] + b + c
  {}

  lemma {:induction false} Delivered(delivered: seq<Delivery>, x: SetId, wire: seq<SetId>)
    ensures var after := delivered + [Delivery(x, Some(x))];
            Wants(delivered) + [x] + wire == Wants(after) + [] + wire && (Matched(delivered) ==> Matched(after))
  {
    var after := delivered + [Delivery(x, Some(x))];
    assert after[..|delivered|] == delivered;
    assert Wants(after) == Wants(delivered) + [x];
    assert Wants(after) + [] == Wants(after);
  }

  lemma {:induction false} AllWritable(s: State, flight: seq<SetId>)
    requires InFlight(s, flight)
    ensures forall t: Tid :: ReceiverOf(s, t).Received? ==> ReceiverOf(s, t).writable
  {}

  lemma {:induction false} StepKeepsInv(s: State, step: Step)
    requires Inv(s) && Enabled(s, step) && Careful(s, step)
    ensures Inv(Next(s, step))
  {
    var flight :| Ordered(s, flight);
    AllWritable(s, flight);
    match step
    case HostSend(t) => HostSendKeepsInv(s, t, flight);
    case Unqueue(t) => UnqueueKeepsInv(s, t, flight);
    case SendPlain => PlainKeepsInv(s, flight);
    case HostReceive(t, _) =>
      if s.wire[0].Plain? { DropPlainKeepsInv(s, step, flight); } else { ReceiveKeepsInv(s, t, flight); }
    case CopyFaults(t) => assert false;
    case ReceiveWithoutControl(t) => DropPlainKeepsInv(s, step, flight);
    case HostPeek(t) =>
    case Pop(t) => PopKeepsInv(s, t, flight);
    case _ => SenderStepKeepsInv(s, step, flight);
  }

  // ---------------------------------------------------------------------------------------------
  // Runs
  // ---------------------------------------------------------------------------------------------

  predicate Start(s: State) {
    s == State([], [], None, map[], map[], 0, [], [])
  }

  predicate RunEnabled(s: State, steps: seq<Step>)
    decreases |steps|
  {
    steps == [] || (Enabled(s, steps[0]) && RunEnabled(Next(s, steps[0]), steps[1..]))
  }

  ghost predicate RunCareful(s: State, steps: seq<Step>)
    requires RunEnabled(s, steps)
    decreases |steps|
  {
    steps == [] || (Careful(s, steps[0]) && RunCareful(Next(s, steps[0]), steps[1..]))
  }

  function End(s: State, steps: seq<Step>): State
    requires RunEnabled(s, steps)
    decreases |steps|
  {
    if steps == [] then s else End(Next(s, steps[0]), steps[1..])
  }

  lemma {:induction false} RunKeepsInv(s: State, steps: seq<Step>)
    requires Inv(s) && RunEnabled(s, steps) && RunCareful(s, steps)
    ensures Inv(End(s, steps))
    decreases |steps|
  {
    if steps != [] {
      StepKeepsInv(s, steps[0]);
      RunKeepsInv(Next(s, steps[0]), steps[1..]);
    }
  }

  lemma {:induction false} WantsAt(delivered: seq<Delivery>, k: nat)
    requires k < |delivered|
    ensures |Wants(delivered)| == |delivered| && Wants(delivered)[k] == delivered[k].wants
    decreases |delivered|
  {
    if k < |delivered| - 1 { WantsAt(delivered[..|delivered| - 1], k); } else { WantsLength(delivered); WantsLength(delivered[..k]); }
  }

  lemma {:induction false} WantsLength(delivered: seq<Delivery>)
    ensures |Wants(delivered)| == |delivered|
    decreases |delivered|
  {
    if delivered != [] { WantsLength(delivered[..|delivered| - 1]); }
  }

  /** Main result: the k-th placeholder received comes with the k-th set of descriptors sent, whatever the
      senders do at the same time, sends that fail and peeks included. */
  lemma KthReceivedIsKthSent(s: State, steps: seq<Step>, k: nat)
    requires Start(s) && RunEnabled(s, steps) && RunCareful(s, steps) && k < |End(s, steps).delivered|
    ensures var end := End(s, steps); k < |end.sent| && end.delivered[k].got == Some(end.sent[k])
  {
    assert Ordered(s, []);
    RunKeepsInv(s, steps);
    var end := End(s, steps);
    var flight :| Ordered(end, flight);
    WantsAt(end.delivered, k);
  }

  lemma {:induction false} RunAppend(s: State, a: seq<Step>, b: seq<Step>)
    requires RunEnabled(s, a) && RunEnabled(End(s, a), b)
    ensures RunEnabled(s, a + b) && End(s, a + b) == End(End(s, a), b)
    decreases |a|
  {
    if a == [] {
      assert a + b == b;
    } else {
      RunAppend(Next(s, a[0]), a[1..], b);
      assert (a + b)[1..] == a[1..] + b;
    }
  }

  lemma Then(s: State, steps: seq<Step>, step: Step) returns (longer: seq<Step>)
    requires RunEnabled(s, steps) && Enabled(End(s, steps), step)
    ensures RunEnabled(s, longer) && End(s, longer) == Next(End(s, steps), step)
  {
    longer := steps + [step];
    assert [step][1..] == [];
    RunAppend(s, steps, [step]);
  }

  // ---------------------------------------------------------------------------------------------
  // The assumption is exact
  // ---------------------------------------------------------------------------------------------

  /** Whatever comes next, as long as it is careful, hands every set to the message it was sent with. */
  ghost predicate StaysMatched(s: State) {
    forall more :: RunEnabled(s, more) && RunCareful(s, more) ==> Matched(End(s, more).delivered)
  }

  lemma First(s: State, step: Step, rest: seq<Step>) returns (all: seq<Step>)
    requires Enabled(s, step) && Careful(s, step) && RunEnabled(Next(s, step), rest) && RunCareful(Next(s, step), rest)
    ensures RunEnabled(s, all) && RunCareful(s, all) && End(s, all) == End(Next(s, step), rest)
  {
    all := [step] + rest;
    assert all[0] == step && all[1..] == rest;
  }

  /** The placeholder of x is gone and x is still in the queue, behind what is in flight. */
  ghost predicate Slipped(s: State, flight: seq<SetId>, x: SetId) {
    HolderOk(s) && InFlight(s, flight) && QueueIs(s, flight + [x]) && x in s.sent && x !in OnWire(s.wire)
  }

  /** Towards the next message with descriptors: receive what is on the wire, or let a sender finish. */
  function Move(s: State): Step {
    if s.wire != [] then HostReceive(0, true)
    else if s.holder.None? then Lock(0)
    else match SenderOf(s, s.holder.value)
      case Locked(_) => Enqueue(s.holder.value)
      case Queued(_) => HostSend(s.holder.value)
      case Failed(_) => Unqueue(s.holder.value)
      case _ => Unlock(s.holder.value)
  }

  function Distance(s: State): nat {
    if s.holder.None? then 3
    else match SenderOf(s, s.holder.value)
      case Queued(_) => 1
      case Locked(_) => 2
      case Failed(_) => 5
      case _ => 4
  }

  lemma {:induction false} MoveStaysBehind(s: State, x: SetId)
    requires Slipped(s, [], x) && (s.wire != [] ==> s.wire[0].Plain?)
    ensures var step := Move(s);
            && Enabled(s, step) && Careful(s, step) && Slipped(Next(s, step), [], x)
            && OnWire(Next(s, step).wire) == OnWire(s.wire) + (if step.HostSend? then [SenderOf(s, step.t).s] else [])
            && (if step.HostReceive? then |Next(s, step).wire| < |s.wire| else Next(s, step).wire == s.wire || step.HostSend?)
  {
    var step := Move(s);
    SameReceivers(s, Next(s, step), []);
    NoTail(OnWire(s.wire), 0);
    if step.HostReceive? {
      DropPlainKeepsQueue(s, step, [] + [x]);
    } else if step.HostSend? {
      HostSendKeepsQueue(s, step.t, [] + [x]);
    } else if step.Unqueue? {
      UnqueueKeepsQueue(s, step.t, [] + [x]);
    } else {
      SenderStepKeepsQueue(s, step, [] + [x]);
    }
  }

  /** Once a set has slipped, the next message with descriptors gets it instead of its own. */
  lemma {:induction false} SlippedMismatches(s: State, x: SetId) returns (more: seq<Step>)
    requires Slipped(s, [], x)
    ensures RunEnabled(s, more) && RunCareful(s, more) && !Matched(End(s, more).delivered)
    decreases if OnWire(s.wire) == [] then 1 else 0, |s.wire|, Distance(s)
  {
    if s.wire != [] && s.wire[0].Placeholder? {
      more := TakeWrong(s, HostReceive(0, true), x);
    } else {
      MoveStaysBehind(s, x);
      var rest := SlippedMismatches(Next(s, Move(s)), x);
      more := First(s, Move(s), rest);
    }
  }

  lemma {:induction false} TakeWrong(s: State, step: Step, x: SetId) returns (more: seq<Step>)
    requires Slipped(s, [], x) && s.wire != [] && s.wire[0].Placeholder? && step == HostReceive(0, true)
    ensures RunEnabled(s, more) && RunCareful(s, more) && !Matched(End(s, more).delivered)
  {
    var mid := Next(s, step);
    assert ReceiverOf(mid, 0) == Received(s.wire[0].set_, true) && mid.queue[0] == x != s.wire[0].set_;
    var last := Next(mid, Pop(0));
    assert last.delivered[|s.delivered|] == Delivery(s.wire[0].set_, Some(x));
    more := First(mid, Pop(0), []);
    more := First(s, step, more);
  }

  /** And if a receiver is still on its way to the queue, it goes first. */
  lemma {:induction false} SlippedInFlight(s: State, flight: seq<SetId>, x: SetId) returns (more: seq<Step>)
    requires Slipped(s, flight, x)
    ensures RunEnabled(s, more) && RunCareful(s, more) && !Matched(End(s, more).delivered)
  {
    if flight == [] {
      more := SlippedMismatches(s, x);
    } else {
      var u: Tid :| ReceiverOf(s, u) == Received(flight[0], true);
      PopReceivers(s, u, flight);
      SameSenders(s, Next(s, Pop(u)));
      AfterPop(s.queue, flight[0], x, OnWire(s.wire), Pending(s));
      more := SlippedMismatches(Next(s, Pop(u)), x);
      more := First(s, Pop(u), more);
    }
  }

  lemma AfterPop(queue: seq<SetId>, f: SetId, x: SetId, b: seq<SetId>, c: seq<SetId>)
    requires queue == [f] + [x] + b + c
    ensures queue != [] && queue[1..] == [] + [x] + b + c
  {}

  /** A placeholder off the wire without a receiver on its way to the queue. */
  lemma {:induction false} LostPlaceholder(s: State, after: State, flight: seq<SetId>)
    requires HolderOk(s) && Ordered(s, flight) && s.wire != [] && s.wire[0].Placeholder?
    requires after == s.(wire := s.wire[1..], receivers := after.receivers)
    requires forall t: Tid :: ReceiverOf(after, t) == ReceiverOf(s, t)
    ensures Slipped(after, flight, s.wire[0].set_)
  {
    var x := s.wire[0].set_;
    SameSenders(s, after);
    assert OnWire(s.wire) == [x] + OnWire(after.wire);
    TakeFront(flight, x, OnWire(after.wire), Pending(s));
    OnlyOnce(Wants(s.delivered) + flight, x, OnWire(after.wire), s.sent);
  }

  lemma TakeFront(a: seq<SetId>, x: SetId, b: seq<SetId>, c: seq<SetId>)
    ensures a + ([x] + b) + c == a + [x] + b + c
  {}

  lemma OnlyOnce(a: seq<SetId>, x: SetId, b: seq<SetId>, all: seq<SetId>)
    requires all == a + ([x] + b) && Distinct(all)
    ensures x in all && x !in b && x !in a
  {
    assert all[|a|] == x;
    assert forall i :: 0 <= i < |b| ==> all[|a| + 1 + i] == b[i];
    assert forall i :: 0 <= i < |a| ==> all[i] == a[i];
  }

  /** The second of two receivers may pop first. */
  lemma {:induction false} Overtaken(s: State, t: Tid, flight: seq<SetId>) returns (more: seq<Step>)
    requires HolderOk(s) && Ordered(s, flight) && Enabled(s, HostReceive(t, true)) && s.wire[0].Placeholder? && flight != []
    ensures var after := Next(s, HostReceive(t, true));
            RunEnabled(after, more) && RunCareful(after, more) && !Matched(End(after, more).delivered)
  {
    var after, x := Next(s, HostReceive(t, true)), s.wire[0].set_;
    assert OnWire(s.wire) == [x] + OnWire(after.wire);
    OnlyOnce(Wants(s.delivered) + flight, x, OnWire(after.wire), s.sent);
    assert s.queue[0] == flight[0] && (Wants(s.delivered) + flight)[|Wants(s.delivered)|] == flight[0];
    assert ReceiverOf(after, t) == Received(x, true);
    assert Next(after, Pop(t)).delivered[|s.delivered|] == Delivery(x, Some(flight[0]));
    more := First(after, Pop(t), []);
  }

  lemma {:induction false} CarelessMismatches(s: State, step: Step) returns (more: seq<Step>)
    requires Inv(s) && Enabled(s, step) && !Careful(s, step)
    ensures var after := Next(s, step);
            RunEnabled(after, more) && RunCareful(after, more) && !Matched(End(after, more).delivered)
  {
    var flight :| Ordered(s, flight);
    var after := Next(s, step);
    if step.ReceiveWithoutControl? {
      LostPlaceholder(s, after, flight);
      more := SlippedInFlight(after, flight, s.wire[0].set_);
    } else if step.writable {
      more := Overtaken(s, step.t, flight);
    } else {
      assert ReceiverOf(after, step.t) == Received(s.wire[0].set_, false);
      var faulted := Next(after, CopyFaults(step.t));
      LostPlaceholder(s, faulted, flight);
      more := SlippedInFlight(faulted, flight, s.wire[0].set_);
      more := First(after, CopyFaults(step.t), more);
    }
  }

  /** Main result: a step is careful exactly when no careful continuation can hand a set to the wrong
      message. */
  lemma {:induction false} CarefulIsExact(s: State, step: Step)
    requires Inv(s) && Enabled(s, step)
    ensures Careful(s, step) <==> StaysMatched(Next(s, step))
  {
    if Careful(s, step) {
      StepKeepsInv(s, step);
      forall more | RunEnabled(Next(s, step), more) && RunCareful(Next(s, step), more)
        ensures Matched(End(Next(s, step), more).delivered)
      {
        RunKeepsInv(Next(s, step), more);
      }
    } else {
      var more := CarelessMismatches(s, step);
      assert RunEnabled(Next(s, step), more) && RunCareful(Next(s, step), more);
    }
  }

  /** Two sets sent one after the other. */
  lemma SendTwo(s: State) returns (steps: seq<Step>)
    requires Start(s)
    ensures RunEnabled(s, steps)
    ensures var end := End(s, steps);
            end.queue == [0, 1] && end.wire == [Placeholder(0), Placeholder(1)] && end.sent == [0, 1] && end.receivers == map[] && end.delivered == []
  {
    steps := Then(s, [], Lock(0));
    steps := Then(s, steps, Enqueue(0));
    steps := Then(s, steps, HostSend(0));
    steps := Then(s, steps, Unlock(0));
    steps := Then(s, steps, Lock(0));
    steps := Then(s, steps, Enqueue(0));
    steps := Then(s, steps, HostSend(0));
  }

  /** Without the control buffer the pairing is lost: the host drops the placeholder, the set stays queued,
      and the next message hands over the wrong one. */
  lemma WithoutControlBufferOutOfStep(s: State) returns (steps: seq<Step>)
    requires Start(s)
    ensures RunEnabled(s, steps)
    ensures var end := End(s, steps); end.delivered == [Delivery(1, Some(0))]
  {
    steps := SendTwo(s);
    steps := Then(s, steps, ReceiveWithoutControl(0));
    steps := Then(s, steps, HostReceive(0, true));
    steps := Then(s, steps, Pop(0));
  }

  /** And so it is with two receivers at once: the one that came second may pop first. */
  lemma TwoReceiversOutOfStep(s: State) returns (steps: seq<Step>)
    requires Start(s)
    ensures RunEnabled(s, steps)
    ensures var end := End(s, steps); end.delivered == [Delivery(1, Some(0)), Delivery(0, Some(1))]
  {
    steps := SendTwo(s);
    steps := Then(s, steps, HostReceive(0, true));
    steps := Then(s, steps, HostReceive(1, true));
    steps := Then(s, steps, Pop(1));
    steps := Then(s, steps, Pop(0));
  }

  /** And so it is with one receiver, whose buffers cannot be written: the call fails between the socket and
      the queue. */
  lemma UnwritableBufferOutOfStep(s: State) returns (steps: seq<Step>)
    requires Start(s)
    ensures RunEnabled(s, steps)
    ensures var end := End(s, steps); end.delivered == [Delivery(1, Some(0))]
  {
    steps := SendTwo(s);
    steps := Then(s, steps, HostReceive(0, false));
    steps := Then(s, steps, CopyFaults(0));
    steps := Then(s, steps, HostReceive(0, true));
    steps := Then(s, steps, Pop(0));
  }
}
