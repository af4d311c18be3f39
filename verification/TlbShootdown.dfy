/**
  * TLB shootdown (`smp/ipi.rs`) as a system of interleaved steps: one initiator at a time under the IPI lock,
  * per-CPU mailboxes with their own lock, ack flags, pending interrupts, timeouts, and halts.
  */
module TlbShootdown {
  import opened Basics

  datatype Request = Addresses(list: seq<nat>) | Everything | HaltAll

  /**
    * What a CPU is doing. `Idle` is ordinary code with interrupts enabled. `Want` spins on the IPI lock, `Posting` and
    * `Waiting` hold it; `cpu` is the target they are at. The other states are the interrupt handlers.
    */
  datatype Pc =
    | Idle
    | Want(req: Request)
    | Posting(req: Request, cpu: nat, stage: nat)
    | Waiting(req: Request, cpu: nat, seen: set<nat>)
    | TlbEntered
    | TlbRun(next: nat)
    | TlbAcked
    | HaltEntered
    | Halted

  datatype BoxLock = Open | ByOwner | ByInitiator

  /** `flushed` and `flushedAll` record what the CPU has invalidated since the last request was put in its mailbox. */
  datatype Cpu = Cpu(
    pc: Pc, mailbox: seq<nat>, lock: BoxLock, ack: bool, tlbPending: bool, haltPending: bool,
    flushed: set<nat>, flushedAll: bool)

  datatype State = State(cpus: seq<Cpu>, ipiLock: Option<nat>)

  datatype Step =
    | Start(i: nat, req: Request)
    | Acquire(i: nat)
    | Post(i: nat)
    | Send(i: nat)
    | SeeAck(i: nat)
    | TimeOut(i: nat)
    | Skip(i: nat)
    | Release(i: nat)
    | TakeTlb(i: nat)
    | LockBox(i: nat)
    | Flush(i: nat)
    | Ack(i: nat)
    | Leave(i: nat)
    | TakeHalt(i: nat)
    | HaltAck(i: nat)

  function Box(req: Request): seq<nat>
  {
    if req.Addresses? then req.list else []
  }

  function SetPc(s: State, i: nat, pc: Pc): State
    requires i < |s.cpus|
  {
    s.(cpus := s.cpus[i := s.cpus[i].(pc := pc)])
  }

  /** One step of filling in the request for target `pc.cpu`, in the order of the source. */
  function PostTarget(c: Cpu, req: Request, stage: nat): Cpu
  {
    match req
    case Addresses(list) =>
      if stage == 0 then c.(lock := ByInitiator)
      else if stage == 1 then c.(mailbox := [])
      else if stage == 2 then c.(mailbox := list, flushed := {}, flushedAll := false)
      else if stage == 3 then c.(ack := false)
      else c.(lock := Open)
    case Everything =>
      if stage == 0 then c.(lock := ByInitiator)
      else if stage == 1 then c.(mailbox := [], flushed := {}, flushedAll := false)
      else if stage == 2 then c.(lock := Open)
      else c.(ack := false)
    case HaltAll => c.(ack := false)
  }

  function LastStage(req: Request): nat
  {
    match req case Addresses(_) => 4 case Everything => 3 case HaltAll => 0
  }

  function Advance(pc: Pc): Pc
    requires pc.Posting?
  {
    if pc.stage < LastStage(pc.req) then pc.(stage := pc.stage + 1) else Posting(pc.req, pc.cpu + 1, 0)
  }

  function Deliver(c: Cpu, req: Request): Cpu
  {
    if req.HaltAll? then c.(haltPending := true) else c.(tlbPending := true)
  }

  predicate Enabled(s: State, step: Step)
  {
    step.i < |s.cpus| &&
    var c := s.cpus[step.i];
    match step
    case Start(_, req) => c.pc == Idle && (req.Addresses? ==> req.list != [])
    case Acquire(_) => c.pc.Want? && s.ipiLock == None
    case Post(i) =>
      && c.pc.Posting? && c.pc.cpu < |s.cpus|
      && (c.pc.cpu != i && c.pc.stage == 0 && !c.pc.req.HaltAll? ==> s.cpus[c.pc.cpu].lock == Open)
    case Send(_) => c.pc.Posting? && c.pc.cpu == |s.cpus|
    case SeeAck(i) => c.pc.Waiting? && c.pc.cpu < |s.cpus| && c.pc.cpu != i && s.cpus[c.pc.cpu].ack
    case TimeOut(i) => c.pc.Waiting? && c.pc.cpu < |s.cpus| && c.pc.cpu != i
    case Skip(i) => c.pc.Waiting? && c.pc.cpu == i
    case Release(_) => c.pc.Waiting? && c.pc.cpu == |s.cpus|
    case TakeTlb(_) => c.pc == Idle && c.tlbPending
    case LockBox(_) => c.pc == TlbEntered && c.lock == Open
    case Flush(_) => c.pc.TlbRun? && (c.pc.next < |c.mailbox| || (c.pc.next == 0 && c.mailbox == []))
    case Ack(_) => c.pc.TlbRun? && c.pc.next == (if c.mailbox == [] then 1 else |c.mailbox|)
    case Leave(_) => c.pc == TlbAcked
    case TakeHalt(_) => c.pc == Idle && c.haltPending
    case HaltAck(_) => c.pc == HaltEntered
  }

  function Apply(s: State, step: Step): State
    requires Enabled(s, step)
  {
    var i := step.i;
    var c := s.cpus[i];
    match step
    case Start(_, req) => SetPc(s, i, Want(req))
    case Acquire(_) => SetPc(s, i, Posting(c.pc.req, 0, 0)).(ipiLock := Some(i))
    case Post(_) =>
      if c.pc.cpu == i then SetPc(s, i, Posting(c.pc.req, c.pc.cpu + 1, 0))
      else
        var t := SetPc(s, i, Advance(c.pc));
        t.(cpus := t.cpus[c.pc.cpu := PostTarget(t.cpus[c.pc.cpu], c.pc.req, c.pc.stage)])
    case Send(_) =>
      var t := s.(cpus := seq(|s.cpus|, k requires 0 <= k < |s.cpus| => if k == i then s.cpus[k] else Deliver(s.cpus[k], c.pc.req)));
      SetPc(t, i, Waiting(c.pc.req, 0, {}))
    case SeeAck(_) => SetPc(s, i, Waiting(c.pc.req, c.pc.cpu + 1, c.pc.seen + {c.pc.cpu}))
    case TimeOut(_) => SetPc(s, i, c.pc.(cpu := c.pc.cpu + 1))
    case Skip(_) => SetPc(s, i, c.pc.(cpu := c.pc.cpu + 1))
    case Release(_) => SetPc(s, i, Idle).(ipiLock := None)
    case TakeTlb(_) => s.(cpus := s.cpus[i := c.(pc := TlbEntered, tlbPending := false)])
    case LockBox(_) => s.(cpus := s.cpus[i := c.(pc := TlbRun(0), lock := ByOwner)])
    case Flush(_) =>
      if c.mailbox == [] then s.(cpus := s.cpus[i := c.(pc := TlbRun(1), flushedAll := true)])
      else s.(cpus := s.cpus[i := c.(pc := TlbRun(c.pc.next + 1), flushed := c.flushed + {c.mailbox[c.pc.next]})])
    case Ack(_) => s.(cpus := s.cpus[i := c.(pc := TlbAcked, ack := true)])
    case Leave(_) => s.(cpus := s.cpus[i := c.(pc := Idle, lock := Open)])
    case TakeHalt(_) => s.(cpus := s.cpus[i := c.(pc := HaltEntered, haltPending := false)])
    case HaltAck(_) => s.(cpus := s.cpus[i := c.(pc := Halted, ack := true)])
  }

  ghost predicate Initial(s: State)
  {
    s.ipiLock == None && forall i :: 0 <= i < |s.cpus| ==>
      s.cpus[i] == Cpu(Idle, [], Open, false, false, false, {}, false)
  }

  /** The request is in the mailbox of `k`. */
  predicate Posted(pc: Pc, k: nat)
  {
    match pc
    case Posting(req, cpu, stage) => k < cpu || (k == cpu && !req.HaltAll? && stage >= (if req.Addresses? then 3 else 2))
    case Waiting(_, _, _) => true
    case _ => false
  }

  /** The ack flag of `k` has been cleared after that. */
  predicate Armed(pc: Pc, k: nat)
  {
    match pc
    case Posting(req, cpu, stage) => k < cpu || (k == cpu && req.Addresses? && stage >= 4)
    case Waiting(_, _, _) => true
    case _ => false
  }

  /** The initiator holds the mailbox lock of `k`. */
  predicate LocksBox(pc: Pc, k: nat)
  {
    pc.Posting? && pc.cpu == k && (match pc.req case Addresses(_) => pc.stage >= 1 case Everything => 1 <= pc.stage <= 2 case HaltAll => false)
  }

  predicate Initiates(pc: Pc) { pc.Posting? || pc.Waiting? }

  /** What an ack stands for: everything asked for is flushed since it was asked for, or the CPU has stopped for good. */
  ghost predicate Served(c: Cpu, req: Request)
  {
    c.pc == Halted || c.flushedAll || (req.Addresses? && forall a :: a in req.list ==> a in c.flushed)
  }

  /** A handler has flushed the part of its mailbox that it has been through. */
  ghost predicate HandlerOk(c: Cpu)
  {
    && (c.lock == ByOwner <==> c.pc.TlbRun? || c.pc == TlbAcked)
    && (c.pc.TlbRun? ==>
          && c.pc.next <= (if c.mailbox == [] then 1 else |c.mailbox|)
          && (c.mailbox == [] && c.pc.next == 1 ==> c.flushedAll)
          && (c.mailbox != [] ==> forall k :: 0 <= k < c.pc.next ==> c.mailbox[k] in c.flushed))
  }

  /** The state of target `k` under the initiator with program counter `pc`. */
  ghost predicate TargetOk(pc: Pc, c: Cpu, k: nat)
    requires Initiates(pc)
  {
    && (c.lock == ByInitiator <==> LocksBox(pc, k))
    && (!pc.req.HaltAll? && Posted(pc, k) ==> c.mailbox == Box(pc.req))
    && (!pc.req.HaltAll? && Armed(pc, k) && c.ack ==> Served(c, pc.req))
    && (!pc.req.HaltAll? && pc.Waiting? && k in pc.seen ==> Served(c, pc.req))
  }

  ghost predicate InitiatorOk(s: State, i: nat)
  {
    && i < |s.cpus| && Initiates(s.cpus[i].pc) && s.cpus[i].lock != ByInitiator && s.cpus[i].pc.cpu <= |s.cpus|
    && (s.cpus[i].pc.Posting? ==> s.cpus[i].pc.stage <= LastStage(s.cpus[i].pc.req))
    && (forall k :: 0 <= k < |s.cpus| && k != i ==> TargetOk(s.cpus[i].pc, s.cpus[k], k))
  }

  ghost predicate Inv(s: State)
  {
    && (forall i :: 0 <= i < |s.cpus| ==> HandlerOk(s.cpus[i]))
    && (forall i :: 0 <= i < |s.cpus| && Initiates(s.cpus[i].pc) ==> s.ipiLock == Some(i))
    && (s.ipiLock.Some? ==> InitiatorOk(s, s.ipiLock.value))
    && (s.ipiLock.None? ==> forall k :: 0 <= k < |s.cpus| ==> s.cpus[k].lock != ByInitiator)
  }

  /** A step that changes only a CPU that is not the initiator. */
  lemma BystanderStep(s: State, t: State, i: nat, c: Cpu)
    requires Inv(s) && i < |s.cpus| && t == s.(cpus := s.cpus[i := c]) && s.ipiLock != Some(i)
    requires HandlerOk(c) && !Initiates(c.pc) && (c.lock == ByInitiator <==> s.cpus[i].lock == ByInitiator)
    requires s.ipiLock.Some? ==> InitiatorOk(s, s.ipiLock.value) && TargetOk(s.cpus[s.ipiLock.value].pc, c, i)
    ensures Inv(t)
  {
  }

  /** Handlers keep what the current request needs of their CPU. */
  lemma HandlerStep(s: State, step: Step)
    requires Inv(s) && Enabled(s, step)
    requires step.Start? || step.TakeTlb? || step.LockBox? || step.Flush? || step.Ack? || step.Leave? || step.TakeHalt? || step.HaltAck?
    ensures Inv(Apply(s, step))
  {
    var i, t := step.i, Apply(s, step);
    var c, c' := s.cpus[i], t.cpus[i];
    assert HandlerOk(c) && !Initiates(c.pc);
    if s.ipiLock.Some? {
      assert InitiatorOk(s, s.ipiLock.value) && s.ipiLock.value != i;
      assert TargetOk(s.cpus[s.ipiLock.value].pc, c, i);
      HandlerTarget(s.cpus[s.ipiLock.value].pc, c, c', i, s, step);
    }
    assert t == s.(cpus := s.cpus[i := c']);
    BystanderStep(s, t, i, c');
  }

  lemma HandlerTarget(pc: Pc, c: Cpu, c': Cpu, i: nat, s: State, step: Step)
    requires Initiates(pc) && TargetOk(pc, c, i) && HandlerOk(c) && Enabled(s, step) && i == step.i && c == s.cpus[i]
    requires step.Start? || step.TakeTlb? || step.LockBox? || step.Flush? || step.Ack? || step.Leave? || step.TakeHalt? || step.HaltAck?
    requires c' == Apply(s, step).cpus[i]
    ensures TargetOk(pc, c', i) && HandlerOk(c')
  {
    if step.Ack? && !pc.req.HaltAll? && Armed(pc, i) {
      assert Posted(pc, i);
      assert Served(c', pc.req);
    }
  }

  lemma PostStep(s: State, i: nat)
    requires Inv(s) && Enabled(s, Post(i))
    ensures Inv(Apply(s, Post(i)))
  {
    var t, pc := Apply(s, Post(i)), s.cpus[i].pc;
    assert s.ipiLock == Some(i) && InitiatorOk(s, i);
    forall k | 0 <= k < |s.cpus| && k != i ensures TargetOk(t.cpus[i].pc, t.cpus[k], k) && HandlerOk(t.cpus[k])
    {
      assert TargetOk(pc, s.cpus[k], k) && HandlerOk(s.cpus[k]);
      if k == pc.cpu {
        assert t.cpus[k] == PostTarget(s.cpus[k], pc.req, pc.stage);
        PostTargetOk(pc, s.cpus[k], k);
      }
    }
  }

  lemma PostTargetOk(pc: Pc, c: Cpu, k: nat)
    requires pc.Posting? && k == pc.cpu && pc.stage <= LastStage(pc.req) && TargetOk(pc, c, k) && HandlerOk(c)
    requires pc.stage == 0 && !pc.req.HaltAll? ==> c.lock == Open
    ensures TargetOk(Advance(pc), PostTarget(c, pc.req, pc.stage), k) && HandlerOk(PostTarget(c, pc.req, pc.stage))
  {
  }

  lemma SendStep(s: State, i: nat)
    requires Inv(s) && Enabled(s, Send(i))
    ensures Inv(Apply(s, Send(i)))
  {
    var t, pc := Apply(s, Send(i)), s.cpus[i].pc;
    assert s.ipiLock == Some(i) && InitiatorOk(s, i);
    forall k | 0 <= k < |s.cpus| && k != i ensures TargetOk(t.cpus[i].pc, t.cpus[k], k) && HandlerOk(t.cpus[k])
    {
      assert TargetOk(pc, s.cpus[k], k) && HandlerOk(s.cpus[k]);
      assert t.cpus[k] == Deliver(s.cpus[k], pc.req);
    }
  }

  lemma InitiatorStep(s: State, step: Step)
    requires Inv(s) && Enabled(s, step)
    requires step.Acquire? || step.SeeAck? || step.TimeOut? || step.Skip? || step.Release?
    ensures Inv(Apply(s, step))
  {
    var i, t := step.i, Apply(s, step);
    assert HandlerOk(s.cpus[i]);
    if s.ipiLock.Some? {
      assert InitiatorOk(s, i);
      forall k | 0 <= k < |s.cpus| && k != i && !step.Release? ensures TargetOk(t.cpus[i].pc, t.cpus[k], k)
      {
        assert TargetOk(s.cpus[i].pc, s.cpus[k], k);
      }
      forall k | 0 <= k < |s.cpus| && step.Release? ensures t.cpus[k].lock != ByInitiator
      {
        assert k != i ==> TargetOk(s.cpus[i].pc, s.cpus[k], k);
      }
    }
  }

  lemma StepKeepsInv(s: State, step: Step)
    requires Inv(s) && Enabled(s, step)
    ensures Inv(Apply(s, step))
  {
    match step {
      case Post(i) => PostStep(s, i);
      case Send(i) => SendStep(s, i);
      case Acquire(_) => InitiatorStep(s, step);
      case SeeAck(_) => InitiatorStep(s, step);
      case TimeOut(_) => InitiatorStep(s, step);
      case Skip(_) => InitiatorStep(s, step);
      case Release(_) => InitiatorStep(s, step);
      case _ => HandlerStep(s, step);
    }
  }

  /** `t` is reached from `s` by the given steps. */
  ghost predicate Reaches(s: State, steps: seq<Step>, t: State)
    decreases steps
  {
    if steps == [] then s == t
    else Enabled(s, steps[0]) && Reaches(Apply(s, steps[0]), steps[1..], t)
  }

  lemma {:induction false} RunKeepsInv(s: State, steps: seq<Step>, t: State)
    requires Inv(s) && Reaches(s, steps, t)
    ensures Inv(t)
    decreases steps
  {
    if steps != [] {
      StepKeepsInv(s, steps[0]);
      RunKeepsInv(Apply(s, steps[0]), steps[1..], t);
    }
  }

  /**
    * In every run, when the initiator of a TLB request is about to see the ack of CPU `k`, or has seen it, that CPU has
    * invalidated everything requested since the request was put in its mailbox, or it has halted for good.
    */
  lemma {:induction false} AckMeansFlushed(s: State, steps: seq<Step>, t: State, i: nat, k: nat)
    requires Initial(s) && Reaches(s, steps, t)
    requires i < |t.cpus| && k < |t.cpus| && k != i && t.cpus[i].pc.Waiting? && !t.cpus[i].pc.req.HaltAll?
    requires t.cpus[k].ack || k in t.cpus[i].pc.seen
    ensures Served(t.cpus[k], t.cpus[i].pc.req)
  {
    RunKeepsInv(s, steps, t);
    assert t.ipiLock == Some(i) && InitiatorOk(t, i);
    assert TargetOk(t.cpus[i].pc, t.cpus[k], k);
  }

  /** A handler that holds its mailbox lock never waits. */
  lemma HandlerRuns(s: State, k: nat) returns (step: Step)
    requires Inv(s) && k < |s.cpus| && s.cpus[k].lock == ByOwner
    ensures Enabled(s, step) && step.i == k && !step.Start?
  {
    var c := s.cpus[k];
    assert HandlerOk(c);
    if c.pc == TlbAcked {
      step := Leave(k);
    } else if c.pc.next == (if c.mailbox == [] then 1 else |c.mailbox|) {
      step := Ack(k);
    } else {
      step := Flush(k);
    }
  }

  /** The holder of the IPI lock waits for nothing but the mailbox lock of a running handler. */
  lemma HolderRuns(s: State, i: nat) returns (step: Step)
    requires Inv(s) && s.ipiLock == Some(i)
    ensures Enabled(s, step) && !step.Start?
    ensures step.i == i || s.cpus[step.i].lock == ByOwner
  {
    assert InitiatorOk(s, i);
    var pc := s.cpus[i].pc;
    if pc.Waiting? {
      step := if pc.cpu == |s.cpus| then Release(i) else if pc.cpu == i then Skip(i) else TimeOut(i);
    } else if pc.cpu == |s.cpus| {
      step := Send(i);
    } else if pc.cpu != i && pc.stage == 0 && !pc.req.HaltAll? && s.cpus[pc.cpu].lock != Open {
      assert TargetOk(pc, s.cpus[pc.cpu], pc.cpu);
      step := HandlerRuns(s, pc.cpu);
    } else {
      step := Post(i);
    }
  }

  /**
    * No deadlock: in every run, while a CPU has a request under way or waits to start one, it can go on itself, or the
    * holder of the IPI lock can, or the handler whose mailbox lock that one waits for.
    */
  lemma NeverStuck(s: State, steps: seq<Step>, t: State, i: nat) returns (step: Step)
    requires Initial(s) && Reaches(s, steps, t) && i < |t.cpus| && (t.cpus[i].pc.Want? || Initiates(t.cpus[i].pc))
    ensures Enabled(t, step) && !step.Start?
    ensures step.i == i || t.ipiLock == Some(step.i) || t.cpus[step.i].lock == ByOwner
  {
    RunKeepsInv(s, steps, t);
    if t.ipiLock.None? {
      step := Acquire(i);
    } else {
      step := HolderRuns(t, t.ipiLock.value);
    }
  }

  /** At any moment at most one CPU is posting a request or waiting for acks. */
  lemma {:induction false} OneInitiator(s: State, steps: seq<Step>, t: State, i: nat, j: nat)
    requires Initial(s) && Reaches(s, steps, t) && i < |t.cpus| && j < |t.cpus|
    requires Initiates(t.cpus[i].pc) && Initiates(t.cpus[j].pc)
    ensures i == j
  {
    RunKeepsInv(s, steps, t);
  }
}
