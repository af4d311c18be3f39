/** All CPUs' schedulers with the stealing loop of the idle tasks (`scheduling/mod.rs`), as interleaved steps. */
module WorkStealing {
  import opened Scheduler

  /** Where the idle task of a CPU is in its stealing loop; `Carrying` is between the two locks. */
  datatype Thief = Resting | Counted(own: nat) | Chose(own: nat, victim: nat) | Carrying(tasks: seq<Task>)

  datatype Cpu = Cpu(sched: Sched, idle: Task, thief: Thief)

  /** `used` are the task ids handed out so far. */
  datatype System = System(cpus: seq<Cpu>, used: set<nat>)

  datatype Step =
    | Timer(c: nat, now: nat)
    | Add(c: nat, task: Task)
    | Kill(c: nat, code: nat)
    | Block(c: nat, until: nat)
    | CountOwn(c: nat)
    | Choose(c: nat, victim: nat)
    | GiveUp(c: nat)
    | Steal(c: nat)
    | Deposit(c: nat)

  /** Half the observed gap, rounded down. */
  function TakeCount(victim: nat, own: nat): nat
  {
    (if victim >= own then victim - own else 0) / 2
  }

  /** The idle task runs the stealing loop; only tasks other than the idle task are killed or put to sleep. */
  predicate Enabled(s: System, step: Step)
  {
    step.c < |s.cpus| &&
    var x := s.cpus[step.c];
    match step
    case Timer(_, _) => true
    case Add(_, task) => task.id !in s.used && task.state == Ready
    case Kill(_, _) => x.sched.curr.id != x.idle.id
    case Block(_, _) => x.sched.curr.id != x.idle.id
    case CountOwn(_) => x.thief == Resting && x.sched.curr.id == x.idle.id
    case Choose(c, victim) => x.thief.Counted? && x.sched.curr.id == x.idle.id && victim < |s.cpus| && victim != c
    case GiveUp(_) => x.thief.Counted? && x.sched.curr.id == x.idle.id
    case Steal(c) => x.thief.Chose? && x.sched.curr.id == x.idle.id && x.thief.victim < |s.cpus| && x.thief.victim != c
    case Deposit(_) => x.thief.Carrying? && x.sched.curr.id == x.idle.id
  }

  function Set(s: System, c: nat, x: Cpu): System
    requires c < |s.cpus|
  {
    s.(cpus := s.cpus[c := x])
  }

  function Apply(s: System, step: Step): System
    requires Enabled(s, step)
  {
    var c := step.c;
    var x := s.cpus[c];
    match step
    case Timer(_, now) => Set(s, c, x.(sched := Tick(x.sched, now, x.idle)))
    case Add(_, t) => Set(s, c, x.(sched := x.sched.(ready := x.sched.ready + [t]))).(used := s.used + {t.id})
    case Kill(_, code) => Set(s, c, x.(sched := x.sched.(curr := x.sched.curr.(state := Terminate(code)))))
    case Block(_, until) => Set(s, c, x.(sched := x.sched.(curr := x.sched.curr.(state := Wait(until)))))
    case CountOwn(_) => Set(s, c, x.(sched := x.sched.(terminate := []), thief := Counted(Count(IsUser, x.sched.ready))))
    case Choose(_, victim) => Set(s, c, x.(thief := Chose(x.thief.own, victim)))
    case GiveUp(_) => Set(s, c, x.(thief := Resting))
    case Steal(_) =>
      var v := s.cpus[x.thief.victim];
      var n := TakeCount(Count(IsUser, v.sched.ready), x.thief.own);
      Set(Set(s, x.thief.victim, v.(sched := v.sched.(ready := Left(IsUser, v.sched.ready, n)))),
          c, x.(thief := Carrying(Gone(IsUser, v.sched.ready, n))))
    case Deposit(_) => Set(s, c, x.(sched := x.sched.(ready := x.sched.ready + x.thief.tasks), thief := Resting))
  }

  /** How often a task id occurs on one CPU: running, ready, asleep, or carried by its idle task. */
  ghost function OnCpu(x: Cpu, id: nat): nat
  {
    Here(x.sched, id) + if x.thief.Carrying? then Occ(x.thief.tasks, id) else 0
  }

  ghost function Total(cpus: seq<Cpu>, id: nat): nat
  {
    if cpus == [] then 0 else OnCpu(cpus[0], id) + Total(cpus[1..], id)
  }

  lemma {:induction false} TotalUpdate(cpus: seq<Cpu>, c: nat, x: Cpu, id: nat)
    requires c < |cpus|
    ensures Total(cpus[c := x], id) == Total(cpus, id) - OnCpu(cpus[c], id) + OnCpu(x, id)
    ensures OnCpu(cpus[c], id) <= Total(cpus, id)
  {
    if c > 0 {
      TotalUpdate(cpus[1..], c - 1, x, id);
      assert cpus[c := x][1..] == cpus[1..][c - 1 := x];
    }
  }

  /** The boot task of a CPU is a kernel task that is always running or ready on that CPU. */
  ghost predicate BootOk(x: Cpu)
  {
    !x.idle.user && x.idle.state == Ready && (x.sched.curr == x.idle || x.idle in x.sched.ready)
  }

  ghost predicate Inv(s: System)
  {
    && (forall c :: 0 <= c < |s.cpus| ==> BootOk(s.cpus[c]))
    && (forall id :: Total(s.cpus, id) <= 1)
    && (forall id :: Total(s.cpus, id) > 0 ==> id in s.used)
  }

  ghost predicate Initial(s: System)
  {
    && (forall c :: 0 <= c < |s.cpus| ==>
          var x := s.cpus[c];
          && !x.idle.user && x.idle.state == Ready && x.idle.id in s.used
          && x == Cpu(Sched(x.idle, [], [], []), x.idle, Resting))
    && (forall c, d :: 0 <= c < d < |s.cpus| ==> s.cpus[c].idle.id != s.cpus[d].idle.id)
  }

  lemma {:induction false} InitialTotal(cpus: seq<Cpu>, id: nat)
    requires forall c :: 0 <= c < |cpus| ==> cpus[c] == Cpu(Sched(cpus[c].idle, [], [], []), cpus[c].idle, Resting)
    requires forall c, d :: 0 <= c < d < |cpus| ==> cpus[c].idle.id != cpus[d].idle.id
    ensures Total(cpus, id) <= 1
    ensures Total(cpus, id) > 0 ==> exists c :: 0 <= c < |cpus| && cpus[c].idle.id == id
  {
    if cpus != [] {
      InitialTotal(cpus[1..], id);
      if Total(cpus[1..], id) > 0 {
        var c :| 0 <= c < |cpus[1..]| && cpus[1..][c].idle.id == id;
        assert cpus[c + 1].idle.id == id;
      }
    }
  }

  lemma InitialInv(s: System)
    requires Initial(s)
    ensures Inv(s)
  {
    forall id: nat ensures Total(s.cpus, id) <= 1 && (Total(s.cpus, id) > 0 ==> id in s.used) { InitialTotal(s.cpus, id); }
  }

  /** The boot task keeps a scheduling call from finding nothing to run: the idle clone is never made. */
  lemma NeverClones(s: Sched, now: nat, idle: Task)
    requires idle.state == Ready && (s.curr == idle || idle in s.ready)
    ensures Wake(s, now).ready != [] || s.curr.state == Ready
  {
  }

  lemma TickKeepsBoot(s: Sched, now: nat, idle: Task)
    requires idle.state == Ready && (s.curr == idle || idle in s.ready)
    ensures var t := Tick(s, now, idle); t.curr == idle || idle in t.ready
  {
    var w, t := Wake(s, now), Tick(s, now, idle);
    if s.curr != idle {
      assert idle in w.ready;
      var k :| 0 <= k < |w.ready| && w.ready[k] == idle;
      if k > 0 { assert w.ready[1..][k - 1] == idle; }
    } else if w.ready != [] {
      assert t.ready[|t.ready| - 1] == idle;
    }
  }

  /** What one step does to the number of places a task is in. */
  ghost function Change(s: System, step: Step, id: nat): int
    requires Enabled(s, step)
  {
    var curr := s.cpus[step.c].sched.curr;
    match step
    case Timer(_, _) => if curr.state.Terminate? then 0 - One(curr, id) else 0
    case Add(_, task) => One(task, id)
    case _ => 0
  }

  lemma {:induction false} StepTotal(s: System, step: Step, id: nat)
    requires Enabled(s, step) && forall c :: 0 <= c < |s.cpus| ==> BootOk(s.cpus[c])
    ensures Total(Apply(s, step).cpus, id) == Total(s.cpus, id) + Change(s, step, id)
  {
    var c, t := step.c, Apply(s, step);
    var x := s.cpus[c];
    if step.Steal? {
      StealTotal(s, c, id);
    } else {
      TotalUpdate(s.cpus, c, t.cpus[c], id);
      match step {
        case Timer(_, now) =>
          NeverClones(x.sched, now, x.idle);
          TickKeeps(x.sched, now, x.idle, id);
        case Add(_, task) => OccConcat(x.sched.ready, [task], id);
        case Deposit(_) => OccConcat(x.sched.ready, x.thief.tasks, id);
        case _ =>
      }
    }
  }

  lemma {:induction false} StealTotal(s: System, c: nat, id: nat)
    requires Enabled(s, Steal(c))
    ensures Total(Apply(s, Steal(c)).cpus, id) == Total(s.cpus, id)
  {
    var t, x := Apply(s, Steal(c)), s.cpus[c];
    var v := x.thief.victim;
    var mid := s.cpus[v := t.cpus[v]];
    TotalUpdate(s.cpus, v, t.cpus[v], id);
    TotalUpdate(mid, c, t.cpus[c], id);
    assert t.cpus == mid[c := t.cpus[c]];
    PickSplits(IsUser, s.cpus[v].sched.ready, TakeCount(Count(IsUser, s.cpus[v].sched.ready), x.thief.own), id);
  }

  lemma StepBoot(s: System, step: Step, d: nat)
    requires Enabled(s, step) && d < |s.cpus| && BootOk(s.cpus[d])
    ensures BootOk(Apply(s, step).cpus[d])
  {
    var x := s.cpus[d];
    match step {
      case Timer(_, now) => TickKeepsBoot(x.sched, now, x.idle);
      case Steal(c) =>
        if d == s.cpus[c].thief.victim {
          var n := TakeCount(Count(IsUser, x.sched.ready), s.cpus[c].thief.own);
          PickMembers(IsUser, x.sched.ready, n, x.idle);
        }
      case _ =>
    }
  }

  lemma StepKeepsInv(s: System, step: Step)
    requires Inv(s) && Enabled(s, step)
    ensures Inv(Apply(s, step))
  {
    var t := Apply(s, step);
    forall d | 0 <= d < |t.cpus| ensures BootOk(t.cpus[d]) { StepBoot(s, step, d); }
    forall id ensures Total(t.cpus, id) <= 1 && (Total(t.cpus, id) > 0 ==> id in t.used) { StepTotal(s, step, id); }
  }

  /** `t` is reached from `s` by the given steps. */
  ghost predicate Reaches(s: System, steps: seq<Step>, t: System)
    decreases steps
  {
    if steps == [] then s == t
    else Enabled(s, steps[0]) && Reaches(Apply(s, steps[0]), steps[1..], t)
  }

  lemma {:induction false} RunKeepsInv(s: System, steps: seq<Step>, t: System)
    requires Inv(s) && Reaches(s, steps, t)
    ensures Inv(t)
    decreases steps
  {
    if steps != [] {
      StepKeepsInv(s, steps[0]);
      RunKeepsInv(Apply(s, steps[0]), steps[1..], t);
    }
  }

  /**
    * In every run each task is in at most one place over all CPUs, no scheduling call falls back on a clone of the
    * idle task, and a step loses a task only when it is the running task of a CPU, has terminated, and is switched out.
    */
  lemma {:induction false} TasksConserved(s: System, steps: seq<Step>, t: System, step: Step, id: nat)
    requires Initial(s) && Reaches(s, steps, t) && Enabled(t, step)
    ensures Total(t.cpus, id) <= 1
    ensures step.Timer? ==> var x := t.cpus[step.c]; Wake(x.sched, step.now).ready != [] || x.sched.curr.state == Ready
    ensures Total(Apply(t, step).cpus, id) < Total(t.cpus, id) ==>
      step.Timer? && t.cpus[step.c].sched.curr.id == id && t.cpus[step.c].sched.curr.state.Terminate?
    ensures Total(Apply(t, step).cpus, id) > Total(t.cpus, id) ==> step.Add? && step.task.id == id
  {
    InitialInv(s);
    RunKeepsInv(s, steps, t);
    StepTotal(t, step, id);
    if step.Timer? {
      var x := t.cpus[step.c];
      assert BootOk(x);
      NeverClones(x.sched, step.now, x.idle);
    }
  }

  /** A steal takes user tasks only, and at most half of what the victim has more than the thief had. */
  lemma StealsHalfTheGap(s: System, c: nat)
    requires Enabled(s, Steal(c))
    ensures var x, t := s.cpus[c], Apply(s, Steal(c));
      var n := Count(IsUser, s.cpus[x.thief.victim].sched.ready);
      && t.cpus[c].thief.Carrying?
      && 2 * |t.cpus[c].thief.tasks| <= (if n > x.thief.own then n - x.thief.own else 0)
      && (forall k :: k in t.cpus[c].thief.tasks ==> k.user)
  {
    var x := s.cpus[c];
    var ready := s.cpus[x.thief.victim].sched.ready;
    var n := TakeCount(Count(IsUser, ready), x.thief.own);
    PickSplits(IsUser, ready, n, 0);
    forall k | k in Gone(IsUser, ready, n) ensures k.user { PickMembers(IsUser, ready, n, k); }
  }

  function TimerCalls(steps: seq<Step>, c: nat): nat
  {
    if steps == [] then 0
    else (if steps[0].Timer? && steps[0].c == c then 1 else 0) + TimerCalls(steps[1..], c)
  }

  /** `step` takes the task out of the ready queue of `c`. */
  ghost predicate StealsFrom(s: System, step: Step, c: nat, task: Task)
    requires Enabled(s, step)
  {
    step.Steal? && s.cpus[step.c].thief.victim == c && task in Apply(s, step).cpus[step.c].thief.tasks
  }

  /** Somewhere along the run the task gets to run on `c`, or is stolen from it. */
  ghost predicate RunsOrStolen(s: System, steps: seq<Step>, c: nat, task: Task)
    requires c < |s.cpus|
    decreases steps
  {
    || s.cpus[c].sched.curr == task
    || (steps != [] && Enabled(s, steps[0])
        && (StealsFrom(s, steps[0], c, task) || RunsOrStolen(Apply(s, steps[0]), steps[1..], c, task)))
  }

  /** Other steps never push a waiting task back, and each scheduling call of its CPU moves it forward. */
  lemma StepPosition(s: System, step: Step, c: nat, k: nat) returns (j: nat)
    requires Enabled(s, step) && c < |s.cpus| && k < |s.cpus[c].sched.ready|
    ensures var task, x := s.cpus[c].sched.ready[k], Apply(s, step).cpus[c];
      || StealsFrom(s, step, c, task)
      || (step.Timer? && step.c == c && k == 0 && x.sched.curr == task)
      || (j < |x.sched.ready| && x.sched.ready[j] == task && j <= k && (step.Timer? && step.c == c ==> j < k))
  {
    var ready := s.cpus[c].sched.ready;
    if step.Steal? && s.cpus[step.c].thief.victim == c {
      j := LeftPosition(IsUser, ready, TakeCount(Count(IsUser, ready), s.cpus[step.c].thief.own), k);
    } else if step.Timer? && step.c == c && k > 0 {
      j := k - 1;
    } else {
      j := k;
    }
  }

  /**
    * Bounded waiting: a task at position `k` of the ready queue of `c` runs at the latest on the (k+1)-th next
    * scheduling call of `c`, unless it is stolen first, whatever else happens in between.
    */
  lemma {:induction false} BoundedWaiting(s: System, steps: seq<Step>, t: System, c: nat, k: nat)
    requires Reaches(s, steps, t) && c < |s.cpus| && k < |s.cpus[c].sched.ready| && TimerCalls(steps, c) > k
    ensures RunsOrStolen(s, steps, c, s.cpus[c].sched.ready[k])
    decreases steps
  {
    var task, next := s.cpus[c].sched.ready[k], Apply(s, steps[0]);
    var j := StepPosition(s, steps[0], c, k);
    if !StealsFrom(s, steps[0], c, task) && next.cpus[c].sched.curr != task {
      BoundedWaiting(next, steps[1..], t, c, j);
    }
  }

  datatype Queue = NoQueue | Queue(id: nat, count: nat)

  /** The first CPU with the most user tasks, if any CPU has one. */
  method BusiestQueue(counts: seq<nat>) returns (r: Queue)
    ensures r.NoQueue? <==> forall i :: 0 <= i < |counts| ==> counts[i] == 0
    ensures r.Queue? ==> r.id < |counts| && counts[r.id] == r.count
    ensures r.Queue? ==> forall i :: 0 <= i < |counts| ==> counts[i] <= r.count && (i < r.id ==> counts[i] < r.count)
  {
    var max := 0;
    r := NoQueue;
    for id := 0 to |counts|
      invariant r.NoQueue? ==> max == 0
      invariant r.Queue? ==> r.id < id && counts[r.id] == r.count == max > 0 && forall i :: 0 <= i < r.id ==> counts[i] < max
      invariant forall i :: 0 <= i < id ==> counts[i] <= max
    {
      if counts[id] > max {
        max := counts[id];
        r := Queue(id, max);
      }
    }
  }

  /** The first CPU with no user task, else the first with the fewest. */
  method LaziestQueue(counts: seq<nat>) returns (r: Queue)
    requires forall i :: 0 <= i < |counts| ==> counts[i] < 0xFFFF_FFFF_FFFF_FFFF
    ensures r.NoQueue? <==> counts == []
    ensures r.Queue? ==> r.id < |counts| && counts[r.id] == r.count
    ensures r.Queue? ==> forall i :: 0 <= i < |counts| ==> counts[i] >= r.count && (i < r.id ==> counts[i] > r.count)
  {
    var min := 0xFFFF_FFFF_FFFF_FFFF;
    r := NoQueue;
    for id := 0 to |counts|
      invariant r.NoQueue? ==> id == 0 && min == 0xFFFF_FFFF_FFFF_FFFF
      invariant r.Queue? ==> r.id < id && counts[r.id] == r.count == min > 0 && forall i :: 0 <= i < r.id ==> counts[i] > min
      invariant forall i :: 0 <= i < id ==> counts[i] >= min
    {
      if counts[id] == 0 {
        return Queue(id, 0);
      }
      if counts[id] < min {
        min := counts[id];
        r := Queue(id, min);
      }
    }
  }
}
