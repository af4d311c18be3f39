/** One CPU's round-robin scheduler (`scheduling/scheduler.rs`). */
module Scheduler {
  import opened Basics

  datatype TaskState = Ready | Wait(until: nat) | Terminate(code: nat)

  datatype Task = Task(id: nat, user: bool, state: TaskState)

  datatype Sched = Sched(curr: Task, ready: seq<Task>, sleep: seq<Task>, terminate: seq<Task>)

  /** Which tasks are picked out of a queue: user tasks by a steal, sleepers that are due by a scheduling call. */
  datatype Pick = IsUser | IsDue(now: nat)

  predicate Picks(p: Pick, t: Task)
  {
    match p
    case IsUser => t.user
    case IsDue(now) => t.state.Wait? ==> t.state.until < now
  }

  /** The first `count` picked tasks, from the last of them to the first. */
  function Gone(p: Pick, ts: seq<Task>, count: nat): seq<Task>
  {
    if ts == [] || count == 0 then []
    else if Picks(p, ts[0]) then Gone(p, ts[1..], count - 1) + [ts[0]]
    else Gone(p, ts[1..], count)
  }

  /** What is left, in order. */
  function Left(p: Pick, ts: seq<Task>, count: nat): seq<Task>
  {
    if ts == [] || count == 0 then ts
    else if Picks(p, ts[0]) then Left(p, ts[1..], count - 1)
    else [ts[0]] + Left(p, ts[1..], count)
  }

  function Count(p: Pick, ts: seq<Task>): nat
  {
    if ts == [] then 0 else (if Picks(p, ts[0]) then 1 else 0) + Count(p, ts[1..])
  }

  function Readied(ts: seq<Task>): seq<Task>
  {
    if ts == [] then [] else [ts[0].(state := Ready)] + Readied(ts[1..])
  }

  function Wake(s: Sched, now: nat): Sched
  {
    s.(ready := s.ready + Readied(Gone(IsDue(now), s.sleep, |s.sleep|)), sleep := Left(IsDue(now), s.sleep, |s.sleep|))
  }

  /** The task that was running goes to the queue for its state. */
  function MoveToQueue(s: Sched, t: Task): Sched
  {
    match t.state
    case Ready => s.(ready := s.ready + [t])
    case Terminate(_) => s.(terminate := s.terminate + [t])
    case Wait(_) => s.(sleep := s.sleep + [t])
  }

  /** One scheduling call. */
  function Tick(s: Sched, now: nat, idle: Task): Sched
  {
    var w := Wake(s, now);
    if w.ready == [] && w.curr.state == Ready then w
    else
      var next := if w.ready == [] then idle else w.ready[0];
      var rest := if w.ready == [] then [] else w.ready[1..];
      MoveToQueue(w.(curr := next, ready := rest), w.curr).(terminate := [])
  }

  /** How often a task id occurs in a queue. */
  ghost function Occ(ts: seq<Task>, id: nat): nat
  {
    if ts == [] then 0 else (if ts[0].id == id then 1 else 0) + Occ(ts[1..], id)
  }

  ghost function One(t: Task, id: nat): nat
  {
    if t.id == id then 1 else 0
  }

  lemma {:induction false} OccConcat(a: seq<Task>, b: seq<Task>, id: nat)
    ensures Occ(a + b, id) == Occ(a, id) + Occ(b, id)
  {
    if a == [] {
      assert a + b == b;
    } else {
      assert (a + b)[1..] == a[1..] + b;
      OccConcat(a[1..], b, id);
    }
  }

  lemma {:induction false} ReadiedKeeps(ts: seq<Task>, id: nat)
    ensures Occ(Readied(ts), id) == Occ(ts, id) && forall t :: t in Readied(ts) ==> t.state == Ready
  {
    if ts != [] {
      ReadiedKeeps(ts[1..], id);
    }
  }

  /** Picking splits the queue. */
  lemma {:induction false} PickSplits(p: Pick, ts: seq<Task>, count: nat, id: nat)
    ensures Occ(Gone(p, ts, count), id) + Occ(Left(p, ts, count), id) == Occ(ts, id)
    ensures |Gone(p, ts, count)| == if count <= Count(p, ts) then count else Count(p, ts)
  {
    if ts != [] && count != 0 {
      if Picks(p, ts[0]) {
        PickSplits(p, ts[1..], count - 1, id);
        OccConcat(Gone(p, ts[1..], count - 1), [ts[0]], id);
      } else {
        PickSplits(p, ts[1..], count, id);
        OccConcat([ts[0]], Left(p, ts[1..], count), id);
      }
    }
  }

  /** Only picked tasks go. */
  lemma {:induction false} PickMembers(p: Pick, ts: seq<Task>, count: nat, t: Task)
    ensures t in Gone(p, ts, count) ==> Picks(p, t) && t in ts
    ensures t in Left(p, ts, count) ==> t in ts
    ensures t in ts && !Picks(p, t) ==> t in Left(p, ts, count)
  {
    if ts != [] && count != 0 {
      PickMembers(p, ts[1..], if Picks(p, ts[0]) then count - 1 else count, t);
    }
  }

  /** Asking for more than there are is asking for all. */
  lemma {:induction false} PickAll(p: Pick, ts: seq<Task>, c: nat, d: nat)
    requires Count(p, ts) <= c && Count(p, ts) <= d
    ensures Gone(p, ts, c) == Gone(p, ts, d) && Left(p, ts, c) == Left(p, ts, d)
  {
    if ts != [] {
      if c == 0 || d == 0 {
        SkipAll(p, ts, c);
        SkipAll(p, ts, d);
      } else if Picks(p, ts[0]) {
        PickAll(p, ts[1..], c - 1, d - 1);
      } else {
        PickAll(p, ts[1..], c, d);
      }
    }
  }

  lemma {:induction false} SkipAll(p: Pick, ts: seq<Task>, c: nat)
    requires Count(p, ts) == 0
    ensures Gone(p, ts, c) == [] && Left(p, ts, c) == ts
  {
    if ts != [] {
      SkipAll(p, ts[1..], c);
    }
  }

  /** A task that is not picked does not move back. */
  lemma {:induction false} LeftPosition(p: Pick, ts: seq<Task>, count: nat, k: nat) returns (j: nat)
    requires k < |ts|
    ensures ts[k] in Gone(p, ts, count) || (j <= k && j < |Left(p, ts, count)| && Left(p, ts, count)[j] == ts[k])
  {
    if count == 0 || k == 0 {
      j := k;
    } else if Picks(p, ts[0]) {
      j := LeftPosition(p, ts[1..], count - 1, k - 1);
    } else {
      j := LeftPosition(p, ts[1..], count, k - 1);
      j := j + 1;
    }
  }

  /** Nothing is picked from a stretch without picked tasks. */
  lemma {:induction false} SkipStretch(p: Pick, a: seq<Task>, b: seq<Task>, count: nat)
    requires forall t :: t in a ==> !Picks(p, t)
    ensures Gone(p, a + b, count) == Gone(p, b, count) && Left(p, a + b, count) == a + Left(p, b, count)
  {
    if a == [] {
      assert a + b == b;
    } else {
      assert (a + b)[1..] == a[1..] + b;
      SkipStretch(p, a[1..], b, count);
    }
  }

  lemma {:induction false} WakeKeeps(s: Sched, now: nat, id: nat)
    ensures var w := Wake(s, now); Occ(w.ready, id) + Occ(w.sleep, id) == Occ(s.ready, id) + Occ(s.sleep, id)
  {
    var due := Gone(IsDue(now), s.sleep, |s.sleep|);
    PickSplits(IsDue(now), s.sleep, |s.sleep|, id);
    ReadiedKeeps(due, id);
    OccConcat(s.ready, Readied(due), id);
  }

  ghost function Here(s: Sched, id: nat): nat
  {
    One(s.curr, id) + Occ(s.ready, id) + Occ(s.sleep, id)
  }

  /** With something ready, a call does not clone the idle task, and drops the running task only if it has terminated. */
  lemma TickKeeps(s: Sched, now: nat, idle: Task, id: nat)
    requires Wake(s, now).ready != [] || s.curr.state == Ready
    ensures Here(Tick(s, now, idle), id) == Here(s, id) - if s.curr.state.Terminate? then One(s.curr, id) else 0
  {
    WakeKeeps(s, now, id);
    var w := Wake(s, now);
    if w.ready != [] {
      OccConcat([w.ready[0]], w.ready[1..], id);
      assert w.ready == [w.ready[0]] + w.ready[1..];
      OccConcat(w.ready[1..], [w.curr], id);
      OccConcat(w.sleep, [w.curr], id);
    }
  }

  /** `picked` are the first positions of picked tasks, up to `count` of them. */
  ghost predicate FirstPicks(p: Pick, ts: seq<Task>, picked: seq<nat>, upTo: nat)
  {
    && upTo <= |ts|
    && (forall i :: 0 <= i < |picked| ==> picked[i] < upTo && Picks(p, ts[picked[i]]))
    && (forall i, j :: 0 <= i < j < |picked| ==> picked[i] < picked[j])
    && (forall k :: 0 <= k < upTo && Picks(p, ts[k]) ==> k in picked)
  }

  /** The first loop of a pick: positions to take, in order. */
  method FindPicks(p: Pick, ts: seq<Task>, count: nat) returns (picked: seq<nat>, ghost upTo: nat)
    ensures FirstPicks(p, ts, picked, upTo)
    ensures |picked| == if count <= Count(p, ts) then count else Count(p, ts)
  {
    picked := [];
    for i := 0 to |ts|
      invariant FirstPicks(p, ts, picked, i)
      invariant |picked| <= count && |picked| + Count(p, ts[i..]) == Count(p, ts)
    {
      if |picked| >= count {
        return picked, i;
      }
      assert ts[i..][1..] == ts[i + 1..];
      if Picks(p, ts[i]) {
        picked := picked + [i];
      }
    }
    upTo := |ts|;
  }

  /** The second loop: take them out, last first. */
  method TakeOut(p: Pick, ts: seq<Task>, picked: seq<nat>, ghost upTo: nat) returns (rest: seq<Task>, taken: seq<Task>)
    requires FirstPicks(p, ts, picked, upTo)
    ensures rest == Left(p, ts, |picked|) && taken == Gone(p, ts, |picked|)
  {
    rest, taken := ts, [];
    var k := |picked|;
    ghost var j := upTo;
    assert ts == ts[..j] + ts[j..];
    while k > 0
      invariant 0 <= k <= |picked| && j <= upTo && j == if k < |picked| then picked[k] else upTo
      invariant rest == ts[..j] + Left(p, ts[j..], |picked| - k)
      invariant taken == Gone(p, ts[j..], |picked| - k)
    {
      k := k - 1;
      var i := picked[k];
      NextPick(p, ts, picked, upTo, k, i, j);
      CutOne(ts, Left(p, ts[j..], |picked| - k - 1), i, j);
      taken := taken + [rest[i]];
      rest := rest[..i] + rest[i + 1..];
      j := i;
    }
    assert forall x :: 0 <= x < j ==> !Picks(p, ts[x]);
    SkipStretch(p, ts[..j], ts[j..], |picked|);
    assert ts == ts[..j] + ts[j..];
  }

  lemma CutOne(ts: seq<Task>, tail: seq<Task>, i: nat, j: nat)
    requires i < j <= |ts|
    ensures var rest := ts[..j] + tail; rest[i] == ts[i] && rest[..i] + rest[i + 1..] == ts[..i] + (ts[i + 1..j] + tail)
  {
  }

  /** Between two consecutive positions nothing is picked. */
  lemma NoneBetween(p: Pick, ts: seq<Task>, picked: seq<nat>, upTo: nat, k: nat, i: nat, j: nat, x: nat)
    requires FirstPicks(p, ts, picked, upTo) && k < |picked| && i == picked[k]
    requires j == if k + 1 < |picked| then picked[k + 1] else upTo
    requires i < x < j
    ensures !Picks(p, ts[x])
  {
    forall y | 0 <= y < |picked| ensures picked[y] != x
    {
      assert y <= k ==> picked[y] <= i;
      assert y > k ==> picked[y] >= picked[k + 1];
    }
  }

  lemma {:induction false} NextPick(p: Pick, ts: seq<Task>, picked: seq<nat>, upTo: nat, k: nat, i: nat, j: nat)
    requires FirstPicks(p, ts, picked, upTo) && k < |picked| && i == picked[k]
    requires j == if k + 1 < |picked| then picked[k + 1] else upTo
    ensures i < j
    ensures var c := |picked| - k - 1;
      && Left(p, ts[i..], c + 1) == ts[i + 1..j] + Left(p, ts[j..], c)
      && Gone(p, ts[i..], c + 1) == Gone(p, ts[j..], c) + [ts[i]]
  {
    var c := |picked| - k - 1;
    forall x | i < x < j ensures !Picks(p, ts[x]) { NoneBetween(p, ts, picked, upTo, k, i, j, x); }
    assert ts[i..][1..] == ts[i + 1..j] + ts[j..];
    SkipStretch(p, ts[i + 1..j], ts[j..], c);
  }

  /** The scheduler of one CPU. */
  class CpuScheduler {
    var curr: Task
    var ready: seq<Task>
    var terminate: seq<Task>
    var sleep: seq<Task>

    ghost function V(): Sched
      reads this
    {
      Sched(curr, ready, sleep, terminate)
    }

    constructor (idle: Task)
      ensures V() == Sched(idle, [], [], [])
    {
      curr, ready, terminate, sleep := idle, [], [], [];
    }

    /** Counts the kernel and user tasks that are ready. */
    method TaskCount() returns (kernel: nat, user: nat)
      ensures user == Count(IsUser, ready) && kernel + user == |ready|
    {
      kernel, user := 0, 0;
      for i := 0 to |ready|
        invariant user + Count(IsUser, ready[i..]) == Count(IsUser, ready) && kernel + user == i
      {
        if ready[i].user { user := user + 1; } else { kernel := kernel + 1; }
        assert ready[i..][1..] == ready[i + 1..];
      }
    }

    /** Takes the first `count` user tasks out of the ready queue. */
    method TakeUserTasks(count: nat) returns (r: Option<seq<Task>>)
      modifies this`ready
      ensures r.None? <==> count > Count(IsUser, old(ready))
      ensures r.None? ==> ready == old(ready)
      ensures r.Some? ==> r.value == Gone(IsUser, old(ready), count) && ready == Left(IsUser, old(ready), count)
    {
      var _, user := TaskCount();
      if count > user {
        return None;
      }
      var picked, upTo := FindPicks(IsUser, ready, count);
      var rest, tasks := TakeOut(IsUser, ready, picked, upTo);
      ready := rest;
      return Some(tasks);
    }

    /** Wakes sleepers that are due, then rotates: the head of the queue runs, the running task is queued. */
    method SchedLogic(now: nat, idle: Task)
      modifies this
      ensures V() == Tick(old(V()), now, idle)
    {
      var wakeQueue, upTo := FindPicks(IsDue(now), sleep, |sleep|);
      var rest, due := TakeOut(IsDue(now), sleep, wakeQueue, upTo);
      CountBound(IsDue(now), sleep);
      PickAll(IsDue(now), sleep, |wakeQueue|, |sleep|);
      sleep := rest;
      for i := 0 to |due|
        invariant ready == old(ready) + Readied(due[..i]) && sleep == rest
        invariant curr == old(curr) && terminate == old(terminate)
      {
        ReadiedOne(due, i);
        ready := ready + [due[i].(state := Ready)];
      }
      assert due[..|due|] == due;
      if ready == [] && curr.state == Ready {
        return;
      }
      var next := idle;
      if ready != [] {
        next := ready[0];
        ready := ready[1..];
      }
      var oldTask := curr;
      curr := next;
      match oldTask.state {
        case Ready => ready := ready + [oldTask];
        case Terminate(_) => terminate := terminate + [oldTask];
        case Wait(_) => sleep := sleep + [oldTask];
      }
      terminate := [];
    }
  }

  lemma {:induction false} ReadiedOne(ts: seq<Task>, i: nat)
    requires i < |ts|
    ensures Readied(ts[..i + 1]) == Readied(ts[..i]) + [ts[i].(state := Ready)]
  {
    if i > 0 {
      ReadiedOne(ts[1..], i - 1);
      assert ts[..i + 1][1..] == ts[1..][..i] && ts[..i][1..] == ts[1..][..i - 1];
    }
  }

  lemma {:induction false} CountBound(p: Pick, ts: seq<Task>)
    ensures Count(p, ts) <= |ts|
  {
    if ts != [] {
      CountBound(p, ts[1..]);
    }
  }
}
