/** The priority scheduler (kernel/src/sched.rs) over the thread states it sets
    (kernel/src/thread.rs, `set_state`). Choosing a thread rotates its queue: the
    entry moves to the back and stays. */
module Sched {
  import opened Words

  const PRIORITY_LEVELS := 4
  /** `ThreadPriority::Idle` and `ThreadPriority::Normal`. */
  const IDLE := 0
  const NORMAL := 2

  datatype State = Running | Ready | Blocked | Exited

  // ----- the ready queues as a value -----

  type Queues = q: seq<seq<nat>> | |q| == PRIORITY_LEVELS witness [[], [], [], []]

  const NO_ENTRIES: Queues := [[], [], [], []]

  /** The highest level that has an entry. */
  ghost function Top(qs: Queues): (l: Option<nat>)
    ensures l.Some? ==> l.value < PRIORITY_LEVELS && qs[l.value] != []
    ensures forall k :: (if l.Some? then l.value + 1 else 0) <= k < PRIORITY_LEVELS ==> qs[k] == []
  {
    if qs[3] != [] then Some(3) else if qs[2] != [] then Some(2)
    else if qs[1] != [] then Some(1) else if qs[0] != [] then Some(0) else None
  }

  datatype QueueOp = Push(id: nat, level: nat) | Rotate

  function Enqueue(qs: Queues, id: nat, level: nat): Queues {
    if level < PRIORITY_LEVELS then qs[level := qs[level] + [id]] else qs
  }

  ghost function Turn(qs: Queues): Queues {
    match Top(qs)
    case None => qs
    case Some(l) => qs[l := qs[l][1..] + [qs[l][0]]]
  }

  ghost function Pick(qs: Queues): Option<nat> {
    match Top(qs)
    case None => None
    case Some(l) => Some(qs[l][0])
  }

  ghost function Apply(qs: Queues, op: QueueOp): Queues {
    match op
    case Push(id, level) => Enqueue(qs, id, level)
    case Rotate => Turn(qs)
  }

  ghost function Replay(qs: Queues, ops: seq<QueueOp>): Queues
    decreases |ops|
  {
    if ops == [] then qs else Replay(Apply(qs, ops[0]), ops[1..])
  }

  /** The threads the rotations of a run choose, in order. */
  ghost function Picks(qs: Queues, ops: seq<QueueOp>): seq<nat>
    decreases |ops|
  {
    if ops == [] then []
    else
      var rest := Picks(Apply(qs, ops[0]), ops[1..]);
      if ops[0].Rotate? && Pick(qs).Some? then [Pick(qs).value] + rest else rest
  }

  ghost function Rotations(ops: seq<QueueOp>): nat {
    if ops == [] then 0 else (if ops[0].Rotate? then 1 else 0) + Rotations(ops[1..])
  }

  /** The entries a run adds to one level. */
  ghost function Pushed(ops: seq<QueueOp>, level: nat): seq<nat> {
    if ops == [] then []
    else
      var rest := Pushed(ops[1..], level);
      if ops[0].Push? && ops[0].level == level then [ops[0].id] + rest else rest
  }

  ghost predicate NoHigher(ops: seq<QueueOp>, level: nat) {
    forall i :: 0 <= i < |ops| && ops[i].Push? ==> ops[i].level <= level || ops[i].level >= PRIORITY_LEVELS
  }

  lemma {:induction false} ReplayJoin(qs: Queues, a: seq<QueueOp>, b: seq<QueueOp>)
    ensures Replay(qs, a + b) == Replay(Replay(qs, a), b)
    decreases |a|
  {
    if a == [] {
      assert a + b == b;
    } else {
      assert (a + b)[0] == a[0] && (a + b)[1..] == a[1..] + b;
      ReplayJoin(Apply(qs, a[0]), a[1..], b);
    }
  }

  lemma AppliedEntries(qs: Queues, op: QueueOp, level: nat)
    requires level < PRIORITY_LEVELS
    ensures var added := if op.Push? && op.level == level then [op.id] else [];
      multiset(Apply(qs, op)[level]) == multiset(qs[level]) + multiset(added)
  {
    if op.Rotate? && qs[level] != [] {
      assert qs[level] == [qs[level][0]] + qs[level][1..];
    }
  }

  /** Every level keeps exactly the entries it had plus the ones pushed to it: no
      entry is ever lost, and none is ever taken out. */
  lemma {:induction false} EntriesKept(qs: Queues, ops: seq<QueueOp>, level: nat)
    requires level < PRIORITY_LEVELS
    ensures multiset(Replay(qs, ops)[level]) == multiset(qs[level]) + multiset(Pushed(ops, level))
    decreases |ops|
  {
    if ops != [] {
      hide Apply;
      EntriesKept(Apply(qs, ops[0]), ops[1..], level);
      AppliedEntries(qs, ops[0], level);
    }
  }

  lemma TopStays(qs: Queues, op: QueueOp, level: nat)
    requires Top(qs) == Some(level) && NoHigher([op], level)
    ensures Top(Apply(qs, op)) == Some(level)
    ensures Apply(qs, op)[level] ==
            if op.Rotate? then qs[level][1..] + [qs[level][0]]
            else if op.level == level then qs[level] + [op.id] else qs[level]
  {
    assert op == [op][0];
  }

  /** Round robin: while nothing is pushed above the highest level in use, its
      entries are chosen in queue order, the one at position `p` by exactly the
      `p + 1`-th rotation. */
  lemma {:induction false} RoundRobin(qs: Queues, level: nat, ops: seq<QueueOp>)
    requires Top(qs) == Some(level) && NoHigher(ops, level)
    ensures Top(Replay(qs, ops)) == Some(level)
    ensures |Picks(qs, ops)| == Rotations(ops)
    ensures forall p :: 0 <= p < |qs[level]| && p < Rotations(ops) ==> Picks(qs, ops)[p] == qs[level][p]
    ensures Rotations(ops) < |qs[level]| ==> Pick(Replay(qs, ops)) == Some(qs[level][Rotations(ops)])
    decreases |ops|
  {
    PickIs(qs, level);
    if ops != [] {
      assert NoHigher([ops[0]], level);
      TopStays(qs, ops[0], level);
      hide Top, Turn, Enqueue, Apply, Pick;
      RoundRobin(Apply(qs, ops[0]), level, ops[1..]);
    }
  }

  lemma PickIs(qs: Queues, level: nat)
    requires Top(qs) == Some(level)
    ensures Pick(qs) == Some(qs[level][0])
  {
  }

  lemma NotEmptied(qs: Queues, op: QueueOp, level: nat)
    requires level < PRIORITY_LEVELS && qs[level] != []
    ensures Apply(qs, op)[level] != [] && Pick(qs).Some?
  {
  }

  lemma InNext(qs: Queues, op: QueueOp, level: nat, x: nat)
    requires level < PRIORITY_LEVELS && x in Apply(qs, op)[level]
    ensures x in qs[level] || op == Push(x, level)
  {
    if op.Rotate? && Top(qs) == Some(level) {
      assert qs[level] == [qs[level][0]] + qs[level][1..];
    }
  }

  /** Once a level has an entry, nothing below it is ever chosen again. */
  lemma {:induction false} Starvation(qs: Queues, level: nat, ops: seq<QueueOp>, i: nat)
    requires level < PRIORITY_LEVELS && qs[level] != [] && i < |Picks(qs, ops)|
    ensures var x := Picks(qs, ops)[i];
            exists l :: level <= l < PRIORITY_LEVELS && (x in qs[l] || x in Pushed(ops, l))
    decreases |ops|
  {
    hide Apply, Turn;
    var next := Apply(qs, ops[0]);
    NotEmptied(qs, ops[0], level);
    if ops[0].Rotate? && i == 0 {
      var l := Top(qs).value;
      assert level <= l && Picks(qs, ops)[0] in qs[l];
    } else {
      var k := if ops[0].Rotate? then i - 1 else i;
      Starvation(next, level, ops[1..], k);
      var x := Picks(next, ops[1..])[k];
      var l :| level <= l < PRIORITY_LEVELS && (x in next[l] || x in Pushed(ops[1..], l));
      if x in next[l] { InNext(qs, ops[0], l, x); }
      assert x == Picks(qs, ops)[i] && (x in qs[l] || x in Pushed(ops, l));
    }
  }

  // ----- whether the chosen threads can run -----

  predicate IsReady(states: map<nat, State>, t: nat) { t in states && states[t] == Ready }

  /** What `schedule` works on: the queues, the thread states and the running thread. */
  datatype Cpu = Cpu(queues: Queues, states: map<nat, State>, current: nat)

  /** The thread `schedule` chooses. */
  ghost function Chosen(c: Cpu): nat {
    if Pick(c.queues).Some? then Pick(c.queues).value else c.current
  }

  /** One call of `schedule`: the queue turns, and the thread left becomes Ready. */
  ghost function Scheduled(c: Cpu): Cpu {
    Cpu(Turn(c.queues), Switched(c.states, Some(c.current), Chosen(c)), Chosen(c))
  }

  /** `k` calls in a row. */
  ghost function After(c: Cpu, k: nat): Cpu
    decreases k
  {
    if k == 0 then c else After(Scheduled(c), k - 1)
  }

  ghost predicate Fit(c: Cpu, x: nat) { x == c.current || IsReady(c.states, x) }

  ghost predicate LevelFit(c: Cpu, level: nat)
    requires level < PRIORITY_LEVELS
  {
    forall x :: x in c.queues[level] ==> Fit(c, x)
  }

  /** What one call does to the level it turns and to the fitness of a thread. */
  lemma ScheduledLevel(c: Cpu, level: nat)
    requires Top(c.queues) == Some(level)
    ensures var q := c.queues[level];
            Chosen(c) == q[0] && Top(Scheduled(c).queues) == Some(level) &&
            Scheduled(c).queues[level] == q[1..] + [q[0]]
  {
    PickIs(c.queues, level);
    assert NoHigher([Rotate], level);
    TopStays(c.queues, Rotate, level);
  }

  lemma FitStep(c: Cpu, x: nat)
    requires c.current in c.states
    ensures Fit(c, x) ==> Fit(Scheduled(c), x)
    ensures Fit(c, Chosen(c)) ==> Chosen(c) in Scheduled(c).states
    ensures !Fit(c, x) && x != Chosen(c) ==> !Fit(Scheduled(c), x)
  {
    hide Pick, Turn;
  }

  lemma {:induction false} StaysFit(c: Cpu, level: nat, k: nat)
    requires Top(c.queues) == Some(level) && c.current in c.states && LevelFit(c, level)
    ensures Fit(After(c, k), Chosen(After(c, k)))
    decreases k
  {
    hide Chosen, Scheduled, Fit, Top;
    ScheduledLevel(c, level);
    assert Fit(c, c.queues[level][0]);
    if k > 0 {
      forall x | x in c.queues[level] ensures Fit(Scheduled(c), x) { FitStep(c, x); }
      FitStep(c, Chosen(c));
      assert Scheduled(c).current in Scheduled(c).states by { ScheduledCurrent(c); }
      StaysFit(Scheduled(c), level, k - 1);
    }
  }

  lemma ScheduledCurrent(c: Cpu)
    ensures Scheduled(c).current == Chosen(c)
  {
  }

  /** A thread that is neither Ready nor running is chosen all the same, at its turn. */
  lemma {:induction false} UnfitTurn(c: Cpu, level: nat, p: nat)
    requires Top(c.queues) == Some(level) && c.current in c.states && p < |c.queues[level]|
    requires !Fit(c, c.queues[level][p])
    ensures exists k :: 0 <= k <= p && !Fit(After(c, k), Chosen(After(c, k)))
    decreases p
  {
    hide Chosen, Scheduled, Fit, Top;
    var x := c.queues[level][p];
    ScheduledLevel(c, level);
    if !Fit(c, Chosen(c)) {
      assert After(c, 0) == c;
    } else {
      FitStep(c, x);
      ScheduledCurrent(c);
      UnfitTurn(Scheduled(c), level, p - 1);
      var k :| 0 <= k <= p - 1 && !Fit(After(Scheduled(c), k), Chosen(After(Scheduled(c), k)));
      assert After(c, k + 1) == After(Scheduled(c), k);
    }
  }

  /** Nothing takes an entry out. So `schedule`, called any number of times, chooses only
      threads that are Ready or already running if and only if every thread queued at the
      highest level in use is one of these to begin with. */
  lemma PicksReady(c: Cpu, level: nat)
    requires Top(c.queues) == Some(level) && c.current in c.states
    ensures (forall k: nat :: Fit(After(c, k), Chosen(After(c, k)))) <==> LevelFit(c, level)
  {
    hide Chosen, Scheduled, Fit, Top, After;
    if LevelFit(c, level) {
      forall k: nat ensures Fit(After(c, k), Chosen(After(c, k))) { StaysFit(c, level, k); }
    } else {
      var x :| x in c.queues[level] && !Fit(c, x);
      var p :| 0 <= p < |c.queues[level]| && c.queues[level][p] == x;
      UnfitTurn(c, level, p);
    }
  }

  /** The running thread joins the back of a queue, as a timer tick has it do. */
  ghost function Requeued(c: Cpu, level: nat): Cpu {
    c.(queues := Enqueue(c.queues, c.current, level))
  }

  /** A timer tick, with the running thread's priority: an empty machine only switches. */
  ghost function Ticked(c: Cpu, level: nat): Cpu {
    if Top(c.queues).None? then Scheduled(c) else Scheduled(Requeued(c, level))
  }

  /** Calls of `schedule` (None) and timer ticks (Some priority), in any order. */
  ghost function Driven(c: Cpu, steps: seq<Option<nat>>): Cpu
    decreases |steps|
  {
    if steps == [] then c
    else Driven(if steps[0].None? then Scheduled(c) else Ticked(c, steps[0].value), steps[1..])
  }

  ghost predicate AllFit(c: Cpu) {
    c.current in c.states && forall l :: 0 <= l < PRIORITY_LEVELS ==> LevelFit(c, l)
  }

  lemma RequeuedFit(c: Cpu, level: nat)
    requires AllFit(c)
    ensures AllFit(Requeued(c, level))
  {
    var c' := Requeued(c, level);
    forall l, x | 0 <= l < PRIORITY_LEVELS && x in c'.queues[l] ensures Fit(c', x) {
      assert x in c.queues[l] ==> LevelFit(c, l);
    }
  }

  lemma ScheduledFit(c: Cpu)
    requires AllFit(c)
    ensures Fit(c, Chosen(c)) && AllFit(Scheduled(c))
  {
    if Top(c.queues).Some? { assert LevelFit(c, Top(c.queues).value); }
    FitStep(c, c.current);
    forall l, x | 0 <= l < PRIORITY_LEVELS && x in Scheduled(c).queues[l] ensures Fit(Scheduled(c), x) {
      InNext(c.queues, Rotate, l, x);
      assert LevelFit(c, l);
      FitStep(c, x);
    }
  }

  /** From a state where every queued thread is Ready or running, every call of `schedule`
      and every timer tick, in any order, leaves it so and chooses such a thread. */
  lemma {:induction false} FitForever(c: Cpu, steps: seq<Option<nat>>, level: nat)
    requires AllFit(c)
    ensures var c' := Driven(c, steps);
            AllFit(c') && Fit(c', Chosen(c')) && Fit(Requeued(c', level), Chosen(Requeued(c', level)))
    decreases |steps|
  {
    hide AllFit, Fit, Chosen, Scheduled, Requeued;
    ScheduledFit(c);
    RequeuedFit(c, level);
    ScheduledFit(Requeued(c, level));
    if steps != [] {
      if steps[0].Some? {
        RequeuedFit(c, steps[0].value);
        ScheduledFit(Requeued(c, steps[0].value));
      }
      FitForever(if steps[0].None? then Scheduled(c) else Ticked(c, steps[0].value), steps[1..], level);
    }
  }

  /** A thread that has exited is chosen and set Running when its entry comes up. */
  lemma ExitedRuns()
    ensures var qs: Queues := [[], [], [7], []];
      Pick(qs) == Some(7) && Switched(map[0 := Running, 7 := Exited], Some(0), 7)[7] == Running
  {
  }

  // ----- the scheduler -----

  class Scheduler {
    var queues: Queues
    var basePriority: map<nat, nat>
    var effectivePriority: map<nat, nat>
    var current: Option<nat>
    var idle: Option<nat>
    var initialized: bool
    /** The state of every thread in the thread list. */
    var states: map<nat, State>
    /** Every queue operation since the start. */
    ghost var ops: seq<QueueOp>

    function Priority(id: nat): nat
      reads `effectivePriority
    {
      if id in effectivePriority then effectivePriority[id] else NORMAL
    }

    function BasePriority(id: nat): nat
      reads `basePriority
    {
      if id in basePriority then basePriority[id] else NORMAL
    }

    /** At most one thread is Running, and it is the current one. */
    ghost predicate OnlyCurrent()
      reads `states, `current
    {
      forall t :: t in states && states[t] == Running ==> current == Some(t)
    }

    ghost predicate Shape()
      reads this
    {
      && queues == Replay(NO_ENTRIES, ops) && (initialized ==> idle.Some?) && initialized == current.Some?
      && NeverBelowBase()
    }

    ghost predicate NeverBelowBase()
      reads `basePriority, `effectivePriority
    {
      forall id :: id in basePriority || id in effectivePriority ==> BasePriority(id) <= Priority(id)
    }

    ghost predicate Valid()
      reads this
    {
      Shape() && OnlyCurrent()
    }

    /** The state as a value, once a thread runs. */
    ghost function View(): Cpu
      requires current.Some?
      reads this
    {
      Cpu(queues, states, current.value)
    }

    constructor ()
      ensures Valid() && ops == [] && !initialized && states == map[] && current.None?
    {
      queues, basePriority, effectivePriority := NO_ENTRIES, map[], map[];
      current, idle, initialized, states, ops := None, None, false, map[], [];
    }

    /** `thread::set_thread_state`, also used by the rest of the kernel to block or end threads.
        The current thread stays the only Running one exactly when no other thread of the
        list is set to Running. */
    method SetState(id: nat, state: State)
      requires Valid()
      modifies `states
      ensures Shape() && (OnlyCurrent() <==> state != Running || id !in old(states) || current == Some(id))
      ensures states == if id in old(states) then old(states)[id := state] else old(states)
    {
      if id in states {
        states := states[id := state];
        assert state == Running ==> states[id] == Running;
      }
    }

    /** `thread::remove_thread`. */
    method RemoveThread(id: nat)
      requires Valid()
      modifies `states
      ensures Valid() && states == old(states) - {id}
    {
      states := states - {id};
    }

    method PushReady(id: nat, level: nat)
      requires Shape()
      modifies `queues, `ops
      ensures Shape() && queues == Enqueue(old(queues), id, level) && ops == old(ops) + [Push(id, level)]
    {
      ReplayJoin(NO_ENTRIES, ops, [Push(id, level)]);
      Replay1(queues, Push(id, level));
      if level < PRIORITY_LEVELS {
        queues := queues[level := queues[level] + [id]];
      }
      ops := ops + [Push(id, level)];
    }

    /** `pop_next`: the front of the highest non-empty queue, which moves to its back. */
    method PopNext() returns (next: Option<nat>)
      requires Shape()
      modifies `queues, `ops
      ensures Shape() && queues == Turn(old(queues)) && ops == old(ops) + [Rotate] && next == Pick(old(queues))
    {
      ReplayJoin(NO_ENTRIES, ops, [Rotate]);
      Replay1(queues, Rotate);
      ops := ops + [Rotate];
      var level := PRIORITY_LEVELS;
      while level > 0
        invariant 0 <= level <= PRIORITY_LEVELS && queues == old(queues) && ops == old(ops) + [Rotate]
        invariant forall k :: level <= k < PRIORITY_LEVELS ==> queues[k] == []
      {
        level := level - 1;
        if queues[level] != [] {
          var id := queues[level][0];
          queues := queues[level := queues[level][1..]];
          queues := queues[level := queues[level] + [id]];
          TopIs(old(queues), level);
          return Some(id);
        }
      }
      return None;
    }

    /** Enters a new thread with its priority. */
    method Register(id: nat, priority: nat)
      requires NeverBelowBase()
      modifies `basePriority, `effectivePriority
      ensures NeverBelowBase() && Priority(id) == BasePriority(id) == priority
      ensures forall t :: t != id ==> Priority(t) == old(Priority(t)) && BasePriority(t) == old(BasePriority(t))
    {
      basePriority, effectivePriority := basePriority[id := priority], effectivePriority[id := priority];
    }

    /** `init`: the idle thread becomes current and Running. It is the only Running one exactly
        when none was Running before, as on the first call. */
    method Init(id: nat)
      requires Valid() && id !in states
      modifies this
      ensures Shape() && initialized && current == idle == Some(id)
      ensures OnlyCurrent() <==> forall t :: t in old(states) ==> old(states)[t] != Running
      ensures !old(initialized) ==> OnlyCurrent()
      ensures states == old(states)[id := Running] && queues == old(queues) && ops == old(ops)
      ensures Priority(id) == BasePriority(id) == 0
      ensures forall t :: t != id ==> Priority(t) == old(Priority(t)) && BasePriority(t) == old(BasePriority(t))
    {
      hide Replay, Enqueue, Turn, Scheduler.NeverBelowBase;
      Register(id, IDLE);
      states := states[id := Ready];
      states := states[id := Running];
      idle, current, initialized := Some(id), Some(id), true;
      assert forall t :: t in old(states) ==> t in states && states[t] == old(states)[t];
    }

    /** `add_thread`: the thread that is current stays the only Running one exactly
        when the new thread does not claim to be Running. */
    method AddThread(id: nat, priority: nat, state: State)
      requires Valid() && id !in states
      modifies this
      ensures Shape() && (OnlyCurrent() <==> state != Running || current == Some(id))
      ensures states == old(states)[id := state] && current == old(current) && initialized == old(initialized)
      ensures Priority(id) == BasePriority(id) == priority && idle == old(idle)
      ensures forall t :: t != id ==> Priority(t) == old(Priority(t)) && BasePriority(t) == old(BasePriority(t))
      ensures ops == if state == Ready then old(ops) + [Push(id, priority)] else old(ops)
    {
      states := states[id := state];
      Register(id, priority);
      assert state == Running ==> states[id] == Running;
      if state == Ready { PushReady(id, priority); }
    }

    /** `schedule`: rotate, and switch to the thread picked. */
    method Schedule() returns (chosen: Option<nat>)
      requires Valid()
      modifies `queues, `ops, `states, `current
      ensures Valid()
      ensures !initialized ==> chosen.None? && queues == old(queues) && ops == old(ops) && states == old(states)
      ensures initialized ==>
                && ops == old(ops) + [Rotate] && chosen.Some? && current == chosen
                && chosen == (if Pick(old(queues)).Some? then Pick(old(queues)) else old(current))
                && states == Switched(old(states), old(current), chosen.value)
                && View() == Scheduled(old(View()))
      ensures initialized ==>
                && states.Keys == old(states).Keys
                && (chosen.value in states ==> states[chosen.value] == Running)
                && (old(current) != chosen && old(current).value in states ==> states[old(current).value] == Ready)
                && forall t :: t in states && Some(t) != chosen && Some(t) != old(current) ==>
                     states[t] == old(states)[t]
    {
      if !initialized { return None; }
      var next := PopNext();
      chosen := ApplySwitch(current, next);
    }

    /** `on_timer_tick`: the running thread goes to the back of its queue first, unless
        nothing is queued at all. */
    method OnTimerTick() returns (previous: Option<nat>, chosen: Option<nat>)
      requires Valid()
      modifies `queues, `ops, `states, `current
      ensures Valid()
      ensures !initialized ==>
                previous.None? && chosen.None? && queues == old(queues) && ops == old(ops) && states == old(states)
      ensures initialized ==>
                && previous == old(current) && chosen.Some? && current == chosen
                && states == Switched(old(states), old(current), chosen.value)
                && (Top(old(queues)).None? ==> chosen == previous && ops == old(ops))
                && (Top(old(queues)).Some? ==>
                      var requeue := Push(previous.value, Priority(previous.value));
                      ops == old(ops) + [requeue, Rotate] && chosen == Pick(Apply(old(queues), requeue)))
                && View() == Ticked(old(View()), Priority(previous.value))
      ensures initialized ==>
                && states.Keys == old(states).Keys
                && (chosen.value in states ==> states[chosen.value] == Running)
                && (old(current) != chosen && old(current).value in states ==> states[old(current).value] == Ready)
                && forall t :: t in states && Some(t) != chosen && Some(t) != old(current) ==>
                     states[t] == old(states)[t]
    {
      if !initialized { return None, None; }
      previous := None;
      var next: Option<nat> := None;
      var running := current;
      if running.Some? {
        previous := running;
        var empty := queues[0] == [] && queues[1] == [] && queues[2] == [] && queues[3] == [];
        assert empty <==> Top(queues).None?;
        if !empty {
          ghost var requeue := Push(running.value, Priority(running.value));
          PickSome(queues, requeue);
          PushReady(running.value, Priority(running.value));
          assert queues == Apply(old(queues), requeue);
          running := None;
        }
      }
      if running.None? {
        next := PopNext();
        assert ops == old(ops) + [Push(previous.value, Priority(previous.value)), Rotate];
      }
      chosen := ApplySwitch(previous, next);
    }

    /** `apply_switch_with_previous`: the thread switched away from becomes Ready whatever it was. */
    method ApplySwitch(previous: Option<nat>, next: Option<nat>) returns (chosen: Option<nat>)
      requires Valid() && initialized && previous == current
      modifies `states, `current
      ensures Valid() && current == chosen && chosen == if next.Some? then next else previous
      ensures states == Switched(old(states), previous, chosen.value) && states.Keys == old(states).Keys
      ensures chosen.value in states ==> states[chosen.value] == Running
      ensures previous.Some? && previous != chosen && previous.value in states ==> states[previous.value] == Ready
      ensures forall t :: t in states && Some(t) != chosen && Some(t) != previous ==> states[t] == old(states)[t]
    {
      chosen := if next.Some? then next else if previous.Some? then previous else idle;
      if previous.Some? && previous != chosen && previous.value in states {
        states := states[previous.value := Ready];
      }
      if chosen.value in states { states := states[chosen.value := Running]; }
      current := chosen;
    }

    /** `mark_ready`. */
    method MarkReady(id: nat)
      requires Valid()
      modifies `queues, `ops, `states
      ensures Valid() && ops == old(ops) + [Push(id, Priority(id))]
      ensures Priority(id) == if id in effectivePriority then effectivePriority[id] else 2
      ensures states == (if id in old(states) then old(states)[id := Ready] else old(states))
    {
      SetState(id, Ready);
      PushReady(id, Priority(id));
    }

    /** `boost_priority`: raises, never lowers. */
    method BoostPriority(id: nat, priority: nat) returns (raised: bool)
      requires Valid()
      modifies `effectivePriority
      ensures Valid() && raised == (priority > old(Priority(id)))
      ensures Priority(id) == if raised then priority else old(Priority(id))
      ensures forall other :: other != id ==> Priority(other) == old(Priority(other))
    {
      raised := priority > Priority(id);
      if raised { effectivePriority := effectivePriority[id := priority]; }
    }

    /** `restore_original_priority`: undoes every boost. */
    method RestorePriority(id: nat)
      requires Valid()
      modifies `effectivePriority
      ensures Valid() && Priority(id) == BasePriority(id)
      ensures forall other :: other != id ==> Priority(other) == old(Priority(other))
    {
      effectivePriority := effectivePriority[id := BasePriority(id)];
    }
  }

  ghost function Switched(states: map<nat, State>, previous: Option<nat>, chosen: nat): map<nat, State> {
    var left := if previous.Some? && previous.value != chosen && previous.value in states
                then states[previous.value := Ready] else states;
    if chosen in left then left[chosen := Running] else left
  }

  lemma Replay1(qs: Queues, op: QueueOp)
    ensures Replay(qs, [op]) == Apply(qs, op)
  {
    assert [op][1..] == [];
  }

  lemma TopIs(qs: Queues, level: nat)
    requires level < PRIORITY_LEVELS && qs[level] != []
    requires forall k :: level < k < PRIORITY_LEVELS ==> qs[k] == []
    ensures Top(qs) == Some(level)
  {
  }

  lemma PickSome(qs: Queues, op: QueueOp)
    requires Top(qs).Some? && op.Push?
    ensures Pick(Apply(qs, op)).Some?
  {
  }
}
