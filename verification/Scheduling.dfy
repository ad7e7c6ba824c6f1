// process.c as a state: who runs, who is ready, who waits on which queue, who
// has exited. A step is what the running process does up to its next switch; WaitRace
// lets a switch come in the middle of a wait.
module Scheduling {

  // What the kernel keeps of a process that matters here.
  datatype Proc = Proc(ppid: int, waiting: int)

  // A null current is 0. Queue WATCHERS is grave_watcher_list; the other queues
  // belong to mutexes, pipes and devices.
  datatype Sched = Sched(current: int, ready: seq<int>, grave: seq<int>, queues: map<int, seq<int>>,
                         procs: map<int, Proc>)

  const WATCHERS := 0

  datatype Leaving = ToReady | ToGrave | ToBlocked

  function Q(s: Sched, q: int): seq<int> {
    if q in s.queues then s.queues[q] else []
  }

  function WithQueue(s: Sched, q: int, l: seq<int>): Sched {
    s.(queues := s.queues[q := l])
  }

  // ---------------------------------------------------------------- steps

  function Leave(s: Sched, how: Leaving): Sched {
    if s.current == 0 then s
    else
      match how
      case ToReady => s.(ready := s.ready + [s.current], current := 0)
      case ToGrave => s.(grave := s.grave + [s.current], current := 0)
      case ToBlocked => s.(current := 0)
  }

  // The head of the ready list runs next; with none, the kernel idles.
  function Pick(s: Sched): Sched {
    if s.ready == [] then s.(current := 0) else s.(current := s.ready[0], ready := s.ready[1..])
  }

  function Switch(s: Sched, how: Leaving): Sched {
    Pick(Leave(s, how))
  }

  // process_wait
  function Block(s: Sched, q: int): Sched {
    Switch(WithQueue(s, q, Q(s, q) + [s.current]), ToBlocked)
  }

  // process_wakeup
  function Wake(s: Sched, q: int): Sched {
    if Q(s, q) == [] then s
    else WithQueue(s, q, Q(s, q)[1..]).(ready := s.ready + [Q(s, q)[0]])
  }

  // process_wakeup_all
  function WakeAll(s: Sched, q: int): Sched
    decreases |Q(s, q)|
  {
    if Q(s, q) == [] then s else WakeAll(Wake(s, q), q)
  }

  // The test of process_wakeup_parent: watcher p is told of the exit of c.
  predicate Told(s: Sched, p: int, c: int) {
    && p in s.procs && c in s.procs && p == s.procs[c].ppid
    && (s.procs[p].waiting == 0 || s.procs[p].waiting == c)
  }

  function FirstTold(s: Sched, l: seq<int>, c: int, i: nat): (k: nat)
    requires i <= |l|
    ensures i <= k <= |l| && (k < |l| ==> Told(s, l[k], c)) && forall j :: i <= j < k ==> !Told(s, l[j], c)
    decreases |l| - i
  {
    if i == |l| || Told(s, l[i], c) then i else FirstTold(s, l, c, i + 1)
  }

  function Without(l: seq<int>, k: nat): seq<int>
    requires k < |l|
  {
    l[..k] + l[k + 1..]
  }

  // process_wakeup_parent, on behalf of the current process
  function WakeParent(s: Sched): Sched {
    var l := Q(s, WATCHERS);
    var k := FirstTold(s, l, s.current, 0);
    if k == |l| then s
    else
      WithQueue(s, WATCHERS, Without(l, k)).(ready := s.ready + [l[k]],
                                             procs := s.procs[l[k] := s.procs[l[k]].(waiting := 0)])
  }

  // process_exit
  function Exit(s: Sched): Sched {
    Switch(WakeParent(s), ToGrave)
  }

  // The test of process_wait_child: the dead process d answers a call by p for pid.
  predicate Answers(s: Sched, p: int, pid: int, d: int) {
    (pid != 0 && d == pid) || (d in s.procs && s.procs[d].ppid == p)
  }

  function FirstAnswer(s: Sched, p: int, pid: int, i: nat): (k: nat)
    requires i <= |s.grave|
    ensures i <= k <= |s.grave| && (k < |s.grave| ==> Answers(s, p, pid, s.grave[k]))
    ensures forall j :: i <= j < k ==> !Answers(s, p, pid, s.grave[j])
    decreases |s.grave| - i
  {
    if i == |s.grave| || Answers(s, p, pid, s.grave[i]) then i else FirstAnswer(s, p, pid, i + 1)
  }

  // The end of a pass: the caller notes whom it waits for and sleeps.
  function FallAsleep(s: Sched, pid: int): Sched
    requires s.current in s.procs
  {
    Block(s.(procs := s.procs[s.current := s.procs[s.current].(waiting := pid)]), WATCHERS)
  }

  // One pass of process_wait_child: an answer leaves the state alone, otherwise
  // the caller goes to sleep.
  function WaitChild(s: Sched, pid: int): Sched {
    if FirstAnswer(s, s.current, pid, 0) < |s.grave| || s.current !in s.procs then s
    else FallAsleep(s, pid)
  }

  function IndexIn(l: seq<int>, p: int, i: nat): (k: nat)
    requires i <= |l|
    ensures i <= k <= |l| && (k < |l| ==> l[k] == p) && forall j :: i <= j < k ==> l[j] != p
    decreases |l| - i
  {
    if i == |l| || l[i] == p then i else IndexIn(l, p, i + 1)
  }

  // process_reap
  function Reap(s: Sched, p: int): Sched {
    var k := IndexIn(s.grave, p, 0);
    if k == |s.grave| then s else s.(grave := Without(s.grave, k), procs := s.procs - {p})
  }

  // process_create with its parent set, and process_launch
  function Launch(s: Sched, p: int, ppid: int): Sched {
    s.(procs := s.procs[p := Proc(ppid, 0)], ready := s.ready + [p])
  }

  datatype Step =
    | SLaunch(p: int, ppid: int) | SYield | SExit | SBlock(q: int) | SWake(q: int) | SWakeAll(q: int)
    | SWaitChild(pid: int) | SReap(p: int) | SIdle

  // When a step can happen. Wakeups come from interrupts too, so they need no
  // running process; the watcher queue is only used by exit and wait.
  ghost predicate Can(s: Sched, step: Step) {
    match step
    case SLaunch(p, ppid) => p > 0 && p !in s.procs
    case SYield => s.current != 0
    case SExit => s.current != 0
    case SBlock(q) => s.current != 0 && q != WATCHERS
    case SWake(q) => q != WATCHERS
    case SWakeAll(q) => q != WATCHERS
    case SWaitChild(pid) => s.current != 0
    case SReap(p) => true
    case SIdle => s.current == 0
  }

  function Apply(s: Sched, step: Step): Sched {
    match step
    case SLaunch(p, ppid) => Launch(s, p, ppid)
    case SYield => Switch(s, ToReady)
    case SExit => Exit(s)
    case SBlock(q) => Block(s, q)
    case SWake(q) => Wake(s, q)
    case SWakeAll(q) => WakeAll(s, q)
    case SWaitChild(pid) => WaitChild(s, pid)
    case SReap(p) => Reap(s, p)
    case SIdle => Pick(s)
  }

  // ---------------------------------------------------------------- one place each

  datatype Place = Running | Ready | Grave | Waiting(q: int)

  predicate In(s: Sched, p: int, a: Place) {
    match a
    case Running => p != 0 && s.current == p
    case Ready => p in s.ready
    case Grave => p in s.grave
    case Waiting(q) => p in Q(s, q)
  }

  ghost predicate Distinct(l: seq<int>) {
    forall i, j :: 0 <= i < j < |l| ==> l[i] != l[j]
  }

  ghost predicate Once(s: Sched, p: int, a: Place, b: Place) {
    In(s, p, a) && In(s, p, b) ==> a == b
  }

  ghost predicate Known(s: Sched, p: int, a: Place) {
    In(s, p, a) ==> p in s.procs
  }

  ghost predicate QueueOK(s: Sched, q: int) {
    Distinct(Q(s, q))
  }

  // Every launched, unreaped process is in exactly one place, once.
  ghost predicate Placed(s: Sched) {
    && (forall p, a, b :: Once(s, p, a, b))
    && (forall p, a :: Known(s, p, a))
    && (forall p :: p in s.procs ==> p > 0 && exists a :: In(s, p, a))
    && Distinct(s.ready) && Distinct(s.grave) && (forall q :: QueueOK(s, q))
  }

  // A process moved from place a to place b; the others stayed.
  ghost predicate Moved(s: Sched, t: Sched, p: int, a: Place, b: Place) {
    && In(s, p, a) && !In(t, p, a) && In(t, p, b)
    && (forall x, c :: (x, c) != (p, a) && (x, c) != (p, b) ==> (In(t, x, c) <==> In(s, x, c)))
    && s.procs.Keys == t.procs.Keys
    && Distinct(t.ready) && Distinct(t.grave) && (forall q :: QueueOK(t, q))
  }

  lemma {:induction false} MovePlaced(s: Sched, t: Sched, p: int, a: Place, b: Place)
    requires Placed(s) && Moved(s, t, p, a, b)
    ensures Placed(t)
  {
    hide In, Distinct;
    forall x, c, d ensures Once(t, x, c, d) {
      assert Once(s, x, c, d) && Once(s, x, c, a) && Once(s, x, a, d);
    }
    forall x, c ensures Known(t, x, c) {
      assert Known(s, x, c) && Known(s, p, a);
    }
    forall x | x in t.procs ensures x > 0 && exists c :: In(t, x, c) {
      assert x in s.procs;
      var c :| In(s, x, c);
      if (x, c) == (p, a) {
        assert In(t, x, b);
      } else {
        assert (x, c) == (p, b) || In(t, x, c);
      }
    }
  }

  lemma AppendDistinct(l: seq<int>, p: int)
    requires Distinct(l) && p !in l
    ensures Distinct(l + [p])
  {
  }

  lemma PopDistinct(l: seq<int>)
    requires Distinct(l) && l != []
    ensures Distinct(l[1..]) && (forall x :: x in l[1..] <==> x in l && x != l[0])
  {
  }

  lemma WithoutDistinct(l: seq<int>, k: nat)
    requires Distinct(l) && k < |l|
    ensures Distinct(Without(l, k)) && (forall x :: x in Without(l, k) <==> x in l && x != l[k])
  {
    var m := Without(l, k);
    forall x | x in l && x != l[k] ensures x in m {
      var i :| 0 <= i < |l| && l[i] == x;
      assert x == if i < k then m[i] else m[i - 1];
    }
  }

  lemma SameQueues(s: Sched, t: Sched)
    requires t.queues == s.queues && forall q :: QueueOK(s, q)
    ensures forall q :: QueueOK(t, q)
  {
    forall q ensures QueueOK(t, q) {
      assert QueueOK(s, q);
    }
  }

  lemma OneQueue(s: Sched, t: Sched, q0: int)
    requires t.queues == s.queues[q0 := Q(t, q0)] && (forall q :: QueueOK(s, q)) && Distinct(Q(t, q0))
    ensures forall q :: QueueOK(t, q)
  {
    forall q ensures QueueOK(t, q) {
      assert QueueOK(s, q);
    }
  }

  lemma {:induction false} PickPlaced(s: Sched)
    requires Placed(s) && s.current == 0
    ensures Placed(Pick(s))
  {
    if s.ready != [] {
      var p := s.ready[0];
      assert Known(s, p, Ready) && In(s, p, Ready);
      PopDistinct(s.ready);
      SameQueues(s, Pick(s));
      MovePlaced(s, Pick(s), p, Ready, Running);
    }
  }

  // To the ready or the grave list.
  lemma {:induction false} LeavePlaced(s: Sched, how: Leaving)
    requires Placed(s) && s.current != 0 && !how.ToBlocked?
    ensures Placed(Leave(s, how)) && Leave(s, how).current == 0
  {
    var p := s.current;
    assert In(s, p, Running);
    assert Once(s, p, Running, Ready) && Once(s, p, Running, Grave);
    SameQueues(s, Leave(s, how));
    if how.ToReady? {
      AppendDistinct(s.ready, p);
      MovePlaced(s, Leave(s, how), p, Running, Ready);
    } else {
      AppendDistinct(s.grave, p);
      MovePlaced(s, Leave(s, how), p, Running, Grave);
    }
  }

  lemma {:induction false} BlockPlaced(s: Sched, q: int)
    requires Placed(s) && s.current != 0
    ensures Placed(Block(s, q))
  {
    var p := s.current;
    var t := Leave(WithQueue(s, q, Q(s, q) + [p]), ToBlocked);
    assert In(s, p, Running);
    assert Once(s, p, Running, Waiting(q));
    assert QueueOK(s, q);
    AppendDistinct(Q(s, q), p);
    OneQueue(s, t, q);
    MovePlaced(s, t, p, Running, Waiting(q));
    PickPlaced(t);
  }

  // A process is taken out of a queue and put at the end of the ready list.
  lemma {:induction false} QueueToReady(s: Sched, t: Sched, q: int, p: int)
    requires Placed(s) && p in Q(s, q) && t.current == s.current && t.grave == s.grave
    requires t.procs.Keys == s.procs.Keys && t.ready == s.ready + [p] && t.queues == s.queues[q := Q(t, q)]
    requires Distinct(Q(t, q)) && forall x :: x in Q(t, q) <==> x in Q(s, q) && x != p
    ensures Placed(t)
  {
    hide Distinct;
    assert In(s, p, Waiting(q));
    assert Once(s, p, Waiting(q), Ready);
    OneQueue(s, t, q);
    AppendDistinct(s.ready, p);
    MovePlaced(s, t, p, Waiting(q), Ready);
  }

  lemma {:induction false} WakePlaced(s: Sched, q: int)
    requires Placed(s)
    ensures Placed(Wake(s, q))
  {
    if Q(s, q) != [] {
      assert QueueOK(s, q);
      PopDistinct(Q(s, q));
      QueueToReady(s, Wake(s, q), q, Q(s, q)[0]);
    }
  }

  lemma {:induction false} WakeAllPlaced(s: Sched, q: int)
    requires Placed(s)
    ensures Placed(WakeAll(s, q))
    decreases |Q(s, q)|
  {
    hide Placed;
    if Q(s, q) != [] {
      WakePlaced(s, q);
      WakeAllPlaced(Wake(s, q), q);
    }
  }

  lemma {:induction false} WakeParentPlaced(s: Sched)
    requires Placed(s)
    ensures Placed(WakeParent(s)) && WakeParent(s).current == s.current
  {
    var l := Q(s, WATCHERS);
    var k := FirstTold(s, l, s.current, 0);
    if k < |l| {
      assert In(s, l[k], Waiting(WATCHERS));
      assert Known(s, l[k], Waiting(WATCHERS));
      assert QueueOK(s, WATCHERS);
      WithoutDistinct(l, k);
      QueueToReady(s, WakeParent(s), WATCHERS, l[k]);
    }
  }

  lemma {:induction false} ReapPlaced(s: Sched, p: int)
    requires Placed(s)
    ensures Placed(Reap(s, p))
  {
    var k := IndexIn(s.grave, p, 0);
    if k < |s.grave| {
      var t := Reap(s, p);
      assert In(s, p, Grave);
      WithoutDistinct(s.grave, k);
      SameQueues(s, t);
      forall x, c ensures In(t, x, c) <==> In(s, x, c) && x != p {
        assert Once(s, p, Grave, c);
      }
      forall x, c, d ensures Once(t, x, c, d) {
        assert Once(s, x, c, d);
      }
      forall x, c ensures Known(t, x, c) {
        assert Known(s, x, c);
      }
      forall x | x in t.procs ensures x > 0 && exists c :: In(t, x, c) {
        var c :| In(s, x, c);
        assert In(t, x, c);
      }
    }
  }

  lemma {:induction false} LaunchPlaced(s: Sched, p: int, ppid: int)
    requires Placed(s) && p > 0 && p !in s.procs
    ensures Placed(Launch(s, p, ppid))
  {
    var t := Launch(s, p, ppid);
    assert Known(s, p, Ready);
    AppendDistinct(s.ready, p);
    SameQueues(s, t);
    forall x, c ensures In(t, x, c) <==> In(s, x, c) || (x, c) == (p, Ready) {
    }
    forall x, c, d ensures Once(t, x, c, d) {
      assert Once(s, x, c, d) && Known(s, x, c) && Known(s, x, d);
    }
    forall x, c ensures Known(t, x, c) {
      assert Known(s, x, c);
    }
    forall x | x in t.procs ensures x > 0 && exists c :: In(t, x, c) {
      if x == p {
        assert In(t, x, Ready);
      } else {
        var c :| In(s, x, c);
        assert In(t, x, c);
      }
    }
  }

  // Changing what a process waits for moves nobody.
  lemma {:induction false} NotePlaced(s: Sched, p: int, pid: int)
    requires Placed(s) && p in s.procs
    ensures Placed(s.(procs := s.procs[p := s.procs[p].(waiting := pid)]))
  {
    var t := s.(procs := s.procs[p := s.procs[p].(waiting := pid)]);
    SameQueues(s, t);
    forall x, c ensures (In(t, x, c) <==> In(s, x, c)) && Known(t, x, c) {
      assert Known(s, x, c);
    }
    forall x, c, d ensures Once(t, x, c, d) {
      assert Once(s, x, c, d);
    }
    forall x | x in t.procs ensures x > 0 && exists c :: In(t, x, c) {
      var c :| In(s, x, c);
      assert In(t, x, c);
    }
  }

  // Every step keeps every process in exactly one place.
  lemma {:induction false} StepPlaced(s: Sched, step: Step)
    requires Placed(s) && Can(s, step)
    ensures Placed(Apply(s, step))
  {
    hide Placed;
    match step {
      case SLaunch(p, ppid) => LaunchPlaced(s, p, ppid);
      case SYield =>
        LeavePlaced(s, ToReady);
        PickPlaced(Leave(s, ToReady));
      case SExit =>
        WakeParentPlaced(s);
        LeavePlaced(WakeParent(s), ToGrave);
        PickPlaced(Leave(WakeParent(s), ToGrave));
      case SBlock(q) => BlockPlaced(s, q);
      case SWake(q) => WakePlaced(s, q);
      case SWakeAll(q) => WakeAllPlaced(s, q);
      case SWaitChild(pid) =>
        if s.current in s.procs {
          NotePlaced(s, s.current, pid);
          BlockPlaced(s.(procs := s.procs[s.current := s.procs[s.current].(waiting := pid)]), WATCHERS);
        }
      case SReap(p) => ReapPlaced(s, p);
      case SIdle => PickPlaced(s);
    }
  }

  // ---------------------------------------------------------------- bounded dispatch

  // A step in which a process is taken off the ready list, if there is one.
  predicate Switches(s: Sched, step: Step) {
    match step
    case SYield => true
    case SExit => true
    case SBlock(q) => true
    case SWaitChild(pid) => !(FirstAnswer(s, s.current, pid, 0) < |s.grave|)
    case SIdle => true
    case _ => false
  }

  // Position k of the ready list holds p, or p has just been dispatched.
  predicate AtOrBefore(s: Sched, p: int, k: int) {
    s.current == p || exists i :: 0 <= i <= k && i < |s.ready| && s.ready[i] == p
  }

  lemma {:induction false} StepAdvances(s: Sched, step: Step, p: int, k: nat)
    requires Placed(s) && Can(s, step) && k < |s.ready| && s.ready[k] == p
    ensures AtOrBefore(Apply(s, step), p, if Switches(s, step) then k - 1 else k)
  {
    assert Known(s, s.current, Running);
    match step {
      case SLaunch(x, ppid) => assert Apply(s, step).ready[k] == p;
      case SYield => PickAdvances(Leave(s, ToReady), p, k);
      case SExit =>
        assert WakeParent(s).ready[k] == p;
        PickAdvances(Leave(WakeParent(s), ToGrave), p, k);
      case SBlock(q) => PickAdvances(Leave(WithQueue(s, q, Q(s, q) + [s.current]), ToBlocked), p, k);
      case SWake(q) => assert Apply(s, step).ready[k] == p;
      case SWakeAll(q) => WakeAllKeeps(s, q, p, k);
      case SWaitChild(pid) =>
        if Switches(s, step) {
          var t := s.(procs := s.procs[s.current := s.procs[s.current].(waiting := pid)]);
          PickAdvances(Leave(WithQueue(t, WATCHERS, Q(t, WATCHERS) + [t.current]), ToBlocked), p, k);
        }
      case SReap(x) => assert Apply(s, step).ready[k] == p;
      case SIdle => PickAdvances(s, p, k);
    }
  }

  lemma PickAdvances(s: Sched, p: int, k: nat)
    requires k < |s.ready| && s.ready[k] == p
    ensures AtOrBefore(Pick(s), p, k - 1)
  {
    if k > 0 {
      assert Pick(s).ready[k - 1] == p;
    }
  }

  lemma {:induction false} WakeAllKeeps(s: Sched, q: int, p: int, k: nat)
    requires k < |s.ready| && s.ready[k] == p
    ensures k < |WakeAll(s, q).ready| && WakeAll(s, q).ready[k] == p
    decreases |Q(s, q)|
  {
    if Q(s, q) != [] {
      WakeAllKeeps(Wake(s, q), q, p, k);
    }
  }

  // ---------------------------------------------------------------- runs

  ghost predicate CanRun(s: Sched, steps: seq<Step>)
    decreases |steps|
  {
    steps != [] ==> Can(s, steps[0]) && CanRun(Apply(s, steps[0]), steps[1..])
  }

  function Run(s: Sched, steps: seq<Step>): Sched
    decreases |steps|
  {
    if steps == [] then s else Run(Apply(s, steps[0]), steps[1..])
  }

  function SwitchCount(s: Sched, steps: seq<Step>): nat
    decreases |steps|
  {
    if steps == [] then 0
    else (if Switches(s, steps[0]) then 1 else 0) + SwitchCount(Apply(s, steps[0]), steps[1..])
  }

  // The process was the current one at some point of the run.
  ghost predicate Dispatched(s: Sched, steps: seq<Step>, p: int)
    decreases |steps|
  {
    s.current == p || (steps != [] && Dispatched(Apply(s, steps[0]), steps[1..], p))
  }

  lemma {:induction false} RunPlaced(s: Sched, steps: seq<Step>)
    requires Placed(s) && CanRun(s, steps)
    ensures Placed(Run(s, steps))
    decreases |steps|
  {
    hide Placed, Apply, Can;
    if steps != [] {
      StepPlaced(s, steps[0]);
      RunPlaced(Apply(s, steps[0]), steps[1..]);
    }
  }

  // A process at ready position k runs within k + 1 switches, whatever else
  // happens in between.
  lemma {:induction false} DispatchedSoon(s: Sched, steps: seq<Step>, p: int, k: nat)
    requires Placed(s) && CanRun(s, steps) && k < |s.ready| && s.ready[k] == p
    requires SwitchCount(s, steps) > k
    ensures Dispatched(s, steps, p)
    decreases |steps|
  {
    hide Placed, Apply, Can, Switches;
    StepAdvances(s, steps[0], p, k);
    StepPlaced(s, steps[0]);
    var t := Apply(s, steps[0]);
    if t.current != p {
      var i :| 0 <= i <= (if Switches(s, steps[0]) then k - 1 else k) && i < |t.ready| && t.ready[i] == p;
      DispatchedSoon(t, steps[1..], p, i);
    }
  }

  // ---------------------------------------------------------------- wait queues

  // A wakeup on the queue, of its first process or of all.
  predicate Wakes(step: Step, q: int) {
    step == SWake(q) || step == SWakeAll(q)
  }

  // Process p is ready, or at position k of the queue at the latest.
  predicate AtOrWoken(s: Sched, q: int, p: int, k: int) {
    p in s.ready || exists i :: 0 <= i <= k && i < |Q(s, q)| && Q(s, q)[i] == p
  }

  // No step moves a sleeper back in its queue, and a wakeup moves it forward or wakes it.
  lemma {:induction false} StepInTurn(s: Sched, step: Step, q: int, p: int, k: nat)
    requires Can(s, step) && q != WATCHERS && k < |Q(s, q)| && Q(s, q)[k] == p
    ensures AtOrWoken(Apply(s, step), q, p, if Wakes(step, q) then k - 1 else k)
  {
    var t := Apply(s, step);
    match step {
      case SWake(r) =>
        if r == q && k > 0 {
          assert Q(t, q)[k - 1] == p;
        } else {
          assert r == q ==> t.ready[|s.ready|] == p;
          assert r != q ==> Q(t, q)[k] == p;
        }
      case SWakeAll(r) =>
        if r == q { AllWoken(s, q, p); } else { OtherQueue(s, r, q); }
        assert r != q ==> Q(t, q)[k] == p;
      case SExit =>
        assert Q(WakeParent(s), q) == Q(s, q);
        assert Q(t, q)[k] == p;
      case _ => assert Q(t, q)[k] == p;
    }
  }

  lemma {:induction false} AllWoken(s: Sched, q: int, p: int)
    requires p in Q(s, q) || p in s.ready
    ensures p in WakeAll(s, q).ready
    decreases |Q(s, q)|
  {
    if Q(s, q) != [] {
      var l := Q(s, q);
      assert p in l ==> p == l[0] || p in l[1..];
      AllWoken(Wake(s, q), q, p);
    }
  }

  lemma {:induction false} OtherQueue(s: Sched, r: int, q: int)
    requires r != q
    ensures Q(WakeAll(s, r), q) == Q(s, q)
    decreases |Q(s, r)|
  {
    if Q(s, r) != [] {
      OtherQueue(Wake(s, r), r, q);
    }
  }

  function WakeCount(steps: seq<Step>, q: int): nat {
    if steps == [] then 0 else (if Wakes(steps[0], q) then 1 else 0) + WakeCount(steps[1..], q)
  }

  // The process was ready at some point of the run.
  ghost predicate Woken(s: Sched, steps: seq<Step>, p: int)
    decreases |steps|
  {
    p in s.ready || (steps != [] && Woken(Apply(s, steps[0]), steps[1..], p))
  }

  // Wait queues are first in, first out: a process at position k is woken by the k + 1
  // next wakeups of its queue at the latest, whatever else happens in between.
  lemma {:induction false} WokenSoon(s: Sched, steps: seq<Step>, q: int, p: int, k: nat)
    requires CanRun(s, steps) && q != WATCHERS && k < |Q(s, q)| && Q(s, q)[k] == p
    requires WakeCount(steps, q) > k
    ensures Woken(s, steps, p)
    decreases |steps|
  {
    hide Apply, Can, Wakes, Q;
    StepInTurn(s, steps[0], q, p, k);
    var t := Apply(s, steps[0]);
    if p !in t.ready {
      var i :| 0 <= i <= (if Wakes(steps[0], q) then k - 1 else k) && i < |Q(t, q)| && Q(t, q)[i] == p;
      WokenSoon(t, steps[1..], q, p, i);
    } else {
      ReadyNow(t, steps[1..], p);
    }
  }

  lemma ReadyNow(s: Sched, steps: seq<Step>, p: int)
    requires p in s.ready
    ensures Woken(s, steps, p)
  {
  }

  // A wakeup of all makes the whole queue ready, in order.
  lemma {:induction false} WakeAllInOrder(s: Sched, q: int)
    ensures Q(WakeAll(s, q), q) == [] && WakeAll(s, q).ready == s.ready + Q(s, q)
    ensures forall r :: r != q ==> Q(WakeAll(s, q), r) == Q(s, r)
    ensures WakeAll(s, q).current == s.current && WakeAll(s, q).grave == s.grave && WakeAll(s, q).procs == s.procs
    decreases |Q(s, q)|
  {
    if Q(s, q) != [] {
      WakeAllInOrder(Wake(s, q), q);
      assert [Q(s, q)[0]] + Q(s, q)[1..] == Q(s, q);
    }
  }
}
