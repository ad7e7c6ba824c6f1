// process_wait_child with interrupts on, as it is from its second pass on and in the
// kernel shell: a clock tick can come between the scan of the grave list and the moment
// the caller sleeps. The scan and the falling asleep are one step each here.
module WaitRace {
  import opened Scheduling
  import opened ExitWait

  // What process p looked for in vain, and who has exited since and was not reaped.
  datatype Scan = Scan(pid: int, exits: set<int>)

  datatype Waiters = Waiters(s: Sched, scans: map<int, Scan>)

  datatype Move = Look(pid: int) | Sleep | Do(step: Step)

  // A process between scan and sleep does nothing else, but interrupts can wake others
  // and preempt it.
  ghost predicate May(w: Waiters, m: Move) {
    match m
    case Look(pid) => w.s.current != 0 && w.s.current !in w.scans
    case Sleep => w.s.current in w.scans && w.s.current in w.s.procs
    case Do(step) =>
      Can(w.s, step) && (step.SYield? || step.SWake? || step.SWakeAll? || w.s.current !in w.scans)
  }

  function After(w: Waiters, m: Move): Waiters
    requires m.Sleep? ==> w.s.current in w.scans && w.s.current in w.s.procs
  {
    var p := w.s.current;
    match m
    case Look(pid) =>
      if FirstAnswer(w.s, p, pid, 0) < |w.s.grave| then w else w.(scans := w.scans[p := Scan(pid, {})])
    case Sleep => Waiters(FallAsleep(w.s, w.scans[p].pid), w.scans - {p})
    case Do(step) =>
      Waiters(Apply(w.s, step),
              match step
              case SExit => map x | x in w.scans :: w.scans[x].(exits := w.scans[x].exits + {p})
              case SReap(d) => map x | x in w.scans :: w.scans[x].(exits := w.scans[x].exits - {d})
              case _ => w.scans)
  }

  // The process is running or ready.
  predicate Runs(s: Sched, p: int) {
    p != 0 && p in s.procs && (s.current == p || p in s.ready)
  }

  // Whoever would answer process p now exited after p looked.
  ghost predicate Seen(s: Sched, p: int, c: Scan) {
    && Runs(s, p) && (forall d :: d in c.exits ==> d in s.grave)
    && (forall d :: d in s.grave && Answers(s, p, c.pid, d) ==> d in c.exits)
  }

  ghost predicate Scanning(w: Waiters) {
    forall p :: p in w.scans ==> Seen(w.s, p, w.scans[p])
  }

  // A child that process p asks for.
  predicate Asked(s: Sched, p: int, pid: int, d: int) {
    d in s.procs && s.procs[d].ppid == p && (pid == 0 || pid == d)
  }

  // Such a child exited after the scan.
  ghost predicate TooLate(w: Waiters)
    requires w.s.current in w.scans
  {
    exists d :: d in w.scans[w.s.current].exits && Asked(w.s, w.s.current, w.scans[w.s.current].pid, d)
  }

  // ---------------------------------------------------------------- one move

  // The dead are the same and have the same parents.
  ghost predicate SameDead(s: Sched, t: Sched) {
    && t.grave == s.grave
    && forall d :: d in s.grave ==> (d in t.procs <==> d in s.procs)
                                    && (d in t.procs ==> t.procs[d].ppid == s.procs[d].ppid)
  }

  lemma {:induction false} SeenStill(s: Sched, t: Sched, p: int, c: Scan)
    requires Seen(s, p, c) && SameDead(s, t) && Runs(t, p)
    ensures Seen(t, p, c)
  {
    forall d | d in t.grave && Answers(t, p, c.pid, d) ensures d in c.exits {
      assert Answers(s, p, c.pid, d);
    }
  }

  lemma {:induction false} ScansStill(w: Waiters, t: Sched)
    requires Scanning(w) && SameDead(w.s, t)
    requires forall p :: p in w.scans ==> Runs(w.s, p) ==> Runs(t, p)
    ensures Scanning(Waiters(t, w.scans))
  {
    hide Seen, SameDead, Runs;
    forall p | p in w.scans ensures Seen(t, p, w.scans[p]) {
      SeenRuns(w.s, p, w.scans[p]);
      SeenStill(w.s, t, p, w.scans[p]);
    }
  }

  lemma SeenRuns(s: Sched, p: int, c: Scan)
    requires Seen(s, p, c)
    ensures Runs(s, p)
  {
  }

  lemma {:induction false} ExitSeen(s: Sched, p: int, c: Scan)
    requires Seen(s, p, c) && s.current != 0 && p != s.current
    ensures Seen(Exit(s), p, c.(exits := c.exits + {s.current}))
  {
    var w, t := WakeParent(s), Exit(s);
    SameParents(s);
    assert t.grave == s.grave + [s.current] && t.procs == w.procs;
    assert p in w.ready;
    forall d | d in t.grave && Answers(t, p, c.pid, d) ensures d in c.exits + {s.current} {
      if d != s.current {
        assert Answers(s, p, c.pid, d);
      }
    }
  }

  lemma {:induction false} ReapSeen(s: Sched, p: int, c: Scan, x: int)
    requires Placed(s) && Seen(s, p, c)
    ensures Seen(Reap(s, x), p, c.(exits := c.exits - {x}))
  {
    var k := IndexIn(s.grave, x, 0);
    var t := Reap(s, x);
    if k < |s.grave| {
      WithoutDistinct(s.grave, k);
      assert Once(s, x, Grave, Running) && Once(s, x, Grave, Ready) && In(s, x, Grave);
      assert p == x ==> In(s, x, Running) || In(s, x, Ready);
      forall d | d in t.grave && Answers(t, p, c.pid, d) ensures d in c.exits - {x} {
        assert Answers(s, p, c.pid, d);
      }
    } else {
      assert x !in s.grave;
    }
  }

  lemma {:induction false} WakeAllRuns(s: Sched, q: int, p: int)
    requires Runs(s, p)
    ensures Runs(WakeAll(s, q), p)
    decreases |Q(s, q)|
  {
    if Q(s, q) != [] {
      WakeAllRuns(Wake(s, q), q, p);
    }
  }

  lemma {:induction false} WakeAllDead(s: Sched, q: int)
    ensures SameDead(s, WakeAll(s, q))
    decreases |Q(s, q)|
  {
    if Q(s, q) != [] {
      WakeAllDead(Wake(s, q), q);
    }
  }

  lemma {:induction false} PickRuns(s: Sched, p: int)
    requires p != 0 && p in s.procs && p in s.ready
    ensures Runs(Pick(s), p)
  {
    var i :| 0 <= i < |s.ready| && s.ready[i] == p;
    if i > 0 {
      assert s.ready[1..][i - 1] == p;
    }
  }

  lemma {:induction false} AsleepRuns(s: Sched, pid: int, p: int)
    requires s.current in s.procs && Runs(s, p) && p != s.current
    ensures Runs(FallAsleep(s, pid), p)
  {
    var t := s.(procs := s.procs[s.current := s.procs[s.current].(waiting := pid)]);
    PickRuns(Leave(WithQueue(t, WATCHERS, Q(t, WATCHERS) + [t.current]), ToBlocked), p);
  }

  // A switch takes nobody off the ready list but the process it runs.
  lemma {:induction false} StillRuns(s: Sched, step: Step)
    requires Can(s, step) && (step.SYield? || step.SBlock? || step.SWaitChild? || step.SIdle?)
    ensures SameDead(s, Apply(s, step))
    ensures forall p :: Runs(s, p) && (p == s.current ==> step.SYield?) ==> Runs(Apply(s, step), p)
  {
    forall p | Runs(s, p) && (p == s.current ==> step.SYield?) ensures Runs(Apply(s, step), p) {
      match step {
        case SYield => PickRuns(Leave(s, ToReady), p);
        case SIdle => PickRuns(s, p);
        case SBlock(q) => PickRuns(Leave(WithQueue(s, q, Q(s, q) + [s.current]), ToBlocked), p);
        case SWaitChild(pid) =>
          if WaitChild(s, pid) != s {
            AsleepRuns(s, pid, p);
          }
      }
    }
  }

  lemma {:induction false} StepScans(w: Waiters, step: Step)
    requires Placed(w.s) && Scanning(w) && May(w, Do(step))
    ensures Scanning(After(w, Do(step)))
  {
    hide Placed, Seen, Scanning;
    var s, t := w.s, Apply(w.s, step);
    match step {
      case SExit =>
        forall p | p in w.scans ensures Seen(t, p, After(w, Do(step)).scans[p]) {
          ScanOf(w, p);
          ExitSeen(s, p, w.scans[p]);
        }
        AllSeen(After(w, Do(step)));
      case SReap(x) =>
        forall p | p in w.scans ensures Seen(t, p, After(w, Do(step)).scans[p]) {
          ScanOf(w, p);
          ReapSeen(s, p, w.scans[p], x);
        }
        AllSeen(After(w, Do(step)));
      case SWakeAll(q) =>
        WakeAllDead(s, q);
        forall p | p in w.scans && Runs(s, p) ensures Runs(t, p) { WakeAllRuns(s, q, p); }
        ScansStill(w, t);
      case SLaunch(p, ppid) =>
        LaunchDead(s, p, ppid);
        ScansStill(w, t);
      case SWake(q) => ScansStill(w, t);
      case _ =>
        StillRuns(s, step);
        ScansStill(w, t);
    }
  }

  lemma ScanOf(w: Waiters, p: int)
    requires Scanning(w) && p in w.scans
    ensures Seen(w.s, p, w.scans[p])
  {
  }

  lemma AllSeen(w: Waiters)
    requires forall p :: p in w.scans ==> Seen(w.s, p, w.scans[p])
    ensures Scanning(w)
  {
  }

  lemma {:induction false} LaunchDead(s: Sched, p: int, ppid: int)
    requires Placed(s) && p !in s.procs
    ensures SameDead(s, Launch(s, p, ppid))
  {
    NotListed(s, p);
  }

  lemma {:induction false} LookScans(w: Waiters, pid: int)
    requires Placed(w.s) && Scanning(w) && May(w, Look(pid))
    ensures Scanning(After(w, Look(pid)))
  {
    assert Known(w.s, w.s.current, Running);
  }

  lemma {:induction false} SleepScans(w: Waiters)
    requires Placed(w.s) && Scanning(w) && May(w, Sleep)
    ensures Scanning(After(w, Sleep))
  {
    var p := w.s.current;
    forall x | x in w.scans && x != p ensures Seen(After(w, Sleep).s, x, w.scans[x]) {
      SeenStill(w.s, After(w, Sleep).s, x, w.scans[x]);
    }
  }

  // Falling asleep misses somebody exactly when a child that was asked for has exited
  // since the scan.
  lemma {:induction false} SleepTells(w: Waiters)
    requires Placed(w.s) && Scanning(w) && NoneMissed(w.s) && May(w, Sleep)
    ensures NoneMissed(After(w, Sleep).s) <==> !TooLate(w)
  {
    var s, p := w.s, w.s.current;
    var c, t := w.scans[p], After(w, Sleep).s;
    assert Seen(s, p, c);
    assert In(s, p, Running) && Once(s, p, Running, Waiting(WATCHERS)) && Once(s, p, Running, Grave);
    assert p !in s.grave && p !in Q(s, WATCHERS);
    forall d ensures Told(t, p, d) <==> Asked(s, p, c.pid, d) {
    }
    forall d | d in s.grave && Asked(s, p, c.pid, d) ensures d in c.exits {
      assert Answers(s, p, c.pid, d);
    }
    forall x, d | x != p ensures !Missed(t, x, d) {
      assert !Missed(s, x, d);
    }
    forall d | d in c.exits && Asked(s, p, c.pid, d) ensures Missed(t, p, d) {
    }
  }

  lemma {:induction false} MoveTells(w: Waiters, m: Move)
    requires Placed(w.s) && Scanning(w) && NoneMissed(w.s) && May(w, m)
    ensures Placed(After(w, m).s) && Scanning(After(w, m))
    ensures NoneMissed(After(w, m).s) <==> !(m.Sleep? && TooLate(w))
  {
    hide Placed, NoneMissed, Scanning, TooLate;
    match m {
      case Look(pid) => LookScans(w, pid);
      case Sleep =>
        NotePlaced(w.s, w.s.current, w.scans[w.s.current].pid);
        SleepScans(w);
        SleepTells(w);
        SleepPlaced(w);
      case Do(step) =>
        StepPlaced(w.s, step);
        StepTells(w.s, step);
        StepScans(w, step);
    }
  }

  lemma {:induction false} SleepPlaced(w: Waiters)
    requires Placed(w.s) && Scanning(w) && May(w, Sleep)
    ensures Placed(After(w, Sleep).s)
  {
    hide Placed;
    var s, p := w.s, w.s.current;
    NotePlaced(s, p, w.scans[p].pid);
    BlockPlaced(s.(procs := s.procs[p := s.procs[p].(waiting := w.scans[p].pid)]), WATCHERS);
  }

  // ---------------------------------------------------------------- runs

  ghost predicate CanGo(w: Waiters, moves: seq<Move>)
    decreases |moves|
  {
    moves != [] ==> May(w, moves[0]) && CanGo(After(w, moves[0]), moves[1..])
  }

  ghost predicate NothingMissed(w: Waiters, moves: seq<Move>)
    requires CanGo(w, moves)
    decreases |moves|
  {
    NoneMissed(w.s) && (moves != [] ==> NothingMissed(After(w, moves[0]), moves[1..]))
  }

  ghost predicate NeverLate(w: Waiters, moves: seq<Move>)
    requires CanGo(w, moves)
    decreases |moves|
  {
    moves != [] ==> !(moves[0].Sleep? && TooLate(w)) && NeverLate(After(w, moves[0]), moves[1..])
  }

  // Over any run, with any preemption: no state has a process asleep in wait with a dead
  // child it asked for if and only if no such child ever exited between a scan and the
  // sleep that follows it, unreaped.
  lemma {:induction false} RunMisses(w: Waiters, moves: seq<Move>)
    requires Placed(w.s) && Scanning(w) && NoneMissed(w.s) && CanGo(w, moves)
    ensures NothingMissed(w, moves) <==> NeverLate(w, moves)
    decreases |moves|
  {
    hide Placed, Scanning, NoneMissed, TooLate, Apply;
    if moves != [] {
      var v := After(w, moves[0]);
      MoveTells(w, moves[0]);
      if NoneMissed(v.s) {
        RunMisses(v, moves[1..]);
      } else {
        FirstMissed(v, moves[1..]);
      }
    }
  }

  lemma FirstMissed(w: Waiters, moves: seq<Move>)
    requires CanGo(w, moves)
    ensures NothingMissed(w, moves) ==> NoneMissed(w.s)
  {
  }

  ghost function Go(w: Waiters, moves: seq<Move>): Waiters
    requires CanGo(w, moves)
    decreases |moves|
  {
    if moves == [] then w else Go(After(w, moves[0]), moves[1..])
  }

  // ---------------------------------------------------------------- a lost child

  // Process 1 starts its child 2 and looks for dead children; a clock tick lets 2 run.
  const MOVES := [Do(SLaunch(1, 0)), Do(SIdle), Do(SLaunch(2, 1)), Look(0), Do(SYield), Do(SExit), Sleep]

  // The state after the first k of these moves on a new system.
  function StateAt(k: nat): Waiters {
    var one, both := map[1 := Proc(0, 0)], map[1 := Proc(0, 0), 2 := Proc(1, 0)];
    match k
    case 0 => Waiters(Sched(0, [], [], map[], map[]), map[])
    case 1 => Waiters(Sched(0, [1], [], map[], one), map[])
    case 2 => Waiters(Sched(1, [], [], map[], one), map[])
    case 3 => Waiters(Sched(1, [2], [], map[], both), map[])
    case 4 => Waiters(Sched(1, [2], [], map[], both), map[1 := Scan(0, {})])
    case 5 => Waiters(Sched(2, [1], [], map[], both), map[1 := Scan(0, {})])
    case 6 => Waiters(Sched(1, [], [2], map[], both), map[1 := Scan(0, {2})])
    case _ => Waiters(Sched(0, [], [2], map[WATCHERS := [1]], both), map[])
  }

  lemma {:induction false} ChildExits()
    ensures May(StateAt(5), MOVES[5]) && After(StateAt(5), MOVES[5]) == StateAt(6)
  {
    var w := StateAt(5);
    assert WakeParent(w.s) == w.s && [1][1..] == [];
    assert After(w, Do(SExit)).s == StateAt(6).s;
    assert After(w, Do(SExit)).scans[1].exits == {2};
    assert After(w, Do(SExit)).scans == StateAt(6).scans;
  }

  lemma {:induction false} ParentSleeps()
    ensures May(StateAt(6), MOVES[6]) && After(StateAt(6), MOVES[6]) == StateAt(7)
  {
    var w := StateAt(6);
    assert w.s.procs[1 := w.s.procs[1].(waiting := 0)] == w.s.procs && Q(w.s, WATCHERS) + [1] == [1];
    assert After(w, Sleep).s == StateAt(7).s;
  }

  lemma {:induction false} StateNext(k: nat)
    requires k < |MOVES|
    ensures May(StateAt(k), MOVES[k]) && After(StateAt(k), MOVES[k]) == StateAt(k + 1)
  {
    if k == 5 {
      ChildExits();
    } else if k == 6 {
      ParentSleeps();
    }
  }

  lemma {:induction false} StateLast(k: nat)
    requires k <= |MOVES|
    ensures CanGo(StateAt(k), MOVES[k..]) && Go(StateAt(k), MOVES[k..]) == StateAt(|MOVES|)
    decreases |MOVES| - k
  {
    hide May, After, StateAt;
    if k < |MOVES| {
      StateNext(k);
      StateLast(k + 1);
      assert MOVES[k..][1..] == MOVES[k + 1..];
    }
  }

  // So it does happen: 2 exits before 1 has fallen asleep, nobody is woken, and 1 sleeps
  // for good with its dead child on the list.
  lemma {:induction false} ChildLost()
    ensures var w := Waiters(Sched(0, [], [], map[], map[]), map[]);
            CanGo(w, MOVES) && Missed(Go(w, MOVES).s, 1, 2) && Go(w, MOVES).s.ready == []
  {
    hide CanGo, Go;
    StateLast(0);
    assert MOVES[0..] == MOVES;
  }
}
