// The exit and wait handshake of process.c: who is told of an exit, and who is
// not although a second look would have answered.
module ExitWait {
  import opened Scheduling

  // Watcher p is owed the news of the dead process d.
  ghost predicate Missed(s: Sched, p: int, d: int) {
    p in Q(s, WATCHERS) && d in s.grave && Told(s, p, d)
  }

  ghost predicate NoneMissed(s: Sched) {
    forall p, d :: !Missed(s, p, d)
  }

  // The lists that matter here are the same, and so is what is known of the
  // processes on them.
  lemma {:induction false} SameLists(s: Sched, t: Sched)
    requires NoneMissed(s) && Q(t, WATCHERS) == Q(s, WATCHERS) && t.grave == s.grave
    requires forall x :: (x in Q(s, WATCHERS) || x in s.grave) && x in t.procs ==>
               x in s.procs && t.procs[x] == s.procs[x]
    ensures NoneMissed(t)
  {
    forall p, d ensures !Missed(t, p, d) {
      assert !Missed(s, p, d);
    }
  }

  lemma {:induction false} LaunchTells(s: Sched, p: int, ppid: int)
    requires Placed(s) && NoneMissed(s) && p !in s.procs
    ensures NoneMissed(Launch(s, p, ppid))
  {
    forall x | x in Q(s, WATCHERS) || x in s.grave ensures x != p {
      assert Known(s, x, Waiting(WATCHERS)) && Known(s, x, Grave);
      assert In(s, x, Waiting(WATCHERS)) || In(s, x, Grave);
    }
    SameLists(s, Launch(s, p, ppid));
  }

  lemma {:induction false} ReapTells(s: Sched, p: int)
    requires NoneMissed(s)
    ensures NoneMissed(Reap(s, p))
  {
    var t := Reap(s, p);
    forall x, d ensures !Missed(t, x, d) {
      assert !Missed(s, x, d);
    }
  }

  // The wakeup reaches the one watcher that is told of the exit of the current
  // process.
  lemma {:induction false} ParentWoken(s: Sched, p: int)
    requires Placed(s) && Told(s, p, s.current)
    ensures p !in Q(WakeParent(s), WATCHERS)
  {
    var l := Q(s, WATCHERS);
    var k := FirstTold(s, l, s.current, 0);
    if p in l {
      assert k < |l| && l[k] == p;
      assert QueueOK(s, WATCHERS);
      WithoutDistinct(l, k);
    }
  }

  lemma {:induction false} WatchersLeft(s: Sched, p: int)
    requires p in Q(WakeParent(s), WATCHERS)
    ensures p in Q(s, WATCHERS)
  {
  }

  lemma {:induction false} ExitTells(s: Sched)
    requires Placed(s) && NoneMissed(s) && s.current != 0
    ensures NoneMissed(Exit(s))
  {
    var w := WakeParent(s);
    var t := Exit(s);
    forall p, d ensures !Missed(t, p, d) {
      if p in Q(t, WATCHERS) && d in t.grave {
        assert p in Q(w, WATCHERS);
        WatchersLeft(s, p);
        WokenNote(s, p);
        if d in s.grave {
          assert !Missed(s, p, d);
        } else {
          assert d == s.current;
          if Told(s, p, d) {
            ParentWoken(s, p);
          }
        }
      }
    }
  }

  // A watcher that stays keeps its note, and parents do not change.
  lemma {:induction false} WokenNote(s: Sched, p: int)
    requires Placed(s) && p in Q(WakeParent(s), WATCHERS)
    ensures forall d :: Told(WakeParent(s), p, d) <==> Told(s, p, d)
    ensures p in s.procs ==> p in WakeParent(s).procs && WakeParent(s).procs[p] == s.procs[p]
  {
    var l := Q(s, WATCHERS);
    var k := FirstTold(s, l, s.current, 0);
    if k < |l| {
      assert QueueOK(s, WATCHERS);
      WithoutDistinct(l, k);
      assert p != l[k];
    }
  }

  lemma {:induction false} WaitTells(s: Sched, pid: int)
    requires Placed(s) && NoneMissed(s) && s.current != 0
    ensures NoneMissed(WaitChild(s, pid))
  {
    var p := s.current;
    if !(FirstAnswer(s, p, pid, 0) < |s.grave|) && p in s.procs {
      var t := WaitChild(s, pid);
      forall x, d ensures !Missed(t, x, d) {
        assert !Missed(s, x, d);
        assert Once(s, p, Running, Waiting(WATCHERS)) && In(s, p, Running);
        assert x == p && d in s.grave ==> !Answers(s, p, pid, d);
      }
    }
  }

  lemma {:induction false} WakeAllLists(s: Sched, q: int)
    requires q != WATCHERS
    ensures Q(WakeAll(s, q), WATCHERS) == Q(s, WATCHERS) && WakeAll(s, q).grave == s.grave
    ensures WakeAll(s, q).procs == s.procs
    decreases |Q(s, q)|
  {
    if Q(s, q) != [] {
      WakeAllLists(Wake(s, q), q);
    }
  }

  lemma {:induction false} StepTells(s: Sched, step: Step)
    requires Placed(s) && NoneMissed(s) && Can(s, step)
    ensures NoneMissed(Apply(s, step))
  {
    hide Placed, NoneMissed;
    match step {
      case SLaunch(p, ppid) => LaunchTells(s, p, ppid);
      case SExit => ExitTells(s);
      case SWaitChild(pid) => WaitTells(s, pid);
      case SReap(p) => ReapTells(s, p);
      case SWakeAll(q) =>
        WakeAllLists(s, q);
        SameLists(s, Apply(s, step));
      case _ => SameLists(s, Apply(s, step));
    }
  }

  // No exit notification is lost, in any run: no process sleeps in wait with a
  // dead child that it asked for, or that is any child when it asked for any.
  lemma {:induction false} NeverMissed(s: Sched, steps: seq<Step>)
    requires Placed(s) && NoneMissed(s) && CanRun(s, steps)
    ensures NoneMissed(Run(s, steps))
    decreases |steps|
  {
    hide Placed, NoneMissed, Apply, Can;
    if steps != [] {
      StepPlaced(s, steps[0]);
      StepTells(s, steps[0]);
      NeverMissed(Apply(s, steps[0]), steps[1..]);
    }
  }

  // ---------------------------------------------------------------- the two tests differ

  // Sleeping watcher p would find an answer if it looked again.
  ghost predicate Overlooked(s: Sched, p: int, d: int) {
    p in Q(s, WATCHERS) && p in s.procs && d in s.grave && Answers(s, p, s.procs[p].waiting, d)
  }

  ghost predicate NoneOverlooked(s: Sched) {
    forall p, d :: !Overlooked(s, p, d)
  }

  // The scan accepts a named process that is no child, and any child even when
  // another one was named; the wakeup accepts neither.
  ghost predicate OnlyScanAccepts(s: Sched, p: int, c: int)
    requires p in s.procs && c in s.procs
  {
    var w := s.procs[p].waiting;
    if s.procs[c].ppid == p then w != 0 && w != c else w != 0 && w == c
  }

  // Some watcher stands in that relation to the current process.
  ghost predicate Ignored(s: Sched) {
    exists p :: p in Q(s, WATCHERS) && p in s.procs && s.current in s.procs && OnlyScanAccepts(s, p, s.current)
  }

  // So the exit of the current process leaves nobody asleep with an answer to
  // be had exactly when no watcher stands in that relation to it.
  lemma {:induction false} ExitOverlooks(s: Sched)
    requires Placed(s) && NoneOverlooked(s) && s.current != 0
    ensures NoneOverlooked(Exit(s)) <==> !Ignored(s)
  {
    var c := s.current;
    var t := Exit(s);
    assert In(s, c, Running);
    assert Known(s, c, Running);
    forall p | p in Q(s, WATCHERS) ensures p in s.procs {
      assert In(s, p, Waiting(WATCHERS));
      assert Known(s, p, Waiting(WATCHERS));
    }
    forall p | p in Q(s, WATCHERS) && OnlyScanAccepts(s, p, c) ensures Overlooked(t, p, c) {
      NotWoken(s, p);
      WokenNote(s, p);
    }
    forall p, d | Overlooked(t, p, d) ensures d == c && p in Q(s, WATCHERS) && OnlyScanAccepts(s, p, c) {
      WatchersLeft(s, p);
      WokenNote(s, p);
      assert !Overlooked(s, p, d);
      SameParents(s);
      if Told(s, p, c) {
        ParentWoken(s, p);
      }
    }
  }

  lemma {:induction false} NotWoken(s: Sched, p: int)
    requires Placed(s) && p in Q(s, WATCHERS) && !Told(s, p, s.current)
    ensures p in Q(WakeParent(s), WATCHERS)
  {
    var l := Q(s, WATCHERS);
    var k := FirstTold(s, l, s.current, 0);
    if k < |l| {
      assert QueueOK(s, WATCHERS);
      WithoutDistinct(l, k);
    }
  }

  lemma SameParents(s: Sched)
    ensures WakeParent(s).procs.Keys == s.procs.Keys
    ensures forall d :: d in s.procs ==> WakeParent(s).procs[d].ppid == s.procs[d].ppid
  {
  }

  lemma {:induction false} SameLook(s: Sched, t: Sched)
    requires NoneOverlooked(s) && Q(t, WATCHERS) == Q(s, WATCHERS) && (forall d :: d in t.grave ==> d in s.grave)
    requires forall x :: x in Q(s, WATCHERS) || x in t.grave ==>
               (x in t.procs <==> x in s.procs) && (x in t.procs ==> t.procs[x] == s.procs[x])
    ensures NoneOverlooked(t)
  {
    forall p, d ensures !Overlooked(t, p, d) {
      assert !Overlooked(s, p, d);
    }
  }

  // Nothing is known of a process that is on no list.
  lemma {:induction false} NotListed(s: Sched, p: int)
    requires Placed(s) && p !in s.procs
    ensures p !in Q(s, WATCHERS) && p !in s.grave
  {
    assert Known(s, p, Waiting(WATCHERS)) && Known(s, p, Grave);
    assert p in Q(s, WATCHERS) ==> In(s, p, Waiting(WATCHERS));
    assert p in s.grave ==> In(s, p, Grave);
  }

  // The dead process that is reaped is no watcher.
  lemma {:induction false} ReapLooks(s: Sched, p: int)
    requires Placed(s) && NoneOverlooked(s)
    ensures NoneOverlooked(Reap(s, p))
  {
    var k := IndexIn(s.grave, p, 0);
    if k < |s.grave| {
      WithoutDistinct(s.grave, k);
      assert Once(s, p, Grave, Waiting(WATCHERS)) && In(s, p, Grave);
      assert p in Q(s, WATCHERS) ==> In(s, p, Waiting(WATCHERS));
      SameLook(s, Reap(s, p));
    }
  }

  // A process goes to sleep in wait only after a look that found no answer.
  lemma {:induction false} WaitLooks(s: Sched, pid: int)
    requires Placed(s) && NoneOverlooked(s) && s.current != 0
    ensures NoneOverlooked(WaitChild(s, pid))
  {
    var p := s.current;
    if !(FirstAnswer(s, p, pid, 0) < |s.grave|) && p in s.procs {
      var t := WaitChild(s, pid);
      assert Once(s, p, Running, Waiting(WATCHERS)) && In(s, p, Running);
      forall x, d ensures !Overlooked(t, x, d) {
        assert !Overlooked(s, x, d);
        assert x in Q(s, WATCHERS) ==> In(s, x, Waiting(WATCHERS));
        assert d in s.grave ==> !Answers(s, p, pid, d);
      }
    }
  }

  // Only an exit can leave a sleeper with an answer to be had.
  lemma {:induction false} StepLooks(s: Sched, step: Step)
    requires Placed(s) && NoneOverlooked(s) && Can(s, step)
    ensures NoneOverlooked(Apply(s, step)) <==> !(step.SExit? && Ignored(s))
  {
    hide Placed, NoneOverlooked, Ignored;
    match step {
      case SLaunch(p, ppid) =>
        NotListed(s, p);
        SameLook(s, Apply(s, step));
      case SExit => ExitOverlooks(s);
      case SWaitChild(pid) => WaitLooks(s, pid);
      case SReap(p) => ReapLooks(s, p);
      case SWakeAll(q) =>
        WakeAllLists(s, q);
        SameLook(s, Apply(s, step));
      case _ => SameLook(s, Apply(s, step));
    }
  }

  // At every state of a run, and at every exit of a run.
  ghost predicate NeverOverlooked(s: Sched, steps: seq<Step>)
    decreases |steps|
  {
    NoneOverlooked(s) && (steps != [] ==> NeverOverlooked(Apply(s, steps[0]), steps[1..]))
  }

  ghost predicate NeverIgnored(s: Sched, steps: seq<Step>)
    decreases |steps|
  {
    steps != [] ==> !(steps[0].SExit? && Ignored(s)) && NeverIgnored(Apply(s, steps[0]), steps[1..])
  }

  // A run leaves nobody asleep with an answer to be had, at any of its states, exactly
  // when at no exit in it a watcher stands in that relation to the exiting process.
  lemma {:induction false} RunOverlooks(s: Sched, steps: seq<Step>)
    requires Placed(s) && NoneOverlooked(s) && CanRun(s, steps)
    ensures NeverOverlooked(s, steps) <==> NeverIgnored(s, steps)
    decreases |steps|
  {
    hide Placed, NoneOverlooked, Ignored, Apply, Can;
    if steps != [] {
      var t := Apply(s, steps[0]);
      StepPlaced(s, steps[0]);
      StepLooks(s, steps[0]);
      if NoneOverlooked(t) {
        RunOverlooks(t, steps[1..]);
      } else {
        FirstState(t, steps[1..]);
      }
    }
  }

  lemma FirstState(s: Sched, steps: seq<Step>)
    ensures NeverOverlooked(s, steps) ==> NoneOverlooked(s)
  {
  }

  // Process 1 starts its children 2 and 3 and waits for 3; 2 runs.
  const STEPS := [SLaunch(1, 0), SIdle, SLaunch(2, 1), SLaunch(3, 1), SWaitChild(3)]

  // The state after the first k of these steps on a new system.
  function Reached(k: nat): Sched {
    var one, two, three := map[1 := Proc(0, 0)], map[2 := Proc(1, 0)], map[3 := Proc(1, 0)];
    match k
    case 0 => Sched(0, [], [], map[], map[])
    case 1 => Sched(0, [1], [], map[], one)
    case 2 => Sched(1, [], [], map[], one)
    case 3 => Sched(1, [2], [], map[], one + two)
    case 4 => Sched(1, [2, 3], [], map[], one + two + three)
    case _ => Sched(2, [3], [], map[WATCHERS := [1]], map[1 := Proc(0, 3)] + two + three)
  }

  lemma {:induction false} ParentWaits()
    ensures Can(Reached(4), STEPS[4]) && Apply(Reached(4), STEPS[4]) == Reached(5)
  {
    var s := Reached(4);
    assert s.procs[1 := Proc(0, 3)] == Reached(5).procs;
    assert Q(s, WATCHERS) + [1] == [1] && [2, 3][1..] == [3];
  }

  lemma {:induction false} ReachedNext(k: nat)
    requires k < |STEPS|
    ensures Can(Reached(k), STEPS[k]) && Apply(Reached(k), STEPS[k]) == Reached(k + 1)
  {
    if k == 4 {
      ParentWaits();
    } else {
      assert [1][1..] == [];
      assert Apply(Reached(k), STEPS[k]).procs == Reached(k + 1).procs;
    }
  }

  lemma {:induction false} ReachedLast(k: nat)
    requires k <= |STEPS|
    ensures CanRun(Reached(k), STEPS[k..]) && Run(Reached(k), STEPS[k..]) == Reached(|STEPS|)
    decreases |STEPS| - k
  {
    hide Can, Apply, Reached;
    if k < |STEPS| {
      ReachedNext(k);
      ReachedLast(k + 1);
      assert STEPS[k..][1..] == STEPS[k + 1..];
    }
  }

  // It does happen: when 2 exits, 1 sleeps on, although a new look would have returned 2.
  lemma {:induction false} LostExit()
    ensures var s := Sched(0, [], [], map[], map[]);
            && CanRun(s, STEPS) && NoneOverlooked(Run(s, STEPS)) && Overlooked(Exit(Run(s, STEPS)), 1, 2)
  {
    hide CanRun, Run;
    ReachedLast(0);
    assert STEPS[0..] == STEPS;
    var s := Reached(5);
    assert Q(s, WATCHERS) == [1];
    assert FirstTold(s, [1], 2, 0) == 1;
    assert WakeParent(s) == s;
    assert Exit(s).grave == [2] && Q(Exit(s), WATCHERS) == [1];
  }
}
