// process.c and mutex.c as code over the kernel's global variables; each method
// performs one step of the scheduling state.
module Kernel {
  import opened Scheduling
  import opened MutexProtocol

  const PROCESS_MAX_PID := 1024

  class Kernel {
    var current: int
    var readyList: seq<int>
    var graveList: seq<int>
    var queues: map<int, seq<int>>
    var procs: map<int, Proc>

    ghost function View(): Sched
      reads this
    {
      Sched(current, readyList, graveList, queues, procs)
    }

    constructor ()
      ensures View() == Sched(0, [], [], map[], map[]) && Placed(View())
    {
      current, readyList, graveList, queues, procs := 0, [], [], map[], map[];
    }

    function Queue(q: int): seq<int>
      reads this
    {
      if q in queues then queues[q] else []
    }

    // process_switch up to the point where the kernel would idle.
    method Switch(how: Leaving)
      modifies this
      ensures View() == Scheduling.Switch(old(View()), how)
      ensures var l := old(readyList) + if how.ToReady? && old(current) != 0 then [old(current)] else [];
              if l == [] then current == 0 && readyList == [] else current == l[0] && readyList == l[1..]
      ensures graveList == old(graveList) + if how.ToGrave? && old(current) != 0 then [old(current)] else []
      ensures queues == old(queues) && procs == old(procs)
    {
      if current != 0 {
        if how.ToReady? {
          readyList := readyList + [current];
        }
        if how.ToGrave? {
          graveList := graveList + [current];
        }
      }
      current := 0;
      if readyList != [] {
        current := readyList[0];
        readyList := readyList[1..];
      }
    }

    // process_wait
    method Wait(q: int)
      modifies this
      ensures View() == Block(old(View()), q)
      ensures Queue(q) == old(Queue(q)) + [old(current)] && forall r :: r != q ==> Queue(r) == old(Queue(r))
      ensures if old(readyList) == [] then current == 0 && readyList == []
              else current == old(readyList)[0] && readyList == old(readyList)[1..]
      ensures graveList == old(graveList) && procs == old(procs)
    {
      queues := queues[q := Queue(q) + [current]];
      Switch(ToBlocked);
    }

    // process_wakeup
    method Wakeup(q: int)
      modifies this
      ensures View() == Wake(old(View()), q)
      ensures if old(Queue(q)) == [] then View() == old(View())
              else Queue(q) == old(Queue(q))[1..] && readyList == old(readyList) + [old(Queue(q))[0]]
      ensures forall r :: r != q ==> Queue(r) == old(Queue(r))
      ensures current == old(current) && graveList == old(graveList) && procs == old(procs)
    {
      if Queue(q) != [] {
        var p := Queue(q)[0];
        queues := queues[q := Queue(q)[1..]];
        readyList := readyList + [p];
      }
    }

    // process_wakeup_all
    method WakeupAll(q: int)
      modifies this
      ensures View() == WakeAll(old(View()), q)
      ensures Queue(q) == [] && readyList == old(readyList) + old(Queue(q))
      ensures forall r :: r != q ==> Queue(r) == old(Queue(r))
      ensures current == old(current) && graveList == old(graveList) && procs == old(procs)
    {
      while Queue(q) != []
        invariant WakeAll(View(), q) == WakeAll(old(View()), q)
        decreases |Queue(q)|
      {
        Wakeup(q);
      }
      WakeAllInOrder(old(View()), q);
      forall r ensures Queue(r) == Q(View(), r) {
      }
    }

    // process_wakeup_parent
    method WakeupParent()
      modifies this
      ensures View() == WakeParent(old(View()))
      ensures (forall p :: p in old(Queue(WATCHERS)) ==> !Told(old(View()), p, current)) ==> View() == old(View())
      ensures forall k | 0 <= k < |old(Queue(WATCHERS))| ::
                var l := old(Queue(WATCHERS));
                Told(old(View()), l[k], current) && (forall j :: 0 <= j < k ==> !Told(old(View()), l[j], current)) ==>
                  && Queue(WATCHERS) == l[..k] + l[k + 1..] && readyList == old(readyList) + [l[k]]
                  && procs == old(procs)[l[k] := old(procs)[l[k]].(waiting := 0)]
      ensures current == old(current) && graveList == old(graveList)
      ensures forall r :: r != WATCHERS ==> Queue(r) == old(Queue(r))
    {
      var l := Queue(WATCHERS);
      var k := 0;
      while k < |l|
        invariant 0 <= k <= |l| && unchanged(this)
        invariant FirstTold(View(), l, current, 0) == FirstTold(View(), l, current, k)
      {
        var p := l[k];
        if p in procs && current in procs && p == procs[current].ppid
           && (procs[p].waiting == 0 || procs[p].waiting == current) {
          procs := procs[p := procs[p].(waiting := 0)];
          queues := queues[WATCHERS := l[..k] + l[k + 1..]];
          readyList := readyList + [p];
          return;
        }
        k := k + 1;
      }
    }

    // process_exit
    method Exit()
      modifies this
      ensures View() == Scheduling.Exit(old(View()))
      ensures old(current) != 0 ==> graveList == old(graveList) + [old(current)]
    {
      WakeupParent();
      Switch(ToGrave);
    }

    // One pass of the loop of process_wait_child: the pid of a dead process, or
    // 0 with the caller put to sleep.
    method WaitChildPass(pid: int) returns (found: int)
      requires current in procs && forall d :: d in graveList ==> d != 0
      modifies this
      ensures View() == WaitChild(old(View()), pid)
      ensures found != 0 ==> found in old(graveList) && Answers(old(View()), old(current), pid, found)
      ensures found == 0 <==> forall d :: d in old(graveList) ==> !Answers(old(View()), old(current), pid, d)
      ensures found != 0 ==> View() == old(View()) && exists k | 0 <= k < |graveList| ::
                graveList[k] == found && forall j :: 0 <= j < k ==> !Answers(View(), current, pid, graveList[j])
      ensures found == 0 ==> Queue(WATCHERS) == old(Queue(WATCHERS)) + [old(current)] && graveList == old(graveList)
                             && procs == old(procs)[old(current) := old(procs)[old(current)].(waiting := pid)]
    {
      var k := 0;
      while k < |graveList|
        invariant 0 <= k <= |graveList| && unchanged(this)
        invariant FirstAnswer(View(), current, pid, 0) == FirstAnswer(View(), current, pid, k)
        invariant forall j :: 0 <= j < k ==> !Answers(View(), current, pid, graveList[j])
      {
        var p := graveList[k];
        if (pid != 0 && p == pid) || (p in procs && procs[p].ppid == current) {
          assert p in old(graveList) && Answers(old(View()), old(current), pid, p);
          return p;
        }
        k := k + 1;
      }
      forall d | d in old(graveList) ensures !Answers(old(View()), old(current), pid, d) {
        var j :| 0 <= j < |graveList| && graveList[j] == d;
      }
      procs := procs[current := procs[current].(waiting := pid)];
      Wait(WATCHERS);
      found := 0;
    }

    // process_reap
    method Reap(pid: int) returns (r: int)
      modifies this
      ensures View() == Scheduling.Reap(old(View()), pid)
      ensures r == if pid in old(graveList) then 0 else 1
      ensures r != 0 ==> View() == old(View())
      ensures r == 0 ==> procs == old(procs) - {pid} && current == old(current) && readyList == old(readyList)
                         && queues == old(queues)
                         && exists k | 0 <= k < |old(graveList)| ::
                              old(graveList)[k] == pid && graveList == old(graveList)[..k] + old(graveList)[k + 1..]
    {
      var k := 0;
      while k < |graveList|
        invariant 0 <= k <= |graveList| && unchanged(this)
        invariant IndexIn(graveList, pid, 0) == IndexIn(graveList, pid, k)
        invariant forall j :: 0 <= j < k ==> graveList[j] != pid
      {
        if graveList[k] == pid {
          graveList := graveList[..k] + graveList[k + 1..];
          procs := procs - {pid};
          return 0;
        }
        k := k + 1;
      }
      r := 1;
    }

    // process_launch of a process just created
    method Launch(p: int, ppid: int)
      modifies this
      ensures View() == Scheduling.Launch(old(View()), p, ppid)
      ensures procs == old(procs)[p := Proc(ppid, 0)] && readyList == old(readyList) + [p]
      ensures current == old(current) && graveList == old(graveList) && queues == old(queues)
    {
      procs := procs[p := Proc(ppid, 0)];
      readyList := readyList + [p];
    }
  }

  class Mutex {
    var locked: bool
    ghost var stand: map<int, Stand>

    constructor ()
      ensures !locked && stand == map[]
    {
      locked, stand := false, map[];
    }

    ghost function View(k: Kernel): Locking
      reads this, k
    {
      Locking(k.View(), locked, stand)
    }

    // mutex_lock from one test of the flag to the next: the lock is taken, or
    // the caller sleeps.
    method LockPass(k: Kernel) returns (taken: bool)
      modifies this, k
      ensures View(k) == MutexProtocol.LockPass(old(View(k))) && (taken <==> !old(locked)) && locked
      ensures taken ==> k.View() == old(k.View()) && StandOf(View(k), old(k.current)).Holding?
      ensures !taken ==> StandOf(View(k), old(k.current)).Asleep?
                         && k.Queue(MUTEX) == old(k.Queue(MUTEX)) + [old(k.current)]
      ensures !taken && old(k.current) != 0 && Placed(old(k.View())) ==> k.current != old(k.current)
      ensures forall p :: p != old(k.current) ==> StandOf(View(k), p) == old(StandOf(View(k), p))
    {
      if locked {
        assert Placed(k.View()) ==> Once(k.View(), k.current, Running, Ready);
        stand := stand[k.current := Asleep];
        k.Wait(MUTEX);
        return false;
      }
      locked := true;
      stand := stand[k.current := Holding];
      taken := true;
    }

    // mutex_unlock
    method Unlock(k: Kernel)
      modifies this, k
      ensures View(k) == MutexProtocol.Unlock(old(View(k))) && !locked
      ensures var l := old(k.Queue(MUTEX));
              if l == [] then k.View() == old(k.View()) && StandOf(View(k), old(k.current)).Outside?
              else k.Queue(MUTEX) == l[1..] && k.readyList == old(k.readyList) + [l[0]]
                   && StandOf(View(k), l[0]).Retesting?
                   && (l[0] != old(k.current) ==> StandOf(View(k), old(k.current)).Outside?)
    {
      stand := stand[k.current := Outside];
      if k.Queue(MUTEX) != [] {
        stand := stand[k.Queue(MUTEX)[0] := Retesting];
      }
      locked := false;
      k.Wakeup(MUTEX);
    }
  }

  // process_table and the static variable of process_allocate_pid.
  class PidTable {
    var taken: set<int>
    var last: int

    constructor ()
      ensures taken == {} && last == 0
    {
      taken, last := {}, 0;
    }

    // process_allocate_pid: the next free pid after the last one handed out,
    // wrapping around. The second loop stops before last, so the pid handed
    // out last is not tried again.
    method Allocate() returns (pid: int)
      requires 0 <= last < PROCESS_MAX_PID
      modifies this`last
      ensures pid == 0 <==> forall i :: 0 < i < PROCESS_MAX_PID && i != old(last) ==> i in old(taken)
      ensures pid == 0 ==> last == old(last)
      ensures pid != 0 ==>
                && 0 < pid < PROCESS_MAX_PID && pid !in taken && pid != old(last) && last == pid
                && (if old(last) < pid then forall i :: old(last) < i < pid ==> i in taken
                    else (forall i :: old(last) < i < PROCESS_MAX_PID ==> i in taken)
                         && forall i :: 0 < i < pid ==> i in taken)
    {
      var i := last + 1;
      while i < PROCESS_MAX_PID
        invariant last + 1 <= i <= PROCESS_MAX_PID && unchanged(this)
        invariant forall j :: last < j < i ==> j in taken
      {
        if i !in taken {
          last := i;
          return i;
        }
        i := i + 1;
      }
      i := 1;
      while i < last
        invariant 1 <= i && (i <= last || i == 1) && unchanged(this)
        invariant forall j :: 0 < j < i ==> j in taken
      {
        if i !in taken {
          assert 0 < i < PROCESS_MAX_PID && i != old(last) && i !in old(taken);
          last := i;
          return i;
        }
        i := i + 1;
      }
      pid := 0;
    }
  }

  // The pids from 1 to n.
  function PidsTo(n: nat): (pids: set<int>)
    ensures forall i :: i in pids <==> 0 < i <= n
  {
    if n == 0 then {} else PidsTo(n - 1) + {n}
  }

  // All pids are handed out, in order. Process 5 goes, a new one gets its pid and goes too:
  // 5 is the only free pid, and the next call finds none.
  method PidNotFound() returns (t: PidTable, again: int, none: int)
    ensures fresh(t) && again == 5 && t.taken == PidsTo(PROCESS_MAX_PID - 1) - {again} && none == 0
  {
    t := new PidTable();
    while t.last < PROCESS_MAX_PID - 1
      invariant 0 <= t.last < PROCESS_MAX_PID && t.taken == PidsTo(t.last) && fresh(t)
    {
      ghost var n := t.last;
      assert n + 1 !in t.taken;
      var pid := t.Allocate();
      assert pid == n + 1;
      t.taken := t.taken + {pid};
    }
    t.taken := t.taken - {5};
    again := t.Allocate();
    t.taken := t.taken + {again};
    t.taken := t.taken - {again};
    none := t.Allocate();
  }
}
