// mutex.c over process.c: the lock as a protocol among processes that may be
// preempted between any two of its interrupt-free sections.
module MutexProtocol {
  import opened Scheduling

  // The wait queue of the mutex.
  const MUTEX := 1

  // Where a process stands with regard to the mutex: outside, asleep in the
  // loop of mutex_lock, woken there but yet to look again, or holding it.
  datatype Stand = Outside | Asleep | Retesting | Holding

  datatype Locking = Locking(s: Sched, locked: bool, stand: map<int, Stand>)

  function StandOf(m: Locking, p: int): Stand {
    if p in m.stand then m.stand[p] else Outside
  }

  function WithStand(m: Locking, p: int, st: Stand): Locking {
    m.(stand := m.stand[p := st])
  }

  // One pass of the loop of mutex_lock.
  function LockPass(m: Locking): Locking {
    if m.locked then WithStand(m, m.s.current, Asleep).(s := Block(m.s, MUTEX))
    else WithStand(m, m.s.current, Holding).(locked := true)
  }

  // mutex_unlock
  function Unlock(m: Locking): Locking {
    var free := WithStand(m, m.s.current, Outside).(locked := false, s := Wake(m.s, MUTEX));
    if Q(m.s, MUTEX) == [] then free else WithStand(free, Q(m.s, MUTEX)[0], Retesting)
  }

  datatype Move = Lock | Release | Other(step: Step)

  predicate OnMutexQueue(step: Step) {
    match step
    case SBlock(q) => q == MUTEX
    case SWake(q) => q == MUTEX
    case SWakeAll(q) => q == MUTEX
    case _ => false
  }

  // Only the holder unlocks; a process inside mutex_lock can be preempted but
  // does nothing else; no process exits with the mutex.
  ghost predicate CanMove(m: Locking, move: Move) {
    var st := StandOf(m, m.s.current);
    match move
    case Lock => m.s.current != 0 && (st.Outside? || st.Retesting?)
    case Release => m.s.current != 0 && st.Holding?
    case Other(step) =>
      && Can(m.s, step) && !OnMutexQueue(step)
      && (step.SExit? ==> st.Outside?)
      && (step.SBlock? || step.SWaitChild? ==> !st.Retesting?)
  }

  function After(m: Locking, move: Move): Locking {
    match move
    case Lock => LockPass(m)
    case Release => Unlock(m)
    case Other(step) => m.(s := Apply(m.s, step))
  }

  predicate Runnable(s: Sched, p: int) {
    In(s, p, Running) || In(s, p, Ready)
  }

  ghost predicate StandOK(m: Locking, p: int) {
    && (StandOf(m, p).Asleep? <==> p in Q(m.s, MUTEX))
    && (StandOf(m, p).Retesting? ==> Runnable(m.s, p))
    && (StandOf(m, p).Holding? ==> m.locked && p in m.s.procs && p !in m.s.grave)
  }

  ghost predicate OneHolder(m: Locking, p: int, q: int) {
    StandOf(m, p).Holding? && StandOf(m, q).Holding? ==> p == q
  }

  ghost predicate Invariant(m: Locking) {
    && Placed(m.s)
    && (forall p :: StandOK(m, p))
    && (forall p, q :: OneHolder(m, p, q))
    && (m.locked ==> exists p :: StandOf(m, p).Holding?)
    && (!m.locked && Q(m.s, MUTEX) != [] ==> exists p :: StandOf(m, p).Retesting?)
  }

  // ---------------------------------------------------------------- what a step does to one process

  lemma PickRunnable(s: Sched, p: int)
    requires p in s.ready && p != 0
    ensures Runnable(Pick(s), p)
  {
    var k :| 0 <= k < |s.ready| && s.ready[k] == p;
    if k > 0 {
      assert Pick(s).ready[k - 1] == p;
    }
  }

  lemma NotNobody(s: Sched, p: int)
    requires Placed(s) && Runnable(s, p)
    ensures p != 0
  {
    assert Known(s, p, Running) && Known(s, p, Ready);
  }

  lemma {:induction false} WakeAllOther(s: Sched, q: int, p: int)
    requires q != MUTEX
    ensures Q(WakeAll(s, q), MUTEX) == Q(s, MUTEX) && WakeAll(s, q).grave == s.grave
    ensures WakeAll(s, q).procs == s.procs && (Runnable(s, p) ==> Runnable(WakeAll(s, q), p))
    decreases |Q(s, q)|
  {
    if Q(s, q) != [] {
      WakeAllOther(Wake(s, q), q, p);
    }
  }

  // A step off the mutex's queue does not touch that queue; a runnable process
  // that does not itself sleep or exit stays runnable; only exits fill the
  // grave and only reaping the grave removes a process.
  lemma {:induction false} StepOther(s: Sched, step: Step, p: int)
    requires Placed(s) && Can(s, step) && !OnMutexQueue(step)
    ensures Q(Apply(s, step), MUTEX) == Q(s, MUTEX)
    ensures Runnable(s, p) && (p == s.current ==> !step.SExit? && !step.SBlock? && !step.SWaitChild?) ==>
              Runnable(Apply(s, step), p)
    ensures p in s.procs && p !in s.grave && (p == s.current ==> !step.SExit?) ==>
              p in Apply(s, step).procs && p !in Apply(s, step).grave
  {
    if Runnable(s, p) {
      NotNobody(s, p);
    }
    match step {
      case SWakeAll(q) => WakeAllOther(s, q, p);
      case SYield =>
        if Runnable(s, p) {
          PickRunnable(Leave(s, ToReady), p);
        }
      case SExit => ExitOther(s, p);
      case SBlock(q) => BlockOther(s, q, p);
      case SWaitChild(pid) =>
        if s.current in s.procs {
          BlockOther(s.(procs := s.procs[s.current := s.procs[s.current].(waiting := pid)]), WATCHERS, p);
        }
      case SIdle =>
        if Runnable(s, p) {
          PickRunnable(s, p);
        }
      case _ =>
    }
  }

  lemma {:induction false} ExitOther(s: Sched, p: int)
    requires s.current != 0
    ensures Q(Exit(s), MUTEX) == Q(s, MUTEX)
    ensures p != 0 && p != s.current && Runnable(s, p) ==> Runnable(Exit(s), p)
    ensures p in s.procs && p !in s.grave && p != s.current ==> p in Exit(s).procs && p !in Exit(s).grave
  {
    var w := WakeParent(s);
    assert w.current == s.current && Q(w, MUTEX) == Q(s, MUTEX) && w.grave == s.grave;
    assert w.procs.Keys == s.procs.Keys;
    if p != 0 && p != s.current && Runnable(s, p) {
      PickRunnable(Leave(w, ToGrave), p);
    }
  }

  lemma {:induction false} BlockOther(s: Sched, q: int, p: int)
    requires s.current != 0
    ensures forall x :: x in Q(Block(s, q), q) <==> x in Q(s, q) || x == s.current
    ensures forall r :: r != q ==> Q(Block(s, q), r) == Q(s, r)
    ensures p != 0 && p != s.current && Runnable(s, p) ==> Runnable(Block(s, q), p)
    ensures Block(s, q).grave == s.grave && Block(s, q).procs == s.procs
  {
    if p != 0 && p != s.current && Runnable(s, p) {
      PickRunnable(Leave(WithQueue(s, q, Q(s, q) + [s.current]), ToBlocked), p);
    }
  }

  // ---------------------------------------------------------------- preservation

  lemma {:induction false} OtherKeeps(m: Locking, step: Step)
    requires Invariant(m) && CanMove(m, Other(step))
    ensures Invariant(After(m, Other(step)))
  {
    hide Placed, Runnable, Can, Apply;
    var n := After(m, Other(step));
    StepPlaced(m.s, step);
    StepOther(m.s, step, 0);
    forall p ensures StandOK(n, p) {
      assert StandOK(m, p);
      StepOther(m.s, step, p);
    }
    forall p, q ensures OneHolder(n, p, q) {
      assert OneHolder(m, p, q);
    }
    if n.locked {
      var p :| StandOf(m, p).Holding?;
      assert StandOf(n, p).Holding?;
    } else if Q(n.s, MUTEX) != [] {
      var p :| StandOf(m, p).Retesting?;
      assert StandOf(n, p).Retesting?;
    }
  }

  lemma {:induction false} LockKeeps(m: Locking)
    requires Invariant(m) && CanMove(m, Lock)
    ensures Invariant(After(m, Lock))
  {
    var c := m.s.current;
    var n := LockPass(m);
    assert In(m.s, c, Running);
    assert Known(m.s, c, Running) && Once(m.s, c, Running, Waiting(MUTEX)) && Once(m.s, c, Running, Grave);
    if m.locked {
      BlockPlaced(m.s, MUTEX);
      var h :| StandOf(m, h).Holding?;
      assert StandOf(n, h).Holding?;
      forall p ensures StandOK(n, p) {
        assert StandOK(m, p);
        if Runnable(m.s, p) {
          NotNobody(m.s, p);
        }
        BlockOther(m.s, MUTEX, p);
      }
    } else {
      assert StandOf(n, c).Holding?;
      forall p ensures StandOK(n, p) {
        assert StandOK(m, p) && StandOK(m, c);
      }
    }
    forall p, q ensures OneHolder(n, p, q) {
      assert OneHolder(m, p, q) && StandOK(m, p) && StandOK(m, q);
    }
  }

  lemma {:induction false} UnlockKeeps(m: Locking)
    requires Invariant(m) && CanMove(m, Release)
    ensures Invariant(After(m, Release))
  {
    var c := m.s.current;
    var n := Unlock(m);
    var l := Q(m.s, MUTEX);
    assert In(m.s, c, Running);
    assert Once(m.s, c, Running, Waiting(MUTEX));
    WakePlaced(m.s, MUTEX);
    assert QueueOK(m.s, MUTEX);
    if l != [] {
      PopDistinct(l);
      assert StandOf(n, l[0]).Retesting?;
    }
    forall p ensures StandOK(n, p) {
      assert StandOK(m, p) && OneHolder(m, p, c);
    }
    forall p, q ensures OneHolder(n, p, q) {
      assert OneHolder(m, p, c) && OneHolder(m, q, c);
    }
  }

  lemma {:induction false} MoveKeeps(m: Locking, move: Move)
    requires Invariant(m) && CanMove(m, move)
    ensures Invariant(After(m, move))
  {
    match move {
      case Lock => LockKeeps(m);
      case Release => UnlockKeeps(m);
      case Other(step) => OtherKeeps(m, step);
    }
  }

  // ---------------------------------------------------------------- runs

  ghost predicate CanMoves(m: Locking, moves: seq<Move>)
    decreases |moves|
  {
    moves != [] ==> CanMove(m, moves[0]) && CanMoves(After(m, moves[0]), moves[1..])
  }

  function RunMoves(m: Locking, moves: seq<Move>): Locking
    decreases |moves|
  {
    if moves == [] then m else RunMoves(After(m, moves[0]), moves[1..])
  }

  function Fresh(s: Sched): Locking {
    Locking(s, false, map[])
  }

  lemma {:induction false} MovesKeep(m: Locking, moves: seq<Move>)
    requires Invariant(m) && CanMoves(m, moves)
    ensures Invariant(RunMoves(m, moves))
    decreases |moves|
  {
    hide Invariant, CanMove, After;
    if moves != [] {
      MoveKeeps(m, moves[0]);
      MovesKeep(After(m, moves[0]), moves[1..]);
    }
  }

  // Over every interleaving: at most one process holds the mutex, it is locked
  // exactly while one does, and an unlocked mutex with sleepers has a woken
  // process that is running or ready and will look again.
  lemma {:induction false} MutexSafe(s: Sched, moves: seq<Move>)
    requires Placed(s) && Q(s, MUTEX) == [] && CanMoves(Fresh(s), moves)
    ensures var m := RunMoves(Fresh(s), moves);
            && (forall p, q :: StandOf(m, p).Holding? && StandOf(m, q).Holding? ==> p == q)
            && (m.locked <==> exists p :: StandOf(m, p).Holding?)
            && (!m.locked && Q(m.s, MUTEX) != [] ==> exists p :: StandOf(m, p).Retesting? && Runnable(m.s, p))
            && (forall p :: p in Q(m.s, MUTEX) <==> StandOf(m, p).Asleep?)
  {
    MovesKeep(Fresh(s), moves);
    var m := RunMoves(Fresh(s), moves);
    forall p, q | StandOf(m, p).Holding? && StandOf(m, q).Holding? ensures p == q {
      assert OneHolder(m, p, q);
    }
    forall p ensures (p in Q(m.s, MUTEX) <==> StandOf(m, p).Asleep?) && (StandOf(m, p).Holding? ==> m.locked) {
      assert StandOK(m, p);
    }
    if !m.locked && Q(m.s, MUTEX) != [] {
      var p :| StandOf(m, p).Retesting?;
      assert StandOK(m, p);
    }
  }

  // ---------------------------------------------------------------- who holds the mutex

  // A lock on a free mutex is taken at once: the mover holds it and runs on.
  lemma {:induction false} LockTakes(m: Locking)
    requires Invariant(m) && CanMove(m, Lock) && !m.locked
    ensures var n, c := After(m, Lock), m.s.current;
            && n.locked && n.s == m.s && (forall p :: StandOf(n, p).Holding? <==> p == c)
            && (forall p :: p != c ==> StandOf(n, p) == StandOf(m, p))
  {
    var n, c := After(m, Lock), m.s.current;
    forall p ensures StandOf(n, p).Holding? <==> p == c {
      assert StandOK(m, p);
    }
  }

  // On a mutex that is held the mover goes to sleep at the end of the queue, and who holds
  // it does not change.
  lemma {:induction false} LockSleeps(m: Locking)
    requires Invariant(m) && CanMove(m, Lock) && m.locked
    ensures var n, c := After(m, Lock), m.s.current;
            && n.locked && StandOf(n, c).Asleep? && Q(n.s, MUTEX) == Q(m.s, MUTEX) + [c] && n.s.current != c
            && (forall p :: p != c ==> StandOf(n, p) == StandOf(m, p))
            && (forall p :: StandOf(n, p).Holding? <==> StandOf(m, p).Holding?)
  {
    var c, n := m.s.current, After(m, Lock);
    assert In(m.s, c, Running) && Once(m.s, c, Running, Ready);
    assert !StandOf(m, c).Holding?;
  }

  // An unlock frees the mutex: nobody holds it, and the first sleeper is ready to look again.
  lemma {:induction false} UnlockFrees(m: Locking)
    requires Invariant(m) && CanMove(m, Release)
    ensures var n, c, l := After(m, Release), m.s.current, Q(m.s, MUTEX);
            && !n.locked && StandOf(n, c).Outside? && (forall p :: !StandOf(n, p).Holding?) && n.s.current == c
            && (l != [] ==> && Q(n.s, MUTEX) == l[1..] && n.s.ready == m.s.ready + [l[0]]
                            && StandOf(n, l[0]).Retesting?)
            && (l == [] ==> n.s == m.s)
            && (forall p :: p != c && (l == [] || p != l[0]) ==> StandOf(n, p) == StandOf(m, p))
  {
    var n, c, l := After(m, Release), m.s.current, Q(m.s, MUTEX);
    assert In(m.s, c, Running) && Once(m.s, c, Running, Waiting(MUTEX));
    assert l != [] ==> l[0] in l;
    forall p ensures !StandOf(n, p).Holding? {
      assert OneHolder(m, p, c);
    }
  }

  // Process p unlocks at some point of the run.
  ghost predicate Releases(m: Locking, moves: seq<Move>, p: int)
    decreases |moves|
  {
    moves != [] && ((moves[0].Release? && m.s.current == p) || Releases(After(m, moves[0]), moves[1..], p))
  }

  // Every process that tries for the mutex during the run is put to sleep.
  ghost predicate NobodyTakes(m: Locking, moves: seq<Move>)
    decreases |moves|
  {
    moves != [] ==>
      && (moves[0].Lock? ==> StandOf(After(m, moves[0]), m.s.current).Asleep?)
      && NobodyTakes(After(m, moves[0]), moves[1..])
  }

  // Mutual exclusion over every run: the mutex stays with its holder until that process
  // unlocks it, and nobody else gets it in between.
  lemma {:induction false} HeldUntilRelease(m: Locking, moves: seq<Move>, p: int)
    requires Invariant(m) && CanMoves(m, moves) && StandOf(m, p).Holding? && !Releases(m, moves, p)
    ensures var n := RunMoves(m, moves); n.locked && forall q :: StandOf(n, q).Holding? <==> q == p
    ensures NobodyTakes(m, moves)
    decreases |moves|
  {
    hide Placed;
    if moves == [] {
      assert StandOK(m, p);
      forall q ensures StandOf(m, q).Holding? <==> q == p {
        assert OneHolder(m, p, q);
      }
    } else {
      MoveKeeps(m, moves[0]);
      StillHolds(m, moves[0], p);
      HeldUntilRelease(After(m, moves[0]), moves[1..], p);
    }
  }

  lemma {:induction false} StillHolds(m: Locking, move: Move, p: int)
    requires Invariant(m) && CanMove(m, move) && StandOf(m, p).Holding? && !(move.Release? && m.s.current == p)
    ensures StandOf(After(m, move), p).Holding?
    ensures move.Lock? ==> StandOf(After(m, move), m.s.current).Asleep?
  {
    hide Placed;
    assert StandOK(m, p) && OneHolder(m, p, m.s.current);
    if move.Lock? {
      LockSleeps(m);
    }
  }

  // From a lock on a free mutex on.
  lemma {:induction false} LockedUntilRelease(m: Locking, moves: seq<Move>)
    requires Invariant(m) && CanMove(m, Lock) && !m.locked && CanMoves(After(m, Lock), moves)
    requires !Releases(After(m, Lock), moves, m.s.current)
    ensures var n := RunMoves(After(m, Lock), moves);
            n.locked && forall q :: StandOf(n, q).Holding? <==> q == m.s.current
    ensures NobodyTakes(After(m, Lock), moves)
  {
    hide Invariant, CanMove, CanMoves, RunMoves, After, Releases, NobodyTakes;
    LockTakes(m);
    MoveKeeps(m, Lock);
    HeldUntilRelease(After(m, Lock), moves, m.s.current);
  }

  // ---------------------------------------------------------------- every sleeper gets its turn

  function ReleaseCount(moves: seq<Move>): nat {
    if moves == [] then 0 else (if moves[0].Release? then 1 else 0) + ReleaseCount(moves[1..])
  }

  // The process was woken to look again at some point of the run.
  ghost predicate Retries(m: Locking, moves: seq<Move>, p: int)
    decreases |moves|
  {
    StandOf(m, p).Retesting? || (moves != [] && Retries(After(m, moves[0]), moves[1..], p))
  }

  lemma {:induction false} MoveInTurn(m: Locking, move: Move, p: int, k: nat)
    requires Invariant(m) && CanMove(m, move) && k < |Q(m.s, MUTEX)| && Q(m.s, MUTEX)[k] == p
    ensures StandOf(After(m, move), p).Retesting?
            || var l := Q(After(m, move).s, MUTEX); var i := if move.Release? then k - 1 else k;
               0 <= i < |l| && l[i] == p
  {
    hide Placed, Apply, Can;
    match move {
      case Lock =>
        if m.locked { LockSleeps(m); } else { LockTakes(m); }
      case Release => UnlockFrees(m);
      case Other(step) => StepOther(m.s, step, p);
    }
  }

  // The mutex is fair: a process asleep at position k is woken by the k + 1 next unlocks.
  lemma {:induction false} TurnComes(m: Locking, moves: seq<Move>, p: int, k: nat)
    requires Invariant(m) && CanMoves(m, moves) && k < |Q(m.s, MUTEX)| && Q(m.s, MUTEX)[k] == p
    requires ReleaseCount(moves) > k
    ensures Retries(m, moves, p)
    decreases |moves|
  {
    hide Invariant, CanMove, After, Q;
    var n := After(m, moves[0]);
    MoveKeeps(m, moves[0]);
    MoveInTurn(m, moves[0], p, k);
    if StandOf(n, p).Retesting? {
      RetriesNow(n, moves[1..], p);
    } else {
      TurnComes(n, moves[1..], p, if moves[0].Release? then k - 1 else k);
    }
  }

  lemma RetriesNow(m: Locking, moves: seq<Move>, p: int)
    requires StandOf(m, p).Retesting?
    ensures Retries(m, moves, p)
  {
  }
}
