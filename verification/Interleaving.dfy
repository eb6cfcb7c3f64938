/** The metrics module under concurrent threads: one lock, and shared fields read and written one at a time. */
module Interleaving {
  import opened Text
  import opened Dict
  import opened Counters

  // ----- The code of each call, between taking and releasing the lock -------

  datatype Instr =
    | ReadCount | WriteCount            // _requests.get(outcome, 0), then _requests[outcome] = it + 1
    | ReadSum | WriteSum                // _latency_sum_seconds += duration_seconds
    | ReadLatency | WriteLatency        // _latency_count += 1
    | ReadVerdict | WriteVerdict        // _validations.get(key, 0), then _validations[key] = it + 1
    | CopyRequests | CopyValidations | CopySum | CopyLatency | CopyVersion

  function Program(op: Op): seq<Instr> {
    match op
    case RecordRequest(_, _) => [ReadCount, WriteCount, ReadSum, WriteSum, ReadLatency, WriteLatency]
    case RecordValidation(_) => [ReadVerdict, WriteVerdict]
    case Render => [CopyRequests, CopyValidations, CopySum, CopyLatency, CopyVersion]
  }

  /** A thread's own variables: values read and not yet written back, and the copies `render` takes. */
  datatype Local = Local(count: nat, sum: real, copy: Counters)

  const FRESH := Local(0, 0.0, ZERO)

  /** One instruction: it reads a shared field into the thread, or writes one. */
  function Exec(instr: Instr, op: Op, l: Local, c: Counters): (Local, Counters) {
    match instr
    case ReadCount => (if op.RecordRequest? then l.(count := GetOr(c.requests, op.outcome, 0)) else l, c)
    case WriteCount => (l, if op.RecordRequest? then c.(requests := Put<nat>(c.requests, op.outcome, l.count + 1))
      else c)
    case ReadSum => (l.(sum := c.latencySum), c)
    case WriteSum => (l, if op.RecordRequest? then c.(latencySum := l.sum + op.duration) else c)
    case ReadLatency => (l.(count := c.latencyCount), c)
    case WriteLatency => (l, c.(latencyCount := l.count + 1))
    case ReadVerdict => (if op.RecordValidation? then l.(count := GetOr(c.validations, OkKey(op.ok), 0)) else l, c)
    case WriteVerdict => (l,
      if op.RecordValidation? then c.(validations := Put<nat>(c.validations, OkKey(op.ok), l.count + 1)) else c)
    case CopyRequests => (l.(copy := l.copy.(requests := c.requests)), c)
    case CopyValidations => (l.(copy := l.copy.(validations := c.validations)), c)
    case CopySum => (l.(copy := l.copy.(latencySum := c.latencySum)), c)
    case CopyLatency => (l.(copy := l.copy.(latencyCount := c.latencyCount)), c)
    case CopyVersion => (l, c)
  }

  // ----- The machine -------------------------------------------------------

  /** `since` records how many calls had finished when the thread called. */
  datatype Thread =
    | Idle
    | Waiting(op: Op, since: nat)                        // has called, has not got the lock
    | Inside(op: Op, since: nat, pc: nat, local: Local, version: string)

  /** A copy taken by `render`, and how many calls had finished when it was called and when it released the lock. */
  datatype Snapshot = Snapshot(copy: Counters, version: string, since: nat, at: nat)

  /**
   * The shared fields, the lock and the threads. `log` and `snapshots` record the finished calls, in the order
   * in which they released the lock.
   */
  datatype State = State(
    shared: Counters,
    version: string,
    lock: Option<nat>,
    threads: seq<Thread>,
    log: seq<Op>,
    snapshots: seq<Snapshot>)

  /** A thread calls, or goes one step further; `set_version` takes no lock and can come at any time. */
  datatype Move = Call(thread: nat, op: Op) | Step(thread: nat) | SetVersion(version: string)

  function Init(threads: nat): State {
    State(ZERO, "unknown", None, seq(threads, _ => Idle), [], [])
  }

  predicate Enabled(s: State, m: Move) {
    match m
    case SetVersion(_) => true
    case Call(t, _) => t < |s.threads| && s.threads[t].Idle?
    case Step(t) => t < |s.threads| && !s.threads[t].Idle? && (s.threads[t].Waiting? ==> s.lock.None?)
  }

  function Next(s: State, m: Move): State
    requires Enabled(s, m)
  {
    match m
    case SetVersion(v) => s.(version := v)
    case Call(t, op) => s.(threads := s.threads[t := Waiting(op, |s.log|)])
    case Step(t) => Advance(s, t, s.threads[t])
  }

  /** Take the lock, run one instruction, or release the lock. */
  function Advance(s: State, t: nat, thread: Thread): State
    requires t < |s.threads| && !thread.Idle?
  {
    match thread
    case Waiting(op, since) => s.(lock := Some(t), threads := s.threads[t := Inside(op, since, 0, FRESH, "")])
    case Inside(op, since, pc, l, version) =>
      if pc < |Program(op)| then
        var (l', c) := Exec(Program(op)[pc], op, l, s.shared);
        var v := if Program(op)[pc].CopyVersion? then s.version else version;
        s.(shared := c, threads := s.threads[t := Inside(op, since, pc + 1, l', v)])
      else
        s.(lock := None,
           threads := s.threads[t := Idle],
           log := s.log + [op],
           snapshots :=
             if op.Render? then s.snapshots + [Snapshot(l.copy, version, since, |s.log|)] else s.snapshots)
  }

  /** A run: moves made one after the other, each enabled where it is made. */
  predicate IsRun(threads: nat, moves: seq<Move>)
    decreases |moves|, 0
  {
    moves == [] || (IsRun(threads, moves[..|moves| - 1])
      && Enabled(After(threads, moves[..|moves| - 1]), moves[|moves| - 1]))
  }

  function After(threads: nat, moves: seq<Move>): State
    requires IsRun(threads, moves)
    decreases |moves|, 1
  {
    if moves == [] then Init(threads)
    else Next(After(threads, moves[..|moves| - 1]), moves[|moves| - 1])
  }

  // ----- The invariant -----------------------------------------------------

  function ExecAll(instrs: seq<Instr>, op: Op, l: Local, c: Counters): (Local, Counters)
    decreases instrs
  {
    if instrs == [] then (l, c)
    else
      var (l', c') := ExecAll(instrs[..|instrs| - 1], op, l, c);
      Exec(instrs[|instrs| - 1], op, l', c')
  }

  /** Only the holder of the lock is inside. */
  ghost predicate Exclusive(s: State) {
    forall t :: 0 <= t < |s.threads| ==> (s.threads[t].Inside? <==> s.lock == Some(t))
  }

  /** The holder has done the first instructions of its call, and nothing else has touched the counters since. */
  ghost predicate Underway(s: State, thread: Thread) {
    && thread.Inside?
    && thread.pc <= |Program(thread.op)|
    && (thread.local, s.shared) == ExecAll(Program(thread.op)[..thread.pc], thread.op, FRESH, Replay(s.log))
  }

  ghost predicate SnapshotsOfPrefixes(s: State) {
    && (forall i :: 0 <= i < |s.snapshots| ==>
      s.snapshots[i].since <= s.snapshots[i].at <= |s.log| && s.snapshots[i].copy == Replay(s.log[..s.snapshots[i].at]))
    && (forall i, j :: 0 <= i < j < |s.snapshots| ==> s.snapshots[i].at <= s.snapshots[j].at)
  }

  /** No thread has called after calls that have not finished yet. */
  ghost predicate CalledBefore(s: State) {
    forall t :: 0 <= t < |s.threads| && !s.threads[t].Idle? ==> s.threads[t].since <= |s.log|
  }

  ghost predicate Inv(s: State) {
    && Exclusive(s)
    && CalledBefore(s)
    && SnapshotsOfPrefixes(s)
    && match s.lock
       case None => s.shared == Replay(s.log)
       case Some(t) => t < |s.threads| && Underway(s, s.threads[t])
  }

  /** The instructions of a call, run to the end, do what the call does; `render` ends with an exact copy. */
  lemma {:induction false} ProgramEffect(op: Op, c: Counters)
    ensures ExecAll(Program(op), op, FRESH, c).1 == Effect(c, op)
    ensures op.Render? ==> ExecAll(Program(op), op, FRESH, c).0.copy == c
  {
    hide Get, Put;
    var p := Program(op);
    match op {
      case RecordRequest(_, _) =>
        assert p[..5] == [ReadCount, WriteCount, ReadSum, WriteSum, ReadLatency];
        ExecSix(p, op, c);
      case RecordValidation(_) =>
        assert p[..1] == [ReadVerdict] && p[..1][..0] == [];
        assert ExecAll(p[..1], op, FRESH, c) == Exec(ReadVerdict, op, FRESH, c);
      case Render =>
        ExecFive(p, op, c);
    }
  }

  lemma {:induction false} ExecFive(p: seq<Instr>, op: Op, c: Counters)
    requires |p| == 5
    ensures
      var s1 := Exec(p[0], op, FRESH, c);
      var s2 := Exec(p[1], op, s1.0, s1.1);
      var s3 := Exec(p[2], op, s2.0, s2.1);
      var s4 := Exec(p[3], op, s3.0, s3.1);
      ExecAll(p, op, FRESH, c) == Exec(p[4], op, s4.0, s4.1)
  {
    hide Exec;
    assert p[..4][..3] == p[..3] && p[..3][..2] == p[..2] && p[..2][..1] == p[..1] && p[..1][..0] == [];
    assert ExecAll(p[..1], op, FRESH, c) == Exec(p[0], op, FRESH, c);
    assert ExecAll(p[..3], op, FRESH, c)
      == Exec(p[2], op, ExecAll(p[..2], op, FRESH, c).0, ExecAll(p[..2], op, FRESH, c).1);
  }

  lemma {:induction false} ExecSix(p: seq<Instr>, op: Op, c: Counters)
    requires |p| == 6
    ensures
      var s1 := Exec(p[0], op, FRESH, c);
      var s2 := Exec(p[1], op, s1.0, s1.1);
      var s3 := Exec(p[2], op, s2.0, s2.1);
      var s4 := Exec(p[3], op, s3.0, s3.1);
      var s5 := Exec(p[4], op, s4.0, s4.1);
      ExecAll(p, op, FRESH, c) == Exec(p[5], op, s5.0, s5.1)
  {
    hide Exec;
    ExecFive(p[..5], op, c);
  }

  lemma {:induction false} ExecOneMore(op: Op, pc: nat, c: Counters)
    requires pc < |Program(op)|
    ensures var (l, c') := ExecAll(Program(op)[..pc], op, FRESH, c);
      ExecAll(Program(op)[..pc + 1], op, FRESH, c) == Exec(Program(op)[pc], op, l, c')
  {
    assert Program(op)[..pc + 1][..pc] == Program(op)[..pc];
  }

  lemma InitInv(threads: nat)
    ensures Inv(Init(threads))
  {
  }

  lemma TakeLock(s: State, t: nat)
    requires Inv(s) && t < |s.threads| && s.threads[t].Waiting? && s.lock.None?
    ensures Inv(Advance(s, t, s.threads[t]))
  {
    hide Replay, Exec;
    assert Program(s.threads[t].op)[..0] == [];
  }

  lemma RunInstr(s: State, t: nat)
    requires Inv(s) && t < |s.threads| && s.threads[t].Inside? && s.threads[t].pc < |Program(s.threads[t].op)|
    ensures Inv(Advance(s, t, s.threads[t]))
  {
    hide Replay, Exec, ExecAll, Program;
    assert s.lock == Some(t);
    ExecOneMore(s.threads[t].op, s.threads[t].pc, Replay(s.log));
  }

  lemma ReleaseLock(s: State, t: nat)
    requires Inv(s) && t < |s.threads| && s.threads[t].Inside? && s.threads[t].pc >= |Program(s.threads[t].op)|
    ensures Inv(Advance(s, t, s.threads[t]))
  {
    hide Exec, ExecAll, Program, Effect, Replay;
    var op := s.threads[t].op;
    assert s.lock == Some(t);
    assert Program(op)[..|Program(op)|] == Program(op);
    ProgramEffect(op, Replay(s.log));
    ReplayOneMore(s.log, op);
    var s' := Advance(s, t, s.threads[t]);
    assert s'.log[..|s.log|] == s.log;
    forall i | 0 <= i < |s'.snapshots|
      ensures s'.snapshots[i].since <= s'.snapshots[i].at <= |s'.log|
      ensures s'.snapshots[i].copy == Replay(s'.log[..s'.snapshots[i].at])
    {
      var n := s'.snapshots[i].at;
      assert n <= |s.log| && s'.log[..n] == s.log[..n];
    }
  }

  /** Every move of every thread keeps the invariant. */
  lemma NextInv(s: State, m: Move)
    requires Inv(s) && Enabled(s, m)
    ensures Inv(Next(s, m))
  {
    hide Replay, Exec, ExecAll, Program;
    if m.Step? {
      hide Inv;
      var thread := s.threads[m.thread];
      if thread.Waiting? {
        TakeLock(s, m.thread);
      } else if thread.pc < |Program(thread.op)| {
        RunInstr(s, m.thread);
      } else {
        ReleaseLock(s, m.thread);
      }
    }
  }

  lemma {:induction false} RunInv(threads: nat, moves: seq<Move>)
    requires IsRun(threads, moves)
    ensures Inv(After(threads, moves))
  {
    hide Inv, Next, Enabled;
    if moves == [] {
      InitInv(threads);
    } else {
      RunInv(threads, moves[..|moves| - 1]);
      NextInv(After(threads, moves[..|moves| - 1]), moves[|moves| - 1]);
    }
  }

  // ----- What every run satisfies ------------------------------------------

  /** The calls begun in a run, in order. */
  function Begun(moves: seq<Move>): seq<Op> {
    if moves == [] then []
    else Begun(moves[..|moves| - 1]) + (if moves[|moves| - 1].Call? then [moves[|moves| - 1].op] else [])
  }

  /** The calls that threads are in the middle of. */
  function Pending(threads: seq<Thread>): multiset<Op> {
    if threads == [] then multiset{} else PendingOne(threads[0]) + Pending(threads[1..])
  }

  function PendingOne(thread: Thread): multiset<Op> {
    if thread.Idle? then multiset{} else multiset{thread.op}
  }

  lemma {:induction false} PendingChange(threads: seq<Thread>, t: nat, thread: Thread)
    requires t < |threads|
    ensures Pending(threads[t := thread]) + PendingOne(threads[t]) == Pending(threads) + PendingOne(thread)
  {
    if t == 0 {
      assert threads[0 := thread][1..] == threads[1..];
    } else {
      PendingChange(threads[1..], t - 1, thread);
      var rest := threads[1..][t - 1 := thread];
      assert threads[t := thread][1..] == rest;
      hide Pending, PendingOne;
      AddAside(PendingOne(threads[0]), Pending(rest), PendingOne(threads[t]), Pending(threads[1..]),
        PendingOne(thread));
    }
  }

  lemma AddAside(head: multiset<Op>, a: multiset<Op>, x: multiset<Op>, b: multiset<Op>, y: multiset<Op>)
    requires a + x == b + y
    ensures (head + a) + x == (head + b) + y
  {
    assert (head + a) + x == head + (a + x);
    assert (head + b) + y == head + (b + y);
  }

  lemma {:induction false} NonePending(threads: nat)
    ensures Pending(seq(threads, _ => Idle)) == multiset{}
  {
    if threads > 0 {
      NonePending(threads - 1);
      assert seq<Thread>(threads, _ => Idle)[1..] == seq<Thread>(threads - 1, _ => Idle);
    }
  }

  /** No call is lost and none is made twice: every call begun is finished or still pending. */
  lemma {:induction false} CallsConserved(threads: nat, moves: seq<Move>)
    requires IsRun(threads, moves)
    ensures multiset(Begun(moves)) == multiset(After(threads, moves).log) + Pending(After(threads, moves).threads)
  {
    hide Exec, Program;
    if moves == [] {
      NonePending(threads);
    } else {
      var before, m := moves[..|moves| - 1], moves[|moves| - 1];
      CallsConserved(threads, before);
      ConservedStep(After(threads, before), m);
    }
  }

  lemma Cancel(a: multiset<Op>, b: multiset<Op>, x: multiset<Op>)
    requires a + x == b + x
    ensures a == b
  {
    assert a == (a + x) - x && b == (b + x) - x;
  }

  lemma ConservedStep(s: State, m: Move)
    requires Enabled(s, m)
    ensures multiset(Next(s, m).log) + Pending(Next(s, m).threads)
         == multiset(s.log) + Pending(s.threads) + (if m.Call? then multiset{m.op} else multiset{})
  {
    hide Exec, Program, Pending;
    var all := multiset(s.log) + Pending(s.threads);
    var s' := Next(s, m);
    if m.SetVersion? {
      assert all + multiset{} == all;
    } else {
      var before, after := s.threads[m.thread], s'.threads[m.thread];
      assert s'.threads == s.threads[m.thread := after];
      PendingChange(s.threads, m.thread, after);
      if m.Call? {
        assert Pending(s'.threads) == Pending(s.threads) + multiset{m.op};
      } else if after.Idle? {
        assert multiset(s'.log) == multiset(s.log) + multiset{before.op};
        assert Pending(s.threads) == Pending(s'.threads) + multiset{before.op};
        assert all + multiset{} == all;
      } else {
        Cancel(Pending(s'.threads), Pending(s.threads), multiset{before.op});
        assert all + multiset{} == all;
      }
    }
  }

  /**
   * No lost updates: in every run of any number of threads, whenever the lock is free, every counter is exactly
   * the number of finished calls it counts, the outcome counters add up to the latency count, and both are the
   * number of finished `record_request` calls.
   */
  lemma {:induction false} NoLostUpdates(threads: nat, moves: seq<Move>, key: string)
    requires IsRun(threads, moves) && After(threads, moves).lock.None?
    ensures var s := After(threads, moves);
      && GetOr(s.shared.requests, key, 0) == Count(s.log, IsOutcome(key))
      && GetOr(s.shared.validations, key, 0) == Count(s.log, IsVerdict(key))
      && Total(s.shared.requests) == s.shared.latencyCount == Count(s.log, IsRequest)
      && Total(s.shared.validations) == Count(s.log, IsValidation)
      && s.shared.latencySum == Durations(s.log)
  {
    hide After, Replay;
    RunInv(threads, moves);
    ReplayCounts(After(threads, moves).log, key);
  }

  /**
   * Consistent snapshots: every copy `render` takes is the state after the first so many finished calls, among them
   * every call that had finished when `render` was called; it adds up in the same way, and is nowhere larger than a
   * later copy.
   */
  lemma {:induction false} ConsistentSnapshots(threads: nat, moves: seq<Move>, i: nat)
    requires IsRun(threads, moves) && i < |After(threads, moves).snapshots|
    ensures var s := After(threads, moves); var snap := s.snapshots[i];
      && snap.since <= snap.at <= |s.log| && snap.copy == Replay(s.log[..snap.at]) && Tidy(snap.copy)
      && Total(snap.copy.requests) == snap.copy.latencyCount == Count(s.log[..snap.at], IsRequest)
      && forall j :: i < j < |s.snapshots| ==> Grown(snap.copy, s.snapshots[j].copy)
  {
    hide After, Replay, Tidy, Grown;
    var s := After(threads, moves);
    RunInv(threads, moves);
    ReplayCounts(s.log[..s.snapshots[i].at], "");
    ReplayTidy(s.log[..s.snapshots[i].at]);
    forall j | i < j < |s.snapshots| ensures Grown(s.snapshots[i].copy, s.snapshots[j].copy) {
      ReplayGrows(s.log, s.snapshots[i].at, s.snapshots[j].at);
    }
  }

  /** Mutual exclusion and no deadlock: at most one thread is inside, and while any thread is busy one can move. */
  lemma {:induction false} LockIsSafeAndLive(threads: nat, moves: seq<Move>)
    requires IsRun(threads, moves)
    ensures var s := After(threads, moves);
      && (forall t, u :: 0 <= t < |s.threads| && 0 <= u < |s.threads| ==>
            (s.threads[t].Inside? && s.threads[u].Inside? ==> t == u))
      && ((exists t :: 0 <= t < |s.threads| && !s.threads[t].Idle?) ==> exists t: nat :: Enabled(s, Step(t)))
  {
    hide After, Replay, ExecAll;
    RunInv(threads, moves);
    var s := After(threads, moves);
    if t :| 0 <= t < |s.threads| && !s.threads[t].Idle? {
      var mover := match s.lock case Some(holder) => holder case None => t;
      assert Enabled(s, Step(mover));
    }
  }

  // ----- The version in a snapshot -----------------------------------------

  /** At some point of the run this was the version and so many calls had finished. */
  ghost predicate VersionWas(threads: nat, moves: seq<Move>, version: string, finished: nat) {
    exists n :: 0 <= n <= |moves| && IsRun(threads, moves[..n])
      && After(threads, moves[..n]).version == version && |After(threads, moves[..n]).log| == finished
  }

  lemma {:induction false} VersionWasBefore(threads: nat, moves: seq<Move>, version: string, finished: nat)
    requires moves != [] && VersionWas(threads, moves[..|moves| - 1], version, finished)
    ensures VersionWas(threads, moves, version, finished)
  {
    hide IsRun, After;
    var before := moves[..|moves| - 1];
    var n :| 0 <= n <= |before| && IsRun(threads, before[..n])
      && After(threads, before[..n]).version == version && |After(threads, before[..n]).log| == finished;
    assert before[..n] == moves[..n];
  }

  /** A thread that has copied everything. */
  predicate Copied(thread: Thread) {
    thread.Inside? && thread.op.Render? && thread.pc == 5
  }

  ghost predicate VersionsTrue(threads: nat, moves: seq<Move>, s: State) {
    && (forall i :: 0 <= i < |s.snapshots| ==> VersionWas(threads, moves, s.snapshots[i].version, s.snapshots[i].at))
    && forall t :: 0 <= t < |s.threads| && Copied(s.threads[t]) ==>
         VersionWas(threads, moves, s.threads[t].version, |s.log|)
  }

  lemma {:induction false} VersionNow(threads: nat, moves: seq<Move>)
    requires IsRun(threads, moves) && moves != []
    ensures IsRun(threads, moves[..|moves| - 1])
    ensures var s := After(threads, moves[..|moves| - 1]); VersionWas(threads, moves, s.version, |s.log|)
  {
    assert moves[..|moves| - 1] == moves[..|moves| - 1][..|moves| - 1];
    assert IsRun(threads, moves[..|moves| - 1]);
  }

  lemma {:induction false} VersionsKept(threads: nat, moves: seq<Move>)
    requires IsRun(threads, moves)
    ensures VersionsTrue(threads, moves, After(threads, moves))
  {
    if moves == [] {
    } else {
      VersionNow(threads, moves);
      var before, m := moves[..|moves| - 1], moves[|moves| - 1];
      var s, s' := After(threads, before), After(threads, moves);
      VersionsKept(threads, before);
      RunInv(threads, before);
      hide VersionWas, Replay, Exec, ExecAll, SnapshotsOfPrefixes, IsRun, After;
      forall version, at | VersionWas(threads, before, version, at) ensures VersionWas(threads, moves, version, at) {
        VersionWasBefore(threads, moves, version, at);
      }
      VersionsStep(threads, moves, s, m);
    }
  }

  lemma {:induction false} VersionsStep(threads: nat, moves: seq<Move>, s: State, m: Move)
    requires Inv(s) && Enabled(s, m) && VersionsTrue(threads, moves, s)
    requires VersionWas(threads, moves, s.version, |s.log|)
    ensures VersionsTrue(threads, moves, Next(s, m))
  {
    hide VersionWas, Replay, Exec, ExecAll, SnapshotsOfPrefixes;
    var s' := Next(s, m);
    if m.Step? {
      var thread := s.threads[m.thread];
      if thread.Inside? {
        assert s.lock == Some(m.thread);
        assert thread.op.Render? ==> Program(thread.op)[4] == CopyVersion;
        forall t | 0 <= t < |s'.threads| && Copied(s'.threads[t])
          ensures VersionWas(threads, moves, s'.threads[t].version, |s'.log|)
        {
        }
      }
    }
  }

  /**
   * The version a snapshot shows was the version after exactly the calls its counts show, and so between the call of
   * `render` and its end, though `set_version` takes no lock.
   */
  lemma {:induction false} SnapshotVersion(threads: nat, moves: seq<Move>, i: nat)
    requires IsRun(threads, moves) && i < |After(threads, moves).snapshots|
    ensures var snap := After(threads, moves).snapshots[i]; VersionWas(threads, moves, snap.version, snap.at)
  {
    VersionsKept(threads, moves);
  }

  // ----- Busy threads finish -----------------------------------------------

  /** The steps a thread has left: taking the lock, its instructions, releasing the lock. */
  function StepsLeft(thread: Thread): nat {
    match thread
    case Idle => 0
    case Waiting(op, _) => |Program(op)| + 2
    case Inside(op, _, pc, _, _) => if pc <= |Program(op)| then |Program(op)| - pc + 1 else 1
  }

  function AllStepsLeft(threads: seq<Thread>): nat {
    if threads == [] then 0 else StepsLeft(threads[0]) + AllStepsLeft(threads[1..])
  }

  lemma {:induction false} StepsLeftChange(threads: seq<Thread>, t: nat, thread: Thread)
    requires t < |threads|
    ensures AllStepsLeft(threads[t := thread]) + StepsLeft(threads[t]) == AllStepsLeft(threads) + StepsLeft(thread)
  {
    hide StepsLeft;
    if t == 0 {
      assert threads[0 := thread][1..] == threads[1..];
    } else {
      StepsLeftChange(threads[1..], t - 1, thread);
      assert threads[t := thread][1..] == threads[1..][t - 1 := thread];
    }
  }

  ghost predicate AllIdle(threads: seq<Thread>) {
    forall t :: 0 <= t < |threads| ==> threads[t].Idle?
  }

  lemma {:induction false} NoStepsLeft(threads: seq<Thread>)
    ensures AllStepsLeft(threads) == 0 <==> AllIdle(threads)
  {
    hide Program;
    if threads == [] {
    } else {
      NoStepsLeft(threads[1..]);
      assert threads == [threads[0]] + threads[1..];
    }
  }

  /** How many of the moves are steps of threads. */
  function Steps(moves: seq<Move>): nat {
    if moves == [] then 0 else Steps(moves[..|moves| - 1]) + (if moves[|moves| - 1].Step? then 1 else 0)
  }

  lemma OneStepLess(s: State, m: Move)
    requires Inv(s) && Enabled(s, m) && !m.Call?
    ensures AllStepsLeft(s.threads) == AllStepsLeft(Next(s, m).threads) + (if m.Step? then 1 else 0)
  {
    hide Program, Exec, ExecAll, Replay, AllStepsLeft;
    if m.Step? {
      var s' := Next(s, m);
      assert s'.threads == s.threads[m.thread := s'.threads[m.thread]];
      StepsLeftChange(s.threads, m.thread, s'.threads[m.thread]);
    }
  }

  lemma {:induction false} StepsUsed(threads: nat, moves: seq<Move>, more: seq<Move>)
    requires IsRun(threads, moves + more) && forall i :: 0 <= i < |more| ==> !more[i].Call?
    ensures IsRun(threads, moves)
    ensures AllStepsLeft(After(threads, moves).threads)
      == AllStepsLeft(After(threads, moves + more).threads) + Steps(more)
    ensures Begun(moves + more) == Begun(moves)
    decreases more
  {
    hide AllStepsLeft, Inv, Next, Enabled;
    if more == [] {
      assert moves + more == moves;
    } else {
      var all, before := moves + more, more[..|more| - 1];
      assert all[..|all| - 1] == moves + before;
      StepsUsed(threads, moves, before);
      RunInv(threads, moves + before);
      OneStepLess(After(threads, moves + before), more[|more| - 1]);
      assert Begun(moves) + [] == Begun(moves);
    }
  }

  lemma {:induction false} IdlePending(threads: seq<Thread>)
    requires AllIdle(threads)
    ensures Pending(threads) == multiset{}
  {
    if threads == [] {
    } else {
      IdlePending(threads[1..]);
    }
  }

  /**
   * Busy threads finish: a run that goes on without new calls takes no more steps than the threads have left; after
   * so many all are idle and every call begun has finished, and before, one of them can move.
   */
  lemma {:induction false} BusyThreadsFinish(threads: nat, moves: seq<Move>, more: seq<Move>)
    requires IsRun(threads, moves + more) && forall i :: 0 <= i < |more| ==> !more[i].Call?
    ensures IsRun(threads, moves)
    ensures var left := AllStepsLeft(After(threads, moves).threads); var end := After(threads, moves + more);
      && Steps(more) <= left
      && (Steps(more) == left <==> AllIdle(end.threads))
      && (AllIdle(end.threads) ==> multiset(end.log) == multiset(Begun(moves)))
      && (Steps(more) < left ==> exists t: nat :: Enabled(end, Step(t)))
  {
    hide After, IsRun, AllStepsLeft, Pending, Begun, Enabled;
    var end := After(threads, moves + more);
    StepsUsed(threads, moves, more);
    NoStepsLeft(end.threads);
    CallsConserved(threads, moves + more);
    LockIsSafeAndLive(threads, moves + more);
    if AllIdle(end.threads) {
      IdlePending(end.threads);
    }
  }
}
