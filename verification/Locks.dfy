/** Threads that report failures at the same time, in COBS mode, with lock hooks that exclude each other. */
module Locks {
  import opened Protocol
  import opened Framing
  import opened Payload
  import opened HostCodec
  import opened DeviceWire
  import opened DeviceRun

  /** What a thread calls: a failure is announced as an event; a skip and an abort only set their flag. */
  datatype Report = Fail(event: Event) | Ignore | Abort

  /** Where a thread is inside one call. */
  datatype Phase =
    | Idle
    | Marking
    | Marked
    | Ready
    | Writing(left: seq<byte>)

  datatype Thread = Thread(at: nat, phase: Phase)

  type Log = seq<(nat, Event)>

  /** The shared state; `log` records which thread's event took the wire next. */
  datatype System = System(threads: seq<Thread>, lock: Option<nat>, failed: bool, skipped: bool, wire: seq<byte>, log: Log)

  type Programs = seq<seq<Report>>

  function FrameOf(e: Event): seq<byte> {
    Emitted(MsgOf(e))
  }

  datatype LockUse = Keep | Acquire | Release

  /** What one atomic step of a thread does: to itself, to the lock, to the log, to the wire, and to the skipped
      (`true`) or failed (`false`) flag. */
  datatype Turn = Turn(next: Thread, use: LockUse, say: Option<Event>, put: seq<byte>, flag: Option<bool>)

  /** The step a thread takes when it is let; nothing when its program is over. */
  function TurnOf(program: seq<Report>, th: Thread): Option<Turn> {
    if th.at >= |program| then None
    else
      var r := program[th.at];
      var next := Thread(th.at + 1, Idle);
      match th.phase
      case Idle => Some(Turn(Thread(th.at, Marking), Acquire, None, [], None))
      case Marking => Some(Turn(Thread(th.at, Marked), Keep, None, [], Some(r.Ignore?)))
      case Marked => Some(Turn(if r.Fail? then Thread(th.at, Ready) else next, Release, None, [], None))
      case Ready =>
        if !r.Fail? then None
        else if FrameOf(r.event) == [] then Some(Turn(next, Keep, Some(r.event), [], None))
        else Some(Turn(Thread(th.at, Writing(FrameOf(r.event))), Acquire, Some(r.event), [], None))
      case Writing(left) =>
        if left == [] then Some(Turn(next, Release, None, [], None))
        else Some(Turn(Thread(th.at, Writing(left[1..])), Keep, None, [left[0]], None))
  }

  function LockAfter(lock: Option<nat>, t: nat, turn: Turn): Option<nat> {
    match turn.use
    case Keep => lock
    case Acquire => Some(t)
    case Release => None
  }

  function LogAfter(log: Log, t: nat, turn: Turn): Log {
    if turn.say.None? then log else log + [(t, turn.say.value)]
  }

  function Applied(s: System, t: nat, turn: Turn): (after: System)
    requires t < |s.threads|
    ensures |after.threads| == |s.threads|
  {
    System(s.threads[t := turn.next], LockAfter(s.lock, t, turn), s.failed || turn.flag == Some(false),
      s.skipped || turn.flag == Some(true), s.wire + turn.put, LogAfter(s.log, t, turn))
  }

  /** A thread that wants the lock while it is taken waits. */
  predicate Enabled(p: Programs, s: System, t: nat)
    requires t < |s.threads| == |p|
  {
    var turn := TurnOf(p[t], s.threads[t]);
    turn.Some? && (turn.value.use.Acquire? ==> s.lock.None?)
  }

  function Next(p: Programs, s: System, t: nat): (after: System)
    requires t < |s.threads| == |p|
    ensures |after.threads| == |p|
  {
    if Enabled(p, s, t) then Applied(s, t, TurnOf(p[t], s.threads[t]).value) else s
  }

  /** The threads that an interleaving lets step next, again and again. */
  ghost predicate Scheduled(p: Programs, schedule: seq<nat>) {
    forall i :: 0 <= i < |schedule| ==> schedule[i] < |p|
  }

  ghost function Interleaved(p: Programs, s: System, schedule: seq<nat>): (after: System)
    requires |s.threads| == |p| && Scheduled(p, schedule)
    ensures |after.threads| == |p|
    decreases |schedule|
  {
    if schedule == [] then s
    else assert Scheduled(p, schedule[1..]); Interleaved(p, Next(p, s, schedule[0]), schedule[1..])
  }

  function Start(p: Programs): (s: System)
    ensures |s.threads| == |p|
  {
    System(seq(|p|, i => Thread(0, Idle)), None, false, false, [], [])
  }

  predicate Finished(p: Programs, s: System)
    requires |s.threads| == |p|
  {
    forall t :: 0 <= t < |p| ==> s.threads[t].at >= |p[t]|
  }

  function LogEvents(log: Log): seq<Event> {
    if log == [] then [] else LogEvents(log[..|log| - 1]) + [log[|log| - 1].1]
  }

  /** One thread's part of the log, in order. */
  function By(log: Log, t: nat): seq<Event> {
    if log == [] then []
    else
      var last := log[|log| - 1];
      By(log[..|log| - 1], t) + if last.0 == t then [last.1] else []
  }

  /** The events that the first `k` reports of a program announce, in order. */
  function Announced(program: seq<Report>, k: nat): seq<Event>
    requires k <= |program|
  {
    if k == 0 then []
    else Announced(program, k - 1) + if program[k - 1].Fail? then [program[k - 1].event] else []
  }

  predicate Holds(th: Thread) {
    th.phase.Marking? || th.phase.Marked? || th.phase.Writing?
  }

  /** How many of its reports a thread has set a flag for. */
  function Past(th: Thread): nat {
    th.at + if th.phase.Marked? || th.phase.Ready? || th.phase.Writing? then 1 else 0
  }

  /** How many of its reports a thread has put in the log. */
  function Logged(th: Thread): nat {
    th.at + if th.phase.Writing? then 1 else 0
  }

  function LeftOf(th: Thread): seq<byte> {
    if th.phase.Writing? then th.phase.left else []
  }

  /** What the lock holder still has to write. */
  function Pending(threads: seq<Thread>, lock: Option<nat>): seq<byte> {
    if lock.Some? && lock.value < |threads| then LeftOf(threads[lock.value]) else []
  }

  ghost predicate InPlace(program: seq<Report>, th: Thread) {
    && Logged(th) <= |program|
    && (th.phase != Idle ==> th.at < |program|)
    && (th.phase.Ready? || th.phase.Writing? ==> program[th.at].Fail?)
  }

  /** The lock is held by exactly the thread that is inside a critical section. */
  ghost predicate Exclusive(threads: seq<Thread>, lock: Option<nat>) {
    && (lock.Some? ==> lock.value < |threads|)
    && forall t :: 0 <= t < |threads| ==> (Holds(threads[t]) <==> lock == Some(t))
  }

  /** A thread's events are logged in its own order, without loss or repetition. */
  ghost predicate ThreadInOrder(program: seq<Report>, th: Thread, logged: seq<Event>) {
    InPlace(program, th) && logged == Announced(program, Logged(th))
  }

  /** Only threads of the system are in the log. */
  ghost predicate Owned(p: Programs, log: Log) {
    forall k :: 0 <= k < |log| ==> log[k].0 < |p|
  }

  ghost predicate InOrder(p: Programs, threads: seq<Thread>, log: Log)
    requires |threads| == |p|
  {
    Owned(p, log) && forall t: nat :: t < |p| ==> ThreadInOrder(p[t], threads[t], By(log, t))
  }

  /** The wire is whole frames in log order, except for what the holder has not written yet. */
  ghost predicate WholeFrames(threads: seq<Thread>, lock: Option<nat>, wire: seq<byte>, log: Log) {
    wire + Pending(threads, lock) == Wire(LogEvents(log))
  }

  /** Some report has been reached that sets the skipped flag, or the failed flag. */
  ghost predicate Reached(p: Programs, threads: seq<Thread>, skip: bool)
    requires |threads| == |p|
  {
    exists t, i :: 0 <= t < |p| && 0 <= i < |p[t]| && i < Past(threads[t]) && p[t][i].Ignore? == skip
  }

  ghost predicate Invariant(p: Programs, s: System) {
    && |s.threads| == |p|
    && Exclusive(s.threads, s.lock)
    && InOrder(p, s.threads, s.log)
    && WholeFrames(s.threads, s.lock, s.wire, s.log)
    && (s.failed <==> Reached(p, s.threads, false))
    && (s.skipped <==> Reached(p, s.threads, true))
  }

  function Said(turn: Turn): seq<Event> {
    if turn.say.None? then [] else [turn.say.value]
  }

  function SaidBytes(turn: Turn): seq<byte> {
    if turn.say.None? then [] else FrameOf(turn.say.value)
  }

  lemma LoggedWire(log: Log, t: nat, turn: Turn)
    ensures Wire(LogEvents(LogAfter(log, t, turn))) == Wire(LogEvents(log)) + SaidBytes(turn)
  {
    if turn.say.Some? {
      assert LogAfter(log, t, turn)[..|log|] == log;
      WireConcat(LogEvents(log), turn.say.value);
    } else {
      EmptyIsNeutral(Wire(LogEvents(log)));
    }
  }

  lemma LoggedBy(log: Log, t: nat, turn: Turn, u: nat)
    ensures By(LogAfter(log, t, turn), u) == if u == t then By(log, u) + Said(turn) else By(log, u)
  {
    if turn.say.Some? {
      assert LogAfter(log, t, turn)[..|log|] == log;
    }
    EmptyIsNeutral(By(log, u));
  }

  lemma StartIsFine(p: Programs)
    ensures Invariant(p, Start(p))
  {
  }

  /** What a thread's own step keeps, whatever the others do. */
  ghost predicate Lawful(program: seq<Report>, th: Thread, turn: Turn) {
    && LawfulUse(th, turn)
    && LawfulOrder(program, th, turn)
    && LawfulOutput(th, turn)
    && LawfulFlag(program, th, turn)
  }

  ghost predicate LawfulUse(th: Thread, turn: Turn) {
    && (turn.use.Acquire? ==> !Holds(th) && Holds(turn.next))
    && (turn.use.Release? ==> Holds(th) && !Holds(turn.next))
    && (turn.use.Keep? ==> Holds(th) == Holds(turn.next))
  }

  ghost predicate LawfulOrder(program: seq<Report>, th: Thread, turn: Turn) {
    && InPlace(program, th) && InPlace(program, turn.next)
    && Announced(program, Logged(turn.next)) == Announced(program, Logged(th)) + Said(turn)
  }

  ghost predicate LawfulOutput(th: Thread, turn: Turn) {
    && turn.put + LeftOf(turn.next) == LeftOf(th) + SaidBytes(turn)
    && (!Holds(th) ==> turn.put == [])
  }

  ghost predicate LawfulFlag(program: seq<Report>, th: Thread, turn: Turn) {
    && Past(turn.next) == Past(th) + (if turn.flag.Some? then 1 else 0)
    && (turn.flag.Some? ==> Past(th) < |program| && program[Past(th)].Ignore? == turn.flag.value)
  }

  lemma TurnPlace(program: seq<Report>, th: Thread)
    requires InPlace(program, th) && TurnOf(program, th).Some?
    ensures var turn := TurnOf(program, th).value;
            && InPlace(program, turn.next)
            && if Logged(turn.next) == Logged(th) then turn.say == None
               else Logged(th) == th.at < |program| && Logged(turn.next) == th.at + 1
                    && turn.say == if program[th.at].Fail? then Some(program[th.at].event) else None
  {
  }

  lemma TurnOrder(program: seq<Report>, th: Thread)
    requires InPlace(program, th) && TurnOf(program, th).Some?
    ensures LawfulOrder(program, th, TurnOf(program, th).value)
  {
    TurnPlace(program, th);
    EmptyIsNeutral(Announced(program, Logged(th)));
  }

  lemma TurnOutput(program: seq<Report>, th: Thread)
    requires InPlace(program, th) && TurnOf(program, th).Some?
    ensures LawfulOutput(th, TurnOf(program, th).value)
  {
  }

  lemma TurnsAreLawful(program: seq<Report>, th: Thread)
    requires InPlace(program, th) && TurnOf(program, th).Some?
    ensures Lawful(program, th, TurnOf(program, th).value)
  {
    TurnOrder(program, th);
    TurnOutput(program, th);
  }

  lemma KeepsExclusive(threads: seq<Thread>, lock: Option<nat>, t: nat, turn: Turn)
    requires t < |threads| && Exclusive(threads, lock) && LawfulUse(threads[t], turn)
    requires turn.use.Acquire? ==> lock.None?
    ensures Exclusive(threads[t := turn.next], LockAfter(lock, t, turn))
  {
  }

  lemma KeepsThreadOrder(p: Programs, threads: seq<Thread>, log: Log, t: nat, turn: Turn, u: nat)
    requires |threads| == |p| && t < |p| && u < |p| && LawfulOrder(p[t], threads[t], turn)
    requires ThreadInOrder(p[u], threads[u], By(log, u))
    ensures ThreadInOrder(p[u], threads[t := turn.next][u], By(LogAfter(log, t, turn), u))
  {
    LoggedBy(log, t, turn, u);
  }

  lemma KeepsOwned(p: Programs, log: Log, t: nat, turn: Turn)
    requires Owned(p, log) && t < |p|
    ensures Owned(p, LogAfter(log, t, turn))
  {
  }

  lemma KeepsOrder(p: Programs, threads: seq<Thread>, log: Log, t: nat, turn: Turn)
    requires |threads| == |p| && t < |p| && InOrder(p, threads, log) && LawfulOrder(p[t], threads[t], turn)
    ensures InOrder(p, threads[t := turn.next], LogAfter(log, t, turn))
  {
    KeepsOwned(p, log, t, turn);
    forall u: nat | u < |p| ensures ThreadInOrder(p[u], threads[t := turn.next][u], By(LogAfter(log, t, turn), u)) {
      KeepsThreadOrder(p, threads, log, t, turn, u);
    }
  }

  /** The holder's pending bytes shrink by what is written and grow by the frame that is begun. */
  lemma KeepsPending(threads: seq<Thread>, lock: Option<nat>, t: nat, turn: Turn)
    requires t < |threads| && Exclusive(threads, lock) && LawfulUse(threads[t], turn) && LawfulOutput(threads[t], turn)
    requires turn.use.Acquire? ==> lock.None?
    ensures turn.put + Pending(threads[t := turn.next], LockAfter(lock, t, turn)) == Pending(threads, lock) + SaidBytes(turn)
  {
  }

  lemma KeepsFrames(threads: seq<Thread>, lock: Option<nat>, wire: seq<byte>, log: Log, t: nat, turn: Turn)
    requires t < |threads| && Exclusive(threads, lock) && LawfulUse(threads[t], turn) && LawfulOutput(threads[t], turn)
    requires turn.use.Acquire? ==> lock.None?
    requires WholeFrames(threads, lock, wire, log)
    ensures WholeFrames(threads[t := turn.next], LockAfter(lock, t, turn), wire + turn.put, LogAfter(log, t, turn))
  {
    LoggedWire(log, t, turn);
    KeepsPending(threads, lock, t, turn);
    Associative(wire, turn.put, Pending(threads[t := turn.next], LockAfter(lock, t, turn)));
    Associative(wire, Pending(threads, lock), SaidBytes(turn));
  }

  lemma KeepsFlag(p: Programs, threads: seq<Thread>, t: nat, turn: Turn, skip: bool)
    requires |threads| == |p| && t < |p| && LawfulFlag(p[t], threads[t], turn)
    ensures Reached(p, threads[t := turn.next], skip) <==> Reached(p, threads, skip) || turn.flag == Some(skip)
  {
  }

  lemma StepKeepsInvariant(p: Programs, s: System, t: nat)
    requires Invariant(p, s) && t < |p|
    ensures Invariant(p, Next(p, s, t))
  {
    if Enabled(p, s, t) {
      var turn := TurnOf(p[t], s.threads[t]).value;
      assert ThreadInOrder(p[t], s.threads[t], By(s.log, t));
      TurnsAreLawful(p[t], s.threads[t]);
      AppliedKeepsInvariant(p, s, t, turn);
    }
  }

  lemma AppliedKeepsInvariant(p: Programs, s: System, t: nat, turn: Turn)
    requires Invariant(p, s) && t < |p| && Lawful(p[t], s.threads[t], turn)
    requires turn.use.Acquire? ==> s.lock.None?
    ensures Invariant(p, Applied(s, t, turn))
  {
    KeepsExclusive(s.threads, s.lock, t, turn);
    KeepsOrder(p, s.threads, s.log, t, turn);
    KeepsFrames(s.threads, s.lock, s.wire, s.log, t, turn);
    KeepsFlag(p, s.threads, t, turn, false);
    KeepsFlag(p, s.threads, t, turn, true);
  }

  /** Every interleaving keeps the invariant at every moment. */
  lemma {:induction false} EveryMoment(p: Programs, s: System, schedule: seq<nat>)
    requires Invariant(p, s) && Scheduled(p, schedule)
    ensures Invariant(p, Interleaved(p, s, schedule))
    decreases |schedule|
  {
    if schedule == [] {
    } else {
      StepKeepsInvariant(p, s, schedule[0]);
      EveryMoment(p, Next(p, s, schedule[0]), schedule[1..]);
    }
  }

  lemma HolderCanStep(p: Programs, s: System, t: nat)
    requires Invariant(p, s) && t < |p| && (s.lock == Some(t) || s.lock.None?) && s.threads[t].at < |p[t]|
    ensures Enabled(p, s, t)
  {
  }

  /** The lock holder can always go on, and so can everyone when nobody holds it. */
  lemma NoDeadlock(p: Programs, s: System)
    requires Invariant(p, s) && !Finished(p, s)
    ensures exists t: nat :: t < |p| && Enabled(p, s, t)
  {
    var t: nat :| t < |p| && s.threads[t].at < |p[t]|;
    if s.lock.Some? {
      t := s.lock.value;
      assert Holds(s.threads[t]) && ThreadInOrder(p[t], s.threads[t], By(s.log, t));
    }
    HolderCanStep(p, s, t);
  }

  /** Bound on the steps one call still takes. */
  function CallEffort(r: Report, phase: Phase): nat {
    var bytes := if r.Fail? then |FrameOf(r.event)| else 0;
    match phase
    case Idle => 6 + bytes
    case Marking => 5 + bytes
    case Marked => 4 + bytes
    case Ready => 3 + bytes
    case Writing(left) => 2 + |left|
  }

  function ThreadEffort(program: seq<Report>, th: Thread): nat
    decreases |program| - th.at
  {
    if th.at >= |program| then 0
    else CallEffort(program[th.at], th.phase) + ThreadEffort(program, Thread(th.at + 1, Idle))
  }

  /** Bound on the steps all threads still take. */
  function Effort(p: Programs, threads: seq<Thread>): nat
    requires |threads| == |p|
  {
    if p == [] then 0 else ThreadEffort(p[0], threads[0]) + Effort(p[1..], threads[1..])
  }

  lemma TurnIsProgress(program: seq<Report>, th: Thread)
    requires TurnOf(program, th).Some?
    ensures ThreadEffort(program, TurnOf(program, th).value.next) < ThreadEffort(program, th)
  {
  }

  lemma {:induction false} EffortDrops(p: Programs, threads: seq<Thread>, t: nat, th: Thread)
    requires |threads| == |p| && t < |p| && ThreadEffort(p[t], th) < ThreadEffort(p[t], threads[t])
    ensures Effort(p, threads[t := th]) < Effort(p, threads)
  {
    if t == 0 {
      assert threads[t := th][1..] == threads[1..];
    } else {
      assert threads[t := th][1..] == threads[1..][t - 1 := th];
      EffortDrops(p[1..], threads[1..], t - 1, th);
    }
  }

  /** No step of the schedule is mere waiting. */
  ghost predicate Busy(p: Programs, s: System, schedule: seq<nat>)
    requires |s.threads| == |p| && Scheduled(p, schedule)
    decreases |schedule|
  {
    schedule == [] ||
    (Enabled(p, s, schedule[0]) && Scheduled(p, schedule[1..]) && Busy(p, Next(p, s, schedule[0]), schedule[1..]))
  }

  /** Steps that are not mere waiting run out, so a run that always lets an enabled thread go finishes. */
  lemma {:induction false} StepsRunOut(p: Programs, s: System, schedule: seq<nat>)
    requires |s.threads| == |p| && Scheduled(p, schedule) && Busy(p, s, schedule)
    ensures |schedule| <= Effort(p, s.threads)
    decreases |schedule|
  {
    if schedule == [] {
    } else {
      var t := schedule[0];
      var turn := TurnOf(p[t], s.threads[t]).value;
      TurnIsProgress(p[t], s.threads[t]);
      EffortDrops(p, s.threads, t, turn.next);
      StepsRunOut(p, Next(p, s, t), schedule[1..]);
    }
  }

  /** A merge of what the programs announce: every thread's events, in its own order, and nothing else. */
  ghost predicate IsMerge(p: Programs, log: Log) {
    Owned(p, log) && forall t: nat :: t < |p| ==> By(log, t) == Announced(p[t], |p[t]|)
  }

  lemma FinishedThread(program: seq<Report>, th: Thread, logged: seq<Event>)
    requires ThreadInOrder(program, th, logged) && th.at >= |program|
    ensures th.phase == Idle && logged == Announced(program, |program|)
  {
  }

  lemma FinishedState(p: Programs, s: System)
    requires Invariant(p, s) && Finished(p, s)
    ensures Pending(s.threads, s.lock) == [] && IsMerge(p, s.log)
  {
    forall t: nat | t < |p| ensures s.threads[t].phase == Idle && By(s.log, t) == Announced(p[t], |p[t]|) {
      FinishedThread(p[t], s.threads[t], By(s.log, t));
    }
  }

  /** Every failure that is reported fits its message. */
  ghost predicate ReportsFit(p: Programs) {
    forall t, i :: 0 <= t < |p| && 0 <= i < |p[t]| && p[t][i].Fail? ==> Fits(MsgOf(p[t][i].event))
  }

  lemma {:induction false} AnnouncedFit(program: seq<Report>, k: nat)
    requires k <= |program| && forall i :: 0 <= i < |program| && program[i].Fail? ==> Fits(MsgOf(program[i].event))
    ensures AllFit(Announced(program, k))
  {
    if k == 0 {
    } else {
      AnnouncedFit(program, k - 1);
    }
  }

  lemma {:induction false} LoggedFit(p: Programs, log: Log)
    requires Owned(p, log) && forall t: nat :: t < |p| ==> AllFit(By(log, t))
    ensures AllFit(LogEvents(log))
  {
    if log == [] {
    } else {
      var init, last := log[..|log| - 1], log[|log| - 1];
      forall t: nat | t < |p| ensures AllFit(By(init, t)) {
        assert AllFit(By(log, t));
        assert forall e :: e in By(init, t) ==> e in By(log, t);
      }
      LoggedFit(p, init);
      assert last.1 in By(log, last.0);
    }
  }

  lemma MergeFits(p: Programs, log: Log)
    requires IsMerge(p, log) && ReportsFit(p)
    ensures AllFit(LogEvents(log))
  {
    forall t: nat | t < |p| ensures AllFit(By(log, t)) {
      AnnouncedFit(p[t], |p[t]|);
    }
    LoggedFit(p, log);
  }

  lemma WireIsRead(events: seq<Event>, chunks: seq<seq<byte>>)
    requires AllFit(events) && Flatten(chunks) == Wire(events)
    ensures Fed(0, FrameEvents, [], chunks) == Ok(CarriedAll(events))
  {
    ChunkingIsInvisible(0, FrameEvents, [], chunks);
    WireMeans(events);
    FittingWire(events);
    FittingOnlyAll(events);
  }

  /** Some report of some program sets the skipped flag, or the failed flag. */
  ghost predicate Sets(p: Programs, skip: bool) {
    exists t, i :: 0 <= t < |p| && 0 <= i < |p[t]| && p[t][i].Ignore? == skip
  }

  lemma FinishedFlags(p: Programs, s: System, skip: bool)
    requires |s.threads| == |p| && Finished(p, s)
    ensures Reached(p, s.threads, skip) <==> Sets(p, skip)
  {
  }

  /** Whatever the interleaving, once all threads have finished the wire is whole frames in one order that merges
      the threads' own, the host decodes exactly that merge when its messages fit, and each flag is set exactly
      when some report sets it. */
  lemma InterleavedRun(p: Programs, schedule: seq<nat>, chunks: seq<seq<byte>>)
    requires Scheduled(p, schedule)
    requires Finished(p, Interleaved(p, Start(p), schedule))
    requires Flatten(chunks) == Interleaved(p, Start(p), schedule).wire
    ensures var s := Interleaved(p, Start(p), schedule);
            && IsMerge(p, s.log) && s.wire == Wire(LogEvents(s.log))
            && (ReportsFit(p) ==> Fed(0, FrameEvents, [], chunks) == Ok(CarriedAll(LogEvents(s.log))))
            && (s.failed <==> Sets(p, false)) && (s.skipped <==> Sets(p, true))
  {
    var s := Interleaved(p, Start(p), schedule);
    StartIsFine(p);
    EveryMoment(p, Start(p), schedule);
    FinishedState(p, s);
    FinishedFlags(p, s, false);
    FinishedFlags(p, s, true);
    EmptyIsNeutral(s.wire);
    if ReportsFit(p) {
      MergeFits(p, s.log);
      WireIsRead(LogEvents(s.log), chunks);
    }
  }
}
