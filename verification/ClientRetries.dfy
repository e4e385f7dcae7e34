/** Exactly when a file that waits in the queue directory can still be sent. */
module ClientRetries {
  import opened ArchiveQueue
  import opened ArchiveClient
  import opened ClientExclusion
  import opened ClientNoLoss
  import opened ClientLosses
  import opened Options

  /** In every reachable state a name is busy because it is queued, because a
      thread holds it, or because a failure return left it behind; the three
      exclude each other. */
  lemma BusyExactly(c: Config, run: seq<Action>, n: string)
    requires IsRun(c, run)
    ensures var k := After(c, run).control;
      && (Busy(k.queue, n) <==> n in k.queue.pending || n in Held(k.workers) || n in k.leaked)
      && !(n in k.queue.pending && n in Held(k.workers))
      && (n in k.leaked ==> n !in k.queue.pending && n !in Held(k.workers))
  {
    ThreadsExclude(c, run);
  }

  // ---------------------------------------------------------------- names for ever

  /** A thread that is told to move a file that is gone can only fail. */
  predicate IsDoomed(c: Config, f: Files, w: Worker) {
    w.phase.Replied? && Moves(c, w.phase.reply) && w.name !in f.queueDir
  }

  function Doomed(c: Config, s: State): set<string> {
    set t | t in s.control.workers && IsDoomed(c, s.files, s.control.workers[t]) :: s.control.workers[t].name
  }

  /** The names that are left behind or are bound to be. */
  function Lost(c: Config, s: State): set<string> {
    s.control.leaked + Doomed(c, s)
  }

  /** The archive thread whose step it is. */
  function Actor(a: Action): Option<nat> {
    match a
    case ThreadFetches(t) => Some(t)
    case ServerReplies(t, _) => Some(t)
    case ThreadRenames(t, _) => Some(t)
    case ThreadSaves(t) => Some(t)
    case ThreadUnlinks(t) => Some(t)
    case ThreadFinishes(t) => Some(t)
    case ThreadFails(t) => Some(t)
    case _ => None
  }

  /** What is not in the queue directory does not come back. */
  lemma GoneStays(c: Config, s: State, a: Action, n: string)
    requires Enabled(c, s, a) && n in s.files.produced && n !in s.files.queueDir
    ensures n in Step(c, s, a).files.produced && n !in Step(c, s, a).files.queueDir
  {}

  lemma DoomedFails(c: Config, s: State, a: Action, t: nat)
    requires Enabled(c, s, a) && Actor(a) == Some(t)
    requires t in s.control.workers && IsDoomed(c, s.files, s.control.workers[t])
    ensures a == ThreadFails(t) && s.control.workers[t].name in Step(c, s, a).control.leaked
  {}

  lemma OthersLeaveThread(c: Config, s: State, a: Action, t: nat)
    requires Enabled(c, s, a) && Actor(a) != Some(t) && t in s.control.workers
    ensures t in Step(c, s, a).control.workers
    ensures Step(c, s, a).control.workers[t] == s.control.workers[t]
  {}

  lemma DoomedStay(c: Config, s: State, a: Action, t: nat)
    requires Enabled(c, s, a) && ControlInv(c, s.control) && NamesInv(s)
    requires t in s.control.workers && IsDoomed(c, s.files, s.control.workers[t])
    ensures s.control.workers[t].name in Lost(c, Step(c, s, a))
  {
    var n := s.control.workers[t].name;
    assert n in Held(s.control.workers);
    assert Known(s.files, n);
    GoneStays(c, s, a, n);
    if Actor(a) == Some(t) {
      DoomedFails(c, s, a, t);
    } else {
      OthersLeaveThread(c, s, a, t);
    }
  }

  lemma LostGrows(c: Config, s: State, a: Action)
    requires Enabled(c, s, a) && ControlInv(c, s.control) && NamesInv(s)
    ensures s.control.leaked <= Step(c, s, a).control.leaked
    ensures Lost(c, s) <= Lost(c, Step(c, s, a))
  {
    forall n | n in Doomed(c, s) ensures n in Lost(c, Step(c, s, a)) {
      var t :| t in s.control.workers && IsDoomed(c, s.files, s.control.workers[t]) && s.control.workers[t].name == n;
      DoomedStay(c, s, a, t);
    }
  }

  /** They all count in the number that gates the scans. */
  lemma LostCounts(c: Config, s: State)
    requires ControlInv(c, s.control)
    ensures |Lost(c, s)| <= s.control.queue.count
  {
    assert Doomed(c, s) <= Held(s.control.workers);
    Smaller(Lost(c, s), s.control.queue.processing);
  }

  lemma Smaller<T>(a: set<T>, b: set<T>)
    requires a <= b
    ensures |a| <= |b|
  {
    assert b == a + (b - a);
    assert |b| == |a| + |b - a|;
  }

  /** Once there are twice as many as streams, the counter never falls below
      that again, and no scan ever starts again. */
  lemma {:induction false} GateStaysShut(c: Config, run: seq<Action>, more: seq<Action>)
    requires IsRun(c, run) && IsRun(c, more) && run <= more
    requires 2 * c.streams <= |Lost(c, After(c, run))|
    ensures 2 * c.streams <= |Lost(c, After(c, more))| <= After(c, more).control.queue.count
    ensures !Enabled(c, After(c, more), MonitorOpens)
  {
    ThreadsExclude(c, more);
    LostCounts(c, After(c, more));
    if run == more {
    } else {
      var front, a := more[..|more| - 1], more[|more| - 1];
      GateStaysShut(c, run, front);
      ThreadsExclude(c, front);
      LostGrows(c, After(c, front), a);
      Smaller(Lost(c, After(c, front)), Lost(c, Step(c, After(c, front), a)));
    }
  }

  // ---------------------------------------------------------------- left behind

  /** A regular file in the queue directory. */
  predicate Waits(s: State, n: string) {
    Sendable(s.files.produced, n) && n in s.files.queueDir
  }

  /** For every file that can be sent there is a run that leaves its name behind
      with the file still in the queue directory. */
  lemma MoveFails(c: Config, n: string, e: Entry) returns (run: seq<Action>)
    requires 1 <= c.streams && 1 <= c.capacity && n != "" && Sendable(map[n := e], n)
    ensures IsRun(c, run) && Waits(After(c, run), n) && n in After(c, run).control.leaked
  {
    run := Then(c, [], ProducerAdds(n, e));
    var f := After(c, run).files;
    assert f.produced.Keys - f.queueDir.Keys == {};
    run := Then(c, run, MonitorOpens);
    run := Send(c, run, 0, n, BadFile);
    run := Then(c, run, ThreadFails(0));
  }

  /** A name that is left behind stays so: it is being processed, but not queued
      and not held, in the rest of every run. */
  lemma {:induction false} LeakedForEver(c: Config, run: seq<Action>, more: seq<Action>)
    requires IsRun(c, run) && IsRun(c, more) && run <= more
    ensures After(c, run).control.leaked <= After(c, more).control.leaked
    ensures forall name :: name in After(c, run).control.leaked ==>
      var k := After(c, more).control;
      name in k.queue.processing && name !in k.queue.pending && name !in Held(k.workers)
  {
    if run != more {
      var front, a := more[..|more| - 1], more[|more| - 1];
      LeakedForEver(c, run, front);
      ThreadsExclude(c, front);
      LostGrows(c, After(c, front), a);
    }
    ThreadsExclude(c, more);
  }

  /** Such a file is never sent, moved or removed again. */
  lemma {:induction false} LeftBehindForEver(c: Config, run: seq<Action>, more: seq<Action>, n: string)
    requires IsRun(c, run) && IsRun(c, more) && run <= more
    requires Waits(After(c, run), n) && n in After(c, run).control.leaked
    ensures Waits(After(c, more), n) && n in After(c, more).control.leaked
    ensures n !in After(c, more).control.queue.pending && n !in Held(After(c, more).control.workers)
  {
    BusyExactly(c, more, n);
    if run == more {
    } else {
      var front, a := more[..|more| - 1], more[|more| - 1];
      LeftBehindForEver(c, run, front, n);
      ThreadsExclude(c, front);
      StampsKept(c, front);
      LeftBehindStays(c, After(c, front), a, n);
    }
  }

  lemma LeftBehindStays(c: Config, s: State, a: Action, n: string)
    requires Enabled(c, s, a) && ControlInv(c, s.control) && LinksOnly(s) && NamesInv(s)
    requires Waits(s, n) && n in s.control.leaked
    ensures Waits(Step(c, s, a), n) && n in Step(c, s, a).control.leaked
  {
    LostGrows(c, s, a);
    if IsThreadStep(a) {
      assert s.control.workers[a.t].name in Held(s.control.workers);
    }
    FileStays(c, s, a, n);
  }

  /** Only the thread that holds a regular file takes it away. */
  lemma FileStays(c: Config, s: State, a: Action, n: string)
    requires Enabled(c, s, a) && Waits(s, n) && s.files.queueDir[n].kind.Regular?
    requires IsThreadStep(a) ==> s.control.workers[a.t].name != n
    ensures Waits(Step(c, s, a), n)
  {}

  // ---------------------------------------------------------------- never sent

  ghost predicate CanBeSent(c: Config, run: seq<Action>, n: string) {
    exists more :: run <= more && IsRun(c, more) && n in Held(After(c, more).control.workers)
  }

  /** The scan that is under way can still come to the name, or has it at hand. */
  predicate Reaches(m: Monitor, n: string) {
    match m
    case Idle => false
    case Listing(scan) => n !in scan.past
    case Saw(name, scan) => name == n || n !in scan.past
    case NotBusy(name, scan) => name == n || n !in scan.past
  }

  /** The name is left behind, or it is not queued, the scan has passed it, and the
      gate is shut. */
  ghost predicate Stuck(c: Config, s: State, n: string) {
    || n in s.control.leaked
    || (n !in s.control.queue.pending && !Reaches(s.monitor, n) && 2 * c.streams <= |Lost(c, s)|)
  }

  lemma StuckStays(c: Config, s: State, a: Action, n: string)
    requires Enabled(c, s, a) && ControlInv(c, s.control) && NamesInv(s)
    requires ControlInv(c, Step(c, s, a).control)
    requires n !in Held(s.control.workers) && Stuck(c, s, n)
    ensures n !in Held(Step(c, s, a).control.workers) && Stuck(c, Step(c, s, a), n)
  {
    LostGrows(c, s, a);
    if n !in s.control.leaked {
      LostCounts(c, s);
      Smaller(Lost(c, s), Lost(c, Step(c, s, a)));
      PassedStays(c, s, a, n);
      NotFetched(c, s, a, n);
    }
  }

  /** A name that is not queued is not fetched. */
  lemma NotFetched(c: Config, s: State, a: Action, n: string)
    requires Enabled(c, s, a) && n !in Held(s.control.workers) && n !in s.control.queue.pending
    ensures n !in Held(Step(c, s, a).control.workers)
  {
    var r := Step(c, s, a);
    forall t | t in r.control.workers ensures r.control.workers[t].name != n {
      if t in s.control.workers {
        assert s.control.workers[t].name in Held(s.control.workers);
      }
    }
  }

  /** A name the scan has passed is not queued by it. */
  lemma PassedStays(c: Config, s: State, a: Action, n: string)
    requires Enabled(c, s, a) && !Reaches(s.monitor, n) && !a.MonitorOpens?
    requires n !in s.control.queue.pending
    ensures !Reaches(Step(c, s, a).monitor, n) && n !in Step(c, s, a).control.queue.pending
  {}

  lemma {:induction false} StuckForEver(c: Config, run: seq<Action>, more: seq<Action>, n: string)
    requires IsRun(c, run) && IsRun(c, more) && run <= more
    requires n !in Held(After(c, run).control.workers) && Stuck(c, After(c, run), n)
    ensures n !in Held(After(c, more).control.workers) && Stuck(c, After(c, more), n)
  {
    if run == more {
    } else {
      var front, a := more[..|more| - 1], more[|more| - 1];
      StuckForEver(c, run, front, n);
      ThreadsExclude(c, front);
      ThreadsExclude(c, more);
      StuckStays(c, After(c, front), a, n);
    }
  }

  // ---------------------------------------------------------------- sent again

  ghost predicate Open(c: Config, s: State, n: string) {
    Waits(s, n) && !Stuck(c, s, n)
  }

  lemma FreshStamp(stamps: set<(nat, string)>, t: nat, k: nat) returns (stamp: string)
    ensures IsStamp(stamp) && (t, stamp) !in stamps && k <= |stamp|
    decreases |stamps|
  {
    stamp := seq(k, _ => '0');
    if (t, stamp) in stamps {
      var next := FreshStamp(stamps - {(t, stamp)}, t, k + 1);
      stamp := next;
    }
  }

  function Rank(p: Phase): nat {
    match p
    case Sending => 4
    case Replied(_) => 3
    case Renamed(_, _, _) => 2
    case Finishing => 1
  }

  /** A step that brings thread t nearer to its end, an answer of the server
      being an error that leaves the file where it is. */
  function NextStep(c: Config, s: State, t: nat, stamp: string): Action
    requires Working(s, t)
  {
    var w := s.control.workers[t];
    match w.phase
    case Sending => ServerReplies(t, OtherError)
    case Replied(reply) =>
      if IsDoomed(c, s.files, w) then ThreadFails(t)
      else if Moves(c, reply) then ThreadRenames(t, stamp)
      else if reply.Stored? then ThreadUnlinks(t)
      else ThreadFinishes(t)
    case Renamed(_, _, _) => ThreadSaves(t)
    case Finishing => ThreadFinishes(t)
  }

  /** The step concerns thread t and its file only. */
  ghost predicate OnlyThread(s: State, r: State, t: nat) {
    && r.monitor == s.monitor && r.control.queue.pending == s.control.queue.pending
    && r.files.produced == s.files.produced
    && r.control.workers - {t} == s.control.workers - {t}
  }

  lemma NextStepFits(c: Config, s: State, t: nat, stamp: string)
    requires Working(s, t) && IsStamp(stamp) && (t, stamp) !in s.stamps
    ensures var a := NextStep(c, s, t, stamp);
      && Enabled(c, s, a) && OnlyThread(s, Step(c, s, a), t)
      && (Working(Step(c, s, a), t) ==>
            && Step(c, s, a).control.workers[t].name == s.control.workers[t].name
            && Rank(Step(c, s, a).control.workers[t].phase) < Rank(s.control.workers[t].phase))
  {}

  lemma NextStepKeepsFile(c: Config, s: State, t: nat, stamp: string, n: string)
    requires Working(s, t) && IsStamp(stamp) && (t, stamp) !in s.stamps
    requires Waits(s, n) && s.control.workers[t].name != n
    ensures Enabled(c, s, NextStep(c, s, t, stamp)) && Waits(Step(c, s, NextStep(c, s, t, stamp)), n)
  {}

  lemma NextStepKeepsLost(c: Config, s: State, t: nat, stamp: string)
    requires Working(s, t) && IsStamp(stamp) && (t, stamp) !in s.stamps
    requires ControlInv(c, s.control) && NamesInv(s)
    ensures Enabled(c, s, NextStep(c, s, t, stamp))
    ensures Lost(c, Step(c, s, NextStep(c, s, t, stamp))) == Lost(c, s)
  {
    NextStepFits(c, s, t, stamp);
    LostGrows(c, s, NextStep(c, s, t, stamp));
    NextStepLeaks(c, s, t, stamp);
    NextStepDooms(c, s, t, stamp);
  }

  lemma NextStepLeaks(c: Config, s: State, t: nat, stamp: string)
    requires Working(s, t) && Enabled(c, s, NextStep(c, s, t, stamp))
    ensures Step(c, s, NextStep(c, s, t, stamp)).control.leaked <= Lost(c, s)
  {}

  lemma NextStepDooms(c: Config, s: State, t: nat, stamp: string)
    requires Working(s, t) && IsStamp(stamp) && (t, stamp) !in s.stamps
    requires ControlInv(c, s.control) && NamesInv(s) && Enabled(c, s, NextStep(c, s, t, stamp))
    ensures Doomed(c, Step(c, s, NextStep(c, s, t, stamp))) <= Doomed(c, s)
  {
    var r := Step(c, s, NextStep(c, s, t, stamp));
    forall n | n in Doomed(c, r) ensures n in Doomed(c, s) {
      var u :| u in r.control.workers && IsDoomed(c, r.files, r.control.workers[u]) && r.control.workers[u].name == n;
      StillThere(c, s, t, stamp, u);
    }
  }

  /** No thread but t becomes doomed. */
  lemma StillThere(c: Config, s: State, t: nat, stamp: string, u: nat)
    requires Working(s, t) && IsStamp(stamp) && (t, stamp) !in s.stamps
    requires ControlInv(c, s.control) && NamesInv(s)
    requires Enabled(c, s, NextStep(c, s, t, stamp))
    requires var r := Step(c, s, NextStep(c, s, t, stamp));
      u in r.control.workers && IsDoomed(c, r.files, r.control.workers[u])
    ensures u in s.control.workers && IsDoomed(c, s.files, s.control.workers[u])
    ensures s.control.workers[u].name == Step(c, s, NextStep(c, s, t, stamp)).control.workers[u].name
  {
    NextStepFits(c, s, t, stamp);
    var r := Step(c, s, NextStep(c, s, t, stamp));
    if u != t {
      assert u in r.control.workers - {t};
      assert u in s.control.workers && s.control.workers[u] == r.control.workers[u];
      assert s.control.workers[u].name in Held(s.control.workers);
      assert Known(s.files, s.control.workers[u].name);
    }
  }

  lemma NextStepKeepsOpen(c: Config, s: State, t: nat, stamp: string, n: string)
    requires Working(s, t) && IsStamp(stamp) && (t, stamp) !in s.stamps && s.control.workers[t].name != n
    requires ControlInv(c, s.control) && NamesInv(s) && Open(c, s, n)
    ensures Enabled(c, s, NextStep(c, s, t, stamp)) && Open(c, Step(c, s, NextStep(c, s, t, stamp)), n)
  {
    NextStepFits(c, s, t, stamp);
    NextStepKeepsFile(c, s, t, stamp, n);
    NextStepKeepsLost(c, s, t, stamp);
  }

  lemma Complete(c: Config, run: seq<Action>, t: nat, n: string) returns (more: seq<Action>)
    requires IsRun(c, run) && Open(c, After(c, run), n)
    requires Working(After(c, run), t) && After(c, run).control.workers[t].name != n
    ensures run <= more && IsRun(c, more) && Open(c, After(c, more), n)
    ensures OnlyThread(After(c, run), After(c, more), t) && !Working(After(c, more), t)
    decreases Rank(After(c, run).control.workers[t].phase)
  {
    var s := After(c, run);
    ThreadsExclude(c, run);
    var stamp := FreshStamp(s.stamps, t, 0);
    NextStepFits(c, s, t, stamp);
    NextStepKeepsOpen(c, s, t, stamp, n);
    more := Then(c, run, NextStep(c, s, t, stamp));
    if Working(After(c, more), t) {
      more := Complete(c, more, t, n);
    }
  }

  lemma CompleteAll(c: Config, run: seq<Action>, n: string) returns (more: seq<Action>)
    requires IsRun(c, run) && Open(c, After(c, run), n) && n !in Held(After(c, run).control.workers)
    ensures run <= more && IsRun(c, more) && Open(c, After(c, more), n)
    ensures After(c, more).control.workers == map[] && After(c, more).monitor == After(c, run).monitor
    ensures After(c, more).control.queue.pending == After(c, run).control.queue.pending
    decreases |After(c, run).control.workers|
  {
    var workers := After(c, run).control.workers;
    if workers == map[] {
      more := run;
    } else {
      var t :| t in workers;
      assert workers[t].name in Held(workers);
      more := Complete(c, run, t, n);
      OneLess(workers, After(c, more).control.workers, t);
      more := CompleteAll(c, more, n);
    }
  }

  lemma OneLess(workers: map<nat, Worker>, rest: map<nat, Worker>, t: nat)
    requires t in workers && t !in rest && rest - {t} == workers - {t}
    ensures |rest| < |workers| && Held(rest) <= Held(workers)
  {
    assert rest == rest - {t} && workers == rest[t := workers[t]];
    HeldWith(rest, t, workers[t]);
  }

  /** The queue is emptied until the file is fetched, if it is queued. */
  lemma Drain(c: Config, run: seq<Action>, n: string) returns (more: seq<Action>)
    requires IsRun(c, run) && Open(c, After(c, run), n) && After(c, run).control.workers == map[] && 1 <= c.streams
    ensures run <= more && IsRun(c, more)
    ensures
      n in Held(After(c, more).control.workers) ||
      var r := After(c, more);
      && Open(c, r, n) && r.control.workers == map[] && r.control.queue.pending == []
      && r.monitor == After(c, run).monitor
    decreases |After(c, run).control.queue.pending|
  {
    if After(c, run).control.queue.pending == [] {
      more := run;
    } else {
      more := DrainOne(c, run, n);
      if n !in Held(After(c, more).control.workers) {
        more := Drain(c, more, n);
      }
    }
  }

  lemma DrainOne(c: Config, run: seq<Action>, n: string) returns (more: seq<Action>)
    requires IsRun(c, run) && Open(c, After(c, run), n) && After(c, run).control.workers == map[] && 1 <= c.streams
    requires After(c, run).control.queue.pending != []
    ensures run <= more && IsRun(c, more)
    ensures
      n in Held(After(c, more).control.workers) ||
      var r := After(c, more);
      && Open(c, r, n) && r.control.workers == map[] && r.monitor == After(c, run).monitor
      && r.control.queue.pending == After(c, run).control.queue.pending[1..]
  {
    var s := After(c, run);
    more := Then(c, run, ThreadFetches(0));
    assert After(c, more).control.workers[0] == Worker(s.control.queue.pending[0], Sending);
    if s.control.queue.pending[0] != n {
      FetchKeepsOpen(c, s, n);
      more := Complete(c, more, 0, n);
      assert After(c, more).control.workers == After(c, more).control.workers - {0} == map[];
    }
  }

  lemma FetchKeepsOpen(c: Config, s: State, n: string)
    requires Enabled(c, s, ThreadFetches(0)) && Open(c, s, n)
    requires s.control.workers == map[] && s.control.queue.pending[0] != n
    ensures Open(c, Step(c, s, ThreadFetches(0)), n)
  {
    var r := Step(c, s, ThreadFetches(0));
    assert r.control.workers == map[0 := Worker(s.control.queue.pending[0], Sending)];
    assert Doomed(c, r) == Doomed(c, s) == {};
    assert s.control.queue.pending == [s.control.queue.pending[0]] + r.control.queue.pending;
  }

  /** The monitor thread is done with another name. */
  lemma SettleMonitor(c: Config, run: seq<Action>, n: string) returns (more: seq<Action>)
    requires IsRun(c, run) && Open(c, After(c, run), n)
    ensures run <= more && IsRun(c, more) && Open(c, After(c, more), n)
    ensures AtHand(After(c, more).monitor, n)
    ensures After(c, more).control.workers == After(c, run).control.workers
  {
    more := run;
    if After(c, more).monitor.Saw? && After(c, more).monitor.name != n {
      more := Then(c, more, MonitorChecks);
    }
    if After(c, more).monitor.NotBusy? && After(c, more).monitor.name != n {
      more := Then(c, more, MonitorPuts);
    }
  }

  predicate AtHand(m: Monitor, n: string) {
    (m.Saw? || m.NotBusy?) ==> m.name == n
  }

  lemma NobodyAtWork(c: Config, s: State)
    requires ControlInv(c, s.control) && s.control.workers == map[]
    ensures s.control.queue.processing == s.control.leaked == Lost(c, s)
    ensures s.control.queue.count == |s.control.queue.pending| + |Lost(c, s)|
  {
    assert Held(s.control.workers) == {} && Doomed(c, s) == {};
  }

  /** With nobody at work and an empty queue, a scan that comes to the file has it
      sent. */
  lemma Scanned(c: Config, run: seq<Action>, n: string) returns (more: seq<Action>)
    requires IsRun(c, run) && Open(c, After(c, run), n) && 1 <= c.streams && 1 <= c.capacity
    requires After(c, run).control.workers == map[] && After(c, run).control.queue.pending == []
    requires Reaches(After(c, run).monitor, n) && AtHand(After(c, run).monitor, n)
    ensures run <= more && IsRun(c, more) && n in Held(After(c, more).control.workers)
  {
    ThreadsExclude(c, run);
    NobodyAtWork(c, After(c, run));
    more := FoundFree(c, run, n);
    more := Then(c, more, MonitorPuts);
    more := Then(c, more, ThreadFetches(0));
    assert After(c, more).control.workers[0].name == n;
  }

  /** The scan comes to a name that is free. */
  lemma FoundFree(c: Config, run: seq<Action>, n: string) returns (more: seq<Action>)
    requires IsRun(c, run) && Sendable(After(c, run).files.produced, n)
    requires !Busy(After(c, run).control.queue, n)
    requires Reaches(After(c, run).monitor, n) && AtHand(After(c, run).monitor, n)
    ensures run <= more && IsRun(c, more) && After(c, more).control == After(c, run).control
    ensures After(c, more).monitor.NotBusy? && After(c, more).monitor.name == n
  {
    more := run;
    if After(c, more).monitor.Listing? {
      more := Then(c, more, MonitorReads(n));
    }
    if After(c, more).monitor.Saw? {
      more := Then(c, more, MonitorChecks);
    }
  }

  // ---------------------------------------------------------------- another scan

  /** What the rest of a scan keeps when the gate is open. */
  ghost predicate Hopeful(c: Config, s: State, n: string) {
    Waits(s, n) && n !in s.control.leaked && |Lost(c, s)| < 2 * c.streams
  }

  function Unread(f: Files, scan: Scan): set<string> {
    set m | m in scan.present && m in f.queueDir && !Hidden(m) && m !in scan.past
  }

  lemma ReadNext(c: Config, run: seq<Action>, n: string, m: string) returns (more: seq<Action>)
    requires IsRun(c, run) && After(c, run).monitor.Listing? && Hopeful(c, After(c, run), n)
    requires m in Unread(After(c, run).files, After(c, run).monitor.scan)
    ensures run <= more && IsRun(c, more) && Hopeful(c, After(c, more), n)
    ensures After(c, more).monitor == Listing(Passed(After(c, run).monitor.scan, m))
    ensures After(c, more).files.queueDir.Keys <= After(c, run).files.queueDir.Keys
    ensures After(c, more).control.workers == After(c, run).control.workers
  {
    ThreadsExclude(c, run);
    StampsKept(c, run);
    TwoStamps();
    if After(c, run).files.queueDir[m].kind.Link? {
      LinkKeepsHope(c, After(c, run), m, n);
      more := Then(c, run, MonitorMovesLink(m, STAMP));
    } else {
      more := Then(c, run, MonitorReads(m));
      more := Then(c, more, MonitorChecks);
      if After(c, more).monitor.NotBusy? {
        more := Then(c, more, MonitorPuts);
      }
    }
  }

  lemma LinkKeepsHope(c: Config, s: State, m: string, n: string)
    requires Enabled(c, s, MonitorMovesLink(m, STAMP)) && NamesInv(s) && ControlInv(c, s.control) && LinksOnly(s)
    requires Hopeful(c, s, n)
    ensures Hopeful(c, Step(c, s, MonitorMovesLink(m, STAMP)), n)
  {
    forall t | t in s.control.workers ensures s.control.workers[t].name != m {
      assert s.control.workers[t].name in Held(s.control.workers);
      assert Known(s.files, s.control.workers[t].name);
    }
    SameDoomed(c, s, Step(c, s, MonitorMovesLink(m, STAMP)), m);
  }

  lemma SameDoomed(c: Config, s: State, r: State, m: string)
    requires r.control == s.control && r.files.queueDir == s.files.queueDir - {m}
    requires forall t :: t in s.control.workers ==> s.control.workers[t].name != m
    ensures Doomed(c, r) == Doomed(c, s)
  {}

  lemma ReadRest(c: Config, run: seq<Action>, n: string) returns (more: seq<Action>)
    requires IsRun(c, run) && After(c, run).monitor.Listing? && Hopeful(c, After(c, run), n)
    ensures run <= more && IsRun(c, more) && Hopeful(c, After(c, more), n)
    ensures After(c, more).monitor.Idle? && After(c, more).control.workers == After(c, run).control.workers
    decreases |Unread(After(c, run).files, After(c, run).monitor.scan)|
  {
    var f, scan := After(c, run).files, After(c, run).monitor.scan;
    if Unread(f, scan) == {} {
      assert forall m :: m in scan.present && m in f.queueDir && !Hidden(m) && m !in scan.past ==> m in Unread(f, scan);
      more := Then(c, run, MonitorCloses);
    } else {
      var m :| m in Unread(f, scan);
      more := ReadNext(c, run, n, m);
      Smaller(Unread(After(c, more).files, Passed(scan, m)), Unread(f, scan) - {m});
      more := ReadRest(c, more, n);
    }
  }

  /** The scan is brought to its end, the queue is emptied, and another scan is
      opened. */
  lemma Reopened(c: Config, run: seq<Action>, n: string) returns (more: seq<Action>)
    requires IsRun(c, run) && Hopeful(c, After(c, run), n) && 1 <= c.streams && 1 <= c.capacity
    requires After(c, run).control.workers == map[]
    requires After(c, run).monitor.Idle? || After(c, run).monitor.Listing?
    ensures run <= more && IsRun(c, more) && n in Held(After(c, more).control.workers)
  {
    more := run;
    if After(c, run).monitor.Listing? {
      more := ReadRest(c, run, n);
    }
    more := Drain(c, more, n);
    if n !in Held(After(c, more).control.workers) {
      more := NewScan(c, more, n);
      more := Scanned(c, more, n);
    }
  }

  lemma NewScan(c: Config, run: seq<Action>, n: string) returns (more: seq<Action>)
    requires IsRun(c, run) && Open(c, After(c, run), n) && After(c, run).monitor.Idle?
    requires After(c, run).control.workers == map[] && After(c, run).control.queue.pending == []
    ensures run <= more && IsRun(c, more) && Open(c, After(c, more), n)
    ensures After(c, more).control == After(c, run).control
    ensures After(c, more).monitor.Listing? && Reaches(After(c, more).monitor, n)
  {
    ThreadsExclude(c, run);
    NobodyAtWork(c, After(c, run));
    more := Then(c, run, MonitorOpens);
  }

  lemma SentAgain(c: Config, run: seq<Action>, n: string) returns (more: seq<Action>)
    requires IsRun(c, run) && Open(c, After(c, run), n) && 1 <= c.streams && 1 <= c.capacity
    requires n !in Held(After(c, run).control.workers)
    ensures run <= more && IsRun(c, more) && n in Held(After(c, more).control.workers)
  {
    more := SettleMonitor(c, run, n);
    more := CompleteAll(c, more, n);
    more := Drain(c, more, n);
    if n !in Held(After(c, more).control.workers) {
      if Reaches(After(c, more).monitor, n) {
        more := Scanned(c, more, n);
      } else {
        more := Reopened(c, more, n);
      }
    }
  }

  /** A file that waits and that no thread holds can still be sent if and only if
      its name was not left behind and it is queued, a scan is under way that has
      not read it yet or has it at hand, or the names left behind or bound to be
      are fewer than twice the streams. */
  lemma SentAgainExactly(c: Config, run: seq<Action>, n: string)
    requires IsRun(c, run) && 1 <= c.streams && 1 <= c.capacity
    requires Waits(After(c, run), n) && n !in Held(After(c, run).control.workers)
    ensures var s := After(c, run);
      CanBeSent(c, run, n) <==>
        && n !in s.control.leaked
        && (n in s.control.queue.pending || Reaches(s.monitor, n) || |Lost(c, s)| < 2 * c.streams)
  {
    if Stuck(c, After(c, run), n) {
      forall more | run <= more && IsRun(c, more) ensures n !in Held(After(c, more).control.workers) {
        StuckForEver(c, run, more, n);
      }
    } else {
      var more := SentAgain(c, run, n);
    }
  }

  /** A file the server could not take for another reason stays in the queue
      directory, its name is free, and it can be sent again exactly if a scan can
      still come to it or another scan can begin. */
  lemma OtherErrorIsRetried(c: Config, run: seq<Action>, t: nat) returns (more: seq<Action>)
    requires IsRun(c, run) && Working(After(c, run), t) && 1 <= c.capacity
    requires After(c, run).control.workers[t].phase == Replied(OtherError)
    ensures IsRun(c, more) && more == run + [ThreadFinishes(t)]
    ensures After(c, more).files == After(c, run).files
    ensures !Busy(After(c, more).control.queue, After(c, run).control.workers[t].name)
    ensures var s, n := After(c, more), After(c, run).control.workers[t].name;
      n in s.files.queueDir ==>
        (CanBeSent(c, more, n) <==> Reaches(s.monitor, n) || |Lost(c, s)| < 2 * c.streams)
  {
    ThreadsExclude(c, run);
    var k := After(c, run).control;
    var n := k.workers[t].name;
    assert n in Held(k.workers);
    Extend(c, run, ThreadFinishes(t));
    more := run + [ThreadFinishes(t)];
    BusyExactly(c, more, n);
    if n in After(c, more).files.queueDir {
      SentAgainExactly(c, more, n);
    }
  }
}
