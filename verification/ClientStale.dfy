/** When a thread is handed the name of a file that is gone: it then sends an
    empty file. */
module ClientStale {
  import opened ArchiveQueue
  import opened ArchiveClient
  import opened ClientExclusion
  import opened ClientHistory
  import opened ClientNoLoss
  import opened ClientLosses
  import opened ClientRetries

  predicate Gone(s: State, n: string) {
    n in s.files.produced && n !in s.files.queueDir
  }

  /** The state before the k-th step of a run. */
  ghost function At(c: Config, run: seq<Action>, k: nat): State
    requires IsRun(c, run) && k <= |run|
    decreases |run|
  {
    if k == |run| then After(c, run) else At(c, run[..|run| - 1], k)
  }

  lemma AtFront(c: Config, run: seq<Action>, k: nat)
    requires run != [] && IsRun(c, run) && k < |run|
    ensures At(c, run, k) == At(c, run[..|run| - 1], k)
    ensures k == |run| - 1 ==> At(c, run, k) == After(c, run[..|run| - 1])
  {}

  /** A scan was opened before the file was gone, and found its name free when it
      was: a thread has finished the file in between. */
  ghost predicate Witness(c: Config, run: seq<Action>, n: string, o: nat, j: nat)
    requires IsRun(c, run)
  {
    && j < |run| && OpenedAt(run[..j], o) && !Gone(At(c, run, o), n)
    && run[j].MonitorChecks? && At(c, run, j).monitor.Saw? && At(c, run, j).monitor.name == n
    && !Busy(At(c, run, j).control.queue, n) && Gone(At(c, run, j), n)
  }

  ghost predicate FoundStale(c: Config, run: seq<Action>, n: string)
    requires IsRun(c, run)
  {
    exists o: nat, j: nat :: Witness(c, run, n, o, j)
  }

  lemma FoundBefore(c: Config, run: seq<Action>, n: string)
    requires run != [] && IsRun(c, run) && FoundStale(c, run[..|run| - 1], n)
    ensures FoundStale(c, run, n)
  {
    var front := run[..|run| - 1];
    var o: nat, j: nat :| Witness(c, front, n, o, j);
    assert front[..j] == run[..j];
    AtFront(c, run, o);
    AtFront(c, run, j);
    assert Witness(c, run, n, o, j);
  }

  // ---------------------------------------------------------------- invariant


  /** What the scan can still come to was not gone when it was opened. */
  ghost predicate ScanInv(c: Config, run: seq<Action>)
    requires IsRun(c, run)
  {
    !After(c, run).monitor.Idle? ==>
      exists o: nat :: OpenedAt(run, o) &&
        forall n :: Reaches(After(c, run).monitor, n) ==> !Gone(At(c, run, o), n)
  }

  ghost predicate ChecksInv(c: Config, run: seq<Action>)
    requires IsRun(c, run)
  {
    var s := After(c, run);
    && (s.monitor.NotBusy? ==> !Busy(s.control.queue, s.monitor.name))
    && (forall n :: (n in s.control.queue.pending || (s.monitor.NotBusy? && s.monitor.name == n)) && Gone(s, n) ==>
          FoundStale(c, run, n))
  }

  lemma ScanStays(c: Config, run: seq<Action>)
    requires run != [] && IsRun(c, run) && ScanInv(c, run[..|run| - 1])
    ensures ScanInv(c, run)
  {
    var front, a := run[..|run| - 1], run[|run| - 1];
    if a.MonitorOpens? {
      assert OpenedAt(run, |front|);
      AtFront(c, run, |front|);
    } else if !After(c, run).monitor.Idle? {
      var o: nat :| OpenedAt(front, o) && forall n :: Reaches(After(c, front).monitor, n) ==> !Gone(At(c, front, o), n);
      AtFront(c, run, o);
      assert OpenedAt(run, o);
      assert forall n :: Reaches(After(c, run).monitor, n) ==> Reaches(After(c, front).monitor, n);
    }
  }

  /** A queued or free name keeps its file. */
  lemma FreeFileStays(c: Config, s: State, a: Action, n: string)
    requires Enabled(c, s, a) && ControlInv(c, s.control) && LinksOnly(s)
    requires Known(s.files, n) && n !in s.control.queue.processing && Gone(Step(c, s, a), n)
    ensures Gone(s, n)
  {
    if n in s.files.queueDir {
      if IsThreadStep(a) {
        assert s.control.workers[a.t].name in Held(s.control.workers);
      }
      FileStays(c, s, a, n);
    }
  }

  lemma CheckFinds(c: Config, run: seq<Action>, n: string)
    requires run != [] && IsRun(c, run) && ScanInv(c, run[..|run| - 1]) && run[|run| - 1].MonitorChecks?
    requires After(c, run).monitor.NotBusy? && After(c, run).monitor.name == n && Gone(After(c, run), n)
    ensures FoundStale(c, run, n)
  {
    var front := run[..|run| - 1];
    var o: nat :| OpenedAt(front, o) && forall m :: Reaches(After(c, front).monitor, m) ==> !Gone(At(c, front, o), m);
    assert run[..|front|] == front;
    AtFront(c, run, |front|);
    AtFront(c, run, o);
    assert Witness(c, run, n, o, |front|);
  }

  lemma FreeStays(c: Config, s: State, a: Action)
    requires Enabled(c, s, a) && ControlInv(c, s.control)
    requires s.monitor.NotBusy? ==> !Busy(s.control.queue, s.monitor.name)
    ensures var r := Step(c, s, a); r.monitor.NotBusy? ==> !Busy(r.control.queue, r.monitor.name)
  {
    if s.control.queue.pending != [] {
      assert s.control.queue.pending[0] in s.control.queue.pending;
    }
  }

  lemma ChecksStay(c: Config, run: seq<Action>)
    requires run != [] && IsRun(c, run) && ScanInv(c, run[..|run| - 1]) && ChecksInv(c, run[..|run| - 1])
    ensures ChecksInv(c, run)
  {
    var front, a := run[..|run| - 1], run[|run| - 1];
    var s, r := After(c, front), After(c, run);
    ThreadsExclude(c, front);
    StampsKept(c, front);
    FreeStays(c, s, a);
    forall n | (n in r.control.queue.pending || (r.monitor.NotBusy? && r.monitor.name == n)) && Gone(r, n)
      ensures FoundStale(c, run, n)
    {
      if n in s.control.queue.pending || (s.monitor.NotBusy? && s.monitor.name == n) {
        FreeFileStays(c, s, a, n);
        FoundBefore(c, run, n);
      } else {
        CheckFinds(c, run, n);
      }
    }
  }

  lemma {:induction false} ScansKept(c: Config, run: seq<Action>)
    requires IsRun(c, run)
    ensures ScanInv(c, run) && ChecksInv(c, run)
  {
    if run != [] {
      ScansKept(c, run[..|run| - 1]);
      ScanStays(c, run);
      ChecksStay(c, run);
    }
  }

  // ---------------------------------------------------------------- theorem

  lemma {:induction false} StaysGone(c: Config, run: seq<Action>, n: string, k: nat)
    requires IsRun(c, run) && k <= |run| && Gone(At(c, run, k), n)
    ensures Gone(After(c, run), n)
  {
    if k < |run| {
      StaysGone(c, run[..|run| - 1], n, k);
      GoneStays(c, After(c, run[..|run| - 1]), run[|run| - 1], n);
    }
  }

  /** In every reachable state: the file of a queued name is gone if and only if a
      scan that was opened before it was gone found the name free afterwards. */
  lemma StaleExactly(c: Config, run: seq<Action>, n: string)
    requires IsRun(c, run) && n in After(c, run).control.queue.pending
    ensures n !in After(c, run).files.queueDir <==> FoundStale(c, run, n)
  {
    ScansKept(c, run);
    ThreadsExclude(c, run);
    if FoundStale(c, run, n) {
      var o: nat, j: nat :| Witness(c, run, n, o, j);
      StaysGone(c, run, n, j);
    }
  }

  /** So a thread is handed the name of a file that is gone exactly then. */
  lemma HandedStaleExactly(c: Config, run: seq<Action>, t: nat)
    requires IsRun(c, run) && Enabled(c, After(c, run), ThreadFetches(t))
    ensures var n := Front(After(c, run).control.queue);
      && Step(c, After(c, run), ThreadFetches(t)).control.workers[t] == Worker(n, Sending)
      && (n !in After(c, run).files.queueDir <==> FoundStale(c, run, n))
  {
    StaleExactly(c, run, After(c, run).control.queue.pending[0]);
  }

  /** For every file that can be sent there is such a run: a second scan reads its
      name while a thread still holds it, and checks it when the thread is done. */
  lemma StaleListing(c: Config, n: string, e: Entry) returns (run: seq<Action>)
    requires 1 <= c.streams && 1 <= c.capacity && n != "" && Sendable(map[n := e], n)
    ensures IsRun(c, run) && Gone(After(c, run), n)
    ensures Working(After(c, run), 0) && After(c, run).control.workers[0] == Worker(n, Sending)
  {
    run := ReadTwice(c, n, e);
    run := Moved(c, run, n);
    run := Then(c, run, MonitorChecks);
    run := Then(c, run, MonitorPuts);
    run := Then(c, run, ThreadFetches(0));
  }

  /** The thread moves the file and is done with it. */
  lemma Moved(c: Config, run: seq<Action>, n: string) returns (more: seq<Action>)
    requires IsRun(c, run) && After(c, run).control.queue == Queue([], {n}, 1) && n in After(c, run).files.queueDir
    requires n in After(c, run).files.produced && After(c, run).stamps == {} && IsStamp(STAMP)
    requires After(c, run).control.workers == map[0 := Worker(n, Replied(BadFile))]
    ensures IsRun(c, more) && Gone(After(c, more), n) && After(c, more).monitor == After(c, run).monitor
    ensures After(c, more).control.queue == EMPTY && After(c, more).control.workers == map[]
  {
    more := Then(c, run, ThreadRenames(0, STAMP));
    assert After(c, more).control.workers == map[0 := Worker(n, Renamed(BadFile, true, STAMP))];
    more := Then(c, more, ThreadSaves(0));
    assert After(c, more).control.workers == map[0 := Worker(n, Finishing)];
    more := Then(c, more, ThreadFinishes(0));
    assert {n} - {n} == {};
  }

  lemma ReadTwice(c: Config, n: string, e: Entry) returns (run: seq<Action>)
    requires 1 <= c.streams && 1 <= c.capacity && n != "" && Sendable(map[n := e], n)
    ensures IsRun(c, run)
    ensures var s := After(c, run);
      && n in s.files.produced && n in s.files.queueDir && s.stamps == {} && IsStamp(STAMP)
      && s.files.produced.Keys == {n} && s.files.queueDir.Keys == {n}
      && s.control.queue == Queue([], {n}, 1) && s.control.workers == map[0 := Worker(n, Replied(BadFile))]
      && s.monitor.Saw? && s.monitor.name == n
  {
    TwoStamps();
    run := Then(c, [], ProducerAdds(n, e));
    var f := After(c, run).files;
    assert f.produced.Keys - f.queueDir.Keys == {};
    run := Then(c, run, MonitorOpens);
    run := Send(c, run, 0, n, BadFile);
    run := Then(c, run, MonitorCloses);
    run := Then(c, run, MonitorOpens);
    run := Then(c, run, MonitorReads(n));
  }
}
