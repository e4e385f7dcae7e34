/** What the state of the archive client says about the steps that led to it:
    each part of it is read off the list of the steps. */
module ClientHistory {
  import opened ArchiveQueue
  import opened ArchiveClient
  import opened Options

  lemma {:induction false} PrefixRuns(c: Config, run: seq<Action>, k: nat)
    requires IsRun(c, run) && k <= |run|
    ensures IsRun(c, run[..k])
  {
    if k == |run| {
      assert run[..k] == run;
    } else {
      PrefixRuns(c, run[..|run| - 1], k);
      assert run[..|run| - 1][..k] == run[..k];
    }
  }

  lemma {:induction false} EnabledAt(c: Config, run: seq<Action>, k: nat)
    requires IsRun(c, run) && k < |run|
    ensures IsRun(c, run[..k]) && Enabled(c, After(c, run[..k]), run[k])
  {
    if k + 1 < |run| {
      EnabledAt(c, run[..|run| - 1], k);
      assert run[..|run| - 1][..k] == run[..k];
    }
  }

  // ---------------------------------------------------------------- the world

  function Elapsed(run: seq<Action>): nat {
    if run == [] then 0
    else Elapsed(run[..|run| - 1]) + if run[|run| - 1].TimePasses? then run[|run| - 1].seconds else 0
  }

  /** The server has stored the file and not dropped it since. */
  predicate Available(run: seq<Action>, fid: nat) {
    run != [] &&
    match run[|run| - 1]
    case ServerStores(stored, _) => stored == fid || Available(run[..|run| - 1], fid)
    case ServerDrops(dropped) => dropped != fid && Available(run[..|run| - 1], fid)
    case _ => Available(run[..|run| - 1], fid)
  }

  function Failures(run: seq<Action>): nat {
    if run == [] then 0 else Failures(run[..|run| - 1]) + if run[|run| - 1].ThreadFails? then 1 else 0
  }

  predicate AddsOnly(run: seq<Action>, P: map<string, Entry>) {
    forall a :: a in run && a.ProducerAdds? ==> a.name in P && P[a.name] == a.entry
  }

  lemma InFront(run: seq<Action>)
    requires run != []
    ensures forall a :: a in run <==> a in run[..|run| - 1] || a == run[|run| - 1]
  {
    assert run == run[..|run| - 1] + [run[|run| - 1]];
  }

  /** The time, the files added, and what the server has are those of the steps. */
  lemma {:induction false} TimeExactly(c: Config, run: seq<Action>)
    requires IsRun(c, run)
    ensures After(c, run).now == Elapsed(run)
    ensures After(c, run).control.failures == Failures(run)
  {
    if run != [] {
      TimeExactly(c, run[..|run| - 1]);
    }
  }

  lemma ProducedStep(c: Config, s: State, a: Action)
    requires Enabled(c, s, a)
    ensures var f, g := s.files, Step(c, s, a).files;
      && g.produced == (if a.ProducerAdds? then f.produced[a.name := a.entry] else f.produced)
      && forall n :: n in g.queueDir ==>
           (n in f.queueDir && g.queueDir[n] == f.queueDir[n]) || a == ProducerAdds(n, g.queueDir[n])
  {}

  lemma {:induction false} ProducedExactly(c: Config, run: seq<Action>, n: string, e: Entry)
    requires IsRun(c, run)
    ensures var f := After(c, run).files;
      && ((n in f.produced && f.produced[n] == e) <==> ProducerAdds(n, e) in run)
      && (n in f.queueDir && f.queueDir[n] == e ==> ProducerAdds(n, e) in run)
  {
    if run != [] {
      var front, a := run[..|run| - 1], run[|run| - 1];
      ProducedExactly(c, front, n, e);
      ProducedStep(c, After(c, front), a);
      InFront(run);
      if a.ProducerAdds? {
        assert a.name !in After(c, front).files.produced;
      }
    }
  }

  lemma {:induction false} ServerExactly(c: Config, run: seq<Action>, fid: nat, d: int)
    requires IsRun(c, run)
    ensures var server := After(c, run).server;
      && ((fid in server.stored && server.stored[fid] == d) <==> ServerStores(fid, d) in run)
      && (fid in server.available <==> Available(run, fid))
  {
    if run != [] {
      ServerExactly(c, run[..|run| - 1], fid, d);
      InFront(run);
    }
  }

  /** Nothing the client does keeps time from passing, or the server from storing and
      dropping files. */
  lemma WorldIsFree(c: Config, run: seq<Action>, fid: nat, d: int, seconds: nat)
    requires IsRun(c, run)
    ensures IsRun(c, run + [TimePasses(seconds)]) && IsRun(c, run + [ServerDrops(fid)])
    ensures !Available(run + [ServerDrops(fid)], fid)
    ensures (forall e :: ServerStores(fid, e) !in run) ==> IsRun(c, run + [ServerStores(fid, d)])
  {
    Extend(c, run, TimePasses(seconds));
    Extend(c, run, ServerDrops(fid));
    assert (run + [ServerDrops(fid)])[..|run|] == run;
    var s := After(c, run);
    if fid !in s.server.stored {
      Extend(c, run, ServerStores(fid, d));
    } else {
      ServerExactly(c, run, fid, s.server.stored[fid]);
    }
  }

  /** Any answer but a false acknowledgement can come to a thread that sends. */
  lemma RepliesAreFree(c: Config, run: seq<Action>, t: nat, reply: Reply)
    requires IsRun(c, run) && Working(After(c, run), t) && After(c, run).control.workers[t].phase.Sending?
    requires !reply.Stored? && (reply.BackLogged? ==> c.backLog)
    ensures IsRun(c, run + [ServerReplies(t, reply)])
  {
    Extend(c, run, ServerReplies(t, reply));
  }

  // ---------------------------------------------------------------- threads

  /** What a thread has done with its file so far. */
  datatype Log = Log(name: Option<string>, reply: Option<Reply>, stamp: Option<string>, disposed: bool)

  const NOTHING := Log(None, None, None, false)

  /** One more step of the thread; `front` is the front of the queue before. */
  function Noted(log: Log, a: Action, t: nat, front: string): Log {
    match a
    case ThreadFetches(u) => if u == t then NOTHING.(name := Some(front)) else log
    case ServerReplies(u, reply) => if u == t then log.(reply := Some(reply)) else log
    case ThreadRenames(u, stamp) => if u == t then log.(stamp := Some(stamp)) else log
    case ThreadSaves(u) => if u == t then log.(disposed := true) else log
    case ThreadUnlinks(u) => if u == t then log.(disposed := true) else log
    case ThreadFinishes(u) => if u == t then NOTHING else log
    case ThreadFails(u) => if u == t then NOTHING else log
    case _ => log
  }

  ghost function LogOf(c: Config, run: seq<Action>, t: nat): Log
    requires IsRun(c, run)
  {
    if run == [] then NOTHING
    else
      var front := run[..|run| - 1];
      Noted(LogOf(c, front, t), run[|run| - 1], t, Front(After(c, front).control.queue))
  }

  /** The phase a thread is in says what it has done. */
  predicate Describes(c: Config, log: Log, w: Worker) {
    && log.name == Some(w.name)
    && match w.phase
       case Sending => log.reply == None && log.stamp == None && !log.disposed
       case Replied(reply) => log.reply == Some(reply) && log.stamp == None && !log.disposed
       case Renamed(reply, bad, stamp) =>
         && log.reply == Some(reply) && log.stamp == Some(stamp) && !log.disposed
         && bad == reply.BadFile? && Moves(c, reply)
       case Finishing =>
         log.reply.Some? && log.disposed &&
         if log.stamp.Some? then Moves(c, log.reply.value) else log.reply.value.Stored? && c.immediate
  }

  predicate LogFits(c: Config, log: Log, s: State, t: nat) {
    if Working(s, t) then Describes(c, log, s.control.workers[t]) else log == NOTHING
  }

  lemma NotedFits(c: Config, log: Log, s: State, a: Action, t: nat)
    requires Enabled(c, s, a) && LogFits(c, log, s, t)
    ensures LogFits(c, Noted(log, a, t, Front(s.control.queue)), Step(c, s, a), t)
  {}

  lemma {:induction false} ThreadExactly(c: Config, run: seq<Action>, t: nat)
    requires IsRun(c, run)
    ensures LogFits(c, LogOf(c, run, t), After(c, run), t)
  {
    if run != [] {
      var front := run[..|run| - 1];
      ThreadExactly(c, front, t);
      NotedFits(c, LogOf(c, front, t), After(c, front), run[|run| - 1], t);
    }
  }

  /** A thread ends with a file in order only after an error that leaves it where
      it is, or after disposing of it as the reply demands. */
  lemma FinishedInOrder(c: Config, run: seq<Action>, t: nat)
    requires IsRun(c, run) && Enabled(c, After(c, run), ThreadFinishes(t))
    ensures var log := LogOf(c, run, t);
      && log.reply.Some?
      && if log.reply.value.OtherError? then !log.disposed
         else log.disposed && (log.stamp.Some? <==> Moves(c, log.reply.value))
  {
    ThreadExactly(c, run, t);
  }

  /** The names left behind are those of the threads that failed. */
  ghost predicate FailedWith(c: Config, run: seq<Action>, i: nat, n: string) {
    i < |run| && IsRun(c, run[..i]) && run[i].ThreadFails? && LogOf(c, run[..i], run[i].t).name == Some(n)
  }

  lemma LeakedStep(c: Config, s: State, a: Action, n: string)
    requires Enabled(c, s, a)
    ensures n in Step(c, s, a).control.leaked <==>
      n in s.control.leaked || (a.ThreadFails? && s.control.workers[a.t].name == n)
  {}

  lemma FailedAt(c: Config, run: seq<Action>, i: nat, n: string)
    requires IsRun(c, run) && i < |run|
    ensures var front, a := run[..|run| - 1], run[|run| - 1];
      FailedWith(c, run, i, n) <==>
        if i < |front| then FailedWith(c, front, i, n) else a.ThreadFails? && LogOf(c, front, a.t).name == Some(n)
  {
    assert i < |run| - 1 ==> run[..|run| - 1][..i] == run[..i];
  }

  lemma FailedOneMore(c: Config, run: seq<Action>, n: string)
    requires IsRun(c, run) && run != []
    ensures var front, a := run[..|run| - 1], run[|run| - 1];
      (exists i: nat :: FailedWith(c, run, i, n)) <==>
        (exists i: nat :: FailedWith(c, front, i, n)) || (a.ThreadFails? && LogOf(c, front, a.t).name == Some(n))
  {
    var front := run[..|run| - 1];
    FailedAt(c, run, |run| - 1, n);
    if i: nat :| FailedWith(c, run, i, n) {
      FailedAt(c, run, i, n);
    }
    if i: nat :| FailedWith(c, front, i, n) {
      FailedAt(c, run, i, n);
    }
  }

  lemma {:induction false} LeakedExactly(c: Config, run: seq<Action>, n: string)
    requires IsRun(c, run)
    ensures n in After(c, run).control.leaked <==> exists i: nat :: FailedWith(c, run, i, n)
  {
    if run != [] {
      var front, a := run[..|run| - 1], run[|run| - 1];
      LeakedExactly(c, front, n);
      LeakedStep(c, After(c, front), a, n);
      FailedOneMore(c, run, n);
      if a.ThreadFails? {
        ThreadExactly(c, front, a.t);
      }
    }
  }

  // ---------------------------------------------------------------- directories

  /** The i-th step: thread t renames the file it has sent. */
  ghost predicate RenamedAt(c: Config, run: seq<Action>, i: nat, t: nat, n: string, stamp: string, reply: Reply) {
    && i < |run| && run[i] == ThreadRenames(t, stamp) && IsRun(c, run[..i])
    && LogOf(c, run[..i], t) == Log(Some(n), Some(reply), None, false) && Moves(c, reply)
  }

  /** The i-th step: it saves the document beside it. */
  ghost predicate SavedAt(c: Config, run: seq<Action>, i: nat, t: nat, n: string, stamp: string, reply: Reply) {
    && i < |run| && run[i] == ThreadSaves(t) && IsRun(c, run[..i])
    && LogOf(c, run[..i], t) == Log(Some(n), Some(reply), Some(stamp), false) && Moves(c, reply)
  }

  function IdsOf(reply: Reply): Option<nat> {
    if reply.Stored? then Some(reply.fid) else None
  }

  /** Where an entry of the archived or the bad directory comes from. */
  ghost predicate HasSource(c: Config, run: seq<Action>, bad: bool, file: string, content: Content) {
    match content
    case Moved(n, stamp, e) =>
      && file == stamp + "___" + n && ProducerAdds(n, e) in run
      && ((bad && MonitorMovesLink(n, stamp) in run) ||
          exists i: nat, t: nat, reply: Reply :: RenamedAt(c, run, i, t, n, stamp, reply) && bad == reply.BadFile?)
    case Status(n, stamp, ids, written) =>
      && file == stamp + "___" + n + "___STATUS.xml"
      && exists i: nat, t: nat, reply: Reply ::
           SavedAt(c, run, i, t, n, stamp, reply) && bad == reply.BadFile? && ids == IdsOf(reply)
           && written == Elapsed(run[..i])
  }

  lemma RenamedStays(
    c: Config, run: seq<Action>, a: Action, i: nat, t: nat, n: string, stamp: string, reply: Reply)
    requires RenamedAt(c, run, i, t, n, stamp, reply)
    ensures RenamedAt(c, run + [a], i, t, n, stamp, reply)
  {
    assert (run + [a])[..i] == run[..i];
  }

  lemma SavedStays(
    c: Config, run: seq<Action>, a: Action, i: nat, t: nat, n: string, stamp: string, reply: Reply)
    requires SavedAt(c, run, i, t, n, stamp, reply)
    ensures SavedAt(c, run + [a], i, t, n, stamp, reply) && (run + [a])[..i] == run[..i]
  {
    assert (run + [a])[..i] == run[..i];
  }

  lemma SourceStays(c: Config, run: seq<Action>, a: Action, bad: bool, file: string, content: Content)
    requires HasSource(c, run, bad, file, content)
    ensures HasSource(c, run + [a], bad, file, content)
  {
    match content {
      case Moved(n, stamp, e) =>
        if i: nat, t: nat, reply: Reply :| RenamedAt(c, run, i, t, n, stamp, reply) && bad == reply.BadFile? {
          RenamedStays(c, run, a, i, t, n, stamp, reply);
        }
      case Status(n, stamp, ids, written) =>
        var i: nat, t: nat, reply: Reply :|
          SavedAt(c, run, i, t, n, stamp, reply) && bad == reply.BadFile? && ids == IdsOf(reply)
          && written == Elapsed(run[..i]);
        SavedStays(c, run, a, i, t, n, stamp, reply);
    }
  }

  function Dir(f: Files, bad: bool): map<string, Content> {
    if bad then f.badDir else f.archivedDir
  }

  /** A step that puts something into one of the two directories. */
  lemma NewSource(c: Config, run: seq<Action>, a: Action, bad: bool, file: string)
    requires IsRun(c, run) && Enabled(c, After(c, run), a)
    requires var before, after := Dir(After(c, run).files, bad), Dir(Step(c, After(c, run), a).files, bad);
      file in after && (file !in before || before[file] != after[file])
    ensures HasSource(c, run + [a], bad, file, Dir(Step(c, After(c, run), a).files, bad)[file])
  {
    var more, s := run + [a], After(c, run);
    assert more[..|run|] == run && more[|run|] == a;
    TimeExactly(c, run);
    if a.MonitorMovesLink? {
      ProducedExactly(c, run, a.name, s.files.queueDir[a.name]);
    } else {
      ThreadExactly(c, run, a.t);
      var w := s.control.workers[a.t];
      if a.ThreadRenames? {
        assert RenamedAt(c, more, |run|, a.t, w.name, a.stamp, w.phase.reply);
        ProducedExactly(c, run, w.name, s.files.queueDir[w.name]);
      } else {
        assert SavedAt(c, more, |run|, a.t, w.name, w.phase.stamp, w.phase.reply);
      }
    }
  }

  /** Every entry of the two directories was put there by a step: a file by a
      rename after a reply that demands it, with the data it was added with; a
      document by the thread that had renamed the file, with the identifiers of
      the reply and the time of that step. */
  lemma {:induction false} SourcesExactly(c: Config, run: seq<Action>, bad: bool, file: string)
    requires IsRun(c, run) && file in Dir(After(c, run).files, bad)
    ensures HasSource(c, run, bad, file, Dir(After(c, run).files, bad)[file])
  {
    var front, a := run[..|run| - 1], run[|run| - 1];
    var before, after := Dir(After(c, front).files, bad), Dir(After(c, run).files, bad);
    assert run == front + [a];
    if file in before && before[file] == after[file] {
      SourcesExactly(c, front, bad, file);
      SourceStays(c, front, a, bad, file, before[file]);
    } else {
      NewSource(c, front, a, bad, file);
    }
  }

  /** What can make a file leave the queue directory, and where it is then. */
  lemma LeavesQueue(c: Config, run: seq<Action>, a: Action, n: string)
    requires IsRun(c, run) && Enabled(c, After(c, run), a)
    requires n in After(c, run).files.queueDir && n !in Step(c, After(c, run), a).files.queueDir
    ensures var s, r := After(c, run), Step(c, After(c, run), a);
      if a.MonitorMovesLink? then
        && a.name == n && s.files.queueDir[n].kind.Link? && (a.stamp + "___" + n) in r.files.badDir
        && r.files.badDir[a.stamp + "___" + n] == Moved(n, a.stamp, s.files.queueDir[n])
      else
        && (a.ThreadRenames? || a.ThreadUnlinks?)
        && LogOf(c, run, a.t).name.Some? && LogOf(c, run, a.t).reply.Some?
        && var name, reply := LogOf(c, run, a.t).name.value, LogOf(c, run, a.t).reply.value;
           if a.ThreadUnlinks? then reply.Stored? && c.immediate && (name == n || n == ".REMOVED_" + name)
           else
             && name == n && Moves(c, reply)
             && var dir := if reply.BadFile? then r.files.badDir else r.files.archivedDir;
                (a.stamp + "___" + n) in dir && dir[a.stamp + "___" + n] == Moved(n, a.stamp, s.files.queueDir[n])
  {
    if a.ThreadRenames? || a.ThreadUnlinks? {
      ThreadExactly(c, run, a.t);
    }
  }

  /** Nothing leaves the bad directory, and the archived one only by clean-up. */
  lemma LeavesArchive(c: Config, s: State, a: Action, file: string)
    requires Enabled(c, s, a)
    ensures file in s.files.badDir ==> file in Step(c, s, a).files.badDir
    ensures file in s.files.archivedDir && file !in Step(c, s, a).files.archivedDir ==>
      && a.CleanerRemoves? && s.cleaner.Removing?
      && (file == s.cleaner.file || file == s.cleaner.file + "___STATUS.xml")
  {}

  // ---------------------------------------------------------------- scans

  /** The last scan that was opened. */
  predicate OpenedAt(run: seq<Action>, o: nat) {
    o < |run| && run[o].MonitorOpens? && forall i :: o < i < |run| ==> !run[i].MonitorOpens?
  }

  /** The scan opened at o has come to the name n. */
  predicate CameTo(run: seq<Action>, o: nat, n: string) {
    exists i :: o < i < |run| && ComesTo(run[i], n)
  }

  predicate ComesTo(a: Action, n: string) {
    (a.MonitorReads? && a.name == n) || (a.MonitorMovesLink? && a.name == n)
  }

  lemma CameOneMore(run: seq<Action>, o: nat, n: string)
    requires o < |run| - 1
    ensures CameTo(run, o, n) <==> CameTo(run[..|run| - 1], o, n) || ComesTo(run[|run| - 1], n)
  {
    var front := run[..|run| - 1];
    if i :| o < i < |front| && ComesTo(front[i], n) {
      assert run[i] == front[i];
    }
    if i :| o < i < |run| && ComesTo(run[i], n) {
      assert i < |front| ==> front[i] == run[i];
    }
  }

  /** One step of an open scan. */
  lemma PastStep(c: Config, s: State, a: Action, n: string)
    requires Enabled(c, s, a) && !a.MonitorOpens? && !Step(c, s, a).monitor.Idle?
    ensures !s.monitor.Idle? && Step(c, s, a).monitor.scan.present == s.monitor.scan.present
    ensures n in Step(c, s, a).monitor.scan.past <==> n in s.monitor.scan.past || ComesTo(a, n)
  {}

  /** The names a scan will not come to are those that were gone when it was opened
      and those it has come to. */
  lemma {:induction false} PastExactly(c: Config, run: seq<Action>, o: nat, n: string)
    requires IsRun(c, run) && OpenedAt(run, o) && !After(c, run).monitor.Idle?
    ensures IsRun(c, run[..o])
    ensures var was, scan := After(c, run[..o]).files, After(c, run).monitor.scan;
      && (n in scan.present <==> n in was.queueDir)
      && (n in scan.past <==> HasLeft(was, n) || CameTo(run, o, n))
  {
    var front, a := run[..|run| - 1], run[|run| - 1];
    PrefixRuns(c, run, o);
    if o == |front| {
      assert run[..o] == front;
    } else {
      assert front[..o] == run[..o] && OpenedAt(front, o);
      PastExactly(c, front, o, n);
      PastStep(c, After(c, front), a, n);
      CameOneMore(run, o, n);
    }
  }

  /** A scan that is closed has read every visible name that was in the queue
      directory from its beginning to its end. */
  lemma ScanReadsAll(c: Config, run: seq<Action>, o: nat, n: string)
    requires IsRun(c, run) && OpenedAt(run, o) && Enabled(c, After(c, run), MonitorCloses)
    requires IsRun(c, run[..o]) && n in After(c, run[..o]).files.queueDir && n in After(c, run).files.queueDir
    requires n != "" && n[0] != '.'
    ensures exists i :: o < i < |run| && run[i] == MonitorReads(n)
  {
    PastExactly(c, run, o, n);
    var i :| o < i < |run| && ComesTo(run[i], n);
    if run[i].MonitorMovesLink? {
      LinkGone(c, run, i);
    }
  }

  lemma {:induction false} LinkGone(c: Config, run: seq<Action>, i: nat)
    requires IsRun(c, run) && i < |run| && run[i].MonitorMovesLink?
    ensures HasLeft(After(c, run).files, run[i].name)
  {
    var front, a := run[..|run| - 1], run[|run| - 1];
    StaysApart(c, front);
    if i < |front| {
      LinkGone(c, front, i);
      StaysAway(c, After(c, front), a, run[i].name);
    }
  }

  /** A scan comes to no name twice. */
  lemma ReadOnce(c: Config, run: seq<Action>, o: nat, a: Action, n: string)
    requires IsRun(c, run) && OpenedAt(run, o) && Enabled(c, After(c, run), a) && ComesTo(a, n)
    ensures !CameTo(run, o, n)
  {
    PastExactly(c, run, o, n);
  }

  predicate Reached(s: State, n: string) {
    Busy(s.control.queue, n) || ((s.monitor.Saw? || s.monitor.NotBusy?) && s.monitor.name == n)
  }

  lemma StepReaches(c: Config, s: State, a: Action, n: string)
    requires Enabled(c, s, a) && Reached(Step(c, s, a), n)
    ensures Reached(s, n) || a == MonitorReads(n)
  {
    if a.ThreadFetches? {
      assert s.control.queue.pending[0] in s.control.queue.pending;
    }
  }

  /** Only names a scan has read are queued and handed to threads. */
  lemma {:induction false} QueuedWasRead(c: Config, run: seq<Action>, n: string)
    requires IsRun(c, run) && Reached(After(c, run), n)
    ensures MonitorReads(n) in run
  {
    if run != [] {
      var front := run[..|run| - 1];
      StepReaches(c, After(c, front), run[|run| - 1], n);
      if Reached(After(c, front), n) {
        QueuedWasRead(c, front, n);
      }
    }
  }

  // ---------------------------------------------------------------- clean-up

  predicate IsCleanerStep(a: Action) {
    a.CleanerOpens? || a.CleanerLoads? || a.CleanerHears? || a.CleanerRemoves? || a.CleanerCloses?
  }

  ghost predicate HasDoc(s: State, file: string) {
    StatusFile(file) in s.files.archivedDir && s.files.archivedDir[StatusFile(file)].Status?
  }

  /** What the buffers for the identifiers hold: what they held when the scan was
      opened, or those of the last document that had some. */
  ghost function Buffers(c: Config, run: seq<Action>): Option<nat>
    requires IsRun(c, run)
  {
    if run == [] then None
    else
      var front := run[..|run| - 1];
      match run[|run| - 1]
      case CleanerOpens(garbage) => garbage
      case CleanerLoads(file) =>
        var s := After(c, front);
        if HasDoc(s, file) && s.files.archivedDir[StatusFile(file)].ids.Some?
        then s.files.archivedDir[StatusFile(file)].ids else Buffers(c, front)
      case _ => Buffers(c, front)
  }

  /** The i-th step: the clean-up loads the document of a file whose time has come,
      and the buffers hold these identifiers then. */
  ghost predicate LoadedAt(c: Config, run: seq<Action>, i: nat, file: string, fid: nat) {
    && i < |run| && run[i] == CleanerLoads(file) && IsRun(c, run[..i]) && IsRun(c, run[..i + 1])
    && HasDoc(After(c, run[..i]), file)
    && After(c, run[..i]).files.archivedDir[StatusFile(file)].written + c.timeOut <= Elapsed(run[..i])
    && Buffers(c, run[..i + 1]) == Some(fid)
  }

  /** The i-th step: CHECKFILE finds the file with these identifiers, which the
      server has at that moment, and it was asked because of this file; the
      clean-up has done nothing since. */
  ghost predicate ConfirmedAt(c: Config, run: seq<Action>, i: nat, file: string, fid: nat) {
    && i < |run| && run[i] == CleanerHears(true) && IsRun(c, run[..i]) && Available(run[..i], fid)
    && (forall k :: i < k < |run| ==> !IsCleanerStep(run[k]))
    && exists j: nat :: AskedSince(c, run[..i], j, file, fid)
  }

  /** The last step of the clean-up was to load the file. */
  ghost predicate AskedSince(c: Config, run: seq<Action>, j: nat, file: string, fid: nat) {
    LoadedAt(c, run, j, file, fid) && forall k :: j < k < |run| ==> !IsCleanerStep(run[k])
  }

  /** What the clean-up thread is about to do is what it has loaded and heard. */
  ghost predicate CleanerLog(c: Config, run: seq<Action>)
    requires IsRun(c, run)
  {
    match After(c, run).cleaner
    case Resting => true
    case Scanning(carried) => carried == Buffers(c, run)
    case Asking(file, fid, _) => Buffers(c, run) == Some(fid) && exists j: nat :: AskedSince(c, run, j, file, fid)
    case Removing(file, fid, _) => Buffers(c, run) == Some(fid) && exists i: nat :: ConfirmedAt(c, run, i, file, fid)
  }

  lemma AskedStays(c: Config, run: seq<Action>, a: Action, j: nat, file: string, fid: nat)
    requires AskedSince(c, run, j, file, fid) && !IsCleanerStep(a)
    ensures AskedSince(c, run + [a], j, file, fid)
  {
    assert (run + [a])[..j] == run[..j] && (run + [a])[..j + 1] == run[..j + 1];
  }

  lemma ConfirmedStays(c: Config, run: seq<Action>, a: Action, i: nat, file: string, fid: nat)
    requires ConfirmedAt(c, run, i, file, fid) && !IsCleanerStep(a)
    ensures ConfirmedAt(c, run + [a], i, file, fid)
  {
    assert (run + [a])[..i] == run[..i];
  }

  lemma OtherSteps(c: Config, run: seq<Action>, a: Action)
    requires IsRun(c, run) && Enabled(c, After(c, run), a) && CleanerLog(c, run) && !IsCleanerStep(a)
    ensures IsRun(c, run + [a]) && CleanerLog(c, run + [a])
  {
    Extend(c, run, a);
    assert (run + [a])[..|run|] == run;
    match After(c, run).cleaner {
      case Asking(file, fid, _) =>
        var j: nat :| AskedSince(c, run, j, file, fid);
        AskedStays(c, run, a, j, file, fid);
      case Removing(file, fid, _) =>
        var i: nat :| ConfirmedAt(c, run, i, file, fid);
        ConfirmedStays(c, run, a, i, file, fid);
      case _ =>
    }
  }

  lemma LoadStep(c: Config, run: seq<Action>, file: string)
    requires IsRun(c, run) && Enabled(c, After(c, run), CleanerLoads(file)) && CleanerLog(c, run)
    ensures IsRun(c, run + [CleanerLoads(file)]) && CleanerLog(c, run + [CleanerLoads(file)])
  {
    var more := run + [CleanerLoads(file)];
    Extend(c, run, CleanerLoads(file));
    assert more[..|run|] == run && more[..|run| + 1] == more;
    TimeExactly(c, run);
    if After(c, more).cleaner.Asking? {
      assert AskedSince(c, more, |run|, file, After(c, more).cleaner.fid);
    }
  }

  lemma HearStep(c: Config, run: seq<Action>, ok: bool)
    requires IsRun(c, run) && Enabled(c, After(c, run), CleanerHears(ok)) && CleanerLog(c, run)
    ensures IsRun(c, run + [CleanerHears(ok)]) && CleanerLog(c, run + [CleanerHears(ok)])
  {
    var more, k := run + [CleanerHears(ok)], After(c, run).cleaner;
    Extend(c, run, CleanerHears(ok));
    assert more[..|run|] == run;
    if ok {
      ServerExactly(c, run, k.fid, 0);
      assert ConfirmedAt(c, more, |run|, k.file, k.fid);
    }
  }

  lemma {:induction false} CleanerExactly(c: Config, run: seq<Action>)
    requires IsRun(c, run)
    ensures CleanerLog(c, run)
  {
    if run != [] {
      var front, a := run[..|run| - 1], run[|run| - 1];
      CleanerExactly(c, front);
      assert run == front + [a];
      if a.CleanerLoads? {
        LoadStep(c, front, a.file);
      } else if a.CleanerHears? {
        HearStep(c, front, a.ok);
      } else if !IsCleanerStep(a) {
        OtherSteps(c, front, a);
      }
    }
  }

  /** An archived file is removed only when CHECKFILE has found, since its document
      was loaded and after its time-out, the identifiers the buffers held. */
  lemma RemovedWhenConfirmed(c: Config, run: seq<Action>, a: Action, file: string)
    requires IsRun(c, run) && Enabled(c, After(c, run), a)
    requires file in After(c, run).files.archivedDir && file !in Step(c, After(c, run), a).files.archivedDir
    ensures a.CleanerRemoves?
    ensures exists removed: string, fid: nat, i: nat ::
      (file == removed || file == removed + "___STATUS.xml") && ConfirmedAt(c, run, i, removed, fid)
  {
    CleanerExactly(c, run);
    LeavesArchive(c, After(c, run), a, file);
  }

  /** The j-th step: a thread removes the file n, with the entry e, which is still
      there; the server has acknowledged it to this thread, and stored its data. */
  ghost predicate UnlinkedAt(c: Config, run: seq<Action>, j: nat, n: string, e: Entry, t: nat, fid: nat) {
    && j < |run| && run[j] == ThreadUnlinks(t) && c.immediate && IsRun(c, run[..j])
    && n in After(c, run[..j]).files.queueDir && After(c, run[..j]).files.queueDir[n] == e
    && LogOf(c, run[..j], t) == Log(Some(n), Some(Stored(fid)), None, false)
    && ServerStores(fid, e.data) in run[..j]
  }

  /** The j-th step: the clean-up removes the archived file n, with the entry e,
      after CHECKFILE has found a file with its data. */
  ghost predicate CleanedUpAt(c: Config, run: seq<Action>, j: nat, n: string, e: Entry, stamp: string, fid: nat) {
    && j < |run| && run[j] == CleanerRemoves && IsRun(c, run[..j])
    && IsIn(After(c, run[..j]).files, false, n, stamp, e)
    && After(c, run[..j]).cleaner.Removing? && After(c, run[..j]).cleaner.file == stamp + "___" + n
    && (exists i: nat :: ConfirmedAt(c, run[..j], i, stamp + "___" + n, fid))
    && ServerStores(fid, e.data) in run[..j]
  }

  ghost predicate IsIn(f: Files, bad: bool, n: string, stamp: string, e: Entry) {
    (stamp + "___" + n) in Dir(f, bad) && Dir(f, bad)[stamp + "___" + n] == Moved(n, stamp, e)
  }

  /** The file is in one of the three directories with its data, or a step has
      removed it for one of the two good reasons. */
  ghost predicate Kept(c: Config, run: seq<Action>, n: string, e: Entry)
    requires IsRun(c, run)
  {
    var f := After(c, run).files;
    || (n in f.queueDir && f.queueDir[n] == e)
    || (exists stamp, bad :: IsIn(f, bad, n, stamp, e))
    || (exists j: nat, t: nat, fid: nat :: UnlinkedAt(c, run, j, n, e, t, fid))
    || (exists j: nat, stamp, fid: nat :: CleanedUpAt(c, run, j, n, e, stamp, fid))
  }

  ghost predicate KeepsAll(c: Config, run: seq<Action>)
    requires IsRun(c, run)
  {
    forall n, e :: ProducerAdds(n, e) in run ==> Kept(c, run, n, e)
  }

  predicate Deletes(s: State, a: Action, n: string) {
    || (a.CleanerRemoves? && s.cleaner.Removing? && s.cleaner.file in s.files.archivedDir
        && s.files.archivedDir[s.cleaner.file].name == n)
    || (a.ThreadUnlinks? && Working(s, a.t) && s.control.workers[a.t].name == n && n in s.files.queueDir)
  }

  lemma DeletedNow(c: Config, s: State, a: Action, n: string)
    requires Enabled(c, s, a)
    requires n in Step(c, s, a).files.place && Step(c, s, a).files.place[n].Deleted?
    ensures (n in s.files.place && s.files.place[n].Deleted?) || Deletes(s, a, n)
  {}

  /** The step that deleted a file. */
  lemma {:induction false} DeletedSince(c: Config, run: seq<Action>, n: string) returns (j: nat)
    requires IsRun(c, run) && n in After(c, run).files.place && After(c, run).files.place[n].Deleted?
    ensures j < |run| && IsRun(c, run[..j])
    ensures Enabled(c, After(c, run[..j]), run[j]) && Deletes(After(c, run[..j]), run[j], n)
  {
    var front, a := run[..|run| - 1], run[|run| - 1];
    var f := After(c, front).files;
    DeletedNow(c, After(c, front), a, n);
    if n in f.place && f.place[n].Deleted? {
      j := DeletedSince(c, front, n);
      assert front[..j] == run[..j];
    } else {
      j := |front|;
    }
  }

  predicate HasLeft(f: Files, n: string) {
    n in f.produced && n !in f.queueDir
  }

  /** A moved file was added, and has left the queue directory for good. */
  ghost predicate Apart(f: Files) {
    && (forall n :: n in f.queueDir ==> n in f.produced)
    && (forall file :: file in f.archivedDir && f.archivedDir[file].Moved? ==> HasLeft(f, f.archivedDir[file].name))
  }

  lemma StaysAway(c: Config, s: State, a: Action, n: string)
    requires Enabled(c, s, a) && HasLeft(s.files, n)
    ensures HasLeft(Step(c, s, a).files, n)
  {}

  lemma StepApart(c: Config, s: State, a: Action)
    requires Enabled(c, s, a) && Apart(s.files)
    ensures Apart(Step(c, s, a).files)
  {
    var f, g := s.files, Step(c, s, a).files;
    ProducedStep(c, s, a);
    forall file | file in g.archivedDir && g.archivedDir[file].Moved?
      ensures HasLeft(g, g.archivedDir[file].name)
    {
      if file in f.archivedDir && f.archivedDir[file] == g.archivedDir[file] {
        StaysAway(c, s, a, f.archivedDir[file].name);
      } else {
        assert a.ThreadRenames?;
      }
    }
  }

  lemma {:induction false} StaysApart(c: Config, run: seq<Action>)
    requires IsRun(c, run)
    ensures Apart(After(c, run).files)
  {
    if run != [] {
      StaysApart(c, run[..|run| - 1]);
      StepApart(c, After(c, run[..|run| - 1]), run[|run| - 1]);
    }
  }

  predicate IsGone(f: Files, n: string) {
    HasLeft(f, n) && n in f.place && f.place[n].Deleted?
  }

  lemma StaysGone(c: Config, s: State, a: Action, n: string)
    requires Enabled(c, s, a) && Apart(s.files) && (IsGone(s.files, n) || Deletes(s, a, n))
    ensures IsGone(Step(c, s, a).files, n)
  {}

  lemma {:induction false} Removed(c: Config, run: seq<Action>, j: nat, n: string)
    requires IsRun(c, run) && j < |run| && IsRun(c, run[..j]) && Deletes(After(c, run[..j]), run[j], n)
    ensures IsGone(After(c, run).files, n)
  {
    var front, a := run[..|run| - 1], run[|run| - 1];
    StaysApart(c, front);
    if j == |front| {
      assert run[..j] == front;
    } else {
      assert front[..j] == run[..j];
      Removed(c, front, j, n);
    }
    StaysGone(c, After(c, front), a, n);
  }

  /** A file that is neither in the queue directory nor as it was in the others, and
      not removed or with no copy on the server, is not kept. */
  lemma NotKept(c: Config, run: seq<Action>, n: string, e: Entry)
    requires IsRun(c, run)
    requires var f := After(c, run).files;
      && n !in f.queueDir && (forall stamp, bad :: !IsIn(f, bad, n, stamp, e))
      && n in f.place
    requires !After(c, run).files.place[n].Deleted? || forall fid: nat :: ServerStores(fid, e.data) !in run
    ensures !Kept(c, run, n, e)
  {
    forall j: nat, t: nat, fid: nat | UnlinkedAt(c, run, j, n, e, t, fid) ensures false {
      assert ServerStores(fid, e.data) in run;
      ThreadExactly(c, run[..j], t);
      EnabledAt(c, run, j);
      Removed(c, run, j, n);
    }
    forall j: nat, stamp, fid: nat | CleanedUpAt(c, run, j, n, e, stamp, fid) ensures false {
      assert ServerStores(fid, e.data) in run;
      EnabledAt(c, run, j);
      Removed(c, run, j, n);
    }
  }

  /** After a negative answer no archived file is removed before another one is
      loaded. */
  lemma {:induction false} NegativeKeeps(c: Config, run: seq<Action>, i: nat, file: string)
    requires IsRun(c, run) && i < |run| && run[i] == CleanerHears(false) && IsRun(c, run[..i])
    requires forall j :: i < j < |run| ==> !run[j].CleanerLoads?
    requires file in After(c, run[..i]).files.archivedDir
    ensures file in After(c, run).files.archivedDir
    ensures !After(c, run).cleaner.Asking? && !After(c, run).cleaner.Removing?
  {
    var front, a := run[..|run| - 1], run[|run| - 1];
    if i == |front| {
      assert run[..i] == front;
    } else {
      assert front[..i] == run[..i];
      NegativeKeeps(c, front, i, file);
    }
    LeavesArchive(c, After(c, front), a, file);
  }
}
