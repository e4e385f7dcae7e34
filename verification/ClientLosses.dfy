/** Exactly when the archive client keeps all data.  Each way to lose a file is
    a run that loses it. */
module ClientLosses {
  import opened ArchiveQueue
  import opened ArchiveClient
  import opened ClientHistory
  import opened ClientNoLoss
  import opened Options

  const STAMP := "2013-02-18T08:18:52.000"
  const LATER := "2013-02-18T08:18:52.100"

  lemma TwoStamps()
    ensures IsStamp(STAMP) && IsStamp(LATER) && STAMP != LATER
  {
    assert STAMP[20] != LATER[20];
  }

  lemma Then(c: Config, run: seq<Action>, a: Action) returns (more: seq<Action>)
    requires IsRun(c, run) && Enabled(c, After(c, run), a)
    ensures run <= more && IsRun(c, more) && After(c, more) == Step(c, After(c, run), a)
  {
    Extend(c, run, a);
    more := run + [a];
  }

  /** A scan is under way and nobody is busy. */
  ghost predicate Quiet(s: State) {
    s.monitor.Listing? && s.control.workers == map[] && s.control.queue == EMPTY
  }

  // ---------------------------------------------------------------- one file

  /** The scan comes to a file and queues it. */
  lemma Enqueue(c: Config, run: seq<Action>, n: string) returns (more: seq<Action>)
    requires IsRun(c, run) && 1 <= c.capacity && After(c, run).monitor.Listing?
    requires Sendable(After(c, run).files.produced, n) && n !in After(c, run).monitor.scan.past
    requires After(c, run).control.queue.pending == [] && n !in After(c, run).control.queue.processing
    ensures run <= more && IsRun(c, more)
    ensures var s := After(c, run);
      After(c, more) == s.(monitor := Listing(Passed(s.monitor.scan, n)),
                           control := s.control.(queue := s.control.queue.(pending := [n],
                                                                           count := s.control.queue.count + 1)))
  {
    more := Then(c, run, MonitorReads(n));
    more := Then(c, more, MonitorChecks);
    more := Then(c, more, MonitorPuts);
    assert [] + [n] == [n];
  }

  ghost predicate Sent(s: State, r: State, t: nat, n: string, reply: Reply)
    requires s.monitor.Listing?
  {
    r == s.(monitor := Listing(Passed(s.monitor.scan, n)),
            control := s.control.(
              queue := Queue([], s.control.queue.processing + {n}, s.control.queue.count + 1),
              workers := s.control.workers[t := Worker(n, Replied(reply))]))
  }

  /** The way of a file from the queue directory to the server and back. */
  lemma Send(c: Config, run: seq<Action>, t: nat, n: string, reply: Reply) returns (more: seq<Action>)
    requires IsRun(c, run) && 1 <= c.capacity && After(c, run).monitor.Listing?
    requires t < c.streams && !Working(After(c, run), t)
    requires Sendable(After(c, run).files.produced, n) && n !in After(c, run).monitor.scan.past
    requires After(c, run).control.queue.pending == [] && n !in After(c, run).control.queue.processing
    requires Honest(After(c, run), n, reply) && (reply.BackLogged? ==> c.backLog)
    ensures run <= more && IsRun(c, more) && Sent(After(c, run), After(c, more), t, n, reply)
  {
    var workers := After(c, run).control.workers;
    var sent := workers[t := Worker(n, Sending)];
    more := Enqueue(c, run, n);
    more := Then(c, more, ThreadFetches(t));
    more := Then(c, more, ServerReplies(t, reply));
    assert sent[t := Worker(n, Replied(reply))] == workers[t := Worker(n, Replied(reply))];
  }

  ghost predicate RenamedOnly(s: State, r: State, t: nat, n: string, reply: Reply, stamp: string)
    requires n in s.files.queueDir && s.monitor.Listing?
  {
    && r == s.(files := r.files, control := r.control, stamps := r.stamps, monitor := r.monitor)
    && r.monitor == Listing(Passed(s.monitor.scan, n))
    && r.files == Rename(s.files, n, reply.BadFile?, stamp) && r.stamps == s.stamps + {(t, stamp)}
    && r.control.queue == Queue([], {n}, 1)
    && r.control.workers == map[t := Worker(n, Renamed(reply, reply.BadFile?, stamp))]
  }

  lemma RenameFirst(c: Config, s: State, q: State, t: nat, n: string, reply: Reply, stamp: string) returns (r: State)
    requires Quiet(s) && Sent(s, q, t, n, reply) && n in s.files.queueDir && Moves(c, reply)
    requires IsStamp(stamp) && (t, stamp) !in s.stamps
    ensures Enabled(c, q, ThreadRenames(t, stamp)) && r == Step(c, q, ThreadRenames(t, stamp))
    ensures RenamedOnly(s, r, t, n, reply, stamp)
  {
    assert q.control.workers[t] == Worker(n, Replied(reply));
    r := Step(c, q, ThreadRenames(t, stamp));
    assert r.control.workers == map[t := Worker(n, Renamed(reply, reply.BadFile?, stamp))];
    assert {} + {n} == {n};
  }

  ghost predicate Archived(s: State, r: State, t: nat, n: string, reply: Reply, stamp: string)
    requires n in s.files.queueDir && s.monitor.Listing?
  {
    && Quiet(r) && r == s.(files := r.files, control := r.control, stamps := r.stamps, monitor := r.monitor)
    && r.monitor == Listing(Passed(s.monitor.scan, n))
    && r.stamps == s.stamps + {(t, stamp)}
    && r.files == SaveStatus(Rename(s.files, n, reply.BadFile?, stamp),
                             Worker(n, Renamed(reply, reply.BadFile?, stamp)), s.now)
  }

  lemma SaveNext(c: Config, s: State, q: State, t: nat, n: string, reply: Reply, stamp: string)
    requires n in s.files.queueDir && s.monitor.Listing? && RenamedOnly(s, q, t, n, reply, stamp)
    ensures Enabled(c, q, ThreadSaves(t))
    ensures Enabled(c, Step(c, q, ThreadSaves(t)), ThreadFinishes(t))
    ensures Archived(s, Step(c, Step(c, q, ThreadSaves(t)), ThreadFinishes(t)), t, n, reply, stamp)
  {
    var r := Step(c, q, ThreadSaves(t));
    assert r.control.workers[t] == Worker(n, Finishing);
    var e := Step(c, r, ThreadFinishes(t));
    assert e.control.workers == map[] && e.control.queue == EMPTY;
  }

  /** The whole way of a file that the client moves. */
  lemma Archive(c: Config, run: seq<Action>, t: nat, n: string, reply: Reply, stamp: string)
    returns (more: seq<Action>)
    requires IsRun(c, run) && Quiet(After(c, run)) && t < c.streams && 1 <= c.capacity
    requires Sendable(After(c, run).files.produced, n) && n in After(c, run).files.queueDir
    requires n !in After(c, run).monitor.scan.past
    requires Honest(After(c, run), n, reply) && (reply.BackLogged? ==> c.backLog) && Moves(c, reply)
    requires IsStamp(stamp) && (t, stamp) !in After(c, run).stamps
    ensures IsRun(c, more) && Archived(After(c, run), After(c, more), t, n, reply, stamp)
  {
    more := Send(c, run, t, n, reply);
    var r := RenameFirst(c, After(c, run), After(c, more), t, n, reply, stamp);
    SaveNext(c, After(c, run), r, t, n, reply, stamp);
    more := Then(c, more, ThreadRenames(t, stamp));
    more := Then(c, more, ThreadSaves(t));
    more := Then(c, more, ThreadFinishes(t));
  }

  function Start(f: Files): State {
    INIT.(files := f, monitor := Listing(Scan(f.queueDir.Keys, {})))
  }

  /** Two files are there when the first scan begins. */
  lemma ProduceTwo(c: Config, n: string, m: string, en: Entry, em: Entry) returns (run: seq<Action>)
    requires n != m && n != "" && m != "" && 1 <= c.streams
    ensures IsRun(c, run) && After(c, run) == Start(Produce(Produce(INIT.files, n, en), m, em))
  {
    run := Then(c, [], ProducerAdds(n, en));
    run := Then(c, run, ProducerAdds(m, em));
    var f := After(c, run).files;
    assert f.produced.Keys - f.queueDir.Keys == {};
    run := Then(c, run, MonitorOpens);
  }

  // ---------------------------------------------------------------- collisions

  /** Two files of one scan are about to be given up: n by thread 0, because it is
      rejected as bad, and m by the monitor or by another thread. */
  ghost predicate AboutToGiveUp(s: State, n: string, m: string) {
    && n != m && n in s.files.queueDir && m in s.files.queueDir && !Hidden(m) && s.stamps == {}
    && s.files.badDir == map[] && s.files.archivedDir == map[]
    && s.files.place.Keys == s.files.produced.Keys == {n, m}
    && Working(s, 0) && s.control.workers[0] == Worker(n, Replied(BadFile))
    && if s.files.queueDir[m].kind.Link? then s.monitor.Listing? && m !in s.monitor.scan.past
       else Working(s, 1) && s.control.workers[1] == Worker(m, Replied(BadFile))
  }

  lemma ReadyToGiveUp(c: Config, n: string, m: string, en: Entry, em: Entry) returns (run: seq<Action>)
    requires 1 <= c.streams && 1 <= c.capacity && n != "" && m != "" && n != m && !Hidden(n) && !Hidden(m)
    requires en.kind.Regular? && (em.kind.Link? || 2 <= c.streams)
    ensures IsRun(c, run) && AboutToGiveUp(After(c, run), n, m)
    ensures After(c, run).files.produced == map[n := en, m := em]
  {
    run := ProduceTwo(c, n, m, en, em);
    run := Send(c, run, 0, n, BadFile);
    if em.kind.Regular? {
      run := Send(c, run, 1, m, BadFile);
    }
  }

  /** The two renames follow each other, then the document of n is saved. */
  lemma GiveUpBoth(c: Config, run: seq<Action>, n: string, m: string) returns (more: seq<Action>)
    requires IsRun(c, run) && AboutToGiveUp(After(c, run), n, m)
    ensures IsRun(c, more)
    ensures var f := Rename(Rename(After(c, run).files, m, true, STAMP), n, true, STAMP);
      After(c, more).files == SaveStatus(f, Worker(n, Renamed(BadFile, true, STAMP)), After(c, run).now)
  {
    TwoStamps();
    var s := After(c, run);
    if s.files.queueDir[m].kind.Link? {
      more := Then(c, run, MonitorMovesLink(m, STAMP));
    } else {
      more := Then(c, run, ThreadRenames(1, STAMP));
    }
    assert After(c, more).files == Rename(s.files, m, true, STAMP);
    assert Working(After(c, more), 0) && After(c, more).control.workers[0] == s.control.workers[0];
    more := Then(c, more, ThreadRenames(0, STAMP));
    assert After(c, more).control.workers[0] == Worker(n, Renamed(BadFile, true, STAMP));
    more := Then(c, more, ThreadSaves(0));
  }

  /** Two files of one scan, both given up in the same millisecond by different
      parties, where one is named like the status document of the other. */
  lemma StatusOverwrites(c: Config, n: string, en: Entry, em: Entry) returns (run: seq<Action>)
    requires 1 <= c.streams && 1 <= c.capacity && n != "" && !Hidden(n) && en.kind.Regular?
    requires em.kind.Link? || 2 <= c.streams
    ensures IsRun(c, run) && After(c, run).files.produced == map[n := en, n + STATUS_EXT := em]
    ensures !Kept(c, run, n + STATUS_EXT, em)
  {
    var m := n + STATUS_EXT;
    assert m[0] == n[0];
    run := ReadyToGiveUp(c, n, m, en, em);
    run := GiveUpBoth(c, run, n, m);
    StatusIsTarget(STAMP, n);
    Overwritten(c, run, m, em);
  }

  lemma Overwritten(c: Config, run: seq<Action>, m: string, em: Entry)
    requires IsRun(c, run)
    requires var f := After(c, run).files;
      && m !in f.queueDir && f.archivedDir == map[] && m in f.place && !f.place[m].Deleted?
      && Target(STAMP, m) in f.badDir && f.badDir[Target(STAMP, m)].Status?
      && forall file :: file in f.badDir ==> f.badDir[file].stamp == STAMP
    ensures !Kept(c, run, m, em)
  {
    NotKept(c, run, m, em);
  }

  /** Immediate clean-up renames an archived file over a file that has the name
      it uses for that. */
  lemma UnlinkOverwrites(c: Config, n: string, en: Entry, em: Entry) returns (run: seq<Action>)
    requires 1 <= c.streams && 1 <= c.capacity && n != "" && !Hidden(n) && en.kind.Regular? && c.immediate
    ensures IsRun(c, run) && After(c, run).files.produced == map[n := en, REMOVED_PREFIX + n := em]
    ensures !Kept(c, run, REMOVED_PREFIX + n, em)
  {
    var m := REMOVED_PREFIX + n;
    assert m[0] == '.';
    run := ProduceTwo(c, n, m, en, em);
    run := Then(c, run, ServerStores(0, en.data));
    run := Send(c, run, 0, n, Stored(0));
    run := Then(c, run, ThreadUnlinks(0));
    NotKept(c, run, m, em);
  }

  // ---------------------------------------------------------------- clean-up

  ghost predicate Cleaned(s: State, r: State, n: string, stamp: string, fid: nat) {
    && r.cleaner == Scanning(Some(fid)) && r.now == s.now
    && r.server.stored == s.server.stored && r.server.available == s.server.available
    && r.files.produced == s.files.produced && r.files.queueDir == s.files.queueDir && r.files.badDir == s.files.badDir
    && r.files.archivedDir == s.files.archivedDir - {Target(stamp, n), StatusFile(Target(stamp, n))}
    && r.files.place.Keys == s.files.place.Keys + {n}
  }

  /** The clean-up thread removes a file once CHECKFILE finds the identifiers it
      holds, be they those of the file or not. */
  lemma CleanUp(c: Config, run: seq<Action>, n: string, stamp: string, fid: nat) returns (more: seq<Action>)
    requires IsRun(c, run) && After(c, run).cleaner.Scanning? && fid in After(c, run).server.available
    requires Expired(c, After(c, run), Target(stamp, n))
    requires Identifiers(After(c, run), Target(stamp, n)) == Some(fid)
    requires After(c, run).files.archivedDir[Target(stamp, n)].name == n
    ensures IsRun(c, more) && Cleaned(After(c, run), After(c, more), n, stamp, fid)
  {
    more := Then(c, run, CleanerLoads(Target(stamp, n)));
    more := Then(c, more, CleanerHears(true));
    more := Then(c, more, CleanerRemoves);
  }

  /** A file waits in the archived directory until its time-out has passed, and
      the clean-up thread begins a scan. */
  lemma Expire(c: Config, run: seq<Action>, garbage: Option<nat>) returns (more: seq<Action>)
    requires IsRun(c, run) && After(c, run).cleaner.Resting? && (garbage.Some? ==> c.garbage)
    ensures IsRun(c, more)
    ensures After(c, more) == After(c, run).(cleaner := Scanning(garbage), now := After(c, run).now + c.timeOut)
  {
    more := Then(c, run, TimePasses(c.timeOut));
    more := Then(c, more, CleanerOpens(garbage));
  }

  /** A file that is looked at is not passed over under its new name. */
  lemma StampedLookedAt(n: string, stamp: string)
    requires IsStamp(stamp) && !PassedOver(n) && stamp != "" && stamp[0] != '.'
    ensures !Hidden(Target(stamp, n)) && !HasStatusExt(Target(stamp, n))
  {
    assert Target(stamp, n)[0] == stamp[0];
    PassedOverTarget(stamp, n);
  }

  lemma BackLogOne(c: Config, n: string, en: Entry) returns (run: seq<Action>)
    requires 1 <= c.streams && 1 <= c.capacity && n != "" && !Hidden(n) && en.kind.Regular? && c.backLog
    ensures IsRun(c, run)
    ensures var s := After(c, run); var file := Target(STAMP, n);
      && s.files.produced == map[n := en] && s.files.queueDir == map[] && s.files.badDir == map[]
      && s.files.archivedDir ==
           map[file := Moved(n, STAMP, en), StatusFile(file) := Status(n, STAMP, None, s.now)]
      && s.server.stored == map[0 := en.data + 1] && s.server.available == {0}
      && s.cleaner.Resting? && s.files.place.Keys == {n}
  {
    TwoStamps();
    run := Then(c, [], ProducerAdds(n, en));
    assert After(c, run).files.produced.Keys - After(c, run).files.queueDir.Keys == {};
    run := Then(c, run, MonitorOpens);
    run := Then(c, run, ServerStores(0, en.data + 1));
    run := Archive(c, run, 0, n, BackLogged, STAMP);
  }

  /** One back-log buffered file, one other file in the archive, and
      uninitialised buffers that happen to name the latter. */
  lemma BackLogRemoves(c: Config, n: string, en: Entry) returns (run: seq<Action>)
    requires 1 <= c.streams && 1 <= c.capacity && n != "" && c.backLog && c.garbage
    requires LookedAt(map[n := en], n)
    ensures IsRun(c, run) && After(c, run).files.produced == map[n := en]
    ensures !Kept(c, run, n, en)
  {
    run := BackLogOne(c, n, en);
    run := Expire(c, run, Some(0));
    TwoStamps();
    StampedLookedAt(n, STAMP);
    run := CleanUp(c, run, n, STAMP, 0);
    assert After(c, run).files.archivedDir == map[];
    RemovedByMistake(c, run, n, en);
  }

  ghost predicate BothInArchive(f: Files, n: string, m: string, en: Entry, em: Entry) {
    var a, b := Target(STAMP, n), Target(LATER, m);
    f.archivedDir == map[
      a := Moved(n, STAMP, en), StatusFile(a) := Status(n, STAMP, Some(0), 0),
      b := Moved(m, LATER, em), StatusFile(b) := Status(m, LATER, None, 0)]
  }

  ghost predicate BothArchived(s: State, n: string, m: string, en: Entry, em: Entry) {
    && s.files.produced == map[n := en, m := em] && s.files.place.Keys == {n, m}
    && s.files.queueDir == map[] && s.files.badDir == map[]
    && BothInArchive(s.files, n, m, en, em)
    && s.server.stored == map[0 := en.data] && s.server.available == {0} && s.cleaner.Resting? && s.now == 0
  }

  lemma ArchiveBoth(c: Config, n: string, m: string, en: Entry, em: Entry) returns (run: seq<Action>)
    requires 1 <= c.streams && 1 <= c.capacity && c.backLog && !c.immediate && n != "" && m != ""
    requires LookedAt(map[n := en, m := em], n) && LookedAt(map[n := en, m := em], m) && n != m
    ensures IsRun(c, run) && BothArchived(After(c, run), n, m, en, em)
  {
    TwoStamps();
    run := ArchiveFirst(c, n, m, en, em);
    run := Archive(c, run, 0, m, BackLogged, LATER);
  }

  lemma ArchiveFirst(c: Config, n: string, m: string, en: Entry, em: Entry) returns (run: seq<Action>)
    requires 1 <= c.streams && 1 <= c.capacity && !c.immediate && n != "" && m != "" && n != m
    requires Sendable(map[n := en, m := em], n)
    ensures IsRun(c, run) && FirstArchived(After(c, run), n, m, en, em)
  {
    TwoStamps();
    run := ProduceTwo(c, n, m, en, em);
    run := Then(c, run, ServerStores(0, en.data));
    var s := After(c, run);
    run := Archive(c, run, 0, n, Stored(0), STAMP);
    FirstShape(s, After(c, run), n, m, en, em);
  }

  ghost predicate FirstArchived(s: State, n: string, m: string, en: Entry, em: Entry) {
    var a := Target(STAMP, n);
    && Quiet(s) && s.files.produced == map[n := en, m := em] && s.files.place.Keys == {n, m}
    && s.files.queueDir == map[m := em] && s.files.badDir == map[]
    && s.files.archivedDir == map[a := Moved(n, STAMP, en), StatusFile(a) := Status(n, STAMP, Some(0), 0)]
    && s.server.stored == map[0 := en.data] && s.server.available == {0} && s.cleaner.Resting? && s.now == 0
    && s.stamps == {(0, STAMP)} && s.monitor.scan.past == {n}
  }

  lemma FirstShape(s: State, r: State, n: string, m: string, en: Entry, em: Entry)
    requires n != m && n in s.files.queueDir
    requires s == Start(Produce(Produce(INIT.files, n, en), m, em)).(server := s.server)
    requires s.server.stored == map[0 := en.data] && s.server.available == {0}
    requires Archived(s, r, 0, n, Stored(0), STAMP)
    ensures FirstArchived(r, n, m, en, em)
  {}

  /** The names in the archived directory differ. */
  lemma FourNames(n: string, m: string)
    requires n != m
    ensures var a, b := Target(STAMP, n), Target(LATER, m);
      a != b && a != StatusFile(b) && StatusFile(a) != b && StatusFile(a) != StatusFile(b)
  {
    TwoStamps();
    StatusIsTarget(STAMP, n);
    StatusIsTarget(LATER, m);
    forall x, y | Target(STAMP, x) == Target(LATER, y) ensures false {
      TargetInjective(STAMP, x, LATER, y);
    }
  }

  ghost predicate FirstCleaned(c: Config, s: State, n: string, m: string, en: Entry, em: Entry) {
    var b := Target(LATER, m);
    && s.files.produced == map[n := en, m := em] && s.files.place.Keys == {n, m}
    && s.files.queueDir == map[] && s.files.badDir == map[]
    && s.files.archivedDir == map[b := Moved(m, LATER, em), StatusFile(b) := Status(m, LATER, None, 0)]
    && s.server.stored == map[0 := en.data] && s.server.available == {0}
    && s.cleaner == Scanning(Some(0)) && Expired(c, s, b)
  }

  /** A scan has removed the first of the two and keeps its identifiers. */
  lemma CleanFirst(c: Config, n: string, m: string, en: Entry, em: Entry) returns (run: seq<Action>)
    requires 1 <= c.streams && 1 <= c.capacity && c.backLog && !c.immediate && n != "" && m != ""
    requires LookedAt(map[n := en, m := em], n) && LookedAt(map[n := en, m := em], m) && n != m
    ensures IsRun(c, run) && FirstCleaned(c, After(c, run), n, m, en, em)
  {
    run := ArchiveBoth(c, n, m, en, em);
    run := Expire(c, run, None);
    var s := After(c, run);
    FourNames(n, m);
    BothExpired(c, s, n, m);
    run := CleanUp(c, run, n, STAMP, 0);
    FirstGone(c, s, After(c, run), n, m, en, em);
  }

  lemma BothExpired(c: Config, s: State, n: string, m: string)
    requires n != m && !PassedOver(n) && !PassedOver(m) && c.timeOut <= s.now
    requires exists en, em :: BothInArchive(s.files, n, m, en, em)
    ensures Expired(c, s, Target(STAMP, n)) && Expired(c, s, Target(LATER, m))
  {
    FourNames(n, m);
    TwoStamps();
    StampedLookedAt(n, STAMP);
    StampedLookedAt(m, LATER);
  }

  lemma FirstGone(c: Config, s: State, r: State, n: string, m: string, en: Entry, em: Entry)
    requires n != m && BothInArchive(s.files, n, m, en, em) && Cleaned(s, r, n, STAMP, 0)
    requires Expired(c, s, Target(LATER, m))
    ensures Expired(c, r, Target(LATER, m))
    ensures var b := Target(LATER, m);
      r.files.archivedDir == map[b := Moved(m, LATER, em), StatusFile(b) := Status(m, LATER, None, 0)]
  {
    FourNames(n, m);
  }

  /** Nothing uninitialised, any two files that are looked at and differ in their
      data: the first is archived and confirmed; the second was back-log buffered
      and is deleted on the strength of the first one's identifiers. */
  lemma StaleIdentifiersLose(c: Config, n: string, m: string, en: Entry, em: Entry) returns (run: seq<Action>)
    requires 1 <= c.streams && 1 <= c.capacity && c.backLog && !c.immediate && n != "" && m != ""
    requires LookedAt(map[n := en, m := em], n) && LookedAt(map[n := en, m := em], m)
    requires n != m && en.data != em.data
    ensures IsRun(c, run) && After(c, run).files.produced == map[n := en, m := em]
    ensures !Kept(c, run, m, em)
  {
    run := CleanFirst(c, n, m, en, em);
    run := CleanUp(c, run, m, LATER, 0);
    assert After(c, run).files.archivedDir == map[];
    RemovedByMistake(c, run, m, em);
  }

  /** The server has no copy of the data of the file that was removed. */
  lemma RemovedByMistake(c: Config, run: seq<Action>, m: string, em: Entry)
    requires IsRun(c, run) && m in After(c, run).files.place
    requires var f := After(c, run).files; f.queueDir == map[] && f.archivedDir == map[] && f.badDir == map[]
    requires forall fid :: fid in After(c, run).server.stored ==> After(c, run).server.stored[fid] != em.data
    ensures !Kept(c, run, m, em)
  {
    forall fid: nat ensures ServerStores(fid, em.data) !in run {
      ServerExactly(c, run, fid, em.data);
    }
    NotKept(c, run, m, em);
  }

  // ---------------------------------------------------------------- theorem

  /** The client keeps everything whatever the interleaving, as long as the
      producers only add files of P. */
  ghost predicate Lossless(c: Config, P: map<string, Entry>) {
    forall run :: IsRun(c, run) && AddsOnly(run, P) ==> KeepsAll(c, run)
  }

  lemma HarmlessIsLossless(c: Config, P: map<string, Entry>)
    requires Harmless(c, P)
    ensures Lossless(c, P)
  {
    forall run | IsRun(c, run) && AddsOnly(run, P) ensures KeepsAll(c, run) {
      NoDataLost(c, P, run);
    }
  }

  lemma AddsOnlyProduced(c: Config, run: seq<Action>, P: map<string, Entry>)
    requires IsRun(c, run)
    requires forall n :: n in After(c, run).files.produced ==> n in P && P[n] == After(c, run).files.produced[n]
    ensures AddsOnly(run, P)
  {
    forall a | a in run && a.ProducerAdds? ensures a.name in P && P[a.name] == a.entry {
      ProducedExactly(c, run, a.name, a.entry);
    }
  }

  lemma LosslessHas(c: Config, P: map<string, Entry>, run: seq<Action>, n: string)
    requires Lossless(c, P) && IsRun(c, run) && n in After(c, run).files.produced
    requires forall m :: m in After(c, run).files.produced ==> m in P && P[m] == After(c, run).files.produced[m]
    ensures Kept(c, run, n, P[n])
  {
    AddsOnlyProduced(c, run, P);
    ProducedExactly(c, run, n, P[n]);
    assert KeepsAll(c, run);
  }

  lemma CollisionLoses(c: Config, P: map<string, Entry>, n: string, m: string)
    requires 1 <= c.streams && 1 <= c.capacity && "" !in P
    requires Visible(P, n) && m in P && Overwrites(c, P, n, m)
    ensures !Lossless(c, P)
  {
    if Lossless(c, P) {
      if m == n + STATUS_EXT && (P[m].kind.Link? || 2 <= c.streams) {
        var run := StatusOverwrites(c, n, P[n], P[m]);
        LosslessHas(c, P, run, m);
      } else {
        var run := UnlinkOverwrites(c, n, P[n], P[m]);
        LosslessHas(c, P, run, m);
      }
    }
  }

  lemma MistakeLoses(c: Config, P: map<string, Entry>)
    requires 1 <= c.streams && 1 <= c.capacity && "" !in P && !NoneMistaken(c, P)
    ensures !Lossless(c, P)
  {
    if Lossless(c, P) {
      if c.garbage {
        var n :| n in P && LookedAt(P, n);
        var run := BackLogRemoves(c, n, P[n]);
        LosslessHas(c, P, run, n);
      } else {
        var n, m :| LookedAt(P, n) && LookedAt(P, m) && P[n].data != P[m].data;
        var run := StaleIdentifiersLose(c, n, m, P[n], P[m]);
        LosslessHas(c, P, run, m);
      }
    }
  }

  /** The client loses no file of P in any run if and only if no name in P can be
      overwritten and back-log buffering cannot mislead the clean-up thread. */
  lemma LosslessExactlyWhenHarmless(c: Config, P: map<string, Entry>)
    requires 1 <= c.streams && 1 <= c.capacity && "" !in P
    ensures Lossless(c, P) <==> Harmless(c, P)
  {
    if Harmless(c, P) {
      HarmlessIsLossless(c, P);
    } else if !NoneMistaken(c, P) {
      MistakeLoses(c, P);
    } else {
      var n, m :| Visible(P, n) && m in P && Overwrites(c, P, n, m);
      CollisionLoses(c, P, n, m);
    }
  }
}
