/** No data is lost: where a file a producer added can be, in every reachable
    state, when no two files can be given one name and back-log buffering cannot
    mislead the clean-up thread. */
module ClientNoLoss {
  import opened ArchiveQueue
  import opened ArchiveClient
  import opened ClientExclusion
  import opened ClientHistory
  import opened Options

  /** The file m can be overwritten: by the status document of n, if m can be
      moved in the same millisecond by the monitor or by another thread than n;
      or by n itself on its way to being removed. */
  predicate Overwrites(c: Config, produced: map<string, Entry>, n: string, m: string)
    requires m in produced
  {
    || (m == n + "___STATUS.xml" && (produced[m].kind.Link? || 2 <= c.streams))
    || (m == ".REMOVED_" + n && c.immediate)
  }

  /** A regular file whose name does not begin with a dot. */
  predicate Visible(produced: map<string, Entry>, n: string) {
    n in produced && produced[n].kind.Regular? && (n == "" || n[0] != '.')
  }

  ghost predicate CollisionFree(c: Config, produced: map<string, Entry>) {
    forall n, m :: Visible(produced, n) && m in produced ==> !Overwrites(c, produced, n, m)
  }

  /** A file the clean-up thread passes over: its name, as moved, contains the
      extension of status documents. */
  ghost predicate PassedOver(name: string) {
    exists a, b :: "___" + name == a + "___STATUS.xml" + b
  }

  /** A file the clean-up thread looks at once it is archived. */
  ghost predicate LookedAt(produced: map<string, Entry>, n: string) {
    Visible(produced, n) && !PassedOver(n)
  }

  /** Back-log buffering endangers every file that is looked at, when the buffers
      may hold anything.  When they are clean they can only hold the identifiers
      of another such file, which does no harm if its data are the same; with
      immediate clean-up they stay clean. */
  ghost predicate NoneMistaken(c: Config, produced: map<string, Entry>) {
    c.backLog ==>
      if c.garbage then forall n :: n in produced ==> !LookedAt(produced, n)
      else
        c.immediate ||
        forall n, m :: LookedAt(produced, n) && LookedAt(produced, m) ==> produced[n].data == produced[m].data
  }

  ghost predicate Harmless(c: Config, produced: map<string, Entry>) {
    CollisionFree(c, produced) && NoneMistaken(c, produced)
  }

  lemma PassedOverTarget(stamp: string, name: string)
    requires IsStamp(stamp)
    ensures PassedOver(name) <==> HasStatusExt(Target(stamp, name))
  {
    var file, rest := Target(stamp, name), SEPARATOR + name;
    assert file == stamp + rest;
    if a, b :| rest == a + "___STATUS.xml" + b {
      assert rest[|a|..|a| + |STATUS_EXT|] == STATUS_EXT;
      ExtBehind(stamp, rest, |a|);
      assert StatusExtAt(file, |stamp| + |a|);
    }
    if i: nat :| i <= |file| && StatusExtAt(file, i) {
      NoExtInStamp(stamp, rest, i);
      var k := i - |stamp|;
      ExtBehind(stamp, rest, k);
      assert rest == rest[..k] + STATUS_EXT + rest[k + |STATUS_EXT|..];
    }
  }

  lemma ExtBehind(stamp: string, rest: string, i: nat)
    ensures StatusExtAt(stamp + rest, |stamp| + i) <==> StatusExtAt(rest, i)
  {
    if i + |STATUS_EXT| <= |rest| {
      assert (stamp + rest)[|stamp| + i..|stamp| + i + |STATUS_EXT|] == rest[i..i + |STATUS_EXT|];
    }
  }

  lemma NoExtInStamp(stamp: string, rest: string, i: nat)
    requires IsStamp(stamp) && StatusExtAt(stamp + rest, i)
    ensures |stamp| <= i
  {
    assert (stamp + rest)[i] == (stamp + rest)[i..i + |STATUS_EXT|][0] == '_';
    assert forall j :: 0 <= j < |stamp| ==> (stamp + rest)[j] == stamp[j];
  }

  lemma TargetInjective(stamp: string, name: string, stamp': string, name': string)
    requires IsStamp(stamp) && IsStamp(stamp')
    requires Target(stamp, name) == Target(stamp', name')
    ensures stamp == stamp' && name == name'
  {
    var s, s' := Target(stamp, name), Target(stamp', name');
    assert s[|stamp|] == '_' && forall i | 0 <= i < |stamp| :: s[i] == stamp[i];
    assert s'[|stamp'|] == '_' && forall i | 0 <= i < |stamp'| :: s'[i] == stamp'[i];
    assert |stamp| == |stamp'|;
    assert stamp == s[..|stamp|] == stamp';
    assert name == s[|stamp| + 3..] == name';
  }

  lemma StatusIsTarget(stamp: string, name: string)
    ensures StatusFile(Target(stamp, name)) == Target(stamp, name + STATUS_EXT)
  {}

  // ---------------------------------------------------------------- invariants

  /** The queue directory holds exactly the files not yet disposed of. */
  ghost predicate QueueDirInv(f: Files) {
    && f.place.Keys == f.produced.Keys
    && (forall n :: n in f.queueDir ==> n in f.produced && f.queueDir[n] == f.produced[n])
    && (forall n :: n in f.produced ==> (n in f.queueDir <==> f.place[n].InQueue?))
  }

  ghost predicate MovedEntry(f: Files, n: string, place: Place, entry: Entry) {
    match place
    case InArchived(stamp) =>
      && IsStamp(stamp) && Target(stamp, n) in f.archivedDir
      && f.archivedDir[Target(stamp, n)] == Moved(n, stamp, entry)
    case InBad(stamp) =>
      && IsStamp(stamp) && Target(stamp, n) in f.badDir
      && f.badDir[Target(stamp, n)] == Moved(n, stamp, entry)
    case _ => true
  }

  /** A moved file is where the history says, with the data it came with. */
  ghost predicate MovedInv(f: Files)
    requires f.place.Keys == f.produced.Keys
  {
    forall n :: n in f.produced ==> MovedEntry(f, n, f.place[n], f.produced[n])
  }

  ghost predicate Backed(server: Server, fid: nat, entry: Entry) {
    fid in server.stored && server.stored[fid] == entry.data
  }

  ghost predicate ReplyInv(c: Config, server: Server, entry: Entry, reply: Reply) {
    && (reply.Stored? ==> Backed(server, reply.fid, entry))
    && (reply.BackLogged? ==> c.backLog)
  }

  /** Each entry of the archived directory is a moved file or its document, and
      a document names a copy the server was given. */
  ghost predicate ArchivedEntry(c: Config, f: Files, server: Server, file: string, content: Content) {
    match content
    case Moved(n, stamp, entry) =>
      && IsStamp(stamp) && file == Target(stamp, n) && Sendable(f.produced, n) && f.produced[n] == entry
      && n in f.place && f.place[n] == InArchived(stamp)
    case Status(n, stamp, ids, _) =>
      && IsStamp(stamp) && file == StatusFile(Target(stamp, n)) && Sendable(f.produced, n)
      && match ids
         case Some(fid) => !c.immediate && Backed(server, fid, f.produced[n])
         case None => c.backLog
  }

  ghost predicate ArchivedInv(c: Config, f: Files, server: Server) {
    forall file :: file in f.archivedDir ==> ArchivedEntry(c, f, server, file, f.archivedDir[file])
  }

  ghost predicate WorkerInv(c: Config, f: Files, server: Server, w: Worker) {
    Known(f, w.name) &&
    match w.phase
    case Replied(reply) =>
      && (reply.BackLogged? ==> c.backLog)
      && (w.name in f.queueDir ==> ReplyInv(c, server, f.produced[w.name], reply))
    case Renamed(reply, bad, stamp) =>
      && IsStamp(stamp) && bad == reply.BadFile? && Moves(c, reply) && ReplyInv(c, server, f.produced[w.name], reply)
    case _ => true
  }

  ghost predicate WorkersInv(c: Config, f: Files, server: Server, k: Control) {
    forall t :: t in k.workers ==> WorkerInv(c, f, server, k.workers[t])
  }

  /** Unless the buffers started with anything, they hold the identifiers of a
      file that was looked at. */
  ghost predicate Carries(c: Config, f: Files, server: Server, fid: nat) {
    c.garbage ||
    (!c.immediate && exists n :: LookedAt(f.produced, n) && Backed(server, fid, f.produced[n]))
  }

  /** The clean-up thread asks about the file it is going to remove. */
  ghost predicate Asks(c: Config, f: Files, server: Server, now: nat, file: string, fid: nat, written: nat) {
    && file in f.archivedDir && f.archivedDir[file].Moved?
    && Backed(server, fid, f.archivedDir[file].entry)
    && written + c.timeOut <= now
    && Carries(c, f, server, fid)
  }

  ghost predicate CleanerInv(c: Config, f: Files, server: Server, cleaner: Cleaner, now: nat) {
    match cleaner
    case Scanning(carried) => carried.Some? ==> Carries(c, f, server, carried.value)
    case Asking(file, fid, written) => Asks(c, f, server, now, file, fid, written)
    case Removing(file, fid, written) => Asks(c, f, server, now, file, fid, written)
    case _ => true
  }

  ghost predicate FilesInv(c: Config, f: Files, server: Server) {
    QueueDirInv(f) && MovedInv(f) && ArchivedInv(c, f, server)
  }

  ghost predicate LifeInv(c: Config, s: State) {
    && NamesInv(s)
    && FilesInv(c, s.files, s.server)
    && WorkersInv(c, s.files, s.server, s.control)
    && CleanerInv(c, s.files, s.server, s.cleaner, s.now)
  }

  // ---------------------------------------------------------------- time stamps

  function StampOf(p: Place): Option<string> {
    if p.InArchived? || p.InBad? then Some(p.stamp) else None
  }

  predicate MovedAt(f: Files, n: string, stamp: string) {
    n in f.produced && n in f.place && StampOf(f.place[n]) == Some(stamp)
  }

  predicate SentAt(f: Files, n: string, stamp: string) {
    MovedAt(f, n, stamp) && f.produced[n].kind.Regular?
  }

  /** A single archive thread never gives two files one time stamp. */
  ghost predicate StampInv(c: Config, s: State) {
    c.streams < 2 ==>
      && (forall t :: t in s.control.workers ==> t == 0)
      && (forall n, stamp :: SentAt(s.files, n, stamp) ==> (0, stamp) in s.stamps)
      && (forall n, m, stamp :: SentAt(s.files, n, stamp) && SentAt(s.files, m, stamp) ==> n == m)
      && (0 in s.control.workers && s.control.workers[0].phase.Renamed? ==>
            OnlyOneAt(s.files, s.control.workers[0].name, s.control.workers[0].phase.stamp))
  }

  ghost predicate OnlyOneAt(f: Files, n: string, stamp: string) {
    forall m :: SentAt(f, m, stamp) ==> m == n
  }

  /** No moved file is in the place of the status document of n. */
  ghost predicate DocFree(f: Files, n: string, stamp: string) {
    forall m :: MovedAt(f, m, stamp) ==> m != n + STATUS_EXT
  }

  /** A step that sends no file anywhere leaves no new time stamp. */
  ghost predicate NoneSent(f: Files, g: Files) {
    forall n, stamp :: SentAt(g, n, stamp) ==> SentAt(f, n, stamp)
  }

  lemma StampKept(c: Config, s: State, r: State)
    requires StampInv(c, s) && NoneSent(s.files, r.files) && s.stamps <= r.stamps
    requires forall t :: t in r.control.workers && r.control.workers[t].phase.Renamed? ==>
      t in s.control.workers && s.control.workers[t] == r.control.workers[t]
    requires c.streams < 2 ==> forall t :: t in r.control.workers ==> t == 0
    ensures StampInv(c, r)
  {}

  lemma StampFresh(c: Config, s: State, t: nat, stamp: string)
    requires StampInv(c, s) && Enabled(c, s, ThreadRenames(t, stamp))
    ensures StampInv(c, Step(c, s, ThreadRenames(t, stamp)))
  {
    var r, name := Step(c, s, ThreadRenames(t, stamp)), s.control.workers[t].name;
    forall n, at | SentAt(r.files, n, at) ensures if n == name then at == stamp else SentAt(s.files, n, at) {}
  }

  lemma StepKeepsStamps(c: Config, s: State, a: Action)
    requires Enabled(c, s, a) && StampInv(c, s) && ControlInv(c, s.control) && LinksOnly(s)
    ensures StampInv(c, Step(c, s, a))
  {
    if a.ThreadRenames? {
      StampFresh(c, s, a.t, a.stamp);
    } else {
      StampKept(c, s, Step(c, s, a));
    }
  }

  /** What the monitor takes for a link was a link when it was added. */
  ghost predicate LinksOnly(s: State) {
    forall n :: n in s.files.queueDir ==> n in s.files.produced && s.files.queueDir[n] == s.files.produced[n]
  }

  lemma {:induction false} StampsKept(c: Config, run: seq<Action>)
    requires IsRun(c, run)
    ensures StampInv(c, After(c, run)) && LinksOnly(After(c, run))
  {
    if run != [] {
      var front, a := run[..|run| - 1], run[|run| - 1];
      StampsKept(c, front);
      ThreadsExclude(c, front);
      StepKeepsStamps(c, After(c, front), a);
      StepKeepsLinks(c, After(c, front), a);
    }
  }

  lemma StepKeepsLinks(c: Config, s: State, a: Action)
    requires Enabled(c, s, a) && LinksOnly(s)
    ensures LinksOnly(Step(c, s, a))
  {}

  lemma SavedDocFree(c: Config, s: State, t: nat)
    requires StampInv(c, s) && CollisionFree(c, s.files.produced) && NamesInv(s)
    requires t in s.control.workers && s.control.workers[t].phase.Renamed? && Known(s.files, s.control.workers[t].name)
    ensures DocFree(s.files, s.control.workers[t].name, s.control.workers[t].phase.stamp)
  {
    var n, stamp := s.control.workers[t].name, s.control.workers[t].phase.stamp;
    forall m | MovedAt(s.files, m, stamp) ensures m != n + STATUS_EXT {
      if m == n + STATUS_EXT {
        assert !Overwrites(c, s.files.produced, n, m);
        assert SentAt(s.files, m, stamp);
      }
    }
  }

  lemma MovedDocFree(c: Config, s: State, n: string, stamp: string)
    requires StampInv(c, s) && CollisionFree(c, s.files.produced)
    requires SentAt(s.files, n, stamp) && Sendable(s.files.produced, n)
    ensures DocFree(s.files, n, stamp)
  {
    forall m | MovedAt(s.files, m, stamp) ensures m != n + STATUS_EXT {
      if m == n + STATUS_EXT {
        assert !Overwrites(c, s.files.produced, n, m);
        assert SentAt(s.files, m, stamp);
      }
    }
  }

  // ---------------------------------------------------------------- directories

  lemma ProduceKeeps(c: Config, f: Files, server: Server, name: string, entry: Entry)
    requires FilesInv(c, f, server) && name !in f.produced
    ensures FilesInv(c, Produce(f, name, entry), server)
  {
    ProduceLeavesMoved(f, name, entry);
    ProduceLeavesArchived(c, f, server, name, entry);
  }

  lemma ProduceLeavesArchived(c: Config, f: Files, server: Server, name: string, entry: Entry)
    requires QueueDirInv(f) && ArchivedInv(c, f, server) && name !in f.produced
    ensures ArchivedInv(c, Produce(f, name, entry), server)
  {
    var r := Produce(f, name, entry);
    forall file | file in r.archivedDir
      ensures ArchivedEntry(c, r, server, file, r.archivedDir[file])
    {
      assert ArchivedEntry(c, f, server, file, f.archivedDir[file]);
    }
  }

  lemma ProduceLeavesMoved(f: Files, name: string, entry: Entry)
    requires QueueDirInv(f) && MovedInv(f) && name !in f.produced
    ensures QueueDirInv(Produce(f, name, entry)) && MovedInv(Produce(f, name, entry))
  {
    var r := Produce(f, name, entry);
    forall n | n in r.produced ensures MovedEntry(r, n, r.place[n], r.produced[n]) {
      assert n != name ==> MovedEntry(f, n, f.place[n], f.produced[n]);
    }
  }

  lemma RenameMoves(f: Files, name: string, bad: bool, stamp: string)
    requires QueueDirInv(f) && MovedInv(f) && name in f.queueDir && IsStamp(stamp)
    ensures QueueDirInv(Rename(f, name, bad, stamp)) && MovedInv(Rename(f, name, bad, stamp))
  {
    var r := Rename(f, name, bad, stamp);
    forall n | n in r.produced ensures MovedEntry(r, n, r.place[n], r.produced[n]) {
      if n != name {
        assert MovedEntry(f, n, f.place[n], f.produced[n]);
        forall stamp' | IsStamp(stamp') && Target(stamp', n) == Target(stamp, name) ensures false {
          TargetInjective(stamp', n, stamp, name);
        }
      }
    }
  }

  lemma RenameKeeps(c: Config, f: Files, server: Server, name: string, bad: bool, stamp: string)
    requires FilesInv(c, f, server) && name in f.queueDir && IsStamp(stamp)
    requires !bad ==> Sendable(f.produced, name)
    ensures FilesInv(c, Rename(f, name, bad, stamp), server)
  {
    var r := Rename(f, name, bad, stamp);
    RenameMoves(f, name, bad, stamp);
    forall file | file in r.archivedDir
      ensures ArchivedEntry(c, r, server, file, r.archivedDir[file])
    {
      if bad || file != Target(stamp, name) {
        assert ArchivedEntry(c, f, server, file, f.archivedDir[file]);
      }
    }
  }

  lemma SaveStatusKeeps(c: Config, f: Files, server: Server, w: Worker, now: nat)
    requires FilesInv(c, f, server) && w.phase.Renamed? && WorkerInv(c, f, server, w)
    requires DocFree(f, w.name, w.phase.stamp)
    ensures FilesInv(c, SaveStatus(f, w, now), server)
  {
    var r, stamp := SaveStatus(f, w, now), w.phase.stamp;
    assert MovedInv(r) by {
      forall n | n in r.produced ensures MovedEntry(r, n, r.place[n], r.produced[n]) {
        assert MovedEntry(f, n, f.place[n], f.produced[n]);
        if StampOf(f.place[n]).Some? {
          StatusIsNoTarget(f, w.name, stamp, n, f.place[n].stamp);
        }
      }
    }
    assert ArchivedInv(c, r, server) by {
      forall file | file in r.archivedDir
        ensures ArchivedEntry(c, r, server, file, r.archivedDir[file])
      {
        if file in f.archivedDir && r.archivedDir[file] == f.archivedDir[file] {
          assert ArchivedEntry(c, f, server, file, f.archivedDir[file]);
        }
      }
    }
  }

  /** A status document never has the name of a moved file. */
  lemma StatusIsNoTarget(f: Files, name: string, stamp: string, n: string, stamp': string)
    requires DocFree(f, name, stamp) && MovedAt(f, n, stamp')
    requires IsStamp(stamp) && IsStamp(stamp')
    ensures Target(stamp', n) != StatusFile(Target(stamp, name))
  {
    StatusIsTarget(stamp, name);
    if Target(stamp', n) == Target(stamp, name + STATUS_EXT) {
      TargetInjective(stamp', n, stamp, name + STATUS_EXT);
    }
  }

  lemma UnlinkKeeps(c: Config, f: Files, server: Server, name: string)
    requires FilesInv(c, f, server) && CollisionFree(c, f.produced) && c.immediate
    requires Known(f, name)
    ensures FilesInv(c, Unlink(f, name), server)
  {
    var r, hidden := Unlink(f, name), REMOVED_PREFIX + name;
    assert hidden in f.produced ==> !Overwrites(c, f.produced, name, hidden);
    forall file | file in r.archivedDir
      ensures ArchivedEntry(c, r, server, file, r.archivedDir[file])
    {
      assert ArchivedEntry(c, f, server, file, f.archivedDir[file]);
    }
  }

  lemma RemoveArchivedKeeps(c: Config, f: Files, server: Server, removed: string)
    requires FilesInv(c, f, server) && removed in f.archivedDir && f.archivedDir[removed].Moved?
    requires DocFree(f, f.archivedDir[removed].name, f.archivedDir[removed].stamp)
    ensures FilesInv(c, RemoveArchived(f, removed), server)
  {
    var r, gone := RemoveArchived(f, removed), f.archivedDir[removed];
    assert ArchivedEntry(c, f, server, removed, gone);
    OthersStay(f, removed);
    assert ArchivedInv(c, r, server) by {
      forall file | file in r.archivedDir
        ensures ArchivedEntry(c, r, server, file, r.archivedDir[file])
      {
        var content := f.archivedDir[file];
        assert ArchivedEntry(c, f, server, file, content);
        assert content.Moved? ==> content.name != gone.name;
      }
    }
  }

  lemma OthersStay(f: Files, removed: string)
    requires QueueDirInv(f) && MovedInv(f)
    requires removed in f.archivedDir && f.archivedDir[removed].Moved?
    requires var gone := f.archivedDir[removed];
      && MovedAt(f, gone.name, gone.stamp) && IsStamp(gone.stamp) && removed == Target(gone.stamp, gone.name)
      && DocFree(f, gone.name, gone.stamp)
    ensures QueueDirInv(RemoveArchived(f, removed)) && MovedInv(RemoveArchived(f, removed))
  {
    var r, gone := RemoveArchived(f, removed), f.archivedDir[removed];
    forall n | n in r.produced && n != gone.name ensures MovedEntry(r, n, r.place[n], r.produced[n]) {
      assert MovedEntry(f, n, f.place[n], f.produced[n]);
      if StampOf(f.place[n]).Some? {
        StatusIsNoTarget(f, gone.name, gone.stamp, n, f.place[n].stamp);
        if Target(f.place[n].stamp, n) == removed {
          TargetInjective(f.place[n].stamp, n, gone.stamp, gone.name);
        }
      }
    }
  }

  // ---------------------------------------------------------------- other parties

  /** What a step may do to the facts a party remembers: files are added but
      never come back, the server's history grows, moved files stay as they are. */
  ghost predicate Grows(s: State, r: State) {
    && (forall n :: n in s.files.produced ==> n in r.files.produced && r.files.produced[n] == s.files.produced[n])
    && (forall n :: n in s.files.produced && n in r.files.queueDir ==> n in s.files.queueDir)
    && (forall fid :: fid in s.server.stored ==>
          fid in r.server.stored && r.server.stored[fid] == s.server.stored[fid])
    && s.now <= r.now
  }

  ghost predicate KeepsMoved(f: Files, g: Files) {
    forall file :: file in f.archivedDir && f.archivedDir[file].Moved? ==>
      file in g.archivedDir && g.archivedDir[file] == f.archivedDir[file]
  }

  lemma StepGrows(c: Config, s: State, a: Action)
    requires Enabled(c, s, a)
    ensures Grows(s, Step(c, s, a))
  {}

  lemma ServerGrows(c: Config, s: State, r: State)
    requires FilesInv(c, s.files, s.server) && Grows(s, r)
    ensures FilesInv(c, s.files, r.server)
  {
    var f := s.files;
    forall file | file in f.archivedDir ensures ArchivedEntry(c, f, r.server, file, f.archivedDir[file]) {
      assert ArchivedEntry(c, f, s.server, file, f.archivedDir[file]);
    }
  }

  lemma RenameLeaves(c: Config, f: Files, server: Server, name: string, bad: bool, stamp: string)
    requires FilesInv(c, f, server) && name in f.queueDir && IsStamp(stamp)
    ensures KeepsMoved(f, Rename(f, name, bad, stamp))
  {
    forall file | file in f.archivedDir && f.archivedDir[file].Moved? && file == Target(stamp, name)
      ensures false
    {
      assert ArchivedEntry(c, f, server, file, f.archivedDir[file]);
      TargetInjective(f.archivedDir[file].stamp, f.archivedDir[file].name, stamp, name);
    }
  }

  lemma SaveStatusLeaves(c: Config, f: Files, server: Server, w: Worker, now: nat)
    requires FilesInv(c, f, server) && w.phase.Renamed? && WorkerInv(c, f, server, w)
    requires DocFree(f, w.name, w.phase.stamp)
    ensures KeepsMoved(f, SaveStatus(f, w, now))
  {
    var doc := StatusFile(Target(w.phase.stamp, w.name));
    forall file | file in f.archivedDir && f.archivedDir[file].Moved? && file == doc
      ensures false
    {
      assert ArchivedEntry(c, f, server, file, f.archivedDir[file]);
      StatusIsNoTarget(f, w.name, w.phase.stamp, f.archivedDir[file].name, f.archivedDir[file].stamp);
    }
  }

  predicate IsThreadStep(a: Action) {
    a.ThreadRenames? || a.ThreadSaves? || a.ThreadUnlinks?
  }

  lemma ThreadKeepsFiles(c: Config, s: State, a: Action)
    requires IsThreadStep(a) && Enabled(c, s, a) && LifeInv(c, s)
    requires StampInv(c, s) && CollisionFree(c, s.files.produced)
    ensures FilesInv(c, Step(c, s, a).files, Step(c, s, a).server)
  {
    var w := s.control.workers[a.t];
    assert WorkerInv(c, s.files, s.server, w);
    if a.ThreadRenames? {
      RenameKeeps(c, s.files, s.server, w.name, w.phase.reply.BadFile?, a.stamp);
    } else if a.ThreadSaves? {
      SavedDocFree(c, s, a.t);
      SaveStatusKeeps(c, s.files, s.server, w, s.now);
    } else {
      UnlinkKeeps(c, s.files, s.server, w.name);
    }
  }

  lemma StepKeepsFiles(c: Config, s: State, a: Action)
    requires Enabled(c, s, a) && LifeInv(c, s) && StampInv(c, s) && CollisionFree(c, s.files.produced)
    ensures FilesInv(c, Step(c, s, a).files, Step(c, s, a).server)
  {
    if IsThreadStep(a) {
      ThreadKeepsFiles(c, s, a);
      return;
    }
    match a {
      case ProducerAdds(name, entry) => ProduceKeeps(c, s.files, s.server, name, entry);
      case MonitorMovesLink(name, stamp) =>
        RenameKeeps(c, s.files, s.server, name, true, stamp);
      case CleanerRemoves =>
        var gone := s.files.archivedDir[s.cleaner.file];
        assert ArchivedEntry(c, s.files, s.server, s.cleaner.file, gone);
        MovedDocFree(c, s, gone.name, gone.stamp);
        RemoveArchivedKeeps(c, s.files, s.server, s.cleaner.file);
      case _ =>
        OtherStepKeepsFiles(c, s, a);
    }
  }

  lemma OtherStepKeepsFiles(c: Config, s: State, a: Action)
    requires Enabled(c, s, a) && FilesInv(c, s.files, s.server)
    requires !IsThreadStep(a) && !a.ProducerAdds? && !a.MonitorMovesLink? && !a.CleanerRemoves?
    ensures FilesInv(c, Step(c, s, a).files, Step(c, s, a).server)
  {
    assert Step(c, s, a).files == s.files;
    StepGrows(c, s, a);
    ServerGrows(c, s, Step(c, s, a));
  }

  lemma StepKeepsMoved(c: Config, s: State, a: Action)
    requires Enabled(c, s, a) && LifeInv(c, s) && StampInv(c, s) && CollisionFree(c, s.files.produced)
    requires !a.CleanerRemoves?
    ensures KeepsMoved(s.files, Step(c, s, a).files)
  {
    match a {
      case ThreadRenames(t, stamp) =>
        var w := s.control.workers[t];
        RenameLeaves(c, s.files, s.server, w.name, w.phase.reply.BadFile?, stamp);
      case ThreadSaves(t) =>
        assert WorkerInv(c, s.files, s.server, s.control.workers[t]);
        SavedDocFree(c, s, t);
        SaveStatusLeaves(c, s.files, s.server, s.control.workers[t], s.now);
      case _ =>
    }
  }

  lemma WorkerStable(c: Config, s: State, r: State, w: Worker)
    requires WorkerInv(c, s.files, s.server, w) && Grows(s, r)
    ensures WorkerInv(c, r.files, r.server, w)
  {}

  /** The thread that takes a step keeps its own part. */
  lemma ActorKeeps(c: Config, s: State, a: Action, t: nat)
    requires Enabled(c, s, a) && LifeInv(c, s)
    requires t in Step(c, s, a).control.workers
    requires t in s.control.workers ==> Step(c, s, a).control.workers[t] != s.control.workers[t]
    ensures WorkerInv(c, Step(c, s, a).files, Step(c, s, a).server, Step(c, s, a).control.workers[t])
  {
    if t in s.control.workers {
      assert WorkerInv(c, s.files, s.server, s.control.workers[t]);
    } else {
      assert s.control.queue.pending[0] in s.control.queue.pending;
    }
  }

  lemma StepKeepsWorkers(c: Config, s: State, a: Action)
    requires Enabled(c, s, a) && LifeInv(c, s)
    ensures WorkersInv(c, Step(c, s, a).files, Step(c, s, a).server, Step(c, s, a).control)
  {
    var r := Step(c, s, a);
    StepGrows(c, s, a);
    forall t | t in r.control.workers ensures WorkerInv(c, r.files, r.server, r.control.workers[t]) {
      if t in s.control.workers && r.control.workers[t] == s.control.workers[t] {
        WorkerStable(c, s, r, s.control.workers[t]);
      } else {
        ActorKeeps(c, s, a, t);
      }
    }
  }

  /** The identifiers used for an expired file are those of a copy of its data:
      they come from its own document or from a file with the same data. */
  lemma LoadAsks(c: Config, s: State, file: string)
    requires LifeInv(c, s) && NoneMistaken(c, s.files.produced) && s.cleaner.Scanning? && Expired(c, s, file)
    ensures CleanerInv(c, s.files, s.server, Load(s, file), s.now)
  {
    var content, doc := s.files.archivedDir[file], s.files.archivedDir[StatusFile(file)];
    assert ArchivedEntry(c, s.files, s.server, file, content);
    assert ArchivedEntry(c, s.files, s.server, StatusFile(file), doc);
    PassedOverTarget(content.stamp, content.name);
    var docFile := Target(doc.stamp, doc.name);
    assert StatusFile(docFile)[..|docFile|] == docFile && StatusFile(file)[..|file|] == file;
    TargetInjective(content.stamp, content.name, doc.stamp, doc.name);
    assert LookedAt(s.files.produced, content.name);
  }

  lemma CleanerStable(c: Config, s: State, r: State)
    requires CleanerInv(c, s.files, s.server, s.cleaner, s.now)
    requires Grows(s, r) && KeepsMoved(s.files, r.files)
    ensures CleanerInv(c, r.files, r.server, s.cleaner, r.now)
  {}

  lemma CleanerStepKeeps(c: Config, s: State, a: Action)
    requires IsCleanerStep(a) && Enabled(c, s, a) && LifeInv(c, s) && NoneMistaken(c, s.files.produced)
    ensures CleanerInv(c, Step(c, s, a).files, Step(c, s, a).server, Step(c, s, a).cleaner, Step(c, s, a).now)
  {
    if a.CleanerLoads? {
      LoadAsks(c, s, a.file);
    }
  }

  lemma StepKeepsCleaner(c: Config, s: State, a: Action)
    requires Enabled(c, s, a) && LifeInv(c, s) && StampInv(c, s) && Harmless(c, s.files.produced)
    ensures CleanerInv(c, Step(c, s, a).files, Step(c, s, a).server, Step(c, s, a).cleaner, Step(c, s, a).now)
  {
    if IsCleanerStep(a) {
      CleanerStepKeeps(c, s, a);
    } else {
      StepGrows(c, s, a);
      StepKeepsMoved(c, s, a);
      CleanerStable(c, s, Step(c, s, a));
    }
  }

  lemma HarmlessBefore(c: Config, s: State, a: Action)
    requires Enabled(c, s, a) && Harmless(c, Step(c, s, a).files.produced)
    ensures Harmless(c, s.files.produced)
  {
    StepGrows(c, s, a);
    HarmlessPart(c, Step(c, s, a).files.produced, s.files.produced);
  }

  lemma HarmlessPart(c: Config, P: map<string, Entry>, produced: map<string, Entry>)
    requires Harmless(c, P) && forall n :: n in produced ==> n in P && P[n] == produced[n]
    ensures Harmless(c, produced)
  {
    forall n, m | Sendable(produced, n) && m in produced ensures !Overwrites(c, produced, n, m) {
      assert !Overwrites(c, P, n, m);
    }
    assert forall n :: LookedAt(produced, n) ==> LookedAt(P, n);
  }

  lemma StepKeepsLife(c: Config, s: State, a: Action)
    requires Enabled(c, s, a) && LifeInv(c, s) && StampInv(c, s) && Harmless(c, s.files.produced)
    ensures LifeInv(c, Step(c, s, a))
  {
    StepKeepsNames(c, s, a);
    StepKeepsFiles(c, s, a);
    StepKeepsWorkers(c, s, a);
    StepKeepsCleaner(c, s, a);
  }

  lemma {:induction false} LifeKept(c: Config, run: seq<Action>)
    requires IsRun(c, run) && Harmless(c, After(c, run).files.produced)
    ensures LifeInv(c, After(c, run))
  {
    if run != [] {
      var front, a := run[..|run| - 1], run[|run| - 1];
      HarmlessBefore(c, After(c, front), a);
      StampsKept(c, front);
      LifeKept(c, front);
      StepKeepsLife(c, After(c, front), a);
    }
  }

  // ---------------------------------------------------------------- theorem

  lemma HarmlessPrefix(c: Config, P: map<string, Entry>, run: seq<Action>, j: nat)
    requires IsRun(c, run) && j <= |run| && AddsOnly(run, P) && Harmless(c, P)
    ensures IsRun(c, run[..j]) && LifeInv(c, After(c, run[..j]))
  {
    PrefixRuns(c, run, j);
    var produced := After(c, run[..j]).files.produced;
    forall n | n in produced ensures n in P && P[n] == produced[n] {
      ProducedExactly(c, run[..j], n, produced[n]);
    }
    HarmlessPart(c, P, produced);
    LifeKept(c, run[..j]);
  }

  /** What is known of a file that a step deletes. */
  lemma DeletedWell(c: Config, run: seq<Action>, j: nat, n: string, e: Entry)
    requires IsRun(c, run) && j < |run| && IsRun(c, run[..j]) && ProducerAdds(n, e) in run
    requires LifeInv(c, After(c, run[..j])) && Enabled(c, After(c, run[..j]), run[j])
    requires Deletes(After(c, run[..j]), run[j], n)
    ensures Kept(c, run, n, e)
  {
    var s := After(c, run[..j]);
    ProducedExactly(c, run, n, e);
    if run[j].CleanerRemoves? {
      var moved, fid := s.files.archivedDir[s.cleaner.file], s.cleaner.fid;
      assert ArchivedEntry(c, s.files, s.server, s.cleaner.file, moved);
      SameEntry(c, run, j, n, e);
      ServerExactly(c, run[..j], fid, e.data);
      CleanerExactly(c, run[..j]);
      assert CleanedUpAt(c, run, j, n, e, moved.stamp, fid);
    } else {
      var t := run[j].t;
      var fid := s.control.workers[t].phase.reply.fid;
      assert WorkerInv(c, s.files, s.server, s.control.workers[t]);
      SameEntry(c, run, j, n, e);
      ServerExactly(c, run[..j], fid, e.data);
      ThreadExactly(c, run[..j], t);
      assert UnlinkedAt(c, run, j, n, e, t, fid);
    }
  }

  lemma SameEntry(c: Config, run: seq<Action>, j: nat, n: string, e: Entry)
    requires IsRun(c, run) && j <= |run| && IsRun(c, run[..j])
    requires ProducerAdds(n, e) in run && n in After(c, run[..j]).files.produced
    ensures After(c, run[..j]).files.produced[n] == e
  {
    var other := After(c, run[..j]).files.produced[n];
    ProducedExactly(c, run[..j], n, other);
    ProducedExactly(c, run, n, other);
    ProducedExactly(c, run, n, e);
  }

  /** Every file a producer added is in one of the three directories with its data,
      or a thread has removed it after a reply, or the clean-up after CHECKFILE,
      that vouches for a copy of its data. */
  lemma NoDataLost(c: Config, P: map<string, Entry>, run: seq<Action>)
    requires IsRun(c, run) && AddsOnly(run, P) && Harmless(c, P)
    ensures KeepsAll(c, run)
  {
    HarmlessPrefix(c, P, run, |run|);
    assert run[..|run|] == run;
    var f := After(c, run).files;
    forall n, e | ProducerAdds(n, e) in run ensures Kept(c, run, n, e) {
      ProducedExactly(c, run, n, e);
      assert MovedEntry(f, n, f.place[n], e);
      if f.place[n].Deleted? {
        var j := DeletedSince(c, run, n);
        HarmlessPrefix(c, P, run, j);
        DeletedWell(c, run, j, n, e);
      } else if !f.place[n].InQueue? {
        assert IsIn(f, f.place[n].InBad?, n, f.place[n].stamp, e);
      }
    }
  }
}
