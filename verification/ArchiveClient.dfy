/** The archive client as a transition system.  A producer drops files into the
    queue directory; one monitor thread queues their names; archive threads
    send the files and dispose of them; one clean-up thread deletes archived
    files the server confirms.  Every step is one critical section, one system
    call on a directory, or one reply of the server; steps of all parties
    interleave freely.  A run is the list of its steps. */
module ArchiveClient {
  import opened ArchiveQueue
  import opened Options

  datatype Kind = Regular | Link
  datatype Entry = Entry(kind: Kind, data: int)

  /** A file of the archived or the bad directory: one that was moved there, or
      the status document written beside it.  `ids` is the File ID and version
      the document carries, `written` the time it was created. */
  datatype Content =
    | Moved(name: string, stamp: string, entry: Entry)
    | Status(name: string, stamp: string, ids: Option<nat>, written: nat)

  /** The answers of the server to an archive request, as the client tells them
      apart.  `fid` stands for a File ID together with a File Version. */
  datatype Reply = Stored(fid: nat) | BackLogged | BadFile | OtherError

  /** Where the client put a file: a history kept for the proofs. */
  datatype Place = InQueue | InArchived(stamp: string) | InBad(stamp: string) | Deleted

  datatype Files = Files(
    produced: map<string, Entry>,
    queueDir: map<string, Entry>,
    archivedDir: map<string, Content>,
    badDir: map<string, Content>,
    place: map<string, Place>)

  datatype Phase = Sending | Replied(reply: Reply) | Renamed(reply: Reply, bad: bool, stamp: string) | Finishing
  datatype Worker = Worker(name: string, phase: Phase)

  /** The queue, the archive threads, and the names that early failure returns
      of the archiving function left behind. */
  datatype Control = Control(queue: Queue, workers: map<nat, Worker>, leaked: set<string>, failures: nat)

  /** A scan of the queue directory: the names that were there when it was opened,
      and those it will not come to any more: they were gone before, or have been
      read. */
  datatype Scan = Scan(present: set<string>, past: set<string>)

  /** Between two scans, in a scan, or in it with a name at hand. */
  datatype Monitor = Idle | Listing(scan: Scan) | Saw(name: string, scan: Scan) | NotBusy(name: string, scan: Scan)

  /** `carried` is what the buffers for the File ID and version hold: they are
      shared by all iterations of one scan. */
  datatype Cleaner =
    | Resting
    | Scanning(carried: Option<nat>)
    | Asking(file: string, fid: nat, written: nat)
    | Removing(file: string, fid: nat, written: nat)

  /** `stored` is every file ever stored, `available` those still there. */
  datatype Server = Server(stored: map<nat, int>, available: set<nat>)

  /** `stamps` are the time stamps each archive thread has used. */
  datatype State = State(
    files: Files, control: Control, monitor: Monitor, cleaner: Cleaner, server: Server, now: nat,
    stamps: set<(nat, string)>)

  /** `backLog`: the server may answer that it back-log buffered a file;
      `garbage`: the buffers of a clean-up scan may hold anything at first. */
  datatype Config = Config(
    capacity: nat, streams: nat, immediate: bool, timeOut: nat, backLog: bool, garbage: bool)

  const INIT := State(
    Files(map[], map[], map[], map[], map[]), Control(EMPTY, map[], {}, 0), Idle, Resting,
    Server(map[], {}), 0, {})

  const SEPARATOR := "___"
  const STATUS_EXT := "___STATUS.xml"
  const REMOVED_PREFIX := ".REMOVED_"

  function Target(stamp: string, name: string): string {
    stamp + SEPARATOR + name
  }

  function StatusFile(file: string): string {
    file + STATUS_EXT
  }

  /** An ISO 8601 time stamp has no underscore. */
  predicate IsStamp(stamp: string) {
    '_' !in stamp
  }

  predicate StatusExtAt(file: string, i: nat) {
    i + |STATUS_EXT| <= |file| && file[i..i + |STATUS_EXT|] == STATUS_EXT
  }

  predicate HasStatusExt(file: string) {
    exists i: nat | i <= |file| :: StatusExtAt(file, i)
  }

  // ---------------------------------------------------------------- directories

  function Produce(f: Files, name: string, entry: Entry): Files {
    f.(produced := f.produced[name := entry], queueDir := f.queueDir[name := entry],
       place := f.place[name := InQueue])
  }

  function Rename(f: Files, name: string, bad: bool, stamp: string): Files
    requires name in f.queueDir
  {
    var content := Moved(name, stamp, f.queueDir[name]);
    if bad then
      f.(queueDir := f.queueDir - {name}, badDir := f.badDir[Target(stamp, name) := content],
         place := f.place[name := InBad(stamp)])
    else
      f.(queueDir := f.queueDir - {name}, archivedDir := f.archivedDir[Target(stamp, name) := content],
         place := f.place[name := InArchived(stamp)])
  }

  /** The status document overwrites whatever has its name. */
  function SaveStatus(f: Files, w: Worker, now: nat): Files
    requires w.phase.Renamed?
  {
    var file := StatusFile(Target(w.phase.stamp, w.name));
    var ids := if w.phase.reply.Stored? then Some(w.phase.reply.fid) else None;
    var content := Status(w.name, w.phase.stamp, ids, now);
    if w.phase.bad then f.(badDir := f.badDir[file := content])
    else f.(archivedDir := f.archivedDir[file := content])
  }

  /** Rename to a hidden name in the queue directory, then remove that. */
  function Unlink(f: Files, name: string): Files {
    f.(queueDir := f.queueDir - {name, REMOVED_PREFIX + name},
       place := if name in f.queueDir then f.place[name := Deleted] else f.place)
  }

  function RemoveArchived(f: Files, file: string): Files
    requires file in f.archivedDir && f.archivedDir[file].Moved?
  {
    f.(archivedDir := f.archivedDir - {file, StatusFile(file)},
       place := f.place[f.archivedDir[file].name := Deleted])
  }

  // ---------------------------------------------------------------- scans

  function Opened(f: Files): Scan {
    Scan(f.queueDir.Keys, f.produced.Keys - f.queueDir.Keys)
  }

  function Passed(scan: Scan, name: string): Scan {
    scan.(past := scan.past + {name})
  }

  // ---------------------------------------------------------------- threads

  function Fetch(k: Control, t: nat): Control {
    k.(queue := Get(k.queue), workers := k.workers[t := Worker(Front(k.queue), Sending)])
  }

  function Advance(k: Control, t: nat, phase: Phase): Control
    requires t in k.workers
  {
    k.(workers := k.workers[t := k.workers[t].(phase := phase)])
  }

  /** The regular end of archiving a file: its entry leaves the queue. */
  function Finish(k: Control, t: nat): Control
    requires t in k.workers
  {
    k.(queue := Delete(k.queue, k.workers[t].name), workers := k.workers - {t})
  }

  /** An early failure return: the entry stays. */
  function Abandon(k: Control, t: nat): Control
    requires t in k.workers
  {
    k.(workers := k.workers - {t}, leaked := k.leaked + {k.workers[t].name}, failures := k.failures + 1)
  }

  // ---------------------------------------------------------------- steps

  datatype Action =
    | ProducerAdds(name: string, entry: Entry)
    | MonitorOpens
    | MonitorReads(name: string)
    | MonitorChecks
    | MonitorPuts
    | MonitorMovesLink(name: string, stamp: string)
    | MonitorCloses
    | ThreadFetches(t: nat)
    | ServerReplies(t: nat, reply: Reply)
    | ThreadRenames(t: nat, stamp: string)
    | ThreadSaves(t: nat)
    | ThreadUnlinks(t: nat)
    | ThreadFinishes(t: nat)
    | ThreadFails(t: nat)
    | CleanerOpens(garbage: Option<nat>)
    | CleanerLoads(file: string)
    | CleanerHears(ok: bool)
    | CleanerRemoves
    | CleanerCloses
    | ServerStores(fid: nat, data: int)
    | ServerDrops(fid: nat)
    | TimePasses(seconds: nat)

  predicate Sendable(produced: map<string, Entry>, name: string) {
    name in produced && !Hidden(name) && produced[name].kind.Regular?
  }

  /** Which replies make the client move the file, and where to. */
  predicate Moves(c: Config, reply: Reply) {
    reply.BadFile? || reply.BackLogged? || (reply.Stored? && !c.immediate)
  }

  predicate Working(s: State, t: nat) {
    t in s.control.workers
  }

  /** A positive reply for a file that is there means that the server stored
      it; for a file that has vanished any reply may come. */
  predicate Honest(s: State, name: string, reply: Reply) {
    reply.Stored? && name in s.files.queueDir ==>
      && reply.fid in s.server.stored
      && s.server.stored[reply.fid] == s.files.queueDir[name].data
  }

  /** The document beside an archived file that is old enough to go. */
  predicate Expired(c: Config, s: State, file: string) {
    && file in s.files.archivedDir && !Hidden(file) && !HasStatusExt(file)
    && s.files.archivedDir[file].Moved?
    && StatusFile(file) in s.files.archivedDir
    && s.files.archivedDir[StatusFile(file)].Status?
    && s.files.archivedDir[StatusFile(file)].written + c.timeOut <= s.now
  }

  /** A scan comes to every visible entry that is there all the time. */
  predicate AllRead(f: Files, scan: Scan) {
    forall n :: n in scan.present && n in f.queueDir && !Hidden(n) ==> n in scan.past
  }

  /** The counter gates the scans, and a scan reads no name twice.  A thread pauses
      after each file, so it never uses a time stamp twice. */
  predicate Enabled(c: Config, s: State, a: Action) {
    match a
    case ProducerAdds(name, _) => name != "" && name !in s.files.produced
    case MonitorOpens => s.monitor.Idle? && s.control.queue.count < 2 * c.streams
    case MonitorReads(name) =>
      s.monitor.Listing? && Sendable(s.files.produced, name) && name !in s.monitor.scan.past
    case MonitorChecks => s.monitor.Saw?
    case MonitorPuts => s.monitor.NotBusy?
    case MonitorMovesLink(name, stamp) =>
      && s.monitor.Listing? && name in s.files.queueDir && !Hidden(name) && name !in s.monitor.scan.past
      && s.files.queueDir[name].kind.Link? && IsStamp(stamp)
    case MonitorCloses => s.monitor.Listing? && AllRead(s.files, s.monitor.scan)
    case ThreadFetches(t) => t < c.streams && !Working(s, t) && s.control.queue.pending != []
    case ServerReplies(t, reply) =>
      && Working(s, t) && s.control.workers[t].phase.Sending?
      && Honest(s, s.control.workers[t].name, reply) && (reply.BackLogged? ==> c.backLog)
    case ThreadRenames(t, stamp) =>
      && Working(s, t) && s.control.workers[t].phase.Replied? && Moves(c, s.control.workers[t].phase.reply)
      && s.control.workers[t].name in s.files.queueDir && IsStamp(stamp) && (t, stamp) !in s.stamps
    case ThreadSaves(t) => Working(s, t) && s.control.workers[t].phase.Renamed?
    case ThreadUnlinks(t) =>
      && Working(s, t) && s.control.workers[t].phase.Replied? && s.control.workers[t].phase.reply.Stored?
      && c.immediate
    case ThreadFinishes(t) =>
      && Working(s, t)
      && (s.control.workers[t].phase.Finishing? || s.control.workers[t].phase == Replied(OtherError))
    case ThreadFails(t) =>
      && Working(s, t)
      && (s.control.workers[t].phase.Renamed? ||
          (s.control.workers[t].phase.Replied? && Moves(c, s.control.workers[t].phase.reply)))
    case CleanerOpens(garbage) => s.cleaner.Resting? && (garbage.Some? ==> c.garbage)
    case CleanerLoads(file) => s.cleaner.Scanning? && Expired(c, s, file)
    case CleanerHears(ok) => s.cleaner.Asking? && (ok ==> s.cleaner.fid in s.server.available)
    case CleanerRemoves =>
      s.cleaner.Removing? && s.cleaner.file in s.files.archivedDir && s.files.archivedDir[s.cleaner.file].Moved?
    case CleanerCloses => s.cleaner.Scanning?
    case ServerStores(fid, _) => fid !in s.server.stored
    case ServerDrops(_) => true
    case TimePasses(_) => true
  }

  /** The identifiers the clean-up thread uses for a file: those of its status
      document or, when the document has none, whatever the buffers hold. */
  function Identifiers(s: State, file: string): Option<nat>
    requires s.cleaner.Scanning?
    requires StatusFile(file) in s.files.archivedDir && s.files.archivedDir[StatusFile(file)].Status?
  {
    var doc := s.files.archivedDir[StatusFile(file)];
    if doc.ids.Some? then doc.ids else s.cleaner.carried
  }

  function Load(s: State, file: string): Cleaner
    requires s.cleaner.Scanning?
    requires StatusFile(file) in s.files.archivedDir && s.files.archivedDir[StatusFile(file)].Status?
  {
    match Identifiers(s, file)
    case None => Scanning(None)
    case Some(fid) => Asking(file, fid, s.files.archivedDir[StatusFile(file)].written)
  }

  function Step(c: Config, s: State, a: Action): State
    requires Enabled(c, s, a)
  {
    match a
    case ProducerAdds(name, entry) => s.(files := Produce(s.files, name, entry))
    case MonitorOpens => s.(monitor := Listing(Opened(s.files)))
    case MonitorReads(name) => s.(monitor := Saw(name, Passed(s.monitor.scan, name)))
    case MonitorChecks =>
      s.(monitor := if Busy(s.control.queue, s.monitor.name) then Listing(s.monitor.scan)
                    else NotBusy(s.monitor.name, s.monitor.scan))
    case MonitorPuts =>
      s.(control := s.control.(queue := Put(s.control.queue, c.capacity, s.monitor.name)),
         monitor := Listing(s.monitor.scan))
    case MonitorMovesLink(name, stamp) =>
      s.(files := Rename(s.files, name, true, stamp), monitor := Listing(Passed(s.monitor.scan, name)))
    case MonitorCloses => s.(monitor := Idle)
    case ThreadFetches(t) => s.(control := Fetch(s.control, t))
    case ServerReplies(t, reply) => s.(control := Advance(s.control, t, Replied(reply)))
    case ThreadRenames(t, stamp) =>
      var w := s.control.workers[t];
      s.(files := Rename(s.files, w.name, w.phase.reply.BadFile?, stamp),
         control := Advance(s.control, t, Renamed(w.phase.reply, w.phase.reply.BadFile?, stamp)),
         stamps := s.stamps + {(t, stamp)})
    case ThreadSaves(t) =>
      s.(files := SaveStatus(s.files, s.control.workers[t], s.now), control := Advance(s.control, t, Finishing))
    case ThreadUnlinks(t) =>
      s.(files := Unlink(s.files, s.control.workers[t].name), control := Advance(s.control, t, Finishing))
    case ThreadFinishes(t) => s.(control := Finish(s.control, t))
    case ThreadFails(t) => s.(control := Abandon(s.control, t))
    case CleanerOpens(garbage) => s.(cleaner := Scanning(garbage))
    case CleanerLoads(file) => s.(cleaner := Load(s, file))
    case CleanerHears(ok) =>
      s.(cleaner := if ok then Removing(s.cleaner.file, s.cleaner.fid, s.cleaner.written)
                    else Scanning(Some(s.cleaner.fid)))
    case CleanerRemoves =>
      s.(files := RemoveArchived(s.files, s.cleaner.file), cleaner := Scanning(Some(s.cleaner.fid)))
    case CleanerCloses => s.(cleaner := Resting)
    case ServerStores(fid, data) =>
      s.(server := s.server.(stored := s.server.stored[fid := data], available := s.server.available + {fid}))
    case ServerDrops(fid) => s.(server := s.server.(available := s.server.available - {fid}))
    case TimePasses(seconds) => s.(now := s.now + seconds)
  }

  /** The runs of the client. */
  ghost predicate IsRun(c: Config, run: seq<Action>)
    decreases |run|, 0
  {
    run == [] || (IsRun(c, run[..|run| - 1]) && Enabled(c, After(c, run[..|run| - 1]), run[|run| - 1]))
  }

  ghost function After(c: Config, run: seq<Action>): State
    requires IsRun(c, run)
    decreases |run|, 1
  {
    if run == [] then INIT else Step(c, After(c, run[..|run| - 1]), run[|run| - 1])
  }

  lemma Extend(c: Config, run: seq<Action>, a: Action)
    requires IsRun(c, run) && Enabled(c, After(c, run), a)
    ensures IsRun(c, run + [a]) && After(c, run + [a]) == Step(c, After(c, run), a)
  {
    assert (run + [a])[..|run|] == run;
  }
}
