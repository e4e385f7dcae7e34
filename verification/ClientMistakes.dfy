/** Exactly when the clean-up thread never removes a file whose status document
    has no identifiers: the back-log buffered files it is meant to pass over. */
module ClientMistakes {
  import opened ArchiveQueue
  import opened ArchiveClient
  import opened ClientExclusion
  import opened ClientHistory
  import opened ClientNoLoss
  import opened ClientLosses
  import opened Options

  /** The clean-up thread is about to remove a file whose own document has no File
      ID and version. */
  predicate RemovesUndocumented(c: Config, s: State) {
    && Enabled(c, s, CleanerRemoves)
    && StatusFile(s.cleaner.file) in s.files.archivedDir
    && s.files.archivedDir[StatusFile(s.cleaner.file)].Status?
    && s.files.archivedDir[StatusFile(s.cleaner.file)].ids.None?
  }

  ghost predicate Spares(c: Config, P: map<string, Entry>) {
    forall run :: IsRun(c, run) && AddsOnly(run, P) ==>
      !RemovesUndocumented(c, After(c, run))
  }

  /** No identifiers of another file can be mistaken for those of a back-log
      buffered one. */
  ghost predicate NoneToMistake(c: Config, P: map<string, Entry>) {
    c.backLog ==>
      if c.garbage then forall n :: n in P ==> !LookedAt(P, n)
      else c.immediate || forall n, m :: LookedAt(P, n) && LookedAt(P, m) ==> n == m
  }

  // ---------------------------------------------------------------- invariant

  ghost predicate EntryShape(c: Config, f: Files, file: string, content: Content) {
    && IsStamp(content.stamp) && Sendable(f.produced, content.name) && content.name !in f.queueDir
    && match content
       case Moved(n, stamp, _) => file == Target(stamp, n)
       case Status(n, stamp, ids, _) =>
         file == StatusFile(Target(stamp, n)) && if ids.Some? then !c.immediate else c.backLog
  }

  ghost predicate ShapeInv(c: Config, f: Files) {
    forall file :: file in f.archivedDir ==> EntryShape(c, f, file, f.archivedDir[file])
  }

  predicate IsDoc(f: Files, file: string, n: string) {
    file in f.archivedDir && f.archivedDir[file].Status? && f.archivedDir[file].name == n
  }

  /** A file is renamed once, so one document is written for it. */
  ghost predicate OneDoc(f: Files) {
    forall a, b, n :: IsDoc(f, a, n) && IsDoc(f, b, n) ==> a == b
  }

  ghost predicate WorkerShape(c: Config, f: Files, w: Worker) {
    match w.phase
    case Replied(reply) => reply.BackLogged? ==> c.backLog
    case Renamed(reply, bad, stamp) =>
      && IsStamp(stamp) && bad == reply.BadFile? && Moves(c, reply) && (reply.BackLogged? ==> c.backLog)
      && w.name !in f.queueDir && forall file :: !IsDoc(f, file, w.name)
    case _ => true
  }

  ghost predicate WorkersShape(c: Config, f: Files, k: Control) {
    forall t :: t in k.workers ==> WorkerShape(c, f, k.workers[t])
  }

  /** The document of n, if there is one, has identifiers, and none is to come. */
  ghost predicate Documented(s: State, n: string) {
    && LookedAt(s.files.produced, n) && n !in s.files.queueDir
    && (forall t :: t in s.control.workers && s.control.workers[t].phase.Renamed? ==> s.control.workers[t].name != n)
    && (forall file :: IsDoc(s.files, file, n) ==> s.files.archivedDir[file].ids.Some?)
  }

  /** Where the identifiers in the buffers come from. */
  ghost predicate Source(c: Config, s: State) {
    c.garbage || (!c.immediate && exists n :: Documented(s, n))
  }

  ghost predicate LookedAtFile(f: Files, file: string) {
    exists n, stamp :: LookedAt(f.produced, n) && IsStamp(stamp) && file == Target(stamp, n)
  }

  ghost predicate CleanerShape(c: Config, s: State) {
    match s.cleaner
    case Resting => true
    case Scanning(carried) => carried.Some? ==> Source(c, s)
    case Asking(file, _, _) => Source(c, s) && LookedAtFile(s.files, file)
    case Removing(file, _, _) => Source(c, s) && LookedAtFile(s.files, file)
  }

  ghost predicate DocsInv(c: Config, s: State) {
    ShapeInv(c, s.files) && OneDoc(s.files) && WorkersShape(c, s.files, s.control)
  }

  // ---------------------------------------------------------------- steps

  /** The document a thread saves in the archived directory. */
  predicate Saves(s: State, a: Action, file: string) {
    && a.ThreadSaves? && Working(s, a.t) && s.control.workers[a.t].phase.Renamed? && !s.control.workers[a.t].phase.bad
    && file == StatusFile(Target(s.control.workers[a.t].phase.stamp, s.control.workers[a.t].name))
  }

  lemma NewDocs(c: Config, s: State, a: Action, file: string, n: string)
    requires Enabled(c, s, a) && IsDoc(Step(c, s, a).files, file, n)
    ensures if Saves(s, a, file) then n == s.control.workers[a.t].name
            else IsDoc(s.files, file, n) && Step(c, s, a).files.archivedDir[file] == s.files.archivedDir[file]
  {}

  lemma FilesGrow(c: Config, s: State, a: Action, n: string)
    requires Enabled(c, s, a) && n in s.files.produced
    ensures n in Step(c, s, a).files.produced && Step(c, s, a).files.produced[n] == s.files.produced[n]
    ensures n !in s.files.queueDir ==> n !in Step(c, s, a).files.queueDir
  {}

  lemma EntryStays(c: Config, s: State, a: Action, file: string, content: Content)
    requires Enabled(c, s, a) && EntryShape(c, s.files, file, content)
    ensures EntryShape(c, Step(c, s, a).files, file, content)
  {
    FilesGrow(c, s, a, content.name);
  }

  lemma StepKeepsShape(c: Config, s: State, a: Action)
    requires Enabled(c, s, a) && DocsInv(c, s) && NamesInv(s) && ControlInv(c, s.control)
    ensures ShapeInv(c, Step(c, s, a).files)
  {
    var r := Step(c, s, a);
    forall file | file in r.files.archivedDir ensures EntryShape(c, r.files, file, r.files.archivedDir[file]) {
      if file in s.files.archivedDir && r.files.archivedDir[file] == s.files.archivedDir[file] {
        EntryStays(c, s, a, file, s.files.archivedDir[file]);
      } else {
        NewEntry(c, s, a, file);
      }
    }
  }

  lemma NewEntry(c: Config, s: State, a: Action, file: string)
    requires Enabled(c, s, a) && DocsInv(c, s) && NamesInv(s) && ControlInv(c, s.control)
    requires file in Step(c, s, a).files.archivedDir
    requires file !in s.files.archivedDir || Step(c, s, a).files.archivedDir[file] != s.files.archivedDir[file]
    ensures EntryShape(c, Step(c, s, a).files, file, Step(c, s, a).files.archivedDir[file])
  {
    assert a.ThreadRenames? || a.ThreadSaves?;
    var w := s.control.workers[a.t];
    assert w.name in Held(s.control.workers) && Known(s.files, w.name);
    assert WorkerShape(c, s.files, w);
  }

  lemma StepKeepsOneDoc(c: Config, s: State, a: Action)
    requires Enabled(c, s, a) && DocsInv(c, s)
    ensures OneDoc(Step(c, s, a).files)
  {
    var r := Step(c, s, a);
    forall x, y, n | IsDoc(r.files, x, n) && IsDoc(r.files, y, n) ensures x == y {
      NewDocs(c, s, a, x, n);
      NewDocs(c, s, a, y, n);
      if a.ThreadSaves? {
        assert WorkerShape(c, s.files, s.control.workers[a.t]);
      }
    }
  }

  lemma WorkerStays(c: Config, s: State, a: Action, t: nat)
    requires Enabled(c, s, a) && ControlInv(c, s.control) && NamesInv(s)
    requires t in s.control.workers && WorkerShape(c, s.files, s.control.workers[t])
    requires t in Step(c, s, a).control.workers && Step(c, s, a).control.workers[t] == s.control.workers[t]
    ensures WorkerShape(c, Step(c, s, a).files, s.control.workers[t])
  {
    var w, r := s.control.workers[t], Step(c, s, a);
    if w.phase.Renamed? {
      assert w.name in Held(s.control.workers) && Known(s.files, w.name);
      FilesGrow(c, s, a, w.name);
      forall file ensures !IsDoc(r.files, file, w.name) {
        if IsDoc(r.files, file, w.name) {
          NewDocs(c, s, a, file, w.name);
        }
      }
    }
  }

  /** When a file is renamed it has no document yet. */
  lemma RenamedShape(c: Config, s: State, t: nat, stamp: string)
    requires Enabled(c, s, ThreadRenames(t, stamp)) && DocsInv(c, s)
    ensures var r := Step(c, s, ThreadRenames(t, stamp)); WorkerShape(c, r.files, r.control.workers[t])
  {
    var w, r := s.control.workers[t], Step(c, s, ThreadRenames(t, stamp));
    assert WorkerShape(c, s.files, w);
    NoDocYet(c, s.files, w.name);
    forall file ensures !IsDoc(r.files, file, w.name) {
      if IsDoc(r.files, file, w.name) {
        NewDocs(c, s, ThreadRenames(t, stamp), file, w.name);
      }
    }
  }

  lemma NoDocYet(c: Config, f: Files, n: string)
    requires ShapeInv(c, f) && n in f.queueDir
    ensures forall file :: !IsDoc(f, file, n)
  {}

  lemma StepKeepsWorkersShape(c: Config, s: State, a: Action)
    requires Enabled(c, s, a) && DocsInv(c, s) && ControlInv(c, s.control) && NamesInv(s)
    ensures WorkersShape(c, Step(c, s, a).files, Step(c, s, a).control)
  {
    var r := Step(c, s, a);
    forall t | t in r.control.workers ensures WorkerShape(c, r.files, r.control.workers[t]) {
      if t in s.control.workers && r.control.workers[t] == s.control.workers[t] {
        WorkerStays(c, s, a, t);
      } else if a.ThreadRenames? {
        RenamedShape(c, s, t, a.stamp);
      }
    }
  }

  lemma DocumentedStays(c: Config, s: State, a: Action, n: string)
    requires Enabled(c, s, a) && Documented(s, n)
    ensures Documented(Step(c, s, a), n)
  {
    var r := Step(c, s, a);
    FilesGrow(c, s, a, n);
    forall file | IsDoc(r.files, file, n) ensures r.files.archivedDir[file].ids.Some? {
      NewDocs(c, s, a, file, n);
    }
  }

  lemma SourceStays(c: Config, s: State, a: Action)
    requires Enabled(c, s, a) && Source(c, s)
    ensures Source(c, Step(c, s, a))
  {
    if !c.garbage {
      var n :| Documented(s, n);
      DocumentedStays(c, s, a, n);
    }
  }

  lemma LookedAtStays(c: Config, s: State, a: Action, file: string)
    requires Enabled(c, s, a) && LookedAtFile(s.files, file)
    ensures LookedAtFile(Step(c, s, a).files, file)
  {
    var n, stamp :| LookedAt(s.files.produced, n) && IsStamp(stamp) && file == Target(stamp, n);
    FilesGrow(c, s, a, n);
    assert LookedAt(Step(c, s, a).files.produced, n);
  }

  /** The identifiers loaded are the file's own, and then it is documented, or
      they were there before. */
  lemma LoadedShape(c: Config, s: State, file: string)
    requires Enabled(c, s, CleanerLoads(file)) && DocsInv(c, s) && CleanerShape(c, s)
    ensures CleanerShape(c, Step(c, s, CleanerLoads(file)))
  {
    var content, doc := s.files.archivedDir[file], s.files.archivedDir[StatusFile(file)];
    assert EntryShape(c, s.files, file, content) && EntryShape(c, s.files, StatusFile(file), doc);
    PassedOverTarget(content.stamp, content.name);
    assert LookedAtFile(s.files, file);
    SameDocName(content.stamp, content.name, doc.stamp, doc.name);
    assert IsDoc(s.files, StatusFile(file), content.name);
    if doc.ids.Some? {
      forall t | t in s.control.workers && s.control.workers[t].phase.Renamed?
        ensures s.control.workers[t].name != content.name
      {
        assert WorkerShape(c, s.files, s.control.workers[t]);
      }
      assert Documented(s, content.name);
    }
    var r := Step(c, s, CleanerLoads(file));
    if Identifiers(s, file).Some? {
      SourceStays(c, s, CleanerLoads(file));
      LookedAtStays(c, s, CleanerLoads(file), file);
    }
  }

  lemma SameDocName(stamp: string, n: string, stamp': string, n': string)
    requires IsStamp(stamp) && IsStamp(stamp')
    requires StatusFile(Target(stamp, n)) == StatusFile(Target(stamp', n'))
    ensures stamp == stamp' && n == n'
  {
    StatusIsTarget(stamp, n);
    StatusIsTarget(stamp', n');
    TargetInjective(stamp, n + STATUS_EXT, stamp', n' + STATUS_EXT);
    assert (n + STATUS_EXT)[..|n|] == n && (n' + STATUS_EXT)[..|n'|] == n';
  }

  lemma StepKeepsCleanerShape(c: Config, s: State, a: Action)
    requires Enabled(c, s, a) && DocsInv(c, s) && CleanerShape(c, s)
    ensures CleanerShape(c, Step(c, s, a))
  {
    if a.CleanerLoads? {
      LoadedShape(c, s, a.file);
    } else {
      if Source(c, s) {
        SourceStays(c, s, a);
      }
      if s.cleaner.Asking? || s.cleaner.Removing? {
        LookedAtStays(c, s, a, s.cleaner.file);
      }
    }
  }

  lemma {:induction false} DocsKept(c: Config, run: seq<Action>)
    requires IsRun(c, run)
    ensures DocsInv(c, After(c, run)) && CleanerShape(c, After(c, run))
  {
    if run != [] {
      var front, a := run[..|run| - 1], run[|run| - 1];
      DocsKept(c, front);
      ThreadsExclude(c, front);
      StepKeepsShape(c, After(c, front), a);
      StepKeepsOneDoc(c, After(c, front), a);
      StepKeepsWorkersShape(c, After(c, front), a);
      StepKeepsCleanerShape(c, After(c, front), a);
    }
  }

  // ---------------------------------------------------------------- theorem

  lemma NoMistake(c: Config, s: State)
    requires DocsInv(c, s) && CleanerShape(c, s) && NoneToMistake(c, s.files.produced)
    ensures !RemovesUndocumented(c, s)
  {
    if RemovesUndocumented(c, s) {
      var n, stamp :| LookedAt(s.files.produced, n) && IsStamp(stamp) && s.cleaner.file == Target(stamp, n);
      OwnDocument(c, s.files, n, stamp);
    }
  }

  lemma OwnDocument(c: Config, f: Files, n: string, stamp: string)
    requires ShapeInv(c, f) && IsStamp(stamp)
    requires var file := StatusFile(Target(stamp, n)); file in f.archivedDir && f.archivedDir[file].Status?
    ensures IsDoc(f, StatusFile(Target(stamp, n)), n)
  {
    var doc := f.archivedDir[StatusFile(Target(stamp, n))];
    assert EntryShape(c, f, StatusFile(Target(stamp, n)), doc);
    SameDocName(stamp, n, doc.stamp, doc.name);
  }

  lemma SparesWhenNone(c: Config, P: map<string, Entry>)
    requires NoneToMistake(c, P)
    ensures Spares(c, P)
  {
    forall run | IsRun(c, run) && AddsOnly(run, P)
      ensures !RemovesUndocumented(c, After(c, run))
    {
      var produced := After(c, run).files.produced;
      forall n | n in produced ensures n in P && P[n] == produced[n] {
        ProducedExactly(c, run, n, produced[n]);
      }
      assert forall n :: LookedAt(produced, n) ==> LookedAt(P, n);
      DocsKept(c, run);
      NoMistake(c, After(c, run));
    }
  }

  lemma SparesNot(c: Config, P: map<string, Entry>, run: seq<Action>)
    requires IsRun(c, run) && RemovesUndocumented(c, After(c, run))
    requires forall n :: n in After(c, run).files.produced ==> n in P && P[n] == After(c, run).files.produced[n]
    ensures !Spares(c, P)
  {
    AddsOnlyProduced(c, run, P);
  }

  lemma Hear(c: Config, run: seq<Action>, n: string, stamp: string, fid: nat) returns (more: seq<Action>)
    requires IsRun(c, run) && After(c, run).cleaner.Scanning? && fid in After(c, run).server.available
    requires Expired(c, After(c, run), Target(stamp, n))
    requires Identifiers(After(c, run), Target(stamp, n)) == Some(fid)
    ensures IsRun(c, more) && After(c, more).files == After(c, run).files
    ensures After(c, more).cleaner.Removing? && After(c, more).cleaner.file == Target(stamp, n)
  {
    more := Then(c, run, CleanerLoads(Target(stamp, n)));
    more := Then(c, more, CleanerHears(true));
  }

  /** With arbitrary buffers one back-log buffered file is enough. */
  lemma GarbageMistakes(c: Config, n: string, en: Entry) returns (run: seq<Action>)
    requires 1 <= c.streams && 1 <= c.capacity && n != "" && c.backLog && c.garbage
    requires LookedAt(map[n := en], n)
    ensures IsRun(c, run) && After(c, run).files.produced == map[n := en]
    ensures RemovesUndocumented(c, After(c, run))
  {
    run := BackLogOne(c, n, en);
    run := Expire(c, run, Some(0));
    TwoStamps();
    StampedLookedAt(n, STAMP);
    run := Hear(c, run, n, STAMP, 0);
  }

  /** With clean buffers another archived file is needed, whatever its data. */
  lemma NeighbourMistakes(c: Config, n: string, m: string, en: Entry, em: Entry) returns (run: seq<Action>)
    requires 1 <= c.streams && 1 <= c.capacity && c.backLog && !c.immediate && n != "" && m != "" && n != m
    requires LookedAt(map[n := en, m := em], n) && LookedAt(map[n := en, m := em], m)
    ensures IsRun(c, run) && After(c, run).files.produced == map[n := en, m := em]
    ensures RemovesUndocumented(c, After(c, run))
  {
    run := CleanFirst(c, n, m, en, em);
    run := Hear(c, run, m, LATER, 0);
  }

  /** No run that adds only files of P removes a file whose document has no
      identifiers if and only if the server does not back-log buffer, or no file
      is looked at while buffers may hold anything, or buffers are clean and
      clean-up is immediate or looks at one file at most. */
  lemma SparesExactly(c: Config, P: map<string, Entry>)
    requires 1 <= c.streams && 1 <= c.capacity && "" !in P
    ensures Spares(c, P) <==> NoneToMistake(c, P)
  {
    if NoneToMistake(c, P) {
      SparesWhenNone(c, P);
    } else if c.garbage {
      var n :| n in P && LookedAt(P, n);
      var run := GarbageMistakes(c, n, P[n]);
      SparesNot(c, P, run);
    } else {
      var n, m :| LookedAt(P, n) && LookedAt(P, m) && n != m;
      var run := NeighbourMistakes(c, n, m, P[n], P[m]);
      SparesNot(c, P, run);
    }
  }
}
