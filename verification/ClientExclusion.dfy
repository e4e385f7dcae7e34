/** What every interleaving of the archive client keeps about its queue: the
    ring and the two name sets agree, no two archive threads hold the same
    file, and the counter is bounded. */
module ClientExclusion {
  import opened ArchiveQueue
  import opened ArchiveClient

  /** The names archive threads are working on. */
  function Held(workers: map<nat, Worker>): set<string> {
    set t | t in workers :: workers[t].name
  }

  ghost predicate Exclusive(workers: map<nat, Worker>) {
    forall t, u :: t in workers && u in workers && t != u ==> workers[t].name != workers[u].name
  }

  ghost predicate ControlInv(c: Config, k: Control) {
    && Consistent(k.queue, c.capacity)
    && (forall t :: t in k.workers ==> t < c.streams)
    && Exclusive(k.workers)
    && Held(k.workers) !! k.leaked
    && k.queue.processing == Held(k.workers) + k.leaked
    && |k.leaked| <= k.failures
  }

  lemma HeldWith(workers: map<nat, Worker>, t: nat, w: Worker)
    requires t !in workers
    ensures Held(workers[t := w]) == Held(workers) + {w.name}
  {
    var more := workers[t := w];
    assert more[t].name == w.name;
    forall name | name in Held(workers) ensures name in Held(more) {
      var u :| u in workers && workers[u].name == name;
      assert more[u].name == name;
    }
  }

  lemma HeldSize(workers: map<nat, Worker>, streams: nat)
    requires forall t :: t in workers ==> t < streams
    ensures |Held(workers)| <= streams
    decreases streams
  {
    if streams == 0 {
      assert Held(workers) == {};
    } else {
      var rest := workers - {streams - 1};
      HeldSize(rest, streams - 1);
      if streams - 1 in workers {
        HeldWith(rest, streams - 1, workers[streams - 1]);
        assert workers == rest[streams - 1 := workers[streams - 1]];
      } else {
        assert rest == workers;
      }
    }
  }

  lemma FetchKeeps(c: Config, k: Control, t: nat)
    requires ControlInv(c, k) && t < c.streams && t !in k.workers && k.queue.pending != []
    ensures ControlInv(c, Fetch(k, t))
  {
    var front := k.queue.pending[0];
    assert front in k.queue.pending;
    GetConsistent(k.queue, c.capacity);
    FetchedWorkers(k.workers, t, Worker(front, Sending));
    FetchedSets(Held(k.workers), k.leaked, front);
  }

  lemma FetchedSets(held: set<string>, leaked: set<string>, front: string)
    requires held !! leaked && front !in held + leaked
    ensures held + {front} !! leaked && held + {front} + leaked == held + leaked + {front}
  {}

  lemma FetchedWorkers(workers: map<nat, Worker>, t: nat, w: Worker)
    requires Exclusive(workers) && t !in workers && w.name !in Held(workers)
    ensures Exclusive(workers[t := w]) && Held(workers[t := w]) == Held(workers) + {w.name}
  {
    HeldWith(workers, t, w);
    ExclusiveWith(workers, t, w);
  }

  lemma ExclusiveWith(workers: map<nat, Worker>, t: nat, w: Worker)
    requires Exclusive(workers) && t !in workers && w.name !in Held(workers)
    ensures Exclusive(workers[t := w])
  {
    forall u | u in workers ensures workers[u].name != w.name {
      assert workers[u].name in Held(workers);
    }
  }

  lemma AdvanceKeeps(c: Config, k: Control, t: nat, phase: Phase)
    requires ControlInv(c, k) && t in k.workers
    ensures ControlInv(c, ArchiveClient.Advance(k, t, phase))
  {
    var r := ArchiveClient.Advance(k, t, phase);
    assert forall u :: u in k.workers <==> u in r.workers;
    assert forall u :: u in k.workers ==> r.workers[u].name == k.workers[u].name;
    assert Held(r.workers) == Held(k.workers);
  }

  lemma HeldWithout(workers: map<nat, Worker>, t: nat)
    requires t in workers && Exclusive(workers)
    ensures Held(workers - {t}) == Held(workers) - {workers[t].name}
  {
    var rest := workers - {t};
    forall n | n in Held(workers) - {workers[t].name} ensures n in Held(rest) {
      var u :| u in workers && workers[u].name == n;
      assert u in rest && rest[u].name == n;
    }
  }

  lemma FinishKeeps(c: Config, k: Control, t: nat)
    requires ControlInv(c, k) && t in k.workers
    ensures ControlInv(c, Finish(k, t))
    ensures Finish(k, t).queue.count == k.queue.count - 1
  {
    HeldWithout(k.workers, t);
    DeleteConsistent(k.queue, c.capacity, k.workers[t].name);
    assert k.workers[t].name in Held(k.workers);
  }

  lemma AbandonKeeps(c: Config, k: Control, t: nat)
    requires ControlInv(c, k) && t in k.workers
    ensures ControlInv(c, Abandon(k, t))
  {
    var r, name := Abandon(k, t), k.workers[t].name;
    HeldWithout(k.workers, t);
    assert name in Held(k.workers);
    assert r.leaked == k.leaked + {name} && Held(r.workers) == Held(k.workers) - {name};
    assert forall u :: u in r.workers ==> r.workers[u] == k.workers[u];
  }

  lemma StepKeepsControl(c: Config, s: State, a: Action)
    requires Enabled(c, s, a) && ControlInv(c, s.control)
    requires s.monitor.NotBusy? ==> s.monitor.name != ""
    ensures ControlInv(c, Step(c, s, a).control)
  {
    match a {
      case MonitorPuts => PutConsistent(s.control.queue, c.capacity, s.monitor.name);
      case ThreadFetches(t) => FetchKeeps(c, s.control, t);
      case ServerReplies(t, reply) => AdvanceKeeps(c, s.control, t, Replied(reply));
      case ThreadRenames(t, _) => AdvanceKeeps(c, s.control, t, Step(c, s, a).control.workers[t].phase);
      case ThreadSaves(t) => AdvanceKeeps(c, s.control, t, Finishing);
      case ThreadUnlinks(t) => AdvanceKeeps(c, s.control, t, Finishing);
      case ThreadFinishes(t) => FinishKeeps(c, s.control, t);
      case ThreadFails(t) => AbandonKeeps(c, s.control, t);
      case _ =>
    }
  }

  ghost predicate Known(f: Files, name: string) {
    name != "" && Sendable(f.produced, name)
  }

  /** The monitor thread and the queue only know files a producer added. */
  ghost predicate NamesInv(s: State) {
    && "" !in s.files.produced
    && (s.monitor.Saw? || s.monitor.NotBusy? ==> Known(s.files, s.monitor.name))
    && (forall name :: name in s.control.queue.pending || name in s.control.queue.processing ==> Known(s.files, name))
  }

  lemma StepKeepsNames(c: Config, s: State, a: Action)
    requires Enabled(c, s, a) && NamesInv(s)
    ensures NamesInv(Step(c, s, a))
  {
    var r := Step(c, s, a);
    match a {
      case MonitorPuts =>
        forall name | name in r.control.queue.pending && name !in s.control.queue.pending
          ensures name == s.monitor.name
        {}
      case _ =>
    }
  }

  /** In every reachable state of every interleaving the queue is consistent,
      archive threads hold distinct files, and exactly these files and the ones
      left behind by failure returns are marked as being processed. */
  lemma {:induction false} ThreadsExclude(c: Config, run: seq<Action>)
    requires IsRun(c, run)
    ensures ControlInv(c, After(c, run).control) && NamesInv(After(c, run))
  {
    if run == [] {
      assert Held(map[]) == {};
    } else {
      var front, a := run[..|run| - 1], run[|run| - 1];
      ThreadsExclude(c, front);
      StepKeepsControl(c, After(c, front), a);
      StepKeepsNames(c, After(c, front), a);
    }
  }

  /** The counter that gates the scans: the ring, the threads, and one entry
      for ever for each failure return. */
  lemma CountBounded(c: Config, run: seq<Action>)
    requires IsRun(c, run)
    ensures
      var k := After(c, run).control;
      && k.queue.count == |k.queue.pending| + |Held(k.workers)| + |k.leaked|
      && k.queue.count <= c.capacity + c.streams + k.failures
  {
    ThreadsExclude(c, run);
    var k := After(c, run).control;
    HeldSize(k.workers, c.streams);
    assert |k.queue.processing| == |Held(k.workers)| + |k.leaked|;
  }
}
