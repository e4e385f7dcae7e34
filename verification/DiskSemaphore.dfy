/** Concurrent updates of disk counters, interleaved at the granularity of
    single queries, under the global database semaphore. */
module DiskSemaphore {

  datatype Counters = Counters(numberOfFiles: int, bytesStored: int)

  datatype Phase = Waiting | Holding | HasRead(seen: Counters) | HasWritten | HasReleased
  datatype Call = Call(diskId: string, size: nat, phase: Phase)

  datatype State = State(permits: int, disks: map<string, Counters>, calls: map<nat, Call>)

  datatype Action =
    | Begin(t: nat, diskId: string, size: nat)
    | Acquire(t: nat)
    | Read(t: nat)
    | Write(t: nat)
    | Release(t: nat)
    | QueryFails(t: nat)
    | TriggerReturns(t: nat)
    | TriggerRaises(t: nat)

  function Initial(disks: map<string, Counters>): State {
    State(1, disks, map[])
  }

  predicate Critical(call: Call) {
    call.phase.Holding? || call.phase.HasRead? || call.phase.HasWritten?
  }

  /** `mayRaise`: informing the listeners of a change can raise. */
  predicate Enabled(mayRaise: bool, s: State, a: Action) {
    (if a.Begin? then a.t !in s.calls else a.t in s.calls) &&
      match a
      case Acquire(t) => s.calls[t].phase.Waiting? && 0 < s.permits
      case Read(t) => s.calls[t].phase.Holding?
      case Write(t) => s.calls[t].phase.HasRead?
      case Release(t) => s.calls[t].phase.HasWritten?
      case QueryFails(t) => s.calls[t].phase.Holding? || s.calls[t].phase.HasRead?
      case TriggerReturns(t) => s.calls[t].phase.HasReleased?
      case TriggerRaises(t) => s.calls[t].phase.HasReleased? && mayRaise
      case Begin(_, _, _) => true
  }

  function To(s: State, t: nat, phase: Phase): map<nat, Call>
    requires t in s.calls
  {
    s.calls[t := s.calls[t].(phase := phase)]
  }

  /** Every exception handler releases the semaphore, also when the exception
      came after the release. */
  function Step(mayRaise: bool, s: State, a: Action): State
    requires Enabled(mayRaise, s, a)
  {
    match a
    case Begin(t, diskId, size) => s.(calls := s.calls[t := Call(diskId, size, Waiting)])
    case Acquire(t) => s.(permits := s.permits - 1, calls := To(s, t, Holding))
    case Read(t) =>
      var diskId := s.calls[t].diskId;
      if diskId in s.disks then s.(calls := To(s, t, HasRead(s.disks[diskId])))
      else s.(permits := s.permits + 1, calls := s.calls - {t})
    case Write(t) =>
      var call, seen := s.calls[t], s.calls[t].phase.seen;
      s.(disks := s.disks[call.diskId := Counters(seen.numberOfFiles + 1, seen.bytesStored + call.size)],
         calls := To(s, t, HasWritten))
    case Release(t) => s.(permits := s.permits + 1, calls := To(s, t, HasReleased))
    case QueryFails(t) => s.(permits := s.permits + 1, calls := s.calls - {t})
    case TriggerReturns(t) => s.(calls := s.calls - {t})
    case TriggerRaises(t) => s.(permits := s.permits + 1, calls := s.calls - {t})
  }

  ghost predicate IsRun(mayRaise: bool, disks: map<string, Counters>, run: seq<Action>)
    decreases |run|, 0
  {
    run == [] ||
    (IsRun(mayRaise, disks, run[..|run| - 1]) &&
     Enabled(mayRaise, After(mayRaise, disks, run[..|run| - 1]), run[|run| - 1]))
  }

  ghost function After(mayRaise: bool, disks: map<string, Counters>, run: seq<Action>): State
    requires IsRun(mayRaise, disks, run)
    decreases |run|, 1
  {
    if run == [] then Initial(disks)
    else Step(mayRaise, After(mayRaise, disks, run[..|run| - 1]), run[|run| - 1])
  }

  /** The disk and the size with which the last call of a thread began. */
  function Asked(run: seq<Action>, t: nat): (string, nat) {
    if run == [] then ("", 0)
    else
      var a := run[|run| - 1];
      if a.Begin? && a.t == t then (a.diskId, a.size) else Asked(run[..|run| - 1], t)
  }

  /** The UPDATE statements of a run for a disk: their number, and the sum of the
      sizes their calls began with. */
  function Files(run: seq<Action>, diskId: string): nat {
    if run == [] then 0
    else
      var front, a := run[..|run| - 1], run[|run| - 1];
      Files(front, diskId) + if a.Write? && Asked(front, a.t).0 == diskId then 1 else 0
  }

  function Bytes(run: seq<Action>, diskId: string): nat {
    if run == [] then 0
    else
      var front, a := run[..|run| - 1], run[|run| - 1];
      Bytes(front, diskId) + if a.Write? && Asked(front, a.t).0 == diskId then Asked(front, a.t).1 else 0
  }

  /** No update is lost: each disk has grown by all that was written for it. */
  ghost predicate AllCounted(disks: map<string, Counters>, run: seq<Action>, now: map<string, Counters>) {
    && now.Keys == disks.Keys
    && forall d :: d in disks ==>
         now[d] == Counters(disks[d].numberOfFiles + Files(run, d), disks[d].bytesStored + Bytes(run, d))
  }

  /** One call at most is between getting the semaphore and giving it back, and
      only then is it taken. */
  ghost predicate MutuallyExclusive(s: State) {
    && 0 <= s.permits <= 1
    && (forall t, u :: t in s.calls && u in s.calls && Critical(s.calls[t]) && Critical(s.calls[u]) ==> t == u)
    && (s.permits == 0 <==> exists t :: t in s.calls && Critical(s.calls[t]))
  }

  ghost predicate ReadsFresh(s: State) {
    forall t :: t in s.calls && s.calls[t].phase.HasRead? ==>
      s.calls[t].diskId in s.disks && s.calls[t].phase.seen == s.disks[s.calls[t].diskId]
  }

  /** A call still has what it began with. */
  ghost predicate Remembers(run: seq<Action>, s: State) {
    forall t :: t in s.calls ==> (s.calls[t].diskId, s.calls[t].size) == Asked(run, t)
  }

  lemma StepExcludes(s: State, a: Action)
    requires Enabled(false, s, a) && MutuallyExclusive(s)
    ensures MutuallyExclusive(Step(false, s, a))
  {
    var r := Step(false, s, a);
    if a.Acquire? {
      assert r.calls[a.t].phase.Holding?;
    } else if !a.Begin? && Critical(s.calls[a.t]) && a.t in r.calls {
      assert Critical(r.calls[a.t]) || r.permits == 1;
    }
    forall t | t in s.calls && t != a.t ensures t in r.calls && r.calls[t] == s.calls[t] {}
  }

  lemma StepReadsFresh(s: State, a: Action)
    requires Enabled(false, s, a) && MutuallyExclusive(s) && ReadsFresh(s)
    ensures ReadsFresh(Step(false, s, a))
  {}

  lemma StepCounts(disks: map<string, Counters>, run: seq<Action>, s: State, a: Action)
    requires Enabled(false, s, a) && ReadsFresh(s) && Remembers(run, s) && AllCounted(disks, run, s.disks)
    ensures Remembers(run + [a], Step(false, s, a)) && AllCounted(disks, run + [a], Step(false, s, a).disks)
  {
    assert (run + [a])[..|run|] == run;
  }

  /** In every run over tables with these disks: calls exclude each other, what a
      call has read is still true, and each disk has grown by the number and the
      sizes of the updates that were asked for and written. */
  lemma {:induction false} NoLostUpdate(disks: map<string, Counters>, run: seq<Action>)
    requires IsRun(false, disks, run)
    ensures var s := After(false, disks, run);
      MutuallyExclusive(s) && ReadsFresh(s) && Remembers(run, s) && AllCounted(disks, run, s.disks)
  {
    if run != [] {
      var front, a := run[..|run| - 1], run[|run| - 1];
      NoLostUpdate(disks, front);
      StepExcludes(After(false, disks, front), a);
      StepReadsFresh(After(false, disks, front), a);
      StepCounts(disks, front, After(false, disks, front), a);
      assert run == front + [a];
    }
  }

  /** Each query of a call can fail; the semaphore is given back then. */
  lemma QueriesFail(disks: map<string, Counters>, run: seq<Action>, t: nat)
    requires IsRun(false, disks, run) && t in After(false, disks, run).calls
    requires var phase := After(false, disks, run).calls[t].phase; phase.Holding? || phase.HasRead?
    ensures IsRun(false, disks, run + [QueryFails(t)])
    ensures After(false, disks, run + [QueryFails(t)]).permits == 1
  {
    assert (run + [QueryFails(t)])[..|run|] == run;
    NoLostUpdate(disks, run);
    assert Critical(After(false, disks, run).calls[t]);
  }

  lemma Extend(disks: map<string, Counters>, run: seq<Action>, a: Action, d: string) returns (more: seq<Action>)
    requires IsRun(true, disks, run) && Enabled(true, After(true, disks, run), a)
    ensures IsRun(true, disks, more) && After(true, disks, more) == Step(true, After(true, disks, run), a)
    ensures Files(more, d) == Files(run, d) + if a.Write? && Asked(run, a.t).0 == d then 1 else 0
    ensures Asked(more, 0) == if a.Begin? && a.t == 0 then (a.diskId, a.size) else Asked(run, 0)
    ensures Asked(more, 1) == if a.Begin? && a.t == 1 then (a.diskId, a.size) else Asked(run, 1)
  {
    more := run + [a];
    assert more[..|run|] == run;
  }

  /** A call on a table nobody else uses has read, and then written its update. */
  lemma ReadsAlone(disks: map<string, Counters>, d: string) returns (run: seq<Action>)
    requires d in disks
    ensures IsRun(true, disks, run) && Files(run, d) == 0 && Asked(run, 0).0 == d
    ensures After(true, disks, run) == State(0, disks, map[0 := Call(d, 0, HasRead(disks[d]))])
  {
    run := Extend(disks, [], Begin(0, d, 0), d);
    run := Extend(disks, run, Acquire(0), d);
    assert After(true, disks, run) == State(0, disks, map[0 := Call(d, 0, Holding)]);
    run := Extend(disks, run, Read(0), d);
  }

  lemma WritesAlone(disks: map<string, Counters>, d: string) returns (run: seq<Action>)
    requires d in disks
    ensures IsRun(true, disks, run) && Files(run, d) == 1
    ensures After(true, disks, run) ==
      State(0, disks[d := Counters(disks[d].numberOfFiles + 1, disks[d].bytesStored)],
            map[0 := Call(d, 0, HasWritten)])
  {
    run := ReadsAlone(disks, d);
    run := Extend(disks, run, Write(0), d);
  }

  /** A raise after the release hands out a second permit. */
  lemma ExtraPermit(disks: map<string, Counters>, d: string) returns (run: seq<Action>)
    requires d in disks
    ensures IsRun(true, disks, run) && Files(run, d) == 1
    ensures After(true, disks, run) ==
      State(2, disks[d := Counters(disks[d].numberOfFiles + 1, disks[d].bytesStored)], map[])
  {
    run := WritesAlone(disks, d);
    run := Extend(disks, run, Release(0), d);
    run := Extend(disks, run, TriggerRaises(0), d);
  }

  lemma BothBegin(disks: map<string, Counters>, d: string) returns (run: seq<Action>)
    requires d in disks
    ensures IsRun(true, disks, run) && Files(run, d) == 1 && Asked(run, 0).0 == Asked(run, 1).0 == d
    ensures After(true, disks, run) ==
      State(2, disks[d := Counters(disks[d].numberOfFiles + 1, disks[d].bytesStored)],
            map[0 := Call(d, 0, Waiting), 1 := Call(d, 0, Waiting)])
  {
    run := ExtraPermit(disks, d);
    run := Extend(disks, run, Begin(0, d, 0), d);
    run := Extend(disks, run, Begin(1, d, 0), d);
  }

  /** Two calls then read the same counters. */
  lemma BothRead(disks: map<string, Counters>, d: string) returns (run: seq<Action>)
    requires d in disks
    ensures IsRun(true, disks, run) && Files(run, d) == 1 && Asked(run, 0).0 == Asked(run, 1).0 == d
    ensures var s := After(true, disks, run);
      && d in s.disks && s.disks[d].numberOfFiles == disks[d].numberOfFiles + 1
      && s.calls == map[0 := Call(d, 0, HasRead(s.disks[d])), 1 := Call(d, 0, HasRead(s.disks[d]))]
  {
    run := BothBegin(disks, d);
    run := Extend(disks, run, Acquire(0), d);
    run := Extend(disks, run, Acquire(1), d);
    run := Extend(disks, run, Read(0), d);
    run := Extend(disks, run, Read(1), d);
  }

  /** Three updates are written then, and the counter has grown by two. */
  lemma LostUpdate(disks: map<string, Counters>, d: string) returns (run: seq<Action>)
    requires d in disks
    ensures IsRun(true, disks, run) && d in After(true, disks, run).disks && Files(run, d) == 3
    ensures After(true, disks, run).disks[d].numberOfFiles == disks[d].numberOfFiles + 2
  {
    run := BothRead(disks, d);
    run := Extend(disks, run, Write(0), d);
    run := Extend(disks, run, Write(1), d);
  }

  /** No interleaving loses an update of a disk if and only if informing the
      listeners cannot raise. */
  lemma SafeExactlyWhenTriggersReturn(disks: map<string, Counters>, mayRaise: bool)
    requires disks != map[]
    ensures (forall run :: IsRun(mayRaise, disks, run) ==> AllCounted(disks, run, After(mayRaise, disks, run).disks))
        <==> !mayRaise
  {
    if mayRaise {
      var d :| d in disks;
      var run := LostUpdate(disks, d);
    } else {
      forall run | IsRun(false, disks, run) ensures AllCounted(disks, run, After(false, disks, run).disks) {
        NoLostUpdate(disks, run);
      }
    }
  }
}
