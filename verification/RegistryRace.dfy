/** Threads that register server lists at the same time: the search for a slot
    and the writing of it are two critical sections. */
module RegistryRace {
  import opened Options
  import opened ServerRegistry

  /** A call: the id of a list and the servers its text is parsed to. */
  datatype Call = Call(id: string, servers: seq<Server>)

  datatype Phase = Waiting | Found(n: nat) | Done

  datatype State = State(slots: seq<Slot>, phases: seq<Phase>)

  datatype Action = Search(t: nat) | Write(t: nat)

  function Initial(slots: seq<Slot>, calls: seq<Call>): State {
    State(slots, seq(|calls|, _ => Waiting))
  }

  predicate Enabled(calls: seq<Call>, s: State, a: Action) {
    && a.t < |calls| && a.t < |s.phases|
    && if a.Search? then s.phases[a.t].Waiting? else s.phases[a.t].Found? && s.phases[a.t].n < |s.slots|
  }

  /** Without a slot the call fails. */
  function Step(calls: seq<Call>, s: State, a: Action): State
    requires Enabled(calls, s, a)
  {
    var call := calls[a.t];
    match a
    case Search(t) =>
      var n := Find(s.slots, call.id);
      s.(phases := s.phases[t := if n < |s.slots| then Found(n) else Done])
    case Write(t) =>
      State(s.slots[s.phases[t].n := Slot(call.id, call.servers, -1)], s.phases[t := Done])
  }

  ghost predicate IsRun(slots: seq<Slot>, calls: seq<Call>, run: seq<Action>)
    decreases |run|, 0
  {
    run == [] ||
    (IsRun(slots, calls, run[..|run| - 1]) &&
     Enabled(calls, After(slots, calls, run[..|run| - 1]), run[|run| - 1]))
  }

  ghost function After(slots: seq<Slot>, calls: seq<Call>, run: seq<Action>): State
    requires IsRun(slots, calls, run)
    decreases |run|, 1
  {
    if run == [] then Initial(slots, calls)
    else Step(calls, After(slots, calls, run[..|run| - 1]), run[|run| - 1])
  }

  /** The servers of the call that last wrote a slot for an id. */
  function Latest(calls: seq<Call>, run: seq<Action>, id: string): Option<seq<Server>> {
    if run == [] then None
    else
      var a := run[|run| - 1];
      if a.Write? && a.t < |calls| && calls[a.t].id == id then Some(calls[a.t].servers)
      else Latest(calls, run[..|run| - 1], id)
  }

  /** Every id leads to the servers last written for it, or to those it had. */
  ghost predicate Refines(slots: seq<Slot>, calls: seq<Call>, run: seq<Action>, now: seq<Slot>) {
    forall id :: id != "" ==> Means(now, id) == if Latest(calls, run, id).Some? then Latest(calls, run, id)
                                                 else Means(slots, id)
  }

  predicate Fresh(slots: seq<Slot>, id: string) {
    forall i :: 0 <= i < |slots| && slots[i].id != "" ==> slots[i].id != id
  }

  predicate Full(slots: seq<Slot>) {
    forall i :: 0 <= i < |slots| ==> slots[i].id != ""
  }

  /** All calls that need a free slot are for one list, or there is none. */
  ghost predicate Compatible(slots: seq<Slot>, calls: seq<Call>) {
    forall x, y :: x in calls && y in calls && Fresh(slots, x.id) && Fresh(slots, y.id) ==>
      x.id == y.id || Full(slots)
  }

  // ---------------------------------------------------------------- safe calls

  /** Only the first free slot has changed hands, and for a call that needed it;
      every call has found the slot it would have found at first. */
  ghost predicate RaceInv(slots: seq<Slot>, calls: seq<Call>, s: State) {
    && |s.slots| == |slots| && |s.phases| == |calls| && WellFilled(s.slots)
    && (forall i :: 0 <= i < |slots| && slots[i].id != "" ==> s.slots[i].id == slots[i].id)
    && (forall i :: 0 <= i < |slots| && slots[i].id == "" && s.slots[i].id != "" ==>
          Claimed(slots, calls, s.slots[i].id))
    && (forall t :: 0 <= t < |calls| && s.phases[t].Found? ==> s.phases[t].n == Find(slots, calls[t].id) < |slots|)
  }

  ghost predicate Claimed(slots: seq<Slot>, calls: seq<Call>, id: string) {
    exists call :: call in calls && call.id == id && Fresh(slots, id)
  }

  /** A call finds the same slot at any time. */
  lemma FindStays(slots: seq<Slot>, calls: seq<Call>, s: State, call: Call)
    requires WellFilled(slots) && Compatible(slots, calls) && call in calls && RaceInv(slots, calls, s)
    ensures Find(s.slots, call.id) == Find(slots, call.id)
  {
    var n := Find(slots, call.id);
    FindSound(slots, call.id);
    if n < |slots| {
      if slots[n].id == "" && s.slots[n].id != "" {
        TakenByOne(slots, calls, call, n, s.slots[n].id);
      }
      FoundAt(s.slots, call.id, n);
    } else {
      NoneFound(slots, s.slots, call.id);
    }
  }

  lemma {:induction false} TakenByOne(slots: seq<Slot>, calls: seq<Call>, call: Call, n: nat, id: string)
    requires WellFilled(slots) && Compatible(slots, calls) && call in calls && Claimed(slots, calls, id)
    requires n == Find(slots, call.id) < |slots| && slots[n].id == ""
    ensures id == call.id
  {
    FindSound(slots, call.id);
    assert Fresh(slots, call.id);
    var other :| other in calls && other.id == id && Fresh(slots, id);
    assert !Full(slots);
  }

  lemma {:induction false} NoneFound(slots: seq<Slot>, later: seq<Slot>, id: string)
    requires |later| == |slots| == Find(slots, id)
    requires forall i :: 0 <= i < |slots| && slots[i].id != "" ==> later[i].id == slots[i].id
    ensures Find(later, id) == |slots|
  {
    FindSound(slots, id);
    FindSound(later, id);
  }

  lemma StepKeepsRace(slots: seq<Slot>, calls: seq<Call>, run: seq<Action>, s: State, a: Action)
    requires WellFilled(slots) && Compatible(slots, calls) && RaceInv(slots, calls, s) && Enabled(calls, s, a)
    requires Refines(slots, calls, run, s.slots)
    ensures RaceInv(slots, calls, Step(calls, s, a)) && Refines(slots, calls, run + [a], Step(calls, s, a).slots)
  {
    assert (run + [a])[..|run|] == run;
    var call := calls[a.t];
    FindStays(slots, calls, s, call);
    if a.Write? {
      FindSound(slots, call.id);
      StoreFills(s.slots, call.id, call.servers);
      var r := Step(calls, s, a);
      assert r.slots == Stored(s.slots, call.id, call.servers);
      WriteRefines(slots, calls, run, s.slots, a.t);
      var n := Find(slots, call.id);
      if slots[n].id == "" && call.id != "" {
        assert Fresh(slots, call.id);
        assert Claimed(slots, calls, call.id);
      }
    }
  }

  lemma WriteRefines(slots: seq<Slot>, calls: seq<Call>, run: seq<Action>, before: seq<Slot>, t: nat)
    requires Refines(slots, calls, run, before) && WellFilled(before)
    requires t < |calls| && Find(before, calls[t].id) < |before|
    ensures Refines(slots, calls, run + [Write(t)], Stored(before, calls[t].id, calls[t].servers))
  {
    var call, more := calls[t], run + [Write(t)];
    assert more[..|run|] == run;
    forall id | id != ""
      ensures Means(Stored(before, call.id, call.servers), id) ==
        if Latest(calls, more, id).Some? then Latest(calls, more, id) else Means(slots, id)
    {
      if id == call.id {
        StoreFills(before, call.id, call.servers);
      } else {
        StoreKeeps(before, call.id, call.servers, id);
      }
    }
  }

  lemma {:induction false} CompatibleRefines(slots: seq<Slot>, calls: seq<Call>, run: seq<Action>)
    requires WellFilled(slots) && Compatible(slots, calls) && IsRun(slots, calls, run)
    ensures RaceInv(slots, calls, After(slots, calls, run))
    ensures Refines(slots, calls, run, After(slots, calls, run).slots)
  {
    if run != [] {
      var front, a := run[..|run| - 1], run[|run| - 1];
      CompatibleRefines(slots, calls, front);
      StepKeepsRace(slots, calls, front, After(slots, calls, front), a);
      assert run == front + [a];
    }
  }

  // ---------------------------------------------------------------- the race

  lemma Extend(slots: seq<Slot>, calls: seq<Call>, run: seq<Action>, a: Action) returns (more: seq<Action>)
    requires IsRun(slots, calls, run) && Enabled(calls, After(slots, calls, run), a)
    ensures IsRun(slots, calls, more) && After(slots, calls, more) == Step(calls, After(slots, calls, run), a)
    ensures more == run + [a]
  {
    more := run + [a];
    assert more[..|run|] == run;
  }

  lemma FreshFindsFree(slots: seq<Slot>, id: string)
    requires WellFilled(slots) && Fresh(slots, id) && !Full(slots)
    ensures Find(slots, id) == Find(slots, "") < |slots|
  {
    FindSound(slots, id);
    FindSound(slots, "");
    FoundAt(slots, "", Find(slots, id));
  }

  /** Two calls for different new lists find one slot; the list written first is
      lost. */
  lemma ListLost(slots: seq<Slot>, calls: seq<Call>, t: nat, u: nat) returns (run: seq<Action>)
    requires WellFilled(slots) && t < |calls| && u < |calls| && calls[t].id != calls[u].id && calls[t].id != ""
    requires Fresh(slots, calls[t].id) && Fresh(slots, calls[u].id) && !Full(slots)
    ensures IsRun(slots, calls, run) && !Refines(slots, calls, run, After(slots, calls, run).slots)
  {
    FreshFindsFree(slots, calls[t].id);
    FreshFindsFree(slots, calls[u].id);
    run := Extend(slots, calls, [], Search(t));
    run := Extend(slots, calls, run, Search(u));
    run := Extend(slots, calls, run, Write(t));
    var first := run;
    run := Extend(slots, calls, run, Write(u));
    var s, n := After(slots, calls, run), Find(slots, "");
    assert s.slots == slots[n := Slot(calls[u].id, calls[u].servers, -1)];
    FindSound(s.slots, calls[t].id);
    assert Means(s.slots, calls[t].id) == None;
    assert run[..|first|] == first;
    assert Latest(calls, first, calls[t].id) == Latest(calls, run, calls[t].id) == Some(calls[t].servers);
  }

  /** In every interleaving of the calls each id leads to the servers last written
      for it if and only if all calls that need a free slot are for one list, or
      no slot is free. */
  lemma RefinesExactly(slots: seq<Slot>, calls: seq<Call>)
    requires WellFilled(slots)
    ensures (forall run :: IsRun(slots, calls, run) ==> Refines(slots, calls, run, After(slots, calls, run).slots)) <==>
            Compatible(slots, calls)
  {
    if Compatible(slots, calls) {
      forall run | IsRun(slots, calls, run) ensures Refines(slots, calls, run, After(slots, calls, run).slots) {
        CompatibleRefines(slots, calls, run);
      }
    } else {
      var x, y :| x in calls && y in calls && Fresh(slots, x.id) && Fresh(slots, y.id) && x.id != y.id && !Full(slots);
      var t: nat :| t < |calls| && calls[t] == x;
      var u: nat :| u < |calls| && calls[u] == y;
      if x.id != "" {
        var run := ListLost(slots, calls, t, u);
      } else {
        var run := ListLost(slots, calls, u, t);
      }
    }
  }
}
