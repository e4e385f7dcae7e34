/** Choosing a server from a list shared by threads: cyclic failover within a
    call, round robin over calls. */
module Failover {

  datatype Status = Success | UnknownStat | OtherError

  // ---------------------------------------------------------------- one call

  /** How many attempts a call makes with n servers: up to the first success. */
  function Tries(attempt: nat -> Status, n: nat): nat {
    if n == 0 then 0
    else
      var before := Tries(attempt, n - 1);
      if before < n - 1 || (0 < before && attempt(before - 1).Success?) then before else n
  }

  function Unknowns(attempt: nat -> Status, k: nat): nat {
    if k == 0 then 0 else Unknowns(attempt, k - 1) + if attempt(k - 1).UnknownStat? then 1 else 0
  }

  function Copies(ingested: nat -> bool, k: nat): nat {
    if k == 0 then 0 else Copies(ingested, k - 1) + if ingested(k - 1) then 1 else 0
  }

  ghost predicate Succeeds(attempt: nat -> Status, n: nat) {
    exists k: nat :: k < n && attempt(k).Success?
  }

  /** The attempts stop at the first success and otherwise use every server. */
  lemma {:induction false} TriesStopAtSuccess(attempt: nat -> Status, n: nat)
    ensures var k := Tries(attempt, n);
      && k <= n
      && (forall j: nat :: j < k - 1 ==> !attempt(j).Success?)
      && (Succeeds(attempt, n) <==> 0 < k && attempt(k - 1).Success?)
      && (!Succeeds(attempt, n) ==> k == n)
  {
    if n != 0 {
      TriesStopAtSuccess(attempt, n - 1);
    }
  }

  /** Attempts that reported another error although the data was ingested. */
  function Surprises(attempt: nat -> Status, ingested: nat -> bool, k: nat): nat {
    if k == 0 then 0
    else Surprises(attempt, ingested, k - 1) + if attempt(k - 1).OtherError? && ingested(k - 1) then 1 else 0
  }

  lemma {:induction false} NoSurprises(attempt: nat -> Status, ingested: nat -> bool, k: nat)
    requires forall j: nat :: j < k && ingested(j) ==> !attempt(j).OtherError?
    ensures Surprises(attempt, ingested, k) == 0
  {
    if k != 0 {
      NoSurprises(attempt, ingested, k - 1);
    }
  }

  /** A POST leaves one copy for the success and at most one more for each attempt
      of unknown outcome, and one for each other error that did ingest; there is
      none of these if other errors mean that nothing was ingested. */
  lemma {:induction false} CopiesBounded(attempt: nat -> Status, ingested: nat -> bool, n: nat)
    ensures var k := Tries(attempt, n);
      && Copies(ingested, k) <=
           Unknowns(attempt, k) + Surprises(attempt, ingested, k) + (if Succeeds(attempt, n) then 1 else 0)
      && ((forall j: nat :: j < k && ingested(j) ==> !attempt(j).OtherError?) ==>
            Surprises(attempt, ingested, k) == 0)
  {
    TriesStopAtSuccess(attempt, n);
    var k := Tries(attempt, n);
    if 0 < k {
      CopiesBeforeSuccess(attempt, ingested, k - 1);
    }
    if forall j: nat :: j < k && ingested(j) ==> !attempt(j).OtherError? {
      NoSurprises(attempt, ingested, k);
    }
  }

  lemma {:induction false} CopiesBeforeSuccess(attempt: nat -> Status, ingested: nat -> bool, k: nat)
    requires forall j: nat :: j < k ==> !attempt(j).Success?
    ensures Copies(ingested, k) <= Unknowns(attempt, k) + Surprises(attempt, ingested, k)
  {
    if k != 0 {
      CopiesBeforeSuccess(attempt, ingested, k - 1);
    }
  }

  /** The server after server i; -1 stands for no server yet. */
  function Next(i: int, n: nat): (next: nat)
    requires 0 < n && -1 <= i < n
    ensures next < n
  {
    if i + 1 == n then 0 else i + 1
  }

  lemma NextIsMod(i: int, n: nat)
    requires 0 < n && -1 <= i < n
    ensures (i + 1) % n == Next(i, n)
  {}

  /** Servers in cyclic order. */
  ghost predicate Cyclic(visited: seq<nat>, n: nat) {
    && (forall i :: 0 <= i < |visited| ==> visited[i] < n)
    && (forall i :: 0 < i < |visited| ==> visited[i] == Next(visited[i - 1], n))
  }

  lemma {:induction false} CyclicFromStart(visited: seq<nat>, n: nat, i: nat)
    requires |visited| <= n && Cyclic(visited, n) && i < |visited|
    ensures visited[i] == if visited[0] + i < n then visited[0] + i else visited[0] + i - n
  {
    if i != 0 {
      CyclicFromStart(visited, n, i - 1);
    }
  }

  lemma CyclicDistinct(visited: seq<nat>, n: nat)
    requires |visited| <= n && Cyclic(visited, n)
    ensures forall i, j :: 0 <= i < j < |visited| ==> visited[i] != visited[j]
    ensures |visited| == n ==> forall s: nat :: s < n ==> s in visited
  {
    forall i | 0 <= i < |visited|
      ensures visited[i] == if visited[0] + i < n then visited[0] + i else visited[0] + i - n
    {
      CyclicFromStart(visited, n, i);
    }
    if |visited| == n {
      forall s: nat | s < n ensures s in visited {
        assert visited[if visited[0] <= s then s - visited[0] else s - visited[0] + n] == s;
      }
    }
  }

  /** A call on n servers: success exactly when one of the attempts allowed
      succeeds, stopping there; the servers in cyclic order from the one whose
      turn it was, none twice, and all of them on failure. */
  ghost predicate Visits(visited: seq<nat>, ok: bool, attempt: nat -> Status, others: nat -> int, n: nat)
    requires -1 <= others(0) && (others(0) < n || others(0) == -1)
  {
    && (ok <==> Succeeds(attempt, n))
    && |visited| == Tries(attempt, n)
    && Cyclic(visited, n)
    && (0 < n ==> visited != [] && visited[0] == Next(others(0), n))
    && (forall i, j :: 0 <= i < j < |visited| ==> visited[i] != visited[j])
    && (!ok ==> forall s: nat :: s < n ==> s in visited)
  }

  /** The servers tried so far and the index of the last one. */
  ghost predicate Tried(visited: seq<nat>, idx: int, others: nat -> int, n: nat)
    requires -1 <= others(0) && (others(0) < n || others(0) == -1)
  {
    && Cyclic(visited, n)
    && (visited != [] ==> 0 < n && visited[0] == Next(others(0), n))
    && (if visited == [] then idx == -1 else idx == visited[|visited| - 1] < n)
  }

  lemma TryNext(visited: seq<nat>, idx: int, next: nat, others: nat -> int, n: nat)
    requires 0 < n && -1 <= others(0) < n && Tried(visited, idx, others, n)
    requires next == Next(if idx == -1 then others(0) else idx, n)
    ensures Tried(visited + [next], next, others, n)
  {}

  lemma Finished(visited: seq<nat>, idx: int, ok: bool, attempt: nat -> Status, others: nat -> int, n: nat)
    requires -1 <= others(0) && (others(0) < n || others(0) == -1) && Tried(visited, idx, others, n)
    requires |visited| <= n && (!ok ==> |visited| == n)
    requires forall j: nat :: j < |visited| - (if ok then 1 else 0) ==> !attempt(j).Success?
    requires ok ==> visited != [] && attempt(|visited| - 1).Success?
    ensures Visits(visited, ok, attempt, others, n)
  {
    TriesStopAtSuccess(attempt, n);
    CyclicDistinct(visited, n);
  }

  /** A registered list of servers; the index is shared by all threads. */
  class SrvInfo {
    const hosts: seq<string>
    const ports: seq<int>
    var srvIdx: int

    predicate Valid()
      reads this
    {
      |hosts| == |ports| && -1 <= srvIdx && (srvIdx < |hosts| || srvIdx == -1)
    }

    constructor (hosts: seq<string>, ports: seq<int>)
      requires |hosts| == |ports|
      ensures Valid() && srvIdx == -1 && this.hosts == hosts && this.ports == ports
    {
      this.hosts, this.ports := hosts, ports;
      srvIdx := -1;
    }

    /** One critical section: the first attempt of a call advances the shared
        index, later ones only the caller's own. */
    method GetNextSrv(idx: int) returns (next: nat, host: string, port: int)
      requires Valid() && 0 < |hosts| && -1 <= idx < |hosts|
      modifies this`srvIdx
      ensures Valid() && next < |hosts| && host == hosts[next] && port == ports[next]
      ensures idx == -1 ==> next == Next(old(srvIdx), |hosts|) && srvIdx == next
      ensures idx != -1 ==> next == Next(idx, |hosts|) && srvIdx == old(srvIdx)
    {
      NextIsMod(if idx == -1 then srvIdx else idx, |hosts|);
      if idx == -1 {
        srvIdx := (srvIdx + 1) % |hosts|;
        next := srvIdx;
      } else {
        next := (idx + 1) % |hosts|;
      }
      host, port := hosts[next], ports[next];
    }

    /** The retry loop.  Before its k-th access other threads may have left any
        index; the servers tried are recorded in `visited`.  A host that is not
        a registered list is contacted itself, once. */
    method HttpGet(foundList: bool, attempt: nat -> Status, others: nat -> int)
      returns (ok: bool, visited: seq<nat>)
      requires Valid() && forall k: nat :: -1 <= others(k) < |hosts| || others(k) == -1
      modifies this`srvIdx
      ensures Valid()
      ensures !foundList ==> (ok <==> attempt(0).Success?) && visited == [] && srvIdx == old(srvIdx)
      ensures foundList ==> Visits(visited, ok, attempt, others, |hosts|)
    {
      var tryCount, idx: int, maxTries := 0, -1, |hosts|;
      visited := [];
      ok := false;
      if !foundList {
        ok := attempt(0).Success?;
        return;
      }
      while tryCount < maxTries
        invariant Valid() && maxTries == |hosts|
        invariant 0 <= tryCount <= maxTries && !ok && |visited| == tryCount
        invariant Tried(visited, idx, others, maxTries)
        invariant forall j: nat :: j < tryCount ==> !attempt(j).Success?
      {
        srvIdx := others(tryCount);
        var next, host, port := GetNextSrv(idx);
        TryNext(visited, idx, next, others, maxTries);
        visited, idx := visited + [next], next;
        if attempt(tryCount).Success? {
          ok := true;
          break;
        }
        tryCount := tryCount + 1;
      }
      Finished(visited, idx, ok, attempt, others, maxTries);
    }

    /** The same loop for data sent to the archive: `copies` is how often the
        data is in the archive afterwards. */
    method HttpPost(foundList: bool, attempt: nat -> Status, ingested: nat -> bool, others: nat -> int)
      returns (ok: bool, visited: seq<nat>, copies: nat)
      requires Valid() && forall k: nat :: -1 <= others(k) < |hosts| || others(k) == -1
      modifies this`srvIdx
      ensures Valid()
      ensures !foundList ==> (ok <==> attempt(0).Success?) && visited == [] && srvIdx == old(srvIdx)
      ensures foundList ==> Visits(visited, ok, attempt, others, |hosts|)
      ensures var tries := if foundList then Tries(attempt, |hosts|) else 1;
        && copies == Copies(ingested, tries)
        && copies <= Unknowns(attempt, tries) + Surprises(attempt, ingested, tries) + (if ok then 1 else 0)
    {
      var tryCount, idx: int, maxTries := 0, -1, |hosts|;
      ok, visited, copies := false, [], 0;
      if !foundList {
        ok := attempt(0).Success?;
        copies := if ingested(0) then 1 else 0;
        return;
      }
      while tryCount < maxTries
        invariant Valid() && maxTries == |hosts|
        invariant 0 <= tryCount <= maxTries && !ok && |visited| == tryCount
        invariant copies == Copies(ingested, tryCount)
        invariant Tried(visited, idx, others, maxTries)
        invariant forall j: nat :: j < tryCount ==> !attempt(j).Success?
      {
        srvIdx := others(tryCount);
        var next, host, port := GetNextSrv(idx);
        TryNext(visited, idx, next, others, maxTries);
        visited, idx := visited + [next], next;
        copies := copies + if ingested(tryCount) then 1 else 0;
        if attempt(tryCount).Success? {
          ok := true;
          break;
        }
        tryCount := tryCount + 1;
      }
      Finished(visited, idx, ok, attempt, others, maxTries);
      CopiesBounded(attempt, ingested, maxTries);
    }
  }

  // ---------------------------------------------------------------- all calls

  /** An access to the shared list: the first attempt of a call of a thread, or a
      further attempt of its current call. */
  datatype Access = Starts(t: nat) | Retries(t: nat)

  /** `visits` are the servers of each thread's current call. */
  datatype Shared = Shared(srvIdx: int, visits: map<nat, seq<nat>>)

  const UNUSED := Shared(-1, map[])

  /** A call retries as long as it has not used as many attempts as servers. */
  predicate Allowed(s: Shared, a: Access, n: nat) {
    a.Retries? ==> a.t in s.visits && 0 < |s.visits[a.t]| < n
  }

  function Accessed(s: Shared, a: Access, n: nat): Shared
    requires 0 < n && Allowed(s, a, n)
  {
    match a
    case Starts(t) =>
      var next := (s.srvIdx + 1) % n;
      Shared(next, s.visits[t := [next]])
    case Retries(t) =>
      var own := s.visits[t];
      s.(visits := s.visits[t := own + [(own[|own| - 1] + 1) % n]])
  }

  ghost predicate Legal(accesses: seq<Access>, n: nat)
    requires 0 < n
    decreases |accesses|, 0
  {
    accesses == [] ||
    (Legal(accesses[..|accesses| - 1], n) &&
     Allowed(AfterAll(accesses[..|accesses| - 1], n), accesses[|accesses| - 1], n))
  }

  ghost function AfterAll(accesses: seq<Access>, n: nat): Shared
    requires 0 < n && Legal(accesses, n)
    decreases |accesses|, 1
  {
    if accesses == [] then UNUSED
    else Accessed(AfterAll(accesses[..|accesses| - 1], n), accesses[|accesses| - 1], n)
  }

  function Calls(accesses: seq<Access>): nat {
    if accesses == [] then 0
    else Calls(accesses[..|accesses| - 1]) + if accesses[|accesses| - 1].Starts? then 1 else 0
  }

  /** How many calls of all threads had started before the last one of a thread, and
      how often this one has been retried. */
  function Began(accesses: seq<Access>, t: nat): nat {
    if accesses == [] then 0
    else if accesses[|accesses| - 1] == Starts(t) then Calls(accesses[..|accesses| - 1])
    else Began(accesses[..|accesses| - 1], t)
  }

  function Retried(accesses: seq<Access>, t: nat): nat {
    if accesses == [] || accesses[|accesses| - 1] == Starts(t) then 0
    else Retried(accesses[..|accesses| - 1], t) + if accesses[|accesses| - 1] == Retries(t) then 1 else 0
  }

  /** How many calls had a server first. */
  ghost function Firsts(accesses: seq<Access>, n: nat, server: nat): nat
    requires 0 < n && Legal(accesses, n)
  {
    if accesses == [] then 0
    else
      var a := accesses[|accesses| - 1];
      Firsts(accesses[..|accesses| - 1], n, server) +
      if a.Starts? && AfterAll(accesses, n).visits[a.t][0] == server then 1 else 0
  }

  /** The server whose turn the k-th call is, and how many rounds came before. */
  function Turn(k: nat, n: nat): (turn: nat)
    requires 0 < n
    ensures turn < n
  {
    if k == 0 then 0 else Next(Turn(k - 1, n), n)
  }

  function Rounds(k: nat, n: nat): nat
    requires 0 < n
  {
    if k == 0 then 0 else Rounds(k - 1, n) + if Turn(k, n) == 0 then 1 else 0
  }

  lemma {:induction false} TurnIsMod(k: nat, n: nat)
    requires 0 < n
    ensures k == n * Rounds(k, n) + Turn(k, n)
    ensures Turn(k, n) == k % n && Rounds(k, n) == k / n
  {
    RoundsAndTurn(k, n);
    DivModUnique(k, n, Rounds(k, n), Turn(k, n));
  }

  lemma {:induction false} RoundsAndTurn(k: nat, n: nat)
    requires 0 < n
    ensures k == n * Rounds(k, n) + Turn(k, n)
  {
    if k != 0 {
      RoundsAndTurn(k - 1, n);
      if Turn(k, n) == 0 {
        OneMoreRound(n, Rounds(k - 1, n));
      }
    }
  }

  lemma OneMoreRound(n: nat, q: nat)
    ensures n * (q + 1) == n * q + n
  {}

  lemma DivModUnique(a: nat, n: nat, q: nat, r: nat)
    requires r < n && a == n * q + r
    ensures a / n == q && a % n == r
  {
    var d: int := a / n - q;
    assert n * d == n * (a / n) - n * q == r - a % n;
    if 1 <= d {
      MultipleTooBig(n, d);
    }
  }

  lemma MultipleTooBig(n: nat, d: nat)
    requires 1 <= d
    ensures n <= n * d
  {}

  /** Each call has visited the servers whose turns follow that of its start. */
  ghost predicate RoundRobin(accesses: seq<Access>, s: Shared, n: nat)
    requires 0 < n
  {
    && s.srvIdx == (if Calls(accesses) == 0 then -1 else Turn(Calls(accesses) - 1, n))
    && (forall t :: t in s.visits <==> Starts(t) in accesses)
    && (forall t :: t in s.visits ==> InTurn(s.visits[t], Began(accesses, t), Retried(accesses, t), n))
  }

  ghost predicate InTurn(visits: seq<nat>, began: nat, retried: nat, n: nat)
    requires 0 < n
  {
    |visits| == 1 + retried <= n && forall i :: 0 <= i < |visits| ==> visits[i] == Turn(began + i, n)
  }

  lemma TurnAfter(k: nat, n: nat)
    requires 0 < n
    ensures (Turn(k, n) + 1) % n == Turn(k + 1, n)
    ensures (-1 + 1) % n == Turn(0, n)
  {
    NextIsMod(Turn(k, n), n);
  }

  lemma RetryInTurn(own: seq<nat>, began: nat, retried: nat, n: nat)
    requires 0 < n && InTurn(own, began, retried, n) && |own| < n
    ensures InTurn(own + [(own[|own| - 1] + 1) % n], began, retried + 1, n)
  {
    TurnAfter(began + |own| - 1, n);
  }

  lemma AccessKeepsTurns(accesses: seq<Access>, s: Shared, a: Access, n: nat)
    requires 0 < n && RoundRobin(accesses, s, n) && Allowed(s, a, n)
    ensures RoundRobin(accesses + [a], Accessed(s, a, n), n)
  {
    var more, r := accesses + [a], Accessed(s, a, n);
    assert more[..|accesses|] == accesses;
    match a {
      case Starts(t) => TurnAfter(if Calls(accesses) == 0 then 0 else Calls(accesses) - 1, n);
      case Retries(t) => RetryInTurn(s.visits[t], Began(accesses, t), Retried(accesses, t), n);
    }
    forall t | t in r.visits ensures InTurn(r.visits[t], Began(more, t), Retried(more, t), n) {
      assert t != a.t ==> InTurn(s.visits[t], Began(accesses, t), Retried(accesses, t), n);
    }
  }

  lemma {:induction false} RoundRobinKept(accesses: seq<Access>, n: nat)
    requires 0 < n && Legal(accesses, n)
    ensures RoundRobin(accesses, AfterAll(accesses, n), n)
  {
    if accesses != [] {
      var front, last := accesses[..|accesses| - 1], accesses[|accesses| - 1];
      RoundRobinKept(front, n);
      AccessKeepsTurns(front, AfterAll(front, n), last, n);
      assert accesses == front + [last];
    }
  }

  lemma ServersInTurn(visits: seq<nat>, began: nat, retried: nat, n: nat)
    requires 0 < n && InTurn(visits, began, retried, n)
    ensures forall i :: 0 <= i < |visits| ==> visits[i] == (began + i) % n
    ensures forall i, j :: 0 <= i < j < |visits| ==> visits[i] != visits[j]
  {
    forall i | 0 <= i < |visits| ensures visits[i] == (began + i) % n {
      TurnIsMod(began + i, n);
    }
    forall i | 0 < i < |visits| ensures visits[i] == Next(visits[i - 1], n) {
      assert visits[i - 1] == Turn(began + i - 1, n);
    }
    CyclicDistinct(visits, n);
  }

  /** Whatever the interleaving of calls and retries, a call before which k calls of
      all threads had started makes its i-th attempt at server k + i modulo n: the
      attempts of a call are at distinct servers. */
  lemma TurnsAreFair(accesses: seq<Access>, n: nat, t: nat)
    requires 0 < n && Legal(accesses, n) && Starts(t) in accesses
    ensures var visits := AfterAll(accesses, n).visits;
      && t in visits && |visits[t]| == 1 + Retried(accesses, t) <= n
      && (forall i :: 0 <= i < |visits[t]| ==> visits[t][i] == (Began(accesses, t) + i) % n)
      && (forall i, j :: 0 <= i < j < |visits[t]| ==> visits[t][i] != visits[t][j])
      && (Allowed(AfterAll(accesses, n), Retries(t), n) <==> 1 + Retried(accesses, t) < n)
  {
    RoundRobinKept(accesses, n);
    var s := AfterAll(accesses, n);
    assert t in s.visits;
    ServersInTurn(s.visits[t], Began(accesses, t), Retried(accesses, t), n);
  }

  lemma {:induction false} FirstsBalanced(accesses: seq<Access>, n: nat, server: nat)
    requires 0 < n && server < n && Legal(accesses, n)
    ensures var m := Calls(accesses);
      Firsts(accesses, n, server) == Rounds(m, n) + if server < Turn(m, n) then 1 else 0
  {
    if accesses != [] {
      var front, last := accesses[..|accesses| - 1], accesses[|accesses| - 1];
      FirstsBalanced(front, n, server);
      RoundRobinKept(accesses, n);
      assert last in accesses;
      assert last.Starts? ==> AfterAll(accesses, n).visits[last.t][0] == Turn(Calls(front) + 0, n);
    }
  }

  /** After m calls each server has been first m / n times, rounded down, or
      once more if its turn in the current round has come. */
  lemma ServersShareTheLoad(accesses: seq<Access>, n: nat, server: nat)
    requires 0 < n && server < n && Legal(accesses, n)
    ensures var m := Calls(accesses);
      Firsts(accesses, n, server) == m / n + if server < m % n then 1 else 0
  {
    FirstsBalanced(accesses, n, server);
    TurnIsMod(Calls(accesses), n);
  }
}
