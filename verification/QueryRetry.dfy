/** The retrying database query, which calls itself from two places in one
    activation: after an exception and after an empty result. */
module QueryRetry {

  /** What the driver answers: an exception, nothing at all, or some rows. */
  datatype Answer = Raised | Empty | Rows(rows: seq<seq<string>>)

  datatype Outcome = Returns(answer: Answer) | Fails

  const EMPTY_RETRIES := 10
  const DEFAULT_RETRIES := 10

  /** The answers of the driver to successive queries, and whether the n-th
      query, having raised, can be followed by a new connection. */
  datatype Script = Script(answers: nat -> Answer, reconnects: nat -> bool)

  class Driver {
    const script: Script
    var queries: nat

    constructor (script: Script)
      ensures this.script == script && queries == 0
    {
      this.script := script;
      queries := 0;
    }

    method Query() returns (answer: Answer)
      modifies this
      ensures answer == script.answers(old(queries)) && queries == old(queries) + 1
    {
      answer := script.answers(queries);
      queries := queries + 1;
    }

    /** Close the connection of the last query and open a new one. */
    method Reconnect() returns (ok: bool)
      requires 0 < queries
      ensures ok == script.reconnects(queries - 1)
    {
      ok := script.reconnects(queries - 1);
    }

    /** `strict`: the statement is a SELECT whose result may not be empty. */
    method QueryAgain(strict: bool, recurseLevel: nat, maxRetries: nat) returns (r: Outcome)
      modifies this
      decreases Remaining(recurseLevel, maxRetries)
      ensures r == Attempts(script, old(queries), strict, recurseLevel, maxRetries).outcome
      ensures queries == old(queries) + Attempts(script, old(queries), strict, recurseLevel, maxRetries).count
    {
      var level := recurseLevel;
      AnswerOfLast(script, queries, strict, level, maxRetries);
      var res := Query();
      if res.Raised? {
        if level < maxRetries {
          level := level + 1;
          var ok := Reconnect();
          if !ok {
            return Fails;
          }
          AnswerOfLast(script, queries, strict, level, maxRetries);
          var inner := QueryAgain(strict, level, maxRetries);
          if inner.Fails? {
            return Fails;
          }
          res := inner.answer;
        } else {
          return Fails;
        }
      }
      if res.Empty? && strict {
        if level < EMPTY_RETRIES {
          level := level + 1;
          r := QueryAgain(strict, level, DEFAULT_RETRIES);
          return;
        } else {
          return Fails;
        }
      }
      return Returns(res);
    }
  }

  function Max(a: int, b: int): int {
    if a < b then b else a
  }

  function Remaining(level: nat, maxRetries: nat): nat {
    Max(0, Max(maxRetries, EMPTY_RETRIES) - level)
  }

  datatype Result = Result(outcome: Outcome, count: nat)

  /** One attempt after the other: what the double recursion amounts to. */
  function Attempts(script: Script, n: nat, strict: bool, level: nat, maxRetries: nat): Result
    decreases Remaining(level, maxRetries)
  {
    match script.answers(n)
    case Raised =>
      if level < maxRetries && script.reconnects(n) then Later(Attempts(script, n + 1, strict, level + 1, maxRetries))
      else Result(Fails, 1)
    case Empty =>
      if !strict then Result(Returns(Empty), 1)
      else if level < EMPTY_RETRIES then Later(Attempts(script, n + 1, strict, level + 1, DEFAULT_RETRIES))
      else Result(Fails, 1)
    case Rows(rows) => Result(Returns(Rows(rows)), 1)
  }

  function Later(r: Result): Result {
    r.(count := r.count + 1)
  }

  /** The query always answers or fails after a number of attempts linear in the
      retry limits, although each activation holds two recursive calls. */
  lemma {:induction false} LinearlyMany(script: Script, n: nat, strict: bool, level: nat, maxRetries: nat)
    ensures var count := Attempts(script, n, strict, level, maxRetries).count;
      && 1 <= count
      && (strict ==> count <= Remaining(level, maxRetries) + 1)
      && (!strict ==> count <= Max(0, maxRetries - level) + 1)
    decreases Remaining(level, maxRetries)
  {
    match script.answers(n) {
      case Raised =>
        if level < maxRetries && script.reconnects(n) {
          LinearlyMany(script, n + 1, strict, level + 1, maxRetries);
        }
      case Empty =>
        if strict && level < EMPTY_RETRIES {
          LinearlyMany(script, n + 1, strict, level + 1, DEFAULT_RETRIES);
        }
      case Rows(_) =>
    }
  }

  /** What is returned is the answer of the last driver query; a strict query
      never returns an empty result. */
  lemma {:induction false} AnswerOfLast(script: Script, n: nat, strict: bool, level: nat, maxRetries: nat)
    ensures var r := Attempts(script, n, strict, level, maxRetries);
      && 1 <= r.count
      && (r.outcome.Returns? ==> r.outcome.answer == script.answers(n + r.count - 1) && !r.outcome.answer.Raised?)
      && (r.outcome.Returns? && strict ==> !r.outcome.answer.Empty?)
    decreases Remaining(level, maxRetries)
  {
    match script.answers(n) {
      case Raised =>
        if level < maxRetries && script.reconnects(n) {
          AnswerOfLast(script, n + 1, strict, level + 1, maxRetries);
        }
      case Empty =>
        if strict && level < EMPTY_RETRIES {
          AnswerOfLast(script, n + 1, strict, level + 1, DEFAULT_RETRIES);
        }
      case Rows(_) =>
    }
  }

  /** The limit that applies to an attempt: the caller's until the first empty
      result, the default from then on. */
  function LimitAt(script: Script, n: nat, k: nat, maxRetries: nat): nat {
    if k == 0 then maxRetries
    else if script.answers(n + k - 1).Empty? then 10
    else LimitAt(script, n, k - 1, maxRetries)
  }

  predicate Retried(script: Script, n: nat, k: nat, strict: bool, level: nat, maxRetries: nat) {
    match script.answers(n + k)
    case Raised => level + k < LimitAt(script, n, k, maxRetries) && script.reconnects(n + k)
    case Empty => strict && level + k < 10
    case Rows(_) => false
  }

  lemma {:induction false} LimitLater(script: Script, n: nat, k: nat, maxRetries: nat)
    ensures LimitAt(script, n, k + 1, maxRetries) ==
      LimitAt(script, n + 1, k, if script.answers(n).Empty? then DEFAULT_RETRIES else maxRetries)
  {
    if k != 0 {
      LimitLater(script, n, k - 1, maxRetries);
      assert n + (k + 1) - 1 == (n + 1) + k - 1;
    }
  }

  /** The attempts end exactly at the first answer that is not retried. */
  lemma {:induction false} EndsAtFirstFinal(script: Script, n: nat, strict: bool, level: nat, maxRetries: nat, k: nat)
    requires !Retried(script, n, k, strict, level, maxRetries)
    requires forall j: nat :: j < k ==> Retried(script, n, j, strict, level, maxRetries)
    ensures Attempts(script, n, strict, level, maxRetries) ==
      Result(if script.answers(n + k).Rows? || (script.answers(n + k).Empty? && !strict)
             then Returns(script.answers(n + k)) else Fails, k + 1)
    decreases k
  {
    if k != 0 {
      assert Retried(script, n, 0, strict, level, maxRetries);
      var limit := if script.answers(n).Empty? then DEFAULT_RETRIES else maxRetries;
      var next, deeper := n + 1, level + 1;
      forall j: nat | j < k - 1 ensures Retried(script, next, j, strict, deeper, limit) {
        assert Retried(script, n, j + 1, strict, level, maxRetries);
        RetriedLater(script, n, j, strict, level, maxRetries);
      }
      RetriedLater(script, n, k - 1, strict, level, maxRetries);
      EndsAtFirstFinal(script, next, strict, deeper, limit, k - 1);
    }
  }

  lemma RetriedLater(script: Script, n: nat, j: nat, strict: bool, level: nat, maxRetries: nat)
    ensures var limit := if script.answers(n).Empty? then DEFAULT_RETRIES else maxRetries;
      Retried(script, n + 1, j, strict, level + 1, limit) == Retried(script, n, j + 1, strict, level, maxRetries)
  {
    LimitLater(script, n, j, maxRetries);
    assert n + 1 + j == n + (j + 1);
  }

  lemma {:induction false} AlwaysRaises(script: Script, n: nat, level: nat, maxRetries: nat)
    requires forall j: nat :: n <= j ==> script.answers(j).Raised? && script.reconnects(j)
    requires level <= maxRetries
    ensures Attempts(script, n, true, level, maxRetries) == Result(Fails, maxRetries - level + 1)
    decreases maxRetries - level
  {
    if level < maxRetries {
      AlwaysRaises(script, n + 1, level + 1, maxRetries);
    }
  }

  lemma EmptyThenRaises(script: Script, maxRetries: nat)
    requires script.answers(0).Empty?
    requires forall j: nat :: 1 <= j ==> script.answers(j).Raised? && script.reconnects(j)
    ensures Attempts(script, 0, true, 0, maxRetries) == Result(Fails, EMPTY_RETRIES + 1)
  {
    AlwaysRaises(script, 1, 1, DEFAULT_RETRIES);
  }

  /** The bound is reached, and a caller who asks for no retries still gets ten
      after one empty result. */
  lemma BoundReached(maxRetries: nat)
    ensures exists script ::
      Attempts(script, 0, true, 0, maxRetries) == Result(Fails, Max(maxRetries, 10) + 1)
  {
    if EMPTY_RETRIES <= maxRetries {
      AlwaysRaises(Script((n: nat) => Raised, (n: nat) => true), 0, 0, maxRetries);
    } else {
      EmptyThenRaises(Script((n: nat) => if n == 0 then Empty else Raised, (n: nat) => true), maxRetries);
    }
  }

  /** The limit a caller gives is kept, for every behaviour of the driver, if and
      only if empty results are accepted or the limit is not below the ten retries
      after an empty result. */
  lemma LimitKeptExactly(strict: bool, maxRetries: nat)
    ensures (forall script, n :: Attempts(script, n, strict, 0, maxRetries).count <= maxRetries + 1) <==>
            !strict || 10 <= maxRetries
  {
    if strict && maxRetries < EMPTY_RETRIES {
      BoundReached(maxRetries);
    } else {
      forall script, n ensures Attempts(script, n, strict, 0, maxRetries).count <= maxRetries + 1 {
        LinearlyMany(script, n, strict, 0, maxRetries);
      }
    }
  }
}
