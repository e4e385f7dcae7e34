/** The registry of server lists: a fixed array of slots filled from the front,
    and the parser of "<host>:<port>,..." lists. */
module ServerRegistry {
  import opened Options
  import opened Text

  datatype Server = Server(host: string, port: int)

  /** A slot; an empty id marks it free. */
  datatype Slot = Slot(id: string, servers: seq<Server>, srvIdx: int)

  const FREE := Slot("", [], 0)
  const MAX_SERVERS := 32

  // ---------------------------------------------------------------- parsing

  /** strtok: empty tokens do not exist. */
  function NonEmpty(parts: seq<string>): seq<string> {
    if parts == [] then [] else (if parts[0] == "" then [] else [parts[0]]) + NonEmpty(parts[1..])
  }

  function Tokens(servers: string): seq<string> {
    NonEmpty(Split(servers, ','))
  }

  /** atoi: spaces, a sign, digits, and anything behind them. */
  function Atoi(s: string): int {
    if s == "" then 0
    else if s[0] == ' ' then Atoi(s[1..])
    else if s[0] == '-' then 0 - LeadingNumber(s[1..], 0)
    else if s[0] == '+' then LeadingNumber(s[1..], 0)
    else LeadingNumber(s, 0)
  }

  function SplitSrvAddr(srvAddr: string): Option<Server> {
    if ':' in srvAddr then Some(Server(Before(srvAddr, ':'), Atoi(Behind(srvAddr, ':')))) else None
  }

  datatype Parsed = Parsed(servers: seq<Server>, ok: bool)

  /** Parsing stops at the first malformed token; what came before it stays. */
  function Parse(tokens: seq<string>): Parsed {
    if tokens == [] then Parsed([], true)
    else
      match SplitSrvAddr(tokens[0])
      case None => Parsed([], false)
      case Some(server) =>
        var rest := Parse(tokens[1..]);
        Parsed([server] + rest.servers, rest.ok)
  }

  lemma {:induction false} SplitConcat(x: string, y: string, sep: char)
    ensures Split(x + [sep] + y, sep) == Split(x, sep) + Split(y, sep)
  {
    var s := x + [sep] + y;
    if x == "" {
      assert s == [sep] + y;
    } else {
      assert s[0] == x[0] && s[1..] == x[1..] + [sep] + y;
      SplitConcat(x[1..], y, sep);
    }
  }

  lemma {:induction false} NonEmptyConcat(a: seq<string>, b: seq<string>)
    ensures NonEmpty(a + b) == NonEmpty(a) + NonEmpty(b)
  {
    if a == [] {
      assert a + b == b;
    } else {
      assert (a + b)[1..] == a[1..] + b;
      NonEmptyConcat(a[1..], b);
    }
  }

  /** The texts between the commas, without the empty ones. */
  lemma TokensExactly(x: string, y: string)
    ensures Tokens(x + "," + y) == Tokens(x) + Tokens(y)
    ensures ',' !in x ==> Tokens(x) == if x == "" then [] else [x]
  {
    SplitConcat(x, y, ',');
    NonEmptyConcat(Split(x, ','), Split(y, ','));
    if ',' !in x {
      SplitFirst(x, ',', "");
    }
  }

  /** A number may have spaces and a sign in front and anything that does not begin
      with a digit behind; what does not begin like a number is zero. */
  lemma AtoiExactly(n: nat, rest: string)
    requires rest == "" || !IsDigit(rest[0])
    ensures Atoi(Decimal(n) + rest) == Atoi("+" + (Decimal(n) + rest)) == n
    ensures Atoi("-" + (Decimal(n) + rest)) + n == 0
    ensures forall s: string :: Atoi(" " + s) == Atoi(s)
    ensures rest == "" || (rest[0] != ' ' && rest[0] != '-' && rest[0] != '+') ==> Atoi(rest) == 0
  {
    DecimalReads(n);
    var number := Decimal(n) + rest;
    LeadingStops(Decimal(n), rest, 0);
    assert number[0] in Decimal(n);
    assert ("+" + number)[1..] == number && ("-" + number)[1..] == number;
    forall s: string ensures Atoi(" " + s) == Atoi(s) {
      assert (" " + s)[1..] == s;
    }
  }

  lemma {:induction false} LeadingStops(digits: string, rest: string, sofar: nat)
    requires (forall c :: c in digits ==> IsDigit(c)) && (rest == "" || !IsDigit(rest[0]))
    ensures LeadingNumber(digits + rest, sofar) == LeadingNumber(digits, sofar)
  {
    if digits == "" {
      assert digits + rest == rest;
    } else {
      assert (digits + rest)[1..] == digits[1..] + rest;
      LeadingStops(digits[1..], rest, 10 * sofar + DigitValue(digits[0]));
    }
  }

  /** An address without a colon is malformed; otherwise the host is what stands
      before the first colon. */
  lemma SplitExactly(host: string, port: string)
    requires ':' !in host
    ensures SplitSrvAddr(host + ":" + port) == Some(Server(host, Atoi(port)))
    ensures SplitSrvAddr(host) == None
  {
    CutFirst(host, ':', port);
    assert (host + ":" + port)[|host|] == ':';
  }

  /** The servers are those of the tokens before the first malformed one. */
  lemma {:induction false} ParseExactly(tokens: seq<string>)
    ensures var servers := Parse(tokens).servers;
      && |servers| <= |tokens|
      && (forall i :: 0 <= i < |servers| ==> SplitSrvAddr(tokens[i]) == Some(servers[i]))
      && (Parse(tokens).ok <==> |servers| == |tokens|)
      && (|servers| < |tokens| ==> ':' !in tokens[|servers|])
  {
    if tokens != [] && SplitSrvAddr(tokens[0]).Some? {
      ParseExactly(tokens[1..]);
    }
  }

  /** Parsing the tokens from the i-th on, behind some that are stored. */
  function Resume(stored: seq<Server>, tokens: seq<string>, i: nat): Parsed
    requires i <= |tokens|
  {
    var rest := Parse(tokens[i..]);
    Parsed(stored + rest.servers, rest.ok)
  }

  lemma ResumeStep(stored: seq<Server>, tokens: seq<string>, i: nat)
    requires i <= |tokens|
    ensures i == |tokens| ==> Resume(stored, tokens, i) == Parsed(stored, true)
    ensures i < |tokens| && SplitSrvAddr(tokens[i]).None? ==> Resume(stored, tokens, i) == Parsed(stored, false)
    ensures i < |tokens| && SplitSrvAddr(tokens[i]).Some? ==>
      Resume(stored, tokens, i) == Resume(stored + [SplitSrvAddr(tokens[i]).value], tokens, i + 1)
  {
    if i < |tokens| {
      assert tokens[i..][1..] == tokens[i + 1..];
    }
  }

  function IntDecimal(n: int): string {
    if n < 0 then "-" + Decimal(-n) else Decimal(n)
  }

  function Address(server: Server): string {
    server.host + ":" + IntDecimal(server.port)
  }

  function Addresses(servers: seq<Server>): (parts: seq<string>)
    ensures |parts| == |servers|
  {
    if servers == [] then [] else [Address(servers[0])] + Addresses(servers[1..])
  }

  function Render(servers: seq<Server>): string {
    if servers == [] then "" else Join(Addresses(servers), ",")
  }

  lemma AddressReads(server: Server)
    requires ':' !in server.host && ',' !in server.host
    ensures SplitSrvAddr(Address(server)) == Some(server)
    ensures Address(server) != "" && ',' !in Address(server)
  {
    var port := IntDecimal(server.port);
    PortReads(server.port);
    assert Address(server) == server.host + [':'] + port;
    assert Address(server)[|server.host|] == ':';
    CutFirst(server.host, ':', port);
  }

  lemma NumberReads(n: nat)
    ensures Atoi(Decimal(n)) == n && ',' !in Decimal(n)
  {
    DecimalReads(n);
    assert Decimal(n)[0] in Decimal(n);
  }

  lemma PortReads(port: int)
    ensures Atoi(IntDecimal(port)) == port && ',' !in IntDecimal(port)
  {
    if port < 0 {
      DecimalReads(-port);
      NumberReads(-port);
      assert IntDecimal(port)[1..] == Decimal(-port);
    } else {
      NumberReads(port);
    }
  }

  lemma {:induction false} AddressesRead(servers: seq<Server>)
    requires forall s :: s in servers ==> ':' !in s.host && ',' !in s.host
    ensures Parse(Addresses(servers)) == Parsed(servers, true)
    ensures NonEmpty(Addresses(servers)) == Addresses(servers)
    ensures forall part :: part in Addresses(servers) ==> ',' !in part
  {
    if servers != [] {
      AddressReads(servers[0]);
      AddressesRead(servers[1..]);
    }
  }

  /** A rendered list is parsed back to the same hosts and ports in order. */
  lemma RenderedParses(servers: seq<Server>)
    requires forall s :: s in servers ==> ':' !in s.host && ',' !in s.host
    ensures Parse(Tokens(Render(servers))) == Parsed(servers, true)
    ensures |Tokens(Render(servers))| == |servers|
  {
    AddressesRead(servers);
    if servers != [] {
      SplitJoin(Addresses(servers), ',');
    }
  }

  // ---------------------------------------------------------------- slots

  /** The search: it ends at the list, at the first free slot, or behind the
      last slot. */
  function Find(slots: seq<Slot>, id: string): (n: nat)
    ensures n <= |slots|
  {
    if slots == [] || slots[0].id == id || slots[0].id == "" then 0 else 1 + Find(slots[1..], id)
  }

  /** Used slots form a prefix and have different ids. */
  ghost predicate WellFilled(slots: seq<Slot>) {
    && (forall i, j :: 0 <= i < j < |slots| && slots[j].id != "" ==> slots[i].id != "" && slots[i].id != slots[j].id)
  }

  /** What the registry means: the servers that are found for an id. */
  function Means(slots: seq<Slot>, id: string): Option<seq<Server>> {
    var n := Find(slots, id);
    if n < |slots| && slots[n].id == id then Some(slots[n].servers) else None
  }

  lemma {:induction false} FindSound(slots: seq<Slot>, id: string)
    ensures var n := Find(slots, id);
      && (n < |slots| ==> slots[n].id == id || slots[n].id == "")
      && forall i :: 0 <= i < n ==> slots[i].id != id && slots[i].id != ""
  {
    if slots != [] && slots[0].id != id && slots[0].id != "" {
      FindSound(slots[1..], id);
    }
  }

  /** The slot that is found gets a new list. */
  function Stored(slots: seq<Slot>, id: string, servers: seq<Server>): seq<Slot>
    requires Find(slots, id) < |slots|
  {
    slots[Find(slots, id) := Slot(id, servers, -1)]
  }

  /** Writing the slot that was found keeps ids unique and used slots a prefix and
      gives the id its new servers.  It changes the meaning of no other id, but
      for the empty one: what was stored under it counts as free, and keeps its
      meaning exactly if the slot was in use or the next one holds the same. */
  lemma StoreRefines(slots: seq<Slot>, id: string, servers: seq<Server>, other: string)
    requires WellFilled(slots) && Find(slots, id) < |slots|
    ensures var n := Find(slots, id);
      var r := Stored(slots, id, servers);
      && WellFilled(r)
      && r[n] == Slot(id, servers, -1) && (forall i :: 0 <= i < |slots| && i != n ==> r[i] == slots[i])
      && Means(r, id) == Some(servers)
      && (other != id ==>
            (Means(r, other) == Means(slots, other) <==>
              || other != "" || slots[n].id != ""
              || (n + 1 < |slots| && slots[n + 1].servers == slots[n].servers)))
  {
    StoreFills(slots, id, servers);
    if other != id && other != "" {
      StoreKeeps(slots, id, servers, other);
    } else if other != id {
      StoreTakesFree(slots, id, servers);
    }
  }

  lemma StoreFills(slots: seq<Slot>, id: string, servers: seq<Server>)
    requires WellFilled(slots) && Find(slots, id) < |slots|
    ensures WellFilled(Stored(slots, id, servers)) && Means(Stored(slots, id, servers), id) == Some(servers)
  {
    FindSound(slots, id);
    FoundAt(Stored(slots, id, servers), id, Find(slots, id));
  }

  /** The search ends at the slot it has to end at. */
  lemma {:induction false} FoundAt(slots: seq<Slot>, id: string, n: nat)
    requires n < |slots| && (slots[n].id == id || slots[n].id == "")
    requires forall i :: 0 <= i < n ==> slots[i].id != id && slots[i].id != ""
    ensures Find(slots, id) == n
  {
    if n != 0 {
      FoundAt(slots[1..], id, n - 1);
    }
  }

  lemma StoreKeeps(slots: seq<Slot>, id: string, servers: seq<Server>, other: string)
    requires WellFilled(slots) && Find(slots, id) < |slots| && other != "" && other != id
    ensures Means(Stored(slots, id, servers), other) == Means(slots, other)
  {
    var n, r := Find(slots, id), Stored(slots, id, servers);
    FindSound(slots, id);
    FindSound(slots, other);
    FindSound(r, other);
    StoreFills(slots, id, servers);
    var m := Find(slots, other);
    assert forall i :: 0 <= i < |slots| && i != n ==> r[i] == slots[i];
    if m < |slots| && slots[m].id == other {
      FoundAt(r, other, m);
    }
  }

  lemma StoreTakesFree(slots: seq<Slot>, id: string, servers: seq<Server>)
    requires WellFilled(slots) && Find(slots, id) < |slots| && id != ""
    ensures var n := Find(slots, id);
      Means(Stored(slots, id, servers), "") ==
        if slots[n].id != "" then Means(slots, "")
        else if n + 1 < |slots| then Some(slots[n + 1].servers) else None
    ensures var n := Find(slots, id);
      slots[n].id == "" ==> Means(slots, "") == Some(slots[n].servers)
  {
    var n, r := Find(slots, id), Stored(slots, id, servers);
    FindSound(slots, id);
    FindSound(slots, "");
    FindSound(r, "");
    var f := Find(slots, "");
    if slots[n].id == "" {
      FoundAt(slots, "", n);
      if n + 1 < |slots| {
        FoundAt(r, "", n + 1);
      }
    } else if f < |slots| {
      FoundAt(r, "", f);
    }
  }

  /** No slot is found only when all of them hold other lists. */
  lemma NoSlotMeansFull(slots: seq<Slot>, id: string)
    ensures Find(slots, id) == |slots| <==> forall i :: 0 <= i < |slots| ==> slots[i].id != "" && slots[i].id != id
  {
    FindSound(slots, id);
  }

  ghost predicate Holds(slots: seq<Slot>, id: string, servers: seq<Server>) {
    exists i :: 0 <= i < |slots| && slots[i].id == id && slots[i].servers == servers
  }

  /** The search finds what the slots hold for an id, if and only if the id is not
      empty or all free slots are alike. */
  lemma FindsStoredExactly(slots: seq<Slot>, id: string)
    requires WellFilled(slots)
    ensures (forall servers :: Holds(slots, id, servers) <==> Means(slots, id) == Some(servers)) <==>
      || id != ""
      || forall i, j :: 0 <= i < |slots| && 0 <= j < |slots| && slots[i].id == "" && slots[j].id == "" ==>
           slots[i].servers == slots[j].servers
  {
    FindSound(slots, id);
    if i, j :| 0 <= i < |slots| && 0 <= j < |slots| && slots[i].id == id && slots[j].id == id
               && slots[i].servers != slots[j].servers {
      assert Holds(slots, id, slots[i].servers) && Holds(slots, id, slots[j].servers);
    } else {
      forall servers ensures Holds(slots, id, servers) <==> Means(slots, id) == Some(servers) {
        var n := Find(slots, id);
        if k :| 0 <= k < |slots| && slots[k].id == id && slots[k].servers == servers {
          assert n <= k && slots[n].id == id;
        }
      }
    }
  }

  class Registry {
    const slots: array<Slot>

    constructor (size: nat)
      ensures fresh(slots) && slots.Length == size && WellFilled(slots[..])
    {
      slots := new Slot[size](_ => FREE);
    }

    method GetSrvInfoObj(listId: string) returns (foundList: bool, n: nat)
      ensures n == Find(slots[..], listId)
      ensures foundList <==> n < slots.Length && slots[n].id == listId
    {
      n := 0;
      foundList := false;
      while n < slots.Length
        invariant 0 <= n <= slots.Length
        invariant Find(slots[..], listId) == n + Find(slots[n..], listId)
      {
        assert slots[n..][1..] == slots[n + 1..];
        if slots[n].id == listId {
          foundList := true;
          break;
        } else if slots[n].id == "" {
          break;
        }
        n := n + 1;
      }
      FindSound(slots[..], listId);
    }

    /** The arrays of a slot hold 32 servers and nobody counts: with more the code
        writes behind them, and what it does then is not said here. */
    method ParseSrvListId(listId: string, servers: string) returns (ok: bool, overrun: bool)
      modifies slots
      ensures var was, n := old(slots[..]), Find(old(slots[..]), listId);
        var parsed := Parse(Tokens(servers));
        && (overrun <==> n < |was| && 32 < |parsed.servers|)
        && (n == |was| ==> !ok && slots[..] == was)
        && (n < |was| && !overrun ==> ok == parsed.ok && slots[..] == Stored(was, listId, parsed.servers))
    {
      var foundList, n := GetSrvInfoObj(listId);
      if n == slots.Length {
        return false, false;
      }
      slots[n] := Slot(listId, [], -1);
      var tokens := Tokens(servers);
      var i := 0;
      ghost var parsed, stored := Parse(tokens), [];
      assert tokens[0..] == tokens;
      while i < |tokens|
        invariant 0 <= i <= |tokens|
        invariant slots[..] == old(slots[..])[n := Slot(listId, stored, -1)]
        invariant Resume(stored, tokens, i) == parsed && |stored| <= MAX_SERVERS
      {
        ResumeStep(stored, tokens, i);
        var address := SplitSrvAddr(tokens[i]);
        if address.None? {
          return false, false;
        }
        if |slots[n].servers| == MAX_SERVERS {
          return false, true;
        }
        slots[n] := slots[n].(servers := slots[n].servers + [address.value]);
        stored := stored + [address.value];
        i := i + 1;
      }
      ResumeStep(stored, tokens, i);
      return true, false;
    }
  }
}
