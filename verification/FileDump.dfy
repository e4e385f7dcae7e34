/** The file summary query and the dump of its rows through a cursor into a
    numbered file, checked against a count made beforehand. */
module FileDump {
  import opened Options
  import opened Text

  datatype Disk = Disk(diskId: string, hostId: string, slotId: string)
  datatype File = File(diskId: string, fileId: string, ignore: int, status: string, ingestionDate: int)

  /** A row of the join of the two tables. */
  datatype Row = Row(disk: Disk, file: File)

  datatype Tables = Tables(disks: seq<Disk>, files: seq<File>)

  // ---------------------------------------------------------------- query

  /** The parameters of the query; an empty list or an absent value is no
      condition. */
  datatype Criteria = Criteria(
    hostId: Option<string>, diskIds: seq<string>, fileIds: seq<string>, ignore: Option<int>,
    fileStatus: seq<string>, lowLimIngestDate: Option<int>)

  datatype Clause =
    | SameDisk
    | IgnoreIs(ignore: int)
    | HostIs(hostId: string)
    | DiskIn(diskIds: seq<string>)
    | FileIn(fileIds: seq<string>)
    | StatusIn(fileStatus: seq<string>)
    | Since(date: int)

  datatype Query = Query(clauses: seq<Clause>, ordered: bool)

  predicate Holds(clause: Clause, row: Row) {
    match clause
    case SameDisk => row.disk.diskId == row.file.diskId
    case IgnoreIs(ignore) => row.file.ignore == ignore
    case HostIs(hostId) => row.disk.hostId == hostId
    case DiskIn(diskIds) => row.disk.diskId in diskIds
    case FileIn(fileIds) => row.file.fileId in fileIds
    case StatusIn(fileStatus) => row.file.status in fileStatus
    case Since(date) => date <= row.file.ingestionDate
  }

  predicate Accepts(clauses: seq<Clause>, row: Row) {
    forall clause :: clause in clauses ==> Holds(clause, row)
  }

  /** What the parameters of the query mean. */
  predicate Wanted(c: Criteria, row: Row) {
    && row.disk.diskId == row.file.diskId
    && (c.hostId.Some? && c.hostId.value != "" ==> row.disk.hostId == c.hostId.value)
    && (c.diskIds != [] ==> row.disk.diskId in c.diskIds)
    && (c.fileIds != [] ==> row.file.fileId in c.fileIds)
    && (c.ignore.Some? ==> row.file.ignore == c.ignore.value)
    && (c.fileStatus != [] ==> row.file.status in c.fileStatus)
    && (c.lowLimIngestDate.Some? ==> c.lowLimIngestDate.value <= row.file.ingestionDate)
  }

  /** The optional conditions in the order in which they are added. */
  function Condition(c: Criteria, k: nat): Option<Clause> {
    if k == 0 then (if c.ignore.Some? then Some(IgnoreIs(c.ignore.value)) else None)
    else if k == 1 then (if c.hostId.Some? && c.hostId.value != "" then Some(HostIs(c.hostId.value)) else None)
    else if k == 2 then (if c.diskIds != [] then Some(DiskIn(c.diskIds)) else None)
    else if k == 3 then (if c.fileIds != [] then Some(FileIn(c.fileIds)) else None)
    else if k == 4 then (if c.fileStatus != [] then Some(StatusIn(c.fileStatus)) else None)
    else if k == 5 then (if c.lowLimIngestDate.Some? then Some(Since(c.lowLimIngestDate.value)) else None)
    else None
  }

  function Clauses(c: Criteria, k: nat): seq<Clause> {
    if k == 0 then [SameDisk]
    else
      match Condition(c, k - 1)
      case None => Clauses(c, k - 1)
      case Some(clause) => Clauses(c, k - 1) + [clause]
  }

  predicate Meets(c: Criteria, k: nat, row: Row) {
    Condition(c, k).Some? ==> Holds(Condition(c, k).value, row)
  }

  lemma AcceptsMore(clauses: seq<Clause>, clause: Clause, row: Row)
    ensures Accepts(clauses + [clause], row) <==> Accepts(clauses, row) && Holds(clause, row)
  {
    if Accepts(clauses + [clause], row) {
      assert clause in clauses + [clause];
      forall other | other in clauses ensures Holds(other, row) {
        assert other in clauses + [clause];
      }
    }
  }

  lemma {:induction false} ClausesMean(c: Criteria, k: nat, row: Row)
    ensures Accepts(Clauses(c, k), row) <==> Holds(SameDisk, row) && forall j: nat :: j < k ==> Meets(c, j, row)
  {
    if k == 0 {
      assert forall clause :: clause in [SameDisk] <==> clause == SameDisk;
    } else {
      ClausesMean(c, k - 1, row);
      assert Meets(c, k - 1, row) <==> (Condition(c, k - 1).Some? ==> Holds(Condition(c, k - 1).value, row));
      if Condition(c, k - 1).Some? {
        AcceptsMore(Clauses(c, k - 1), Condition(c, k - 1).value, row);
      }
    }
  }

  lemma AllMet(c: Criteria, row: Row)
    ensures Accepts(Clauses(c, 6), row) <==> Wanted(c, row)
  {
    ClausesMean(c, 6, row);
    assert (forall j: nat :: j < 6 ==> Meets(c, j, row)) <==>
      && Meets(c, 0, row) && Meets(c, 1, row) && Meets(c, 2, row)
      && Meets(c, 3, row) && Meets(c, 4, row) && Meets(c, 5, row);
  }

  function SummaryQuery(c: Criteria, order: bool): Query {
    Query(Clauses(c, 6), order)
  }

  method BuildFileSummary1Query(c: Criteria, order: bool) returns (q: Query)
    ensures q == SummaryQuery(c, order)
    ensures forall row :: Accepts(q.clauses, row) <==> Wanted(c, row)
  {
    var clauses := [SameDisk];
    if c.ignore.Some? {
      clauses := clauses + [IgnoreIs(c.ignore.value)];
    }
    assert clauses == Clauses(c, 1);
    if c.hostId.Some? && c.hostId.value != "" {
      clauses := clauses + [HostIs(c.hostId.value)];
    }
    assert clauses == Clauses(c, 2);
    if c.diskIds != [] {
      clauses := clauses + [DiskIn(c.diskIds)];
    }
    assert clauses == Clauses(c, 3);
    if c.fileIds != [] {
      clauses := clauses + [FileIn(c.fileIds)];
    }
    assert clauses == Clauses(c, 4);
    if c.fileStatus != [] {
      clauses := clauses + [StatusIn(c.fileStatus)];
    }
    assert clauses == Clauses(c, 5);
    if c.lowLimIngestDate.Some? {
      clauses := clauses + [Since(c.lowLimIngestDate.value)];
    }
    assert clauses == Clauses(c, 6);
    forall row ensures Accepts(clauses, row) <==> Wanted(c, row) {
      AllMet(c, row);
    }
    return Query(clauses, order);
  }

  function Filter(rows: seq<Row>, clauses: seq<Clause>): seq<Row> {
    if rows == [] then []
    else Filter(rows[..|rows| - 1], clauses) + if Accepts(clauses, rows[|rows| - 1]) then [rows[|rows| - 1]] else []
  }

  function Pairs(disks: seq<Disk>, file: File): seq<Row> {
    if disks == [] then [] else Pairs(disks[..|disks| - 1], file) + [Row(disks[|disks| - 1], file)]
  }

  function Product(disks: seq<Disk>, files: seq<File>): seq<Row> {
    if files == [] then []
    else Product(disks, files[..|files| - 1]) + Pairs(disks, files[|files| - 1])
  }

  /** SELECT count(*): the same WHERE clause with another projection. */
  function Count(q: Query, t: Tables): nat {
    |Filter(Product(t.disks, t.files), q.clauses)|
  }

  /** The rows a cursor on the query may deliver: in any order. */
  ghost predicate Delivers(q: Query, t: Tables, rows: seq<Row>) {
    multiset(rows) == multiset(Filter(Product(t.disks, t.files), q.clauses))
  }

  // ---------------------------------------------------------------- meaning

  /** The rows of the two tables that are asked for, each as the positions of its
      disk and its file. */
  ghost function WantedAt(c: Criteria, disks: seq<Disk>, files: seq<File>): set<(nat, nat)> {
    set i: nat, j: nat | i < |disks| && j < |files| && Wanted(c, Row(disks[i], files[j])) :: (i, j)
  }

  /** Each pair of a disk and a file that is asked for is there as often as the
      tables hold the two, and no other row is. */
  ghost predicate IsListing(c: Criteria, t: Tables, rows: seq<Row>) {
    forall d, f :: multiset(rows)[Row(d, f)] ==
      if Wanted(c, Row(d, f)) then multiset(t.disks)[d] * multiset(t.files)[f] else 0
  }

  lemma {:induction false} FilterConcat(xs: seq<Row>, ys: seq<Row>, clauses: seq<Clause>)
    ensures Filter(xs + ys, clauses) == Filter(xs, clauses) + Filter(ys, clauses)
  {
    if ys == [] {
      assert xs + ys == xs;
    } else {
      assert (xs + ys)[..|xs + ys| - 1] == xs + ys[..|ys| - 1];
      FilterConcat(xs, ys[..|ys| - 1], clauses);
    }
  }

  /** The positions among the first k disks that ask for one file. */
  ghost function Column(c: Criteria, disks: seq<Disk>, files: seq<File>, k: nat, j: nat): set<(nat, nat)>
    requires k <= |disks| && j < |files|
  {
    set i: nat | i < k && Wanted(c, Row(disks[i], files[j])) :: (i, j)
  }

  lemma OneMoreDisk(c: Criteria, disks: seq<Disk>, files: seq<File>, k: nat, j: nat)
    requires k < |disks| && j < |files|
    ensures |Column(c, disks, files, k + 1, j)| ==
      |Column(c, disks, files, k, j)| + if Wanted(c, Row(disks[k], files[j])) then 1 else 0
  {
    var found, before := Column(c, disks, files, k + 1, j), Column(c, disks, files, k, j);
    assert found == before + if Wanted(c, Row(disks[k], files[j])) then {(k, j)} else {};
    assert (k, j) !in before;
  }

  lemma FilterPairs(c: Criteria, disks: seq<Disk>, file: File, k: nat)
    requires k < |disks|
    ensures |Filter(Pairs(disks[..k + 1], file), Clauses(c, 6))| ==
      |Filter(Pairs(disks[..k], file), Clauses(c, 6))| + if Wanted(c, Row(disks[k], file)) then 1 else 0
  {
    var rows, row := Pairs(disks[..k], file), Row(disks[k], file);
    assert disks[..k + 1][..k] == disks[..k];
    assert Pairs(disks[..k + 1], file) == rows + [row];
    assert (rows + [row])[..|rows|] == rows;
    AllMet(c, row);
  }

  /** One file joined with some disks. */
  lemma {:induction false} CountPairs(c: Criteria, disks: seq<Disk>, files: seq<File>, k: nat, j: nat)
    requires k <= |disks| && j < |files|
    ensures |Filter(Pairs(disks[..k], files[j]), Clauses(c, 6))| == |Column(c, disks, files, k, j)|
  {
    if k != 0 {
      CountPairs(c, disks, files, k - 1, j);
      FilterPairs(c, disks, files[j], k - 1);
      OneMoreDisk(c, disks, files, k - 1, j);
    }
  }

  /** The positions that ask for the last file, beside those of the others. */
  lemma LastColumn(c: Criteria, disks: seq<Disk>, files: seq<File>)
    requires files != []
    ensures |WantedAt(c, disks, files)| ==
      |WantedAt(c, disks, files[..|files| - 1])| + |Column(c, disks, files, |disks|, |files| - 1)|
  {
    var last := |files| - 1;
    var front, column := WantedAt(c, disks, files[..last]), Column(c, disks, files, |disks|, last);
    forall i: nat, j: nat ensures (i, j) in WantedAt(c, disks, files) <==> (i, j) in front + column {}
    assert WantedAt(c, disks, files) == front + column;
    assert front !! column;
  }

  lemma {:induction false} CountProduct(c: Criteria, disks: seq<Disk>, files: seq<File>)
    ensures |Filter(Product(disks, files), Clauses(c, 6))| == |WantedAt(c, disks, files)|
  {
    if files != [] {
      var front, last := files[..|files| - 1], |files| - 1;
      CountProduct(c, disks, front);
      CountPairs(c, disks, files, |disks|, last);
      assert disks[..|disks|] == disks;
      FilterConcat(Product(disks, front), Pairs(disks, files[last]), Clauses(c, 6));
      LastColumn(c, disks, files);
    }
  }

  lemma {:induction false} TimesInPairs(disks: seq<Disk>, file: File, d: Disk, f: File)
    ensures multiset(Pairs(disks, file))[Row(d, f)] == if f == file then multiset(disks)[d] else 0
  {
    if disks != [] {
      TimesInPairs(disks[..|disks| - 1], file, d, f);
      assert disks == disks[..|disks| - 1] + [disks[|disks| - 1]];
    }
  }

  lemma OneMoreFile(disks: seq<Disk>, front: seq<File>, last: File, d: Disk, f: File)
    ensures multiset(Product(disks, front + [last]))[Row(d, f)] ==
      multiset(Product(disks, front))[Row(d, f)] + if f == last then multiset(disks)[d] else 0
  {
    assert (front + [last])[..|front|] == front;
    TimesInPairs(disks, last, d, f);
  }

  lemma Times(m: nat, n: nat, more: nat)
    requires more == n || more == n + 1
    ensures m * more == m * n + if more == n then 0 else m
  {}

  lemma {:induction false} TimesInProduct(disks: seq<Disk>, files: seq<File>, d: Disk, f: File)
    ensures multiset(Product(disks, files))[Row(d, f)] == multiset(disks)[d] * multiset(files)[f]
  {
    if files != [] {
      var front, last := files[..|files| - 1], files[|files| - 1];
      assert files == front + [last];
      TimesInProduct(disks, front, d, f);
      OneMoreFile(disks, front, last, d, f);
      assert multiset(files)[f] == multiset(front)[f] + if f == last then 1 else 0;
      Times(multiset(disks)[d], multiset(front)[f], multiset(files)[f]);
    }
  }

  lemma {:induction false} TimesInFilter(c: Criteria, rows: seq<Row>, row: Row)
    ensures multiset(Filter(rows, Clauses(c, 6)))[row] == if Wanted(c, row) then multiset(rows)[row] else 0
  {
    if rows != [] {
      TimesInFilter(c, rows[..|rows| - 1], row);
      AllMet(c, rows[|rows| - 1]);
      assert rows == rows[..|rows| - 1] + [rows[|rows| - 1]];
    }
  }

  lemma QueryLists(c: Criteria, t: Tables)
    ensures IsListing(c, t, Filter(Product(t.disks, t.files), Clauses(c, 6)))
  {
    forall d, f
      ensures multiset(Filter(Product(t.disks, t.files), Clauses(c, 6)))[Row(d, f)] ==
        if Wanted(c, Row(d, f)) then multiset(t.disks)[d] * multiset(t.files)[f] else 0
    {
      TimesInFilter(c, Product(t.disks, t.files), Row(d, f));
      TimesInProduct(t.disks, t.files, d, f);
    }
  }

  method GetSummary1NoOfFiles(c: Criteria, t: Tables) returns (noOfFiles: nat)
    ensures noOfFiles == |WantedAt(c, t.disks, t.files)|
  {
    var q := BuildFileSummary1Query(c, false);
    noOfFiles := Count(q, t);
    CountProduct(c, t.disks, t.files);
  }

  /** A cursor of the listing delivers exactly what is asked for, and as many rows
      as were counted without ordering. */
  lemma CountFits(c: Criteria, order: bool, t: Tables, rows: seq<Row>)
    requires Delivers(SummaryQuery(c, order), t, rows)
    ensures IsListing(c, t, rows)
    ensures |rows| == |WantedAt(c, t.disks, t.files)| == Count(SummaryQuery(c, false), t)
  {
    QueryLists(c, t);
    CountProduct(c, t.disks, t.files);
    assert |multiset(rows)| == |rows|;
  }

  // ---------------------------------------------------------------- dump

  /** Rows stored under the decimal numbers from 0 on. */
  function Numbered(rows: seq<Row>): map<string, Row> {
    if rows == [] then map[]
    else Numbered(rows[..|rows| - 1])[Decimal(|rows| - 1) := rows[|rows| - 1]]
  }

  /** Nothing is overwritten: the i-th row is found under i, and there are as
      many entries as rows. */
  lemma {:induction false} NumberedFinds(rows: seq<Row>)
    ensures |Numbered(rows)| == |rows|
    ensures forall i: nat :: i < |rows| ==> Decimal(i) in Numbered(rows) && Numbered(rows)[Decimal(i)] == rows[i]
    ensures forall n: nat :: |rows| <= n ==> Decimal(n) !in Numbered(rows)
  {
    if rows != [] {
      var front, last := rows[..|rows| - 1], |rows| - 1;
      NumberedFinds(front);
      forall i: nat | i != last ensures Decimal(i) != Decimal(last) {
        if Decimal(i) == Decimal(last) {
          DecimalInjective(i, last);
        }
      }
    }
  }

  lemma NumberedSnoc(rows: seq<Row>, row: Row)
    ensures Numbered(rows + [row]) == Numbered(rows)[Decimal(|rows|) := row]
  {
    assert (rows + [row])[..|rows|] == rows;
  }

  /** All rows of the chunks up to the first empty one, with which a cursor says
      that it is exhausted. */
  function Fetched(chunks: seq<seq<Row>>): seq<Row> {
    if chunks == [] || chunks[0] == [] then [] else chunks[0] + Fetched(chunks[1..])
  }

  function Flat(chunks: seq<seq<Row>>): seq<Row> {
    if chunks == [] then [] else chunks[0] + Flat(chunks[1..])
  }

  /** What comes behind the first empty chunk is not looked at. */
  lemma {:induction false} FetchedExactly(full: seq<seq<Row>>, rest: seq<seq<Row>>)
    requires [] !in full
    ensures Fetched(full) == Fetched(full + [[]] + rest) == Flat(full)
  {
    if full != [] {
      assert (full + [[]] + rest)[1..] == full[1..] + [[]] + rest;
      FetchedExactly(full[1..], rest);
    }
  }

  lemma FetchedStep(done: seq<Row>, chunks: seq<seq<Row>>, c: nat)
    requires c <= |chunks|
    ensures done + Fetched(chunks[c..]) ==
      if c == |chunks| || chunks[c] == [] then done else done + chunks[c] + Fetched(chunks[c + 1..])
  {
    if c < |chunks| {
      assert chunks[c..][1..] == chunks[c + 1..];
    }
  }

  /** The inner loop: one chunk is added after the rows `done`. */
  method AddChunk(chunk: seq<Row>, dbm0: map<string, Row>, fileCount0: nat, ghost done: seq<Row>)
    returns (dbm: map<string, Row>, fileCount: nat)
    requires dbm0 == Numbered(done) && fileCount0 == |done|
    ensures dbm == Numbered(done + chunk) && fileCount == |done + chunk|
  {
    dbm, fileCount := dbm0, fileCount0;
    ghost var sofar := done;
    assert sofar == done + chunk[..0];
    for k := 0 to |chunk|
      invariant sofar == done + chunk[..k]
      invariant dbm == Numbered(sofar) && fileCount == |sofar|
    {
      NumberedSnoc(sofar, chunk[k]);
      dbm := dbm[Decimal(fileCount) := chunk[k]];
      fileCount := fileCount + 1;
      sofar := sofar + [chunk[k]];
    }
    assert sofar == done + chunk;
  }

  method DumpCursor(chunks: seq<seq<Row>>) returns (dbm: map<string, Row>, fileCount: nat)
    ensures dbm == Numbered(Fetched(chunks)) && fileCount == |Fetched(chunks)|
  {
    dbm, fileCount := map[], 0;
    var c := 0;
    ghost var done: seq<Row>, all := [], Fetched(chunks);
    assert chunks[0..] == chunks;
    while c < |chunks| && chunks[c] != []
      invariant 0 <= c <= |chunks|
      invariant done + Fetched(chunks[c..]) == all
      invariant dbm == Numbered(done) && fileCount == |done|
    {
      FetchedStep(done, chunks, c);
      dbm, fileCount := AddChunk(chunks[c], dbm, fileCount, done);
      done := done + chunks[c];
      c := c + 1;
    }
    FetchedStep(done, chunks, c);
  }

  const ROUNDS := 5

  /** `cursor(q, n)` is what a cursor on the query delivers in the n-th round, in
      chunks. */
  predicate Fits(cursor: (Query, nat) -> seq<seq<Row>>, q: Query, expected: int, n: nat) {
    |Fetched(cursor(q, n))| == expected
  }

  /** `before` are the tables when the files are counted.  If they have not
      changed when the first cursor delivers, the first round is the last and
      holds exactly the rows asked for. */
  method DumpFileSummary1(c: Criteria, order: bool, before: Tables, cursor: (Query, nat) -> seq<seq<Row>>,
                          verify: bool, autoRecover: bool)
    returns (raised: bool, dbm: map<string, Row>, round: nat)
    ensures var q, expected := SummaryQuery(c, order), |WantedAt(c, before.disks, before.files)|;
      && (raised <==> verify && autoRecover && forall n: nat :: n < 5 ==> !Fits(cursor, q, expected, n))
      && (!raised ==> round < 5 && dbm == Numbered(Fetched(cursor(q, round))))
      && (!raised && verify && autoRecover ==>
            Fits(cursor, q, expected, round) && forall n: nat :: n < round ==> !Fits(cursor, q, expected, n))
      && (!(verify && autoRecover) ==> round == 0)
    ensures var rows := Fetched(cursor(SummaryQuery(c, order), 0));
      Delivers(SummaryQuery(c, order), before, rows) ==>
        && !raised && round == 0 && dbm == Numbered(rows)
        && IsListing(c, before, rows)
  {
    var expected: int := -1;
    if verify {
      expected := GetSummary1NoOfFiles(c, before);
    }
    ghost var query := SummaryQuery(c, order);
    if Delivers(query, before, Fetched(cursor(query, 0))) {
      CountFits(c, order, before, Fetched(cursor(query, 0)));
      assert verify ==> Fits(cursor, query, expected, 0);
    }
    round := 0;
    while true
      invariant 0 <= round < ROUNDS
      invariant verify ==> expected == |WantedAt(c, before.disks, before.files)|
      invariant forall n: nat :: n < round ==> !Fits(cursor, query, expected, n)
      invariant round > 0 ==> verify && autoRecover
      decreases ROUNDS - round
    {
      var q := BuildFileSummary1Query(c, order);
      var fileCount;
      dbm, fileCount := DumpCursor(cursor(q, round));
      if verify && autoRecover && fileCount != expected {
        assert !Fits(cursor, query, expected, round);
        if round < ROUNDS - 1 {
          round := round + 1;
        } else {
          return true, map[], round;
        }
      } else {
        assert verify && autoRecover ==> Fits(cursor, query, expected, round);
        return false, dbm, round;
      }
    }
  }
}
