/** The NGAS files and disks tables and the bookkeeping that keeps the counters
    of a disk equal to what its file rows say. */
module Accounting {
  import opened Options

  datatype FileRow = FileRow(diskId: string, fileId: string, version: int, size: nat)
  datatype DiskRow = DiskRow(numberOfFiles: int, bytesStored: int)
  datatype Tables = Tables(files: seq<FileRow>, disks: map<string, DiskRow>)

  const NO_VERSION := -1

  /** The primary key of the files table. */
  function Key(row: FileRow): (string, string, int) {
    (row.diskId, row.fileId, row.version)
  }

  // ---------------------------------------------------------------- SQL

  datatype Pattern = Equals(text: string) | LikeText(pattern: string)

  /** The WHERE clauses used on the files table; an absent part is no condition. */
  datatype Where = Where(disk: Option<string>, file: Option<Pattern>, version: Option<int>)

  /** SQL LIKE. */
  predicate Like(p: string, s: string)
    decreases |p| + |s|
  {
    if p == "" then s == ""
    else if p[0] == '%' then Like(p[1..], s) || (s != "" && Like(p, s[1..]))
    else s != "" && (p[0] == '_' || p[0] == s[0]) && Like(p[1..], s[1..])
  }

  predicate Matches(w: Where, row: FileRow) {
    && (w.disk.Some? ==> row.diskId == w.disk.value)
    && (w.file.Some? ==>
          match w.file.value
          case Equals(text) => row.fileId == text
          case LikeText(pattern) => Like(pattern, row.fileId))
    && (w.version.Some? ==> row.version == w.version.value)
  }

  function Select(rows: seq<FileRow>, w: Where): seq<FileRow> {
    if rows == [] then []
    else
      var row := rows[|rows| - 1];
      Select(rows[..|rows| - 1], w) + if Matches(w, row) then [row] else []
  }

  function Delete(rows: seq<FileRow>, w: Where): seq<FileRow> {
    if rows == [] then []
    else
      var row := rows[|rows| - 1];
      Delete(rows[..|rows| - 1], w) + if Matches(w, row) then [] else [row]
  }

  function SetSize(rows: seq<FileRow>, w: Where, size: nat): seq<FileRow> {
    if rows == [] then []
    else
      var row := rows[|rows| - 1];
      SetSize(rows[..|rows| - 1], w, size) + [if Matches(w, row) then row.(size := size) else row]
  }

  function Sum(rows: seq<FileRow>): nat {
    if rows == [] then 0 else Sum(rows[..|rows| - 1]) + rows[|rows| - 1].size
  }

  function OnDisk(diskId: string): Where {
    Where(Some(diskId), None, None)
  }

  function Exactly(diskId: string, fileId: string, version: int): Where {
    Where(Some(diskId), Some(Equals(fileId)), Some(version))
  }

  lemma SelectLast(rows: seq<FileRow>, row: FileRow, w: Where)
    ensures var more, some := Select(rows + [row], w), Select(rows, w);
      && more == (if Matches(w, row) then some + [row] else some)
      && Sum(more) == Sum(some) + if Matches(w, row) then row.size else 0
  {
    assert (rows + [row])[..|rows|] == rows;
    assert (Select(rows, w) + [row])[..|Select(rows, w)|] == Select(rows, w);
  }

  /** What deleting some rows of a disk does to the rows of any disk. */
  lemma {:induction false} DeleteFromDisk(rows: seq<FileRow>, w: Where, diskId: string)
    requires w.disk.Some?
    ensures var kept, all := Select(Delete(rows, w), OnDisk(diskId)), Select(rows, OnDisk(diskId));
      if w.disk.value == diskId then
        |kept| == |all| - |Select(rows, w)| && Sum(kept) == Sum(all) - Sum(Select(rows, w))
      else kept == all
  {
    if rows != [] {
      var front, row := rows[..|rows| - 1], rows[|rows| - 1];
      assert rows == front + [row];
      DeleteFromDisk(front, w, diskId);
      SelectLast(front, row, w);
      SelectLast(front, row, OnDisk(diskId));
      if Matches(w, row) {
        assert Delete(rows, w) == Delete(front, w);
      } else {
        SelectLast(Delete(front, w), row, OnDisk(diskId));
      }
    }
  }

  /** The sizes that resizing gives out. */
  function Resized(rows: seq<FileRow>, w: Where, size: nat): nat {
    if rows == [] then 0
    else Resized(rows[..|rows| - 1], w, size) + if Matches(w, rows[|rows| - 1]) then size else 0
  }

  lemma {:induction false} ResizedOnce(rows: seq<FileRow>, w: Where, size: nat)
    ensures |Select(rows, w)| == 0 ==> Resized(rows, w, size) == 0
    ensures |Select(rows, w)| == 1 ==> Resized(rows, w, size) == size
  {
    if rows != [] {
      ResizedOnce(rows[..|rows| - 1], w, size);
    }
  }

  /** Resizing rows of a disk, seen from any disk. */
  lemma {:induction false} SetSizeOnDisk(rows: seq<FileRow>, w: Where, size: nat, diskId: string)
    requires w.disk.Some?
    ensures |Select(SetSize(rows, w, size), OnDisk(diskId))| == |Select(rows, OnDisk(diskId))|
    ensures Sum(Select(SetSize(rows, w, size), OnDisk(diskId))) == Sum(Select(rows, OnDisk(diskId))) +
      if w.disk.value == diskId then Resized(rows, w, size) - Sum(Select(rows, w)) else 0
  {
    if rows != [] {
      var front, row := rows[..|rows| - 1], rows[|rows| - 1];
      assert rows == front + [row];
      SelectLast(front, row, w);
      SelectLast(front, row, OnDisk(diskId));
      SetSizeOnDisk(front, w, size, diskId);
      SetSizeLast(front, row, w, size, diskId);
    }
  }

  lemma SetSizeLast(front: seq<FileRow>, row: FileRow, w: Where, size: nat, diskId: string)
    ensures var last := if Matches(w, row) then row.(size := size) else row;
      var more := Select(SetSize(front + [row], w, size), OnDisk(diskId));
      var some := Select(SetSize(front, w, size), OnDisk(diskId));
      if row.diskId == diskId then |more| == |some| + 1 && Sum(more) == Sum(some) + last.size else more == some
  {
    var last := if Matches(w, row) then row.(size := size) else row;
    assert (front + [row])[..|front|] == front;
    assert SetSize(front + [row], w, size) == SetSize(front, w, size) + [last];
    SelectLast(SetSize(front, w, size), last, OnDisk(diskId));
  }

  lemma SelectSound(rows: seq<FileRow>, w: Where, row: FileRow)
    ensures row in Select(rows, w) <==> row in rows && Matches(w, row)
  {}

  /** The rows found are those at the positions that match: none, one, the first. */
  lemma {:induction false} SelectPlaces(rows: seq<FileRow>, w: Where)
    ensures Select(rows, w) == [] <==> forall i :: 0 <= i < |rows| ==> !Matches(w, rows[i])
    ensures |Select(rows, w)| == 1 <==> exists i :: OnlyMatch(rows, w, i)
    ensures Select(rows, w) != [] ==> exists i :: FirstMatch(rows, w, i) && Select(rows, w)[0] == rows[i]
  {
    if rows != [] {
      var front, last := rows[..|rows| - 1], |rows| - 1;
      assert rows == front + [rows[last]];
      SelectPlaces(front, w);
      SelectLast(front, rows[last], w);
      if Select(front, w) == [] {
        assert Matches(w, rows[last]) ==> OnlyMatch(rows, w, last) && FirstMatch(rows, w, last);
      } else {
        var i :| FirstMatch(front, w, i) && Select(front, w)[0] == front[i];
        assert FirstMatch(rows, w, i);
        if j :| OnlyMatch(front, w, j) {
          assert !Matches(w, rows[last]) ==> OnlyMatch(rows, w, j);
        }
        if k :| OnlyMatch(rows, w, k) {
          assert OnlyMatch(front, w, k);
        }
      }
    }
  }

  ghost predicate OnlyMatch(rows: seq<FileRow>, w: Where, i: int) {
    0 <= i < |rows| && Matches(w, rows[i]) && forall j :: 0 <= j < |rows| && j != i ==> !Matches(w, rows[j])
  }

  ghost predicate FirstMatch(rows: seq<FileRow>, w: Where, i: int) {
    0 <= i < |rows| && Matches(w, rows[i]) && forall j :: 0 <= j < i ==> !Matches(w, rows[j])
  }

  lemma {:induction false} DeleteCounts(rows: seq<FileRow>, w: Where, row: FileRow)
    ensures multiset(Delete(rows, w))[row] == if Matches(w, row) then 0 else multiset(rows)[row]
  {
    if rows != [] {
      DeleteCounts(rows[..|rows| - 1], w, row);
      assert rows == rows[..|rows| - 1] + [rows[|rows| - 1]];
    }
  }

  // ---------------------------------------------------------------- operations

  datatype Op =
    | WriteDiskEntry(diskId: string, numberOfFiles: int, bytesStored: int)
    | WriteFileEntry(diskId: string, fileId: string, version: int, size: nat, updateDiskInfo: bool)
    | DeleteFileInfo(diskId: string, fileId: string, version: int)
    | DeleteDiskInfo(diskId: string, delFileInfo: bool)

  /** The condition with which the files table is searched before a row is
      written; without a version, any version will do. */
  function EntryWhere(diskId: string, fileId: string, version: int): Where {
    Where(Some(diskId), Some(Equals(fileId)), if version != NO_VERSION then Some(version) else None)
  }

  predicate FileInDb(rows: seq<FileRow>, diskId: string, fileId: string, version: int) {
    |Select(rows, EntryWhere(diskId, fileId, version))| == 1
  }

  function StarsToPercents(s: string): (r: string)
    ensures |r| == |s|
  {
    if s == "" then "" else [if s[0] == '*' then '%' else s[0]] + StarsToPercents(s[1..])
  }

  /** The condition of the list that is made before a file row is deleted. */
  function ListWhere(diskId: string, fileId: string, version: int): Where {
    var pattern := StarsToPercents(fileId);
    Where(
      if diskId != "" then Some(diskId) else None,
      if pattern == "" then None else if '%' in pattern then Some(LikeText(pattern)) else Some(Equals(pattern)),
      if version != NO_VERSION then Some(version) else None)
  }

  function Clamp(n: int): int {
    if n < 0 then 0 else n
  }

  function AddToDisk(t: Tables, diskId: string, size: nat): Tables
    requires diskId in t.disks
  {
    var d := t.disks[diskId];
    t.(disks := t.disks[diskId := DiskRow(d.numberOfFiles + 1, d.bytesStored + size)])
  }

  function TakeFromDisk(t: Tables, diskId: string, size: nat): Tables {
    if diskId !in t.disks then t
    else
      var d := t.disks[diskId];
      t.(disks := t.disks[diskId := DiskRow(Clamp(d.numberOfFiles - 1), Clamp(d.bytesStored - size))])
  }

  /** The tables after an operation, whether it returns or raises. */
  function Apply(t: Tables, op: Op): Tables {
    match op
    case WriteDiskEntry(diskId, numberOfFiles, bytesStored) =>
      t.(disks := t.disks[diskId := DiskRow(numberOfFiles, bytesStored)])
    case WriteFileEntry(diskId, fileId, version, size, updateDiskInfo) =>
      if FileInDb(t.files, diskId, fileId, version) then
        t.(files := SetSize(t.files, EntryWhere(diskId, fileId, version), size))
      else if Select(t.files, Exactly(diskId, fileId, version)) != [] then t
      else
        var inserted := t.(files := t.files + [FileRow(diskId, fileId, version, size)]);
        if updateDiskInfo && diskId in t.disks then AddToDisk(inserted, diskId, size) else inserted
    case DeleteFileInfo(diskId, fileId, version) =>
      var list := Select(t.files, ListWhere(diskId, fileId, version));
      if list == [] then t
      else
        TakeFromDisk(t.(files := Delete(t.files, Exactly(diskId, fileId, version))), diskId, list[0].size)
    case DeleteDiskInfo(diskId, delFileInfo) =>
      if delFileInfo && diskId !in t.disks then t
      else
        Tables(if delFileInfo then Delete(t.files, OnDisk(diskId)) else t.files, t.disks - {diskId})
  }

  predicate Raises(t: Tables, op: Op) {
    match op
    case WriteDiskEntry(_, _, _) => false
    case WriteFileEntry(diskId, fileId, version, _, updateDiskInfo) =>
      && !FileInDb(t.files, diskId, fileId, version)
      && (Select(t.files, Exactly(diskId, fileId, version)) != [] || (updateDiskInfo && diskId !in t.disks))
    case DeleteFileInfo(diskId, fileId, version) => Select(t.files, ListWhere(diskId, fileId, version)) == []
    case DeleteDiskInfo(diskId, delFileInfo) => !delFileInfo || diskId !in t.disks
  }

  // ---------------------------------------------------------------- accounts

  ghost predicate UniqueKeys(rows: seq<FileRow>) {
    forall i, j :: 0 <= i < j < |rows| ==> Key(rows[i]) != Key(rows[j])
  }

  ghost predicate DiskAccounted(t: Tables, diskId: string)
    requires diskId in t.disks
  {
    && t.disks[diskId].numberOfFiles == |Select(t.files, OnDisk(diskId))|
    && t.disks[diskId].bytesStored == Sum(Select(t.files, OnDisk(diskId)))
  }

  /** Row keys are unique, every file row has its disk, and the counters of
      every disk are those of its file rows. */
  ghost predicate Accounted(t: Tables) {
    && UniqueKeys(t.files)
    && (forall row :: row in t.files ==> row.diskId in t.disks)
    && (forall diskId :: diskId in t.disks ==> DiskAccounted(t, diskId))
  }

  /** Taking one file and this size off a disk is right for the rows that go: the
      size is theirs, or a clamp happens to hide that it is not. */
  predicate TakesOff(rows: seq<FileRow>, all: seq<FileRow>, size: nat) {
    if rows == [] then all == []
    else rows[0].size == size || Sum(all) == rows[0].size < size
  }

  /** What a caller can check before the call. */
  predicate KeepsAccounts(t: Tables, op: Op) {
    match op
    case WriteDiskEntry(diskId, numberOfFiles, bytesStored) =>
      var rows := Select(t.files, OnDisk(diskId));
      numberOfFiles == |rows| && bytesStored == Sum(rows)
    case WriteFileEntry(diskId, fileId, version, size, updateDiskInfo) =>
      var found := Select(t.files, EntryWhere(diskId, fileId, version));
      if |found| == 1 then found[0].size == size
      else if Select(t.files, Exactly(diskId, fileId, version)) != [] then true
      else updateDiskInfo && diskId in t.disks
    case DeleteFileInfo(diskId, fileId, version) =>
      var list := Select(t.files, ListWhere(diskId, fileId, version));
      var rows := Select(t.files, Exactly(diskId, fileId, version));
      list == [] || diskId !in t.disks || TakesOff(rows, Select(t.files, OnDisk(diskId)), list[0].size)
    case DeleteDiskInfo(diskId, delFileInfo) =>
      delFileInfo || Select(t.files, OnDisk(diskId)) == []
  }

  // ---------------------------------------------------------------- effects

  /** The row has the key, or only its disk and file ID when there is no version. */
  predicate IsFor(row: FileRow, diskId: string, fileId: string, version: int) {
    row.diskId == diskId && row.fileId == fileId && (version == -1 || row.version == version)
  }

  ghost predicate OnlyOneFor(rows: seq<FileRow>, i: int, diskId: string, fileId: string, version: int) {
    && 0 <= i < |rows| && IsFor(rows[i], diskId, fileId, version)
    && forall j :: 0 <= j < |rows| && j != i ==> !IsFor(rows[j], diskId, fileId, version)
  }

  /** What writing a file row does: a row that is the only one of its kind gets the
      size, and nothing else changes; a key that is there already raises; any other
      file gets a row of its own and is counted on its disk. */
  ghost predicate EntryWritten(t: Tables, r: Tables, row: FileRow, updateDiskInfo: bool, raised: bool) {
    if exists i :: OnlyOneFor(t.files, i, row.diskId, row.fileId, row.version) then
      && !raised && r.disks == t.disks
      && exists i :: OnlyOneFor(t.files, i, row.diskId, row.fileId, row.version)
           && r.files == t.files[i := t.files[i].(size := row.size)]
    else if exists i :: 0 <= i < |t.files| && Key(t.files[i]) == Key(row) then raised && r == t
    else
      && r.files == t.files + [row]
      && raised == (updateDiskInfo && row.diskId !in t.disks)
      && r.disks ==
           if !updateDiskInfo || row.diskId !in t.disks then t.disks
           else t.disks[row.diskId := DiskRow(t.disks[row.diskId].numberOfFiles + 1,
                                              t.disks[row.diskId].bytesStored + row.size)]
  }

  lemma WritesEntry(t: Tables, row: FileRow, updateDiskInfo: bool)
    ensures var op := WriteFileEntry(row.diskId, row.fileId, row.version, row.size, updateDiskInfo);
      EntryWritten(t, Apply(t, op), row, updateDiskInfo, Raises(t, op))
  {
    var w, key := EntryWhere(row.diskId, row.fileId, row.version), Exactly(row.diskId, row.fileId, row.version);
    SelectPlaces(t.files, w);
    SelectPlaces(t.files, key);
    SetSizeKeys(t.files, w, row.size);
    if i :| OnlyMatch(t.files, w, i) {
      assert OnlyOneFor(t.files, i, row.diskId, row.fileId, row.version);
      assert SetSize(t.files, w, row.size) == t.files[i := t.files[i].(size := row.size)];
    }
    if i :| OnlyOneFor(t.files, i, row.diskId, row.fileId, row.version) {
      assert OnlyMatch(t.files, w, i);
    }
  }

  /** The row is on the list made before a deletion. */
  predicate IsListed(row: FileRow, diskId: string, fileId: string, version: int) {
    && (diskId == "" || row.diskId == diskId) && (version == -1 || row.version == version)
    && if '*' in fileId || '%' in fileId then Like(StarsToPercents(fileId), row.fileId)
       else fileId == "" || row.fileId == fileId
  }

  ghost predicate FirstListed(rows: seq<FileRow>, i: int, diskId: string, fileId: string, version: int) {
    && 0 <= i < |rows| && IsListed(rows[i], diskId, fileId, version)
    && forall j :: 0 <= j < i ==> !IsListed(rows[j], diskId, fileId, version)
  }

  /** What deleting a file does: without a listed row it raises; otherwise the rows
      with the full key go, all others stay, and the first listed row is taken off
      the counters of the disk, down to zero. */
  ghost predicate FileDeleted(t: Tables, r: Tables, diskId: string, fileId: string, version: int, raised: bool) {
    if forall i :: 0 <= i < |t.files| ==> !IsListed(t.files[i], diskId, fileId, version) then raised && r == t
    else
      && !raised && KeyGone(t.files, r.files, diskId, fileId, version)
      && exists i :: FirstListed(t.files, i, diskId, fileId, version) && TakenOff(t, r, diskId, t.files[i].size)
  }

  ghost predicate KeyGone(before: seq<FileRow>, rows: seq<FileRow>, diskId: string, fileId: string, version: int) {
    forall row :: multiset(rows)[row] == if Key(row) == (diskId, fileId, version) then 0 else multiset(before)[row]
  }

  predicate TakenOff(t: Tables, r: Tables, diskId: string, size: nat) {
    r.disks ==
      if diskId !in t.disks then t.disks
      else t.disks[diskId := DiskRow(Minus(t.disks[diskId].numberOfFiles, 1),
                                     Minus(t.disks[diskId].bytesStored, size))]
  }

  /** Subtraction that stops at zero. */
  function Minus(n: int, m: int): int {
    if n <= m then 0 else n - m
  }

  lemma ListIs(rows: seq<FileRow>, diskId: string, fileId: string, version: int)
    ensures var list := Select(rows, ListWhere(diskId, fileId, version));
      if list == [] then forall i :: 0 <= i < |rows| ==> !IsListed(rows[i], diskId, fileId, version)
      else exists i :: FirstListed(rows, i, diskId, fileId, version) && list[0] == rows[i]
  {
    var w := ListWhere(diskId, fileId, version);
    SelectPlaces(rows, w);
    forall i | 0 <= i < |rows| ensures Matches(w, rows[i]) <==> IsListed(rows[i], diskId, fileId, version) {
      ListsFile(rows[i], diskId, fileId, version);
    }
    if i :| FirstMatch(rows, w, i) && Select(rows, w)[0] == rows[i] {
      assert FirstListed(rows, i, diskId, fileId, version);
    }
  }

  lemma DeletesFile(t: Tables, diskId: string, fileId: string, version: int)
    ensures var op := DeleteFileInfo(diskId, fileId, version);
      FileDeleted(t, Apply(t, op), diskId, fileId, version, Raises(t, op))
  {
    var op := DeleteFileInfo(diskId, fileId, version);
    var list, r := Select(t.files, ListWhere(diskId, fileId, version)), Apply(t, op);
    ListIs(t.files, diskId, fileId, version);
    if list != [] {
      KeyGoes(t.files, diskId, fileId, version);
      var i :| FirstListed(t.files, i, diskId, fileId, version) && list[0] == t.files[i];
      assert TakenOff(t, r, diskId, t.files[i].size);
    }
  }

  lemma KeyGoes(rows: seq<FileRow>, diskId: string, fileId: string, version: int)
    ensures KeyGone(rows, Delete(rows, Exactly(diskId, fileId, version)), diskId, fileId, version)
  {
    var w := Exactly(diskId, fileId, version);
    forall row ensures multiset(Delete(rows, w))[row] ==
        if Key(row) == (diskId, fileId, version) then 0 else multiset(rows)[row]
    {
      DeleteCounts(rows, w, row);
    }
  }

  lemma ListsFile(row: FileRow, diskId: string, fileId: string, version: int)
    ensures Matches(ListWhere(diskId, fileId, version), row) <==> IsListed(row, diskId, fileId, version)
  {
    StarsReplaced(fileId);
    if '*' !in fileId {
      NoStars(fileId);
    }
  }

  lemma {:induction false} StarsReplaced(s: string)
    ensures forall i :: 0 <= i < |s| ==> StarsToPercents(s)[i] == if s[i] == '*' then '%' else s[i]
    ensures '%' in StarsToPercents(s) <==> '*' in s || '%' in s
  {
    if s != "" {
      StarsReplaced(s[1..]);
    }
  }

  /** What deleting a disk does: with its files, the disk and its rows go and no
      others, and it raises when there is no such disk; without, only the disk goes,
      and it raises afterwards. */
  ghost predicate DiskDeleted(t: Tables, r: Tables, diskId: string, delFileInfo: bool, raised: bool) {
    if delFileInfo && diskId !in t.disks then raised && r == t
    else
      && raised == !delFileInfo
      && (forall d :: d in r.disks <==> d in t.disks && d != diskId)
      && (forall d :: d in r.disks ==> r.disks[d] == t.disks[d])
      && forall row :: multiset(r.files)[row] ==
           if delFileInfo && row.diskId == diskId then 0 else multiset(t.files)[row]
  }

  lemma DeletesDisk(t: Tables, diskId: string, delFileInfo: bool)
    ensures var op := DeleteDiskInfo(diskId, delFileInfo);
      DiskDeleted(t, Apply(t, op), diskId, delFileInfo, Raises(t, op))
  {
    forall row ensures multiset(Delete(t.files, OnDisk(diskId)))[row] ==
        if row.diskId == diskId then 0 else multiset(t.files)[row]
    {
      DeleteCounts(t.files, OnDisk(diskId), row);
    }
  }

  // ---------------------------------------------------------------- patterns

  /** A pattern without a percent sign fits character by character. */
  lemma {:induction false} LikePlain(p: string, s: string)
    requires '%' !in p
    ensures Like(p, s) <==> |p| == |s| && forall i :: 0 <= i < |p| ==> p[i] == '_' || p[i] == s[i]
  {
    if p != "" && s != "" {
      LikePlain(p[1..], s[1..]);
      assert forall i :: 0 < i < |p| ==> p[i] == p[1..][i - 1];
      assert forall i :: 0 < i < |s| ==> s[i] == s[1..][i - 1];
    }
  }

  /** A percent sign stands for any text. */
  lemma {:induction false} LikeAnyText(p: string, q: string, s: string)
    requires '%' !in p
    ensures Like(p + "%" + q, s) <==> exists i, j :: 0 <= i <= j <= |s| && Like(p, s[..i]) && Like(q, s[j..])
  {
    if p == "" {
      assert p + "%" + q == "%" + q;
      LikeSuffix(q, s);
      assert s[..0] == "";
    } else {
      assert (p + "%" + q)[1..] == p[1..] + "%" + q;
      if s != "" {
        LikeAnyText(p[1..], q, s[1..]);
        if i, j :| 0 <= i <= j <= |s| - 1 && Like(p[1..], s[1..][..i]) && Like(q, s[1..][j..]) {
          assert s[..i + 1][1..] == s[1..][..i] && s[j + 1..] == s[1..][j..];
          assert (p[0] == '_' || p[0] == s[0]) ==> Like(p, s[..i + 1]);
        }
        if i, j :| 0 <= i <= j <= |s| && Like(p, s[..i]) && Like(q, s[j..]) {
          assert s[..i][1..] == s[1..][..i - 1] && s[j..] == s[1..][j - 1..];
        }
      }
    }
  }

  lemma {:induction false} LikeSuffix(q: string, s: string)
    ensures Like("%" + q, s) <==> exists j :: 0 <= j <= |s| && Like(q, s[j..])
  {
    assert ("%" + q)[1..] == q && s[0..] == s;
    if s != "" {
      LikeSuffix(q, s[1..]);
      if j :| 0 <= j <= |s| - 1 && Like(q, s[1..][j..]) {
        assert s[j + 1..] == s[1..][j..];
      }
      if j :| 0 < j <= |s| && Like(q, s[j..]) {
        assert s[j..] == s[1..][j - 1..];
      }
    }
  }

  // ---------------------------------------------------------------- exactness

  lemma {:induction false} UniqueFound(rows: seq<FileRow>, diskId: string, fileId: string, version: int)
    requires UniqueKeys(rows)
    ensures |Select(rows, Exactly(diskId, fileId, version))| <= 1
  {
    var w := Exactly(diskId, fileId, version);
    if rows != [] {
      var front, row := rows[..|rows| - 1], rows[|rows| - 1];
      UniqueFound(front, diskId, fileId, version);
      if Matches(w, row) && Select(front, w) != [] {
        SelectSound(front, w, Select(front, w)[0]);
      }
    }
  }

  lemma KeyMissing(rows: seq<FileRow>, diskId: string, fileId: string, version: int)
    ensures Select(rows, Exactly(diskId, fileId, version)) == [] <==>
      forall row :: row in rows ==> Key(row) != (diskId, fileId, version)
  {
    var w := Exactly(diskId, fileId, version);
    if Select(rows, w) != [] {
      SelectSound(rows, w, Select(rows, w)[0]);
    }
    forall row | row in rows && Key(row) == (diskId, fileId, version) ensures Select(rows, w) != [] {
      SelectSound(rows, w, row);
    }
  }

  /** Deleting and resizing keep the keys that stay. */
  lemma {:induction false} DeleteKeys(rows: seq<FileRow>, w: Where)
    ensures forall row :: row in Delete(rows, w) <==> row in rows && !Matches(w, row)
    ensures UniqueKeys(rows) ==> UniqueKeys(Delete(rows, w))
  {
    if rows != [] {
      var front, row := rows[..|rows| - 1], rows[|rows| - 1];
      DeleteKeys(front, w);
      if UniqueKeys(rows) && !Matches(w, row) {
        var kept := Delete(rows, w);
        forall i | 0 <= i < |kept| - 1 ensures Key(kept[i]) != Key(row) {
          assert kept[i] in Delete(front, w);
          var j :| 0 <= j < |front| && front[j] == kept[i];
          assert rows[j] == kept[i];
        }
      }
    }
  }

  lemma {:induction false} SetSizeKeys(rows: seq<FileRow>, w: Where, size: nat)
    ensures |SetSize(rows, w, size)| == |rows|
    ensures forall i :: 0 <= i < |rows| ==>
      SetSize(rows, w, size)[i] == if Matches(w, rows[i]) then rows[i].(size := size) else rows[i]
  {
    if rows != [] {
      SetSizeKeys(rows[..|rows| - 1], w, size);
    }
  }

  lemma AllAccounted(t: Tables)
    requires UniqueKeys(t.files)
    requires forall row :: row in t.files ==> row.diskId in t.disks
    requires forall diskId :: diskId in t.disks ==> DiskAccounted(t, diskId)
    ensures Accounted(t)
  {}

  lemma ResizeKeys(t: Tables, w: Where, size: nat)
    requires Accounted(t)
    ensures UniqueKeys(SetSize(t.files, w, size))
    ensures forall row :: row in SetSize(t.files, w, size) ==> row.diskId in t.disks
  {
    SetSizeKeys(t.files, w, size);
    var rows := SetSize(t.files, w, size);
    forall row | row in rows ensures row.diskId in t.disks {
      var i :| 0 <= i < |rows| && rows[i] == row;
      assert t.files[i] in t.files;
    }
  }

  lemma ResizeDisk(t: Tables, w: Where, size: nat, diskId: string)
    requires Accounted(t) && w.disk.Some? && |Select(t.files, w)| == 1 && diskId in t.disks
    ensures DiskAccounted(t.(files := SetSize(t.files, w, size)), diskId) <==>
      w.disk.value != diskId || Select(t.files, w)[0].size == size
  {
    SetSizeOnDisk(t.files, w, size, diskId);
    ResizedOnce(t.files, w, size);
    assert Sum(Select(t.files, w)) == Select(t.files, w)[0].size;
    assert DiskAccounted(t, diskId);
  }

  lemma ResizeExact(t: Tables, diskId: string, fileId: string, version: int, size: nat)
    requires Accounted(t) && FileInDb(t.files, diskId, fileId, version)
    ensures var w := EntryWhere(diskId, fileId, version);
      Accounted(t.(files := SetSize(t.files, w, size))) <==> Select(t.files, w)[0].size == size
  {
    var w := EntryWhere(diskId, fileId, version);
    var r := t.(files := SetSize(t.files, w, size));
    ResizeKeys(t, w, size);
    SelectSound(t.files, w, Select(t.files, w)[0]);
    ResizeDisk(t, w, size, diskId);
    if Select(t.files, w)[0].size == size {
      forall other | other in r.disks ensures DiskAccounted(r, other) {
        ResizeDisk(t, w, size, other);
      }
    }
  }

  lemma InsertKeys(t: Tables, row: FileRow)
    requires Accounted(t) && Select(t.files, Exactly(row.diskId, row.fileId, row.version)) == []
    ensures UniqueKeys(t.files + [row])
  {
    forall i | 0 <= i < |t.files| ensures Key(t.files[i]) != Key(row) {
      SelectSound(t.files, Exactly(row.diskId, row.fileId, row.version), t.files[i]);
    }
  }

  lemma InsertCounted(t: Tables, row: FileRow)
    requires Accounted(t) && Select(t.files, Exactly(row.diskId, row.fileId, row.version)) == []
    requires row.diskId in t.disks
    ensures Accounted(AddToDisk(t.(files := t.files + [row]), row.diskId, row.size))
  {
    var r := AddToDisk(t.(files := t.files + [row]), row.diskId, row.size);
    InsertKeys(t, row);
    forall other | other in r.disks ensures DiskAccounted(r, other) {
      assert DiskAccounted(t, other);
      InsertDisk(t, row, other);
    }
    AllAccounted(r);
  }

  lemma InsertDisk(t: Tables, row: FileRow, other: string)
    requires row.diskId in t.disks && other in t.disks && DiskAccounted(t, other)
    ensures DiskAccounted(AddToDisk(t.(files := t.files + [row]), row.diskId, row.size), other)
  {
    CountLast(t.files, row, other);
  }

  lemma CountLast(rows: seq<FileRow>, row: FileRow, diskId: string)
    ensures var more, some := Select(rows + [row], OnDisk(diskId)), Select(rows, OnDisk(diskId));
      if row.diskId == diskId then |more| == |some| + 1 && Sum(more) == Sum(some) + row.size else more == some
  {
    SelectLast(rows, row, OnDisk(diskId));
  }

  lemma InsertUncounted(t: Tables, row: FileRow)
    requires Accounted(t)
    ensures !Accounted(t.(files := t.files + [row]))
  {
    var r := t.(files := t.files + [row]);
    assert r.files[|t.files|] == row;
    if row.diskId in t.disks {
      SelectLast(t.files, row, OnDisk(row.diskId));
      assert DiskAccounted(t, row.diskId);
      assert !DiskAccounted(r, row.diskId);
    }
  }

  lemma DeleteOther(t: Tables, w: Where, diskId: string, size: nat, other: string)
    requires w.disk == Some(diskId) && other in t.disks && other != diskId && DiskAccounted(t, other)
    ensures DiskAccounted(TakeFromDisk(t.(files := Delete(t.files, w)), diskId, size), other)
  {
    DeleteFromDisk(t.files, w, other);
  }

  lemma DeleteRowExact(t: Tables, diskId: string, fileId: string, version: int, size: nat)
    requires Accounted(t) && diskId in t.disks
    ensures var w := Exactly(diskId, fileId, version);
      Accounted(TakeFromDisk(t.(files := Delete(t.files, w)), diskId, size)) <==>
        TakesOff(Select(t.files, w), Select(t.files, OnDisk(diskId)), size)
  {
    var w := Exactly(diskId, fileId, version);
    var r := TakeFromDisk(t.(files := Delete(t.files, w)), diskId, size);
    DeleteKeys(t.files, w);
    DeleteRowDisk(t, diskId, fileId, version, size);
    if DiskAccounted(r, diskId) {
      forall other | other in r.disks && other != diskId ensures DiskAccounted(r, other) {
        assert DiskAccounted(t, other);
        DeleteOther(t, w, diskId, size, other);
      }
    }
  }

  lemma DeleteRowDisk(t: Tables, diskId: string, fileId: string, version: int, size: nat)
    requires Accounted(t) && diskId in t.disks
    ensures var w := Exactly(diskId, fileId, version);
      DiskAccounted(TakeFromDisk(t.(files := Delete(t.files, w)), diskId, size), diskId) <==>
        TakesOff(Select(t.files, w), Select(t.files, OnDisk(diskId)), size)
  {
    var rows := Select(t.files, Exactly(diskId, fileId, version));
    assert DiskAccounted(t, diskId);
    UniqueFound(t.files, diskId, fileId, version);
    DeleteFromDisk(t.files, Exactly(diskId, fileId, version), diskId);
    assert rows != [] ==> Sum(rows) == rows[0].size;
  }

  lemma {:induction false} DeleteNothing(rows: seq<FileRow>, w: Where)
    requires Select(rows, w) == []
    ensures Delete(rows, w) == rows
  {
    if rows != [] {
      DeleteNothing(rows[..|rows| - 1], w);
    }
  }

  /** A disk without a row has no files. */
  lemma NoDiskNoFiles(t: Tables, w: Where)
    requires Accounted(t) && w.disk.Some? && w.disk.value !in t.disks
    ensures Select(t.files, w) == []
  {
    if Select(t.files, w) != [] {
      SelectSound(t.files, w, Select(t.files, w)[0]);
    }
  }

  lemma DeleteDiskOther(t: Tables, diskId: string, delFileInfo: bool, other: string)
    requires other in t.disks && other != diskId && DiskAccounted(t, other)
    ensures var files := if delFileInfo then Delete(t.files, OnDisk(diskId)) else t.files;
      DiskAccounted(Tables(files, t.disks - {diskId}), other)
  {
    DeleteFromDisk(t.files, OnDisk(diskId), other);
  }

  lemma DeleteDiskExact(t: Tables, diskId: string, delFileInfo: bool)
    requires Accounted(t)
    ensures Accounted(Apply(t, DeleteDiskInfo(diskId, delFileInfo))) <==>
      delFileInfo || Select(t.files, OnDisk(diskId)) == []
  {
    var r := Apply(t, DeleteDiskInfo(diskId, delFileInfo));
    if !delFileInfo && Select(t.files, OnDisk(diskId)) != [] {
      SelectSound(t.files, OnDisk(diskId), Select(t.files, OnDisk(diskId))[0]);
    } else if r != t {
      DeleteKeys(t.files, OnDisk(diskId));
      forall row | row in r.files ensures row.diskId in r.disks {
        SelectSound(t.files, OnDisk(diskId), row);
      }
      forall other | other in r.disks ensures DiskAccounted(r, other) {
        assert DiskAccounted(t, other);
        DeleteDiskOther(t, diskId, delFileInfo, other);
      }
    }
  }

  lemma WriteDiskExact(t: Tables, diskId: string, d: DiskRow)
    requires Accounted(t)
    ensures var rows := Select(t.files, OnDisk(diskId));
      Accounted(t.(disks := t.disks[diskId := d])) <==> d == DiskRow(|rows|, Sum(rows))
  {
    var r := t.(disks := t.disks[diskId := d]);
    assert diskId in r.disks;
    if d == DiskRow(|Select(t.files, OnDisk(diskId))|, Sum(Select(t.files, OnDisk(diskId)))) {
      forall other | other in r.disks ensures DiskAccounted(r, other) {
        assert other != diskId ==> DiskAccounted(t, other);
      }
    }
  }

  /** The listed file is on the disk, so its counters have room for it. */
  lemma {:induction false} ListedFits(rows: seq<FileRow>, w: Where, diskId: string)
    requires w.disk == Some(diskId)
    ensures Fits(Select(rows, w), Select(rows, OnDisk(diskId)))
  {
    if rows == [] {
      assert Select(rows, w) == [];
    } else {
      var front, row := rows[..|rows| - 1], rows[|rows| - 1];
      ListedFits(front, w, diskId);
      FitsOneMore(front, row, w, diskId);
      assert rows == front + [row];
    }
  }

  predicate Fits(list: seq<FileRow>, all: seq<FileRow>) {
    list != [] ==> all != [] && list[0].size <= Sum(all)
  }

  lemma FitsOneMore(front: seq<FileRow>, row: FileRow, w: Where, diskId: string)
    requires w.disk == Some(diskId) && Fits(Select(front, w), Select(front, OnDisk(diskId)))
    ensures Fits(Select(front + [row], w), Select(front + [row], OnDisk(diskId)))
  {
    SelectLast(front, row, w);
    SelectLast(front, row, OnDisk(diskId));
  }

  /** An operation is about to take more off a disk than is there. */
  predicate ClampActs(t: Tables, op: Op) {
    op.DeleteFileInfo? &&
    var list := Select(t.files, ListWhere(op.diskId, op.fileId, op.version));
    && list != [] && op.diskId in t.disks
    && (t.disks[op.diskId].numberOfFiles - 1 < 0 || t.disks[op.diskId].bytesStored - list[0].size < 0)
  }

  /** In accounted tables a clamp acts only for the empty disk ID, for which the
      list is not restricted to a disk: exactly when the disk has no files or
      less than the size of the first file listed. */
  lemma ClampsActExactly(t: Tables, diskId: string, fileId: string, version: int)
    requires Accounted(t)
    ensures var list := Select(t.files, ListWhere(diskId, fileId, version));
      var all := Select(t.files, OnDisk(diskId));
      ClampActs(t, DeleteFileInfo(diskId, fileId, version)) <==>
        && diskId == "" && diskId in t.disks
        && list != [] && (all == [] || Sum(all) < list[0].size)
  {
    var w := ListWhere(diskId, fileId, version);
    if diskId in t.disks {
      assert DiskAccounted(t, diskId);
      if diskId != "" {
        ListedFits(t.files, w, diskId);
      }
    }
  }

  /** For any other disk ID there is room for what is taken off. */
  lemma ClampsNeverFire(t: Tables, diskId: string, fileId: string, version: int)
    requires Accounted(t) && diskId != ""
    requires Select(t.files, ListWhere(diskId, fileId, version)) != []
    ensures diskId in t.disks
    ensures 1 <= t.disks[diskId].numberOfFiles
    ensures Select(t.files, ListWhere(diskId, fileId, version))[0].size <= t.disks[diskId].bytesStored
  {
    var w := ListWhere(diskId, fileId, version);
    SelectSound(t.files, w, Select(t.files, w)[0]);
    ListedFits(t.files, w, diskId);
    assert DiskAccounted(t, diskId);
  }

  /** An operation keeps the accounts, returning or raising, if and only if the
      check a caller could make holds. */
  lemma AccountsKeptExactly(t: Tables, op: Op)
    requires Accounted(t)
    ensures Accounted(Apply(t, op)) <==> KeepsAccounts(t, op)
  {
    match op {
      case WriteDiskEntry(diskId, n, b) => WriteDiskExact(t, diskId, DiskRow(n, b));
      case WriteFileEntry(diskId, fileId, version, size, updateDiskInfo) =>
        if FileInDb(t.files, diskId, fileId, version) {
          ResizeExact(t, diskId, fileId, version, size);
        } else if Select(t.files, Exactly(diskId, fileId, version)) == [] {
          var row := FileRow(diskId, fileId, version, size);
          if updateDiskInfo && diskId in t.disks {
            InsertCounted(t, row);
          } else {
            InsertUncounted(t, row);
          }
        }
      case DeleteFileInfo(diskId, fileId, version) => DeletionExact(t, diskId, fileId, version);
      case DeleteDiskInfo(diskId, delFileInfo) => DeleteDiskExact(t, diskId, delFileInfo);
    }
  }

  lemma DeletionExact(t: Tables, diskId: string, fileId: string, version: int)
    requires Accounted(t)
    ensures var op := DeleteFileInfo(diskId, fileId, version);
      Accounted(Apply(t, op)) <==> KeepsAccounts(t, op)
  {
    var list := Select(t.files, ListWhere(diskId, fileId, version));
    if list != [] {
      if diskId in t.disks {
        DeleteRowExact(t, diskId, fileId, version, list[0].size);
      } else {
        NoDiskNoFiles(t, Exactly(diskId, fileId, version));
        DeleteNothing(t.files, Exactly(diskId, fileId, version));
      }
    }
  }

  /** An archived file removed as documented, with its version and no wildcards:
      exactly its row goes. */
  lemma PlainDeletionKeeps(t: Tables, diskId: string, fileId: string, version: int)
    requires Accounted(t) && diskId != "" && fileId != "" && version != NO_VERSION
    requires '*' !in fileId && '%' !in fileId
    ensures KeepsAccounts(t, DeleteFileInfo(diskId, fileId, version))
    ensures ListWhere(diskId, fileId, version) == Exactly(diskId, fileId, version)
  {
    NoStars(fileId);
  }

  lemma {:induction false} NoStars(s: string)
    requires '*' !in s
    ensures StarsToPercents(s) == s
  {
    if s != "" {
      NoStars(s[1..]);
    }
  }

  // ---------------------------------------------------------------- runs

  const NO_ROWS := Tables([], map[])

  function ApplyAll(ops: seq<Op>): Tables {
    if ops == [] then NO_ROWS else Apply(ApplyAll(ops[..|ops| - 1]), ops[|ops| - 1])
  }

  /** The operations as they are meant to be used: a new disk is registered
      empty; files go to registered disks, have a version, are counted, and keep
      their size; one file is deleted by its full key; a disk takes its files
      with it. */
  ghost predicate Documented(t: Tables, op: Op) {
    match op
    case WriteDiskEntry(diskId, numberOfFiles, bytesStored) =>
      diskId !in t.disks && numberOfFiles == 0 && bytesStored == 0
    case WriteFileEntry(diskId, fileId, version, size, updateDiskInfo) =>
      && diskId in t.disks && 1 <= version && updateDiskInfo
      && forall row :: row in t.files && Key(row) == (diskId, fileId, version) ==> row.size == size
    case DeleteFileInfo(diskId, fileId, version) =>
      diskId != "" && fileId != "" && 1 <= version && '*' !in fileId && '%' !in fileId
    case DeleteDiskInfo(_, delFileInfo) => delFileInfo
  }

  ghost predicate DocumentedRun(ops: seq<Op>) {
    ops == [] ||
    (DocumentedRun(ops[..|ops| - 1]) && Documented(ApplyAll(ops[..|ops| - 1]), ops[|ops| - 1]))
  }

  /** Such an operation keeps the accounts without a clamp, and raises only when
      what it should delete is not there. */
  lemma DocumentedKeeps(t: Tables, op: Op)
    requires Accounted(t) && Documented(t, op)
    ensures Accounted(Apply(t, op)) && !ClampActs(t, op)
    ensures Raises(t, op) <==>
      || (op.DeleteFileInfo? && forall row :: row in t.files ==> Key(row) != (op.diskId, op.fileId, op.version))
      || (op.DeleteDiskInfo? && op.diskId !in t.disks)
  {
    AccountsKeptExactly(t, op);
    match op {
      case WriteDiskEntry(diskId, _, _) => NoDiskNoFiles(t, OnDisk(diskId));
      case WriteFileEntry(diskId, fileId, version, size, _) =>
        var w := Exactly(diskId, fileId, version);
        UniqueFound(t.files, diskId, fileId, version);
        if Select(t.files, w) != [] {
          SelectSound(t.files, w, Select(t.files, w)[0]);
        }
      case DeleteFileInfo(diskId, fileId, version) =>
        PlainDeletionKeeps(t, diskId, fileId, version);
        ClampsActExactly(t, diskId, fileId, version);
        KeyMissing(t.files, diskId, fileId, version);
      case DeleteDiskInfo(_, _) =>
    }
  }

  lemma {:induction false} DocumentedPrefix(ops: seq<Op>, k: nat)
    requires DocumentedRun(ops) && k <= |ops|
    ensures DocumentedRun(ops[..k])
    ensures k < |ops| ==> Documented(ApplyAll(ops[..k]), ops[k])
  {
    if k == |ops| {
      assert ops[..k] == ops;
    } else if k < |ops| - 1 {
      DocumentedPrefix(ops[..|ops| - 1], k);
      assert ops[..|ops| - 1][..k] == ops[..k];
    }
  }

  lemma {:induction false} DocumentedAccounted(ops: seq<Op>)
    requires DocumentedRun(ops)
    ensures Accounted(ApplyAll(ops))
  {
    if ops == [] {
      EmptyIsAccounted();
    } else {
      DocumentedAccounted(ops[..|ops| - 1]);
      DocumentedKeeps(ApplyAll(ops[..|ops| - 1]), ops[|ops| - 1]);
    }
  }

  /** At every point of every documented run from empty tables: keys are unique,
      no file row is without its disk, the counters of each disk are the number
      of its file rows and the sum of their sizes, and no clamp acts. */
  lemma RunKeepsAccounts(ops: seq<Op>, k: nat)
    requires DocumentedRun(ops) && k <= |ops|
    ensures var t := ApplyAll(ops[..k]);
      && UniqueKeys(t.files)
      && (forall row :: row in t.files ==> row.diskId in t.disks)
      && (forall d :: d in t.disks ==>
            t.disks[d] == DiskRow(FilesOn(t.files, d), BytesOn(t.files, d)))
      && (k < |ops| ==> !ClampActs(t, ops[k]))
  {
    DocumentedPrefix(ops, k);
    DocumentedAccounted(ops[..k]);
    var t := ApplyAll(ops[..k]);
    forall d | d in t.disks ensures t.disks[d] == DiskRow(FilesOn(t.files, d), BytesOn(t.files, d)) {
      assert DiskAccounted(t, d);
      RowsOnDisk(t.files, d);
    }
    if k < |ops| {
      DocumentedKeeps(t, ops[k]);
    }
  }

  /** The number and the size of the file rows of a disk. */
  function FilesOn(rows: seq<FileRow>, diskId: string): nat {
    if rows == [] then 0
    else FilesOn(rows[..|rows| - 1], diskId) + if rows[|rows| - 1].diskId == diskId then 1 else 0
  }

  function BytesOn(rows: seq<FileRow>, diskId: string): nat {
    if rows == [] then 0
    else BytesOn(rows[..|rows| - 1], diskId) + if rows[|rows| - 1].diskId == diskId then rows[|rows| - 1].size else 0
  }

  lemma {:induction false} RowsOnDisk(rows: seq<FileRow>, diskId: string)
    ensures |Select(rows, OnDisk(diskId))| == FilesOn(rows, diskId)
    ensures Sum(Select(rows, OnDisk(diskId))) == BytesOn(rows, diskId)
  {
    if rows != [] {
      RowsOnDisk(rows[..|rows| - 1], diskId);
      SelectLast(rows[..|rows| - 1], rows[|rows| - 1], OnDisk(diskId));
      assert rows == rows[..|rows| - 1] + [rows[|rows| - 1]];
    }
  }

  lemma EmptyIsAccounted()
    ensures Accounted(NO_ROWS)
  {}

  /** The database interface: each method issues its statements one by one and
      says whether it raises. */
  class NgasDb {
    var files: seq<FileRow>
    var disks: map<string, DiskRow>

    ghost function Contents(): Tables
      reads this
    {
      Tables(files, disks)
    }

    constructor ()
      ensures Contents() == NO_ROWS && Accounted(Contents())
    {
      files, disks := [], map[];
      new;
      EmptyIsAccounted();
    }

    method WriteDiskEntry(diskId: string, numberOfFiles: int, bytesStored: int)
      modifies this
      ensures Contents() == Apply(old(Contents()), Op.WriteDiskEntry(diskId, numberOfFiles, bytesStored))
    {
      if diskId in disks {
        disks := disks[diskId := disks[diskId].(numberOfFiles := numberOfFiles, bytesStored := bytesStored)];
      } else {
        disks := disks[diskId := DiskRow(numberOfFiles, bytesStored)];
      }
    }

    method UpdateDiskFileStatus(diskId: string, fileSize: nat) returns (raised: bool)
      modifies this`disks
      ensures raised == (diskId !in old(disks))
      ensures Contents() == if raised then old(Contents()) else AddToDisk(old(Contents()), diskId, fileSize)
    {
      if diskId !in disks {
        return true;
      }
      var numberOfFiles, bytesStored := disks[diskId].numberOfFiles, disks[diskId].bytesStored;
      disks := disks[diskId := DiskRow(numberOfFiles + 1, bytesStored + fileSize)];
      return false;
    }

    method WriteFileEntry(diskId: string, fileId: string, version: int, fileSize: nat, updateDiskInfo: bool)
      returns (raised: bool)
      modifies this
      ensures var op := Op.WriteFileEntry(diskId, fileId, version, fileSize, updateDiskInfo);
        Contents() == Apply(old(Contents()), op) && raised == Raises(old(Contents()), op)
      ensures EntryWritten(old(Contents()), Contents(), FileRow(diskId, fileId, version, fileSize), updateDiskInfo,
                           raised)
    {
      WritesEntry(Contents(), FileRow(diskId, fileId, version, fileSize), updateDiskInfo);
      raised := false;
      var found := Select(files, EntryWhere(diskId, fileId, version));
      if |found| == 1 {
        files := SetSize(files, EntryWhere(diskId, fileId, version), fileSize);
      } else {
        var sameKey := Select(files, Exactly(diskId, fileId, version));
        if sameKey != [] {
          return true;
        }
        files := files + [FileRow(diskId, fileId, version, fileSize)];
        if updateDiskInfo {
          raised := UpdateDiskFileStatus(diskId, fileSize);
        }
      }
    }

    method DeleteFileInfo(diskId: string, fileId: string, version: int) returns (raised: bool)
      modifies this
      ensures var op := Op.DeleteFileInfo(diskId, fileId, version);
        Contents() == Apply(old(Contents()), op) && raised == Raises(old(Contents()), op)
      ensures FileDeleted(old(Contents()), Contents(), diskId, fileId, version, raised)
    {
      DeletesFile(Contents(), diskId, fileId, version);
      var known := diskId in disks;
      var list := Select(files, ListWhere(diskId, fileId, version));
      if |list| == 0 {
        return true;
      }
      files := Delete(files, Exactly(diskId, fileId, version));
      if known {
        var newNumberOfFiles := disks[diskId].numberOfFiles - 1;
        if newNumberOfFiles < 0 {
          newNumberOfFiles := 0;
        }
        var newBytesStored := disks[diskId].bytesStored - list[0].size;
        if newBytesStored < 0 {
          newBytesStored := 0;
        }
        disks := disks[diskId := DiskRow(newNumberOfFiles, newBytesStored)];
      }
      return false;
    }

    method DeleteDiskInfo(diskId: string, delFileInfo: bool) returns (raised: bool)
      modifies this
      ensures var op := Op.DeleteDiskInfo(diskId, delFileInfo);
        Contents() == Apply(old(Contents()), op) && raised == Raises(old(Contents()), op)
      ensures DiskDeleted(old(Contents()), Contents(), diskId, delFileInfo, raised)
    {
      DeletesDisk(Contents(), diskId, delFileInfo);
      if delFileInfo && diskId !in disks {
        return true;
      }
      disks := disks - {diskId};
      if delFileInfo {
        files := Delete(files, OnDisk(diskId));
      }
      return !delFileInfo;
    }

    method GetSumBytesStored(diskId: string) returns (sum: nat)
      ensures sum == BytesOn(files, diskId)
      ensures Accounted(Contents()) ==>
        if diskId in disks then sum == disks[diskId].bytesStored else sum == 0
    {
      sum := Sum(Select(files, OnDisk(diskId)));
      RowsOnDisk(files, diskId);
      if Accounted(Contents()) {
        if diskId in disks {
          assert DiskAccounted(Contents(), diskId);
        } else if Select(files, OnDisk(diskId)) != [] {
          SelectSound(files, OnDisk(diskId), Select(files, OnDisk(diskId))[0]);
        }
      }
    }
  }
}
