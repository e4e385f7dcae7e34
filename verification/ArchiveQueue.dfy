/** The shared queue of the archive client: a ring of file names, the set of
    queued names, the set of names being processed and a counter, changed in
    place under one mutex.  Every method below is one critical section. */
module ArchiveQueue {

  /** What the queue means: the names waiting, oldest first, the names handed
      to archive threads, and the counter the monitor thread looks at. */
  datatype Queue = Queue(pending: seq<string>, processing: set<string>, count: int)

  const EMPTY := Queue([], {}, 0)

  predicate Busy(q: Queue, name: string) {
    name in q.pending || name in q.processing
  }

  /** A bounded FIFO of the given capacity. */
  function Put(q: Queue, capacity: nat, name: string): Queue {
    if |q.pending| >= capacity || Busy(q, name) then q
    else q.(pending := q.pending + [name], count := q.count + 1)
  }

  function Get(q: Queue): Queue {
    if q.pending == [] then q
    else q.(pending := q.pending[1..], processing := q.processing + {q.pending[0]})
  }

  function Front(q: Queue): string {
    if q.pending == [] then "" else q.pending[0]
  }

  function Delete(q: Queue, name: string): Queue {
    if name !in q.processing then q
    else q.(processing := q.processing - {name}, count := q.count - 1)
  }

  ghost predicate Distinct(s: seq<string>) {
    forall i, j :: 0 <= i < j < |s| ==> s[i] != s[j]
  }

  /** The four parts of the queue agree. */
  ghost predicate Consistent(q: Queue, capacity: nat) {
    && |q.pending| <= capacity
    && Distinct(q.pending)
    && "" !in q.pending
    && (forall name :: name in q.pending ==> name !in q.processing)
    && q.count == |q.pending| + |q.processing|
  }

  lemma PutConsistent(q: Queue, capacity: nat, name: string)
    requires Consistent(q, capacity) && name != ""
    ensures Consistent(Put(q, capacity, name), capacity)
    ensures Busy(Put(q, capacity, name), name) || |Put(q, capacity, name).pending| == capacity
    ensures var r := Put(q, capacity, name);
      && r.processing == q.processing
      && r.pending == if |q.pending| == capacity || name in q.pending || name in q.processing then q.pending
                      else q.pending + [name]
  {
    var r := Put(q, capacity, name);
    if r != q {
      assert r.pending[|q.pending|] == name;
    }
  }

  lemma GetConsistent(q: Queue, capacity: nat)
    requires Consistent(q, capacity)
    ensures Consistent(Get(q), capacity)
    ensures Get(q).count == q.count
    ensures Front(q) == "" <==> q.pending == []
    ensures q.pending != [] ==> q.pending == [Front(q)] + Get(q).pending
    ensures Front(q) != "" ==>
      Front(q) !in q.processing && Get(q).processing == q.processing + {Front(q)} && Front(q) !in Get(q).pending
  {
    if q.pending != [] {
      assert q.pending[0] in q.pending;
    }
  }

  lemma DeleteConsistent(q: Queue, capacity: nat, name: string)
    requires Consistent(q, capacity)
    ensures Consistent(Delete(q, name), capacity)
    ensures Delete(q, name).processing == q.processing - {name} && Delete(q, name).pending == q.pending
  {}

  /** One entry of a directory listing. */
  datatype DirEntry = DirEntry(name: string, regular: bool)

  predicate Hidden(name: string) {
    name != "" && name[0] == '.'
  }

  predicate Eligible(entry: DirEntry) {
    !Hidden(entry.name) && entry.regular
  }

  /** The effect on the queue of one scan that nobody interrupts. */
  function Scan(q: Queue, capacity: nat, listing: seq<DirEntry>): Queue {
    if listing == [] then q
    else
      var before := Scan(q, capacity, listing[..|listing| - 1]);
      var entry := listing[|listing| - 1];
      if Eligible(entry) then Put(before, capacity, entry.name) else before
  }

  /** A regular file whose name does not begin with a dot. */
  predicate IsFile(entry: DirEntry) {
    entry.regular && (entry.name == "" || entry.name[0] != '.')
  }

  /** After a scan every regular, visible name is queued or being processed,
      unless the ring is full; names queued before keep their places, and no
      others are queued. */
  lemma {:induction false} ScanReachesAll(q: Queue, capacity: nat, listing: seq<DirEntry>)
    requires Consistent(q, capacity)
    requires forall e :: e in listing ==> e.name != ""
    ensures Consistent(Scan(q, capacity, listing), capacity)
    ensures q.pending <= Scan(q, capacity, listing).pending
    ensures Scan(q, capacity, listing).processing == q.processing
    ensures |Scan(q, capacity, listing).pending| == capacity ||
            forall e :: e in listing && IsFile(e) ==> Busy(Scan(q, capacity, listing), e.name)
    ensures forall name :: name in Scan(q, capacity, listing).pending ==>
      name in q.pending || exists e :: e in listing && e.name == name && IsFile(e)
  {
    if listing != [] {
      var front, entry := listing[..|listing| - 1], listing[|listing| - 1];
      assert listing == front + [entry];
      ScanReachesAll(q, capacity, front);
      if Eligible(entry) {
        PutConsistent(Scan(q, capacity, front), capacity, entry.name);
      }
    }
  }

  /** The live segment of a ring, from the read to the write index. */
  ghost function Segment(ring: seq<string>, rd: nat, wr: nat): seq<string>
    requires rd < |ring| && wr < |ring|
  {
    if rd <= wr then ring[rd..wr] else ring[rd..] + ring[..wr]
  }

  lemma Advance(i: nat, size: nat)
    requires i < size
    ensures (i + 1) % size == if i + 1 == size then 0 else i + 1
  {}

  lemma SegmentPush(ring: seq<string>, rd: nat, wr: nat, name: string)
    requires rd < |ring| && wr < |ring|
    ensures |Segment(ring, rd, wr)| < |ring|
    ensures (wr + 1) % |ring| == rd <==> |Segment(ring, rd, wr)| == |ring| - 1
    ensures (wr + 1) % |ring| != rd ==>
      Segment(ring[wr := name], rd, (wr + 1) % |ring|) == Segment(ring, rd, wr) + [name]
  {
    Advance(wr, |ring|);
  }

  lemma SegmentPop(ring: seq<string>, rd: nat, wr: nat)
    requires rd < |ring| && wr < |ring|
    ensures rd == wr <==> Segment(ring, rd, wr) == []
    ensures rd != wr ==> Segment(ring, rd, wr)[0] == ring[rd]
    ensures rd != wr ==>
      Segment(ring[rd := ""], (rd + 1) % |ring|, wr) == Segment(ring, rd, wr)[1..]
  {
    Advance(rd, |ring|);
  }

  class Registry {
    const archiveQueue: array<string>
    var rdIdx: nat
    var wrIdx: nat
    var count: int
    var queueDbm: set<string>
    var procDbm: set<string>

    ghost function Pending(): seq<string>
      requires rdIdx < archiveQueue.Length && wrIdx < archiveQueue.Length
      reads this, archiveQueue
    {
      Segment(archiveQueue[..], rdIdx, wrIdx)
    }

    ghost function Contents(): Queue
      requires rdIdx < archiveQueue.Length && wrIdx < archiveQueue.Length
      reads this, archiveQueue
    {
      Queue(Pending(), procDbm, count)
    }

    ghost predicate Valid()
      reads this, archiveQueue
    {
      && 2 <= archiveQueue.Length
      && rdIdx < archiveQueue.Length && wrIdx < archiveQueue.Length
      && Consistent(Contents(), Capacity())
      && (forall name :: name in queueDbm <==> name in Pending())
    }

    /** One slot always stays free. */
    ghost function Capacity(): nat
      requires 1 <= archiveQueue.Length
    {
      archiveQueue.Length - 1
    }

    constructor (size: nat)
      requires 2 <= size
      ensures Valid() && fresh(archiveQueue) && archiveQueue.Length == size && Contents() == EMPTY
    {
      archiveQueue := new string[size](_ => "");
      rdIdx, wrIdx, count := 0, 0, 0;
      queueDbm, procDbm := {}, {};
    }

    method FileBeingProcessed(sourceFile: string) returns (busy: bool)
      requires Valid()
      ensures busy == Busy(Contents(), sourceFile)
    {
      var inArchiveQ := sourceFile in queueDbm;
      var inProcessingQ := sourceFile in procDbm;
      return inArchiveQ || inProcessingQ;
    }

    method PutEntryInQ(sourceFile: string)
      requires Valid() && sourceFile != ""
      modifies this, archiveQueue
      ensures Valid()
      ensures Contents() == Put(old(Contents()), Capacity(), sourceFile)
    {
      PutConsistent(Contents(), Capacity(), sourceFile);
      SegmentPush(archiveQueue[..], rdIdx, wrIdx, sourceFile);
      if (wrIdx + 1) % archiveQueue.Length == rdIdx {
        return;
      }
      if sourceFile in queueDbm || sourceFile in procDbm {
        return;
      }
      var newWrIdx := wrIdx;
      archiveQueue[newWrIdx] := sourceFile;
      queueDbm := queueDbm + {sourceFile};
      wrIdx := (newWrIdx + 1) % archiveQueue.Length;
      count := count + 1;
      assert archiveQueue[..] == old(archiveQueue[..])[newWrIdx := sourceFile];
      assert Pending() == old(Pending()) + [sourceFile];
    }

    /** The branches for an empty slot and for a name missing from the queued
        set are dead: the assertions in them are the proof. */
    method GetNextEntryFromQ() returns (sourceFile: string)
      requires Valid()
      modifies this, archiveQueue
      ensures Valid()
      ensures sourceFile == Front(old(Contents()))
      ensures Contents() == Get(old(Contents()))
    {
      GetConsistent(Contents(), Capacity());
      SegmentPop(archiveQueue[..], rdIdx, wrIdx);
      var newRdIdx := rdIdx;
      if newRdIdx == wrIdx {
        return "";
      }
      if archiveQueue[newRdIdx] == "" {
        assert false;
      }
      sourceFile := archiveQueue[newRdIdx];
      if sourceFile !in queueDbm {
        assert false;
      }
      queueDbm := queueDbm - {sourceFile};
      procDbm := procDbm + {sourceFile};
      archiveQueue[newRdIdx] := "";
      rdIdx := (newRdIdx + 1) % archiveQueue.Length;
      assert archiveQueue[..] == old(archiveQueue[..])[newRdIdx := ""];
      assert old(Pending()) == [sourceFile] + Pending();
    }

    method DeleteEntryFromQ(sourceFile: string)
      requires Valid()
      modifies this
      ensures Valid()
      ensures Contents() == Delete(old(Contents()), sourceFile)
    {
      if sourceFile !in procDbm {
        return;
      }
      procDbm := procDbm - {sourceFile};
      count := count - 1;
    }

    /** One scan of the queue directory; `moved` are the entries sent to the
        bad-files directory because they are not regular files. */
    method CheckArchiveQueue(listing: seq<DirEntry>) returns (moved: seq<string>)
      requires Valid()
      requires forall e :: e in listing ==> e.name != ""
      modifies this, archiveQueue
      ensures Valid()
      ensures Contents() == Scan(old(Contents()), Capacity(), listing)
      ensures forall name :: name in moved <==>
        exists e :: e in listing && e.name == name && name[0] != '.' && !e.regular
    {
      moved := [];
      ghost var was := Contents();
      for i := 0 to |listing|
        invariant Valid()
        invariant Contents() == Scan(was, Capacity(), listing[..i])
        invariant forall name :: name in moved <==>
          exists e :: e in listing[..i] && e.name == name && !Hidden(name) && !e.regular
      {
        var entry := listing[i];
        assert listing[..i + 1][..i] == listing[..i];
        if !Hidden(entry.name) {
          if entry.regular {
            var busy := FileBeingProcessed(entry.name);
            if !busy {
              PutEntryInQ(entry.name);
            }
          } else {
            moved := moved + [entry.name];
          }
        }
      }
      assert listing[..|listing|] == listing;
    }
  }
}
