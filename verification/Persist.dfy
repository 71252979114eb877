/** The change log on disk: bytes, sparse index, write buffer, and the in-memory store (src/persist.rs). */
module Persist {
  import opened Changes
  import opened ByteOrder
  import Arithmetic
  import Sequences

  /** "SDCL". */
  const LOG_MAGIC: Bytes := [0x53, 0x44, 0x43, 0x4C]
  const LOG_VERSION: nat := 1
  const HEADER_SIZE: nat := 16
  /** 16 MiB: the index builder stops at a longer record. */
  const MAX_INDEXED_RECORD: nat := 16 * 1024 * 1024
  const DEFAULT_INDEX_INTERVAL: nat := 1000

  datatype IndexEntry = IndexEntry(offset: nat, position: nat, length: nat)

  datatype StoreError = BadMagic | UnsupportedVersion(version: nat) | ReadError | Undecodable

  // ---------- records as bytes ----------

  function Header(): (h: Bytes)
    ensures |h| == HEADER_SIZE
  {
    LOG_MAGIC + Le32(LOG_VERSION) + [0, 0, 0, 0, 0, 0, 0, 0]
  }

  /** A record: its length as the low 32 bits say it, then its bytes. */
  function RecordBytes(r: Bytes): Bytes {
    Le32(|r| % U32) + r
  }

  function LogBytes(records: seq<Bytes>): Bytes {
    if records == [] then [] else RecordBytes(records[0]) + LogBytes(records[1..])
  }

  /** Byte position of record i, or the end of the log. */
  function Position(records: seq<Bytes>, i: nat): nat
    requires i <= |records|
  {
    HEADER_SIZE + |LogBytes(records[..i])|
  }

  ghost predicate IsLog(file: Bytes, records: seq<Bytes>) {
    && |file| >= HEADER_SIZE
    && file[HEADER_SIZE..] == LogBytes(records)
    && forall r :: r in records ==> 0 < |r| < U32
  }

  lemma LogBytesCons(rs: seq<Bytes>)
    requires rs != []
    ensures LogBytes(rs) == RecordBytes(rs[0]) + LogBytes(rs[1..])
  {
    hide RecordBytes;
  }

  lemma {:induction false} LogBytesJoin(a: seq<Bytes>, b: seq<Bytes>)
    ensures LogBytes(a + b) == LogBytes(a) + LogBytes(b)
    decreases |a|
  {
    if a == [] {
      assert a + b == b;
    } else {
      LogBytesJoin(a[1..], b);
      hide *;
      LogBytesCons(a);
      LogBytesCons(a + b);
      assert (a + b)[1..] == a[1..] + b;
      Sequences.Associative(RecordBytes(a[0]), LogBytes(a[1..]), LogBytes(b));
    }
  }

  lemma LogOfOne(r: Bytes)
    ensures LogBytes([r]) == RecordBytes(r)
  {
    hide RecordBytes;
    LogBytesCons([r]);
    assert [r][1..] == [];
    assert RecordBytes(r) + LogBytes([]) == RecordBytes(r);
  }

  lemma SplitLog(records: seq<Bytes>, i: nat)
    requires i < |records|
    ensures LogBytes(records) == LogBytes(records[..i]) + RecordBytes(records[i]) + LogBytes(records[i + 1..])
    ensures LogBytes(records[..i + 1]) == LogBytes(records[..i]) + RecordBytes(records[i])
  {
    hide *;
    var r := records[i];
    LogBytesJoin(records[..i], [r]);
    LogBytesJoin(records[..i + 1], records[i + 1..]);
    Sequences.TakeMore(records, i);
    Sequences.Halves(records, i + 1);
    LogOfOne(r);
  }

  /** A record in the middle of some bytes, after the file's header. */
  lemma SliceRecord(file: Bytes, before: Bytes, r: Bytes, after: Bytes)
    requires |file| >= HEADER_SIZE && file[HEADER_SIZE..] == before + RecordBytes(r) + after && |r| < U32
    ensures var p := HEADER_SIZE + |before|;
            && p + 4 + |r| <= |file|
            && FromLe32(file[p..p + 4]) == |r|
            && file[p + 4..p + 4 + |r|] == r
  {
    hide *;
    RecordParts(r);
    Sequences.SliceTwo(file, HEADER_SIZE, before, Le32(|r|), r, after);
  }

  lemma RecordParts(r: Bytes)
    requires |r| < U32
    ensures RecordBytes(r) == Le32(|r|) + r
    ensures |Le32(|r|)| == 4 && FromLe32(Le32(|r|)) == |r|
  {
    hide Le32, FromLe32;
    Le32RoundTrip(|r|);
    assert |r| % U32 == |r|;
  }

  lemma NoRecords()
    ensures LogBytes([]) == []
  {
  }

  lemma LogBytesSnoc(records: seq<Bytes>, i: nat)
    requires i < |records|
    ensures LogBytes(records[..i + 1]) == LogBytes(records[..i]) + Le32(|records[i]| % U32) + records[i]
  {
    SplitLog(records, i);
    hide LogBytes, Le32;
    assert LogBytes(records[..i]) + RecordBytes(records[i]) == LogBytes(records[..i]) + Le32(|records[i]| % U32)
           + records[i];
  }

  lemma RecordAt(file: Bytes, records: seq<Bytes>, i: nat)
    requires IsLog(file, records) && i < |records|
    ensures var p, len := Position(records, i), |records[i]|;
            && p + 4 + len <= |file|
            && Position(records, i + 1) == p + 4 + len
            && 0 < len == FromLe32(file[p..p + 4])
            && file[p + 4..p + 4 + len] == records[i]
  {
    hide RecordBytes, FromLe32, LogBytes;
    SplitLog(records, i);
    SliceRecord(file, LogBytes(records[..i]), records[i], LogBytes(records[i + 1..]));
    RecordIsLong(records[i]);
  }

  lemma LogEnd(file: Bytes, records: seq<Bytes>)
    requires IsLog(file, records)
    ensures Position(records, |records|) == |file|
  {
    assert records[..|records|] == records;
  }

  lemma {:induction false} PositionsIncrease(records: seq<Bytes>, i: nat, j: nat)
    requires i < j <= |records|
    ensures Position(records, i) < Position(records, j)
    decreases j - i
  {
    hide RecordBytes;
    LogBytesJoin(records[..j - 1], [records[j - 1]]);
    assert records[..j] == records[..j - 1] + [records[j - 1]];
    assert LogBytes([records[j - 1]]) == RecordBytes(records[j - 1]) + LogBytes([]);
    assert |RecordBytes(records[j - 1])| >= 4 by { RecordIsLong(records[j - 1]); }
    if i < j - 1 {
      PositionsIncrease(records, i, j - 1);
    }
  }

  lemma RecordIsLong(r: Bytes)
    ensures |RecordBytes(r)| == 4 + |r|
  {
  }

  // ---------- the index ----------

  /** The index builder from byte `pos` and record number `offset` on, for any file. */
  function IndexFrom(file: Bytes, pos: nat, offset: nat, interval: nat): seq<IndexEntry>
    requires interval > 0
    decreases Max(0, |file| - pos)
  {
    if pos + 4 > |file| then []
    else
      var len := FromLe32(file[pos..pos + 4]);
      if len == 0 || len > MAX_INDEXED_RECORD then []
      else
        (if offset % interval == 0 then [IndexEntry(offset, pos, len)] else [])
        + IndexFrom(file, pos + 4 + len, offset + 1, interval)
  }

  method BuildIndex(file: Bytes, interval: nat) returns (index: seq<IndexEntry>)
    requires interval > 0
    ensures index == IndexFrom(file, HEADER_SIZE, 0, interval)
  {
    hide FromLe32;
    index := [];
    var pos := HEADER_SIZE;
    var offset := 0;
    while pos + 4 <= |file|
      invariant index + IndexFrom(file, pos, offset, interval) == IndexFrom(file, HEADER_SIZE, 0, interval)
      decreases |file| - pos
    {
      var recordStart := pos;
      var len := FromLe32(file[pos..pos + 4]);
      if len == 0 {
        break;
      }
      if len > MAX_INDEXED_RECORD {
        break;
      }
      if offset % interval == 0 {
        index := index + [IndexEntry(offset, recordStart, len)];
      }
      pos := pos + 4 + len;
      offset := offset + 1;
    }
  }

  /** Exactly the records 0, k, 2k, ... from `from` on, at their byte positions, in order. */
  ghost predicate IsSparse(index: seq<IndexEntry>, records: seq<Bytes>, interval: nat, from: nat)
    requires interval > 0
  {
    && |index| <= |records| - from
    && (forall e :: 0 <= e < |index| ==>
          && from <= index[e].offset < |records| && index[e].offset % interval == 0
          && index[e].position == Position(records, index[e].offset)
          && index[e].length == |records[index[e].offset]|)
    && (forall i :: from <= i < |records| && i % interval == 0 ==> exists e :: 0 <= e < |index| && index[e].offset == i)
    && (forall d, e :: 0 <= d < e < |index| ==> index[d].offset < index[e].offset)
  }

  /** A log whose records are followed by any other bytes. */
  ghost predicate IsLogThen(file: Bytes, records: seq<Bytes>, tail: Bytes) {
    && |file| >= HEADER_SIZE
    && file[HEADER_SIZE..] == LogBytes(records) + tail
    && forall x :: x in records ==> 0 < |x| < U32
  }

  lemma RecordBefore(file: Bytes, records: seq<Bytes>, tail: Bytes, i: nat)
    requires IsLogThen(file, records, tail) && i < |records|
    ensures var p, len := Position(records, i), |records[i]|;
            && p + 4 + len <= |file|
            && Position(records, i + 1) == p + 4 + len
            && 0 < len == FromLe32(file[p..p + 4])
            && file[p + 4..p + 4 + len] == records[i]
  {
    hide RecordBytes, FromLe32, LogBytes;
    SplitLog(records, i);
    var before, after := LogBytes(records[..i]), LogBytes(records[i + 1..]);
    Sequences.Associative(before + RecordBytes(records[i]), after, tail);
    assert records[i] in records;
    SliceRecord(file, before, records[i], after + tail);
    RecordIsLong(records[i]);
  }

  lemma LogThenNothing(file: Bytes, records: seq<Bytes>)
    requires IsLog(file, records)
    ensures IsLogThen(file, records, [])
  {
    hide LogBytes;
    assert LogBytes(records) + [] == LogBytes(records);
  }

  /** Whatever follows the records: a scan finds their sparse index, and then what the rest scans as. */
  lemma {:induction false} ScanBefore(file: Bytes, records: seq<Bytes>, tail: Bytes, interval: nat, from: nat)
    returns (index: seq<IndexEntry>)
    requires IsLogThen(file, records, tail) && interval > 0 && from <= |records|
    requires forall r :: r in records ==> |r| <= MAX_INDEXED_RECORD
    ensures IsSparse(index, records, interval, from)
    ensures IndexFrom(file, Position(records, from), from, interval)
         == index + IndexFrom(file, Position(records, |records|), |records|, interval)
    decreases |records| - from
  {
    hide Position, FromLe32, IsSparse, IsLogThen;
    var rest := IndexFrom(file, Position(records, |records|), |records|, interval);
    if from == |records| {
      index := [];
      NothingSparse(records, interval);
      assert [] + rest == rest;
    } else {
      RecordBefore(file, records, tail, from);
      var more := ScanBefore(file, records, tail, interval, from + 1);
      assert records[from] in records;
      var head := if from % interval == 0 then [IndexEntry(from, Position(records, from), |records[from]|)] else [];
      index := head + more;
      Sequences.Associative(head, more, rest);
      SparseCons(more, records, interval, from);
    }
  }

  lemma NothingSparse(records: seq<Bytes>, interval: nat)
    requires interval > 0
    ensures IsSparse([], records, interval, |records|)
  {
  }

  /** Bytes that a scan does not go into: too few, an end marker, or a record of more than 16 MiB. */
  predicate StopsScan(tail: Bytes) {
    |tail| < 4 || FromLe32(tail[..4]) == 0 || FromLe32(tail[..4]) > 0x100_0000
  }

  /** Such bytes end the scan: it finds exactly the sparse index of the records before them. */
  lemma ScanStops(file: Bytes, records: seq<Bytes>, tail: Bytes, interval: nat)
    requires IsLogThen(file, records, tail) && interval > 0 && StopsScan(tail)
    requires forall r :: r in records ==> |r| <= MAX_INDEXED_RECORD
    ensures IsSparse(IndexFrom(file, HEADER_SIZE, 0, interval), records, interval, 0)
  {
    hide IsSparse, IsLogThen, Position, IndexFrom, StopsScan;
    var index := ScanBefore(file, records, tail, interval, 0);
    FirstPosition(records);
    NothingScanned(file, records, tail, interval);
    assert index + [] == index;
  }

  lemma TailBehind(file: Bytes, records: seq<Bytes>, tail: Bytes)
    requires IsLogThen(file, records, tail)
    ensures Position(records, |records|) + |tail| == |file| && file[Position(records, |records|)..] == tail
  {
    hide LogBytes;
    assert records[..|records|] == records;
    Sequences.DropAfterDrop(file, HEADER_SIZE, |LogBytes(records)|);
  }

  lemma NothingScanned(file: Bytes, records: seq<Bytes>, tail: Bytes, interval: nat)
    requires IsLogThen(file, records, tail) && interval > 0 && StopsScan(tail)
    ensures IndexFrom(file, Position(records, |records|), |records|, interval) == []
  {
    hide IsLogThen, Position, FromLe32;
    TailBehind(file, records, tail);
    var pos := Position(records, |records|);
    if |tail| >= 4 {
      Sequences.TakeAfterDrop(file, pos, 4);
    }
  }

  /** Scanning a well-formed log finds exactly the sparse index of its records. */
  lemma BuildIndexFindsRecords(file: Bytes, records: seq<Bytes>, interval: nat)
    requires IsLog(file, records) && interval > 0
    requires forall r :: r in records ==> |r| <= MAX_INDEXED_RECORD
    ensures IsSparse(IndexFrom(file, HEADER_SIZE, 0, interval), records, interval, 0)
  {
    hide IsLog, IsLogThen, IsSparse, IndexFrom;
    LogThenNothing(file, records);
    ScanStops(file, records, [], interval);
  }

  /** A record torn in its body is scanned like a whole one, so it is indexed if its number says so. */
  lemma TornIsScanned(file: Bytes, records: seq<Bytes>, r: Bytes, j: nat, interval: nat)
    returns (index: seq<IndexEntry>)
    requires 0 < |r| <= MAX_INDEXED_RECORD && 4 <= j < |RecordBytes(r)| && interval > 0
    requires IsLogThen(file, records, RecordBytes(r)[..j])
    requires forall x :: x in records ==> |x| <= MAX_INDEXED_RECORD
    ensures IsSparse(index, records, interval, 0)
    ensures var torn := IndexEntry(|records|, Position(records, |records|), |r|);
            IndexFrom(file, HEADER_SIZE, 0, interval) == index + (if |records| % interval == 0 then [torn] else [])
  {
    hide *;
    var tail := RecordBytes(r)[..j];
    SmallRecords();
    index := ScanBefore(file, records, tail, interval, 0);
    FirstPosition(records);
    TailBehind(file, records, tail);
    RecordIsLong(r);
    RecordParts(r);
    Sequences.Cut(Le32(|r|), r, j);
    Sequences.Fields([], Le32(|r|), r[..j - 4]);
    var pos := Position(records, |records|);
    Sequences.TakeAfterDrop(file, pos, 4);
    assert tail[..4] == Le32(|r|);
    OneScanned(file, pos, |records|, interval, |r|);
  }

  lemma SmallRecords()
    ensures MAX_INDEXED_RECORD < U32
  {
  }

  /** One round of the scan over a record that reaches beyond the file. */
  lemma OneScanned(file: Bytes, pos: nat, offset: nat, interval: nat, len: nat)
    requires interval > 0 && pos + 4 <= |file| < pos + 4 + len && FromLe32(file[pos..pos + 4]) == len
    requires len <= MAX_INDEXED_RECORD
    ensures IndexFrom(file, pos, offset, interval)
         == if offset % interval == 0 then [IndexEntry(offset, pos, len)] else []
  {
    hide FromLe32;
  }

  lemma SparseCons(rest: seq<IndexEntry>, records: seq<Bytes>, interval: nat, from: nat)
    requires interval > 0 && from < |records| && IsSparse(rest, records, interval, from + 1)
    ensures var head := IndexEntry(from, Position(records, from), |records[from]|);
            IsSparse((if from % interval == 0 then [head] else []) + rest, records, interval, from)
  {
    hide IsSparse, Position;
    if from % interval == 0 {
      SparseHead(rest, records, interval, from);
    } else {
      assert [] + rest == rest;
      SparseSkip(rest, records, interval, from);
    }
  }

  lemma SparseSkip(rest: seq<IndexEntry>, records: seq<Bytes>, interval: nat, from: nat)
    requires interval > 0 && from < |records| && IsSparse(rest, records, interval, from + 1)
    requires from % interval != 0
    ensures IsSparse(rest, records, interval, from)
  {
    hide Position;
  }

  lemma SparseHead(rest: seq<IndexEntry>, records: seq<Bytes>, interval: nat, from: nat)
    requires interval > 0 && from < |records| && IsSparse(rest, records, interval, from + 1)
    requires from % interval == 0
    ensures IsSparse([IndexEntry(from, Position(records, from), |records[from]|)] + rest, records, interval, from)
  {
    hide Position;
    var index := [IndexEntry(from, Position(records, from), |records[from]|)] + rest;
    assert forall e :: 0 < e < |index| ==> index[e] == rest[e - 1];
    forall i | from <= i < |records| && i % interval == 0
      ensures exists e :: 0 <= e < |index| && index[e].offset == i
    {
      if i == from {
        assert index[0].offset == i;
      } else {
        var e :| 0 <= e < |rest| && rest[e].offset == i;
        assert index[e + 1].offset == i;
      }
    }
  }

  /** What a sparse index says of one of its entries. */
  lemma SparseEntry(index: seq<IndexEntry>, records: seq<Bytes>, interval: nat, e: nat)
    requires interval > 0 && IsSparse(index, records, interval, 0) && e < |index|
    ensures index[e].offset < |records| && index[e].offset % interval == 0
    ensures index[e].position == Position(records, index[e].offset)
  {
    hide Position;
  }

  /** And where it has one. */
  lemma SparseFinds(index: seq<IndexEntry>, records: seq<Bytes>, interval: nat, offset: nat) returns (e: nat)
    requires interval > 0 && IsSparse(index, records, interval, 0) && offset < |records| && offset % interval == 0
    ensures e < |index| && index[e].offset == offset
  {
    hide Position;
    e :| 0 <= e < |index| && index[e].offset == offset;
  }

  lemma SparseSorted(index: seq<IndexEntry>, records: seq<Bytes>, interval: nat, p: nat, q: nat)
    requires interval > 0 && IsSparse(index, records, interval, 0) && p <= q < |index|
    ensures index[p].offset <= index[q].offset
  {
    hide Position;
    SortedAt(index, p, q);
  }

  /** The first entry at or after `offset`: what a binary search of a sorted index reports. */
  function LowerBound(index: seq<IndexEntry>, offset: nat): (p: nat)
    ensures p <= |index|
    ensures p < |index| ==> index[p].offset >= offset
    ensures forall e :: 0 <= e < p ==> index[e].offset < offset
  {
    if index == [] || index[0].offset >= offset then 0
    else
      var p := LowerBound(index[1..], offset);
      assert forall e :: 0 < e < p + 1 ==> index[e] == index[1..][e - 1];
      p + 1
  }

  function StartPosition(index: seq<IndexEntry>, offset: nat): nat {
    if offset == 0 then HEADER_SIZE
    else
      var p := LowerBound(index, offset);
      if p < |index| && index[p].offset == offset then index[p].position
      else if p == 0 then HEADER_SIZE
      else index[p - 1].position
  }

  /** One more than the largest offset indexed at or before the start, or 0: the reader's first record number. */
  function StartCounter(index: seq<IndexEntry>, start: nat): nat {
    if index == [] then 0
    else Max(if index[0].position <= start then index[0].offset + 1 else 0, StartCounter(index[1..], start))
  }

  // ---------- reading ----------

  /** The read loop from byte `pos`, counting from `current`, for any file. */
  function ReadFrom(file: Bytes, pos: nat, current: nat, offset: nat, codec: Codec<Change>)
    : Result<seq<Change>, StoreError>
    decreases Max(0, |file| - pos)
  {
    if pos + 4 > |file| then Ok([])
    else
      var len := FromLe32(file[pos..pos + 4]);
      if len == 0 then Ok([])
      else if pos + 4 + len > |file| then Err(ReadError)
      else if current < offset then ReadFrom(file, pos + 4 + len, current + 1, offset, codec)
      else
        match codec.decode(file[pos + 4..pos + 4 + len])
        case None => Err(Undecodable)
        case Some(c) =>
          match ReadFrom(file, pos + 4 + len, current + 1, offset, codec)
          case Err(e) => Err(e)
          case Ok(cs) => Ok([c] + cs)
  }

  function ReadSince(file: Bytes, index: seq<IndexEntry>, offset: nat, codec: Codec<Change>)
    : Result<seq<Change>, StoreError>
  {
    var start := StartPosition(index, offset);
    ReadFrom(file, start, StartCounter(index, start), offset, codec)
  }

  function Prepend(cs: seq<Change>, r: Result<seq<Change>, StoreError>): Result<seq<Change>, StoreError> {
    if r.Ok? then Ok(cs + r.value) else r
  }

  method ReadChangesSince(file: Bytes, index: seq<IndexEntry>, offset: nat, codec: Codec<Change>)
    returns (r: Result<seq<Change>, StoreError>)
    ensures r == ReadSince(file, index, offset, codec)
  {
    hide FromLe32;
    var pos := StartPosition(index, offset);
    var current := StartCounter(index, pos);
    var changes: seq<Change> := [];
    ghost var goal := ReadFrom(file, pos, current, offset, codec);
    assert goal.Ok? ==> [] + goal.value == goal.value;
    while pos + 4 <= |file|
      invariant current >= 0
      invariant goal == Prepend(changes, ReadFrom(file, pos, current, offset, codec))
      decreases |file| - pos
    {
      var len := FromLe32(file[pos..pos + 4]);
      if len == 0 {
        break;
      }
      if pos + 4 + len > |file| {
        return Err(ReadError);
      }
      if current >= offset {
        match codec.decode(file[pos + 4..pos + 4 + len]) {
          case None => return Err(Undecodable);
          case Some(c) =>
            PrependOne(changes, c, ReadFrom(file, pos + 4 + len, current + 1, offset, codec));
            changes := changes + [c];
        }
      }
      current := current + 1;
      pos := pos + 4 + len;
    }
    assert changes + [] == changes;
    r := Ok(changes);
  }

  lemma PrependOne(cs: seq<Change>, c: Change, r: Result<seq<Change>, StoreError>)
    ensures Prepend(cs, Prepend([c], r)) == Prepend(cs + [c], r)
  {
    if r.Ok? {
      assert cs + ([c] + r.value) == cs + [c] + r.value;
    }
  }

  function EncodeAll(codec: Codec<Change>, cs: seq<Change>): (r: seq<Bytes>)
    ensures |r| == |cs|
  {
    seq(|cs|, i requires 0 <= i < |cs| => codec.encode(cs[i]))
  }

  /** A log of these changes, each short enough for its length prefix. */
  ghost predicate Holds(file: Bytes, codec: Codec<Change>, disk: seq<Change>) {
    Lossless(codec) && IsLog(file, EncodeAll(codec, disk))
  }

  /** One round of the reader, given what the rest of the file reads as. */
  lemma ReadStep(file: Bytes, pos: nat, len: nat, current: nat, offset: nat, codec: Codec<Change>, c: Change,
                 rest: seq<Change>)
    requires len > 0 && pos + 4 + len <= |file| && FromLe32(file[pos..pos + 4]) == len
    requires codec.decode(file[pos + 4..pos + 4 + len]) == Some(c)
    requires ReadFrom(file, pos + 4 + len, current + 1, offset, codec) == Ok(rest)
    ensures ReadFrom(file, pos, current, offset, codec) == Ok(if current < offset then rest else [c] + rest)
  {
    hide FromLe32;
  }

  /** What skipping leaves when the first change is counted in or not. */
  lemma SkipStep(disk: seq<Change>, i: nat, current: nat, offset: nat)
    requires i < |disk|
    ensures var rest := disk[Min(|disk|, Max(i + 1, i + offset - current))..];
            disk[Min(|disk|, Max(i, i + offset - current))..] == if current < offset then rest else [disk[i]] + rest
  {
    if current >= offset {
      assert disk[i..] == [disk[i]] + disk[i + 1..];
    }
  }

  /** Reading from record i with the counter at `current` keeps the records whose count reaches `offset`. */
  lemma {:induction false} ReadWellFormed(file: Bytes, codec: Codec<Change>, disk: seq<Change>, i: nat, current: nat,
                                          offset: nat)
    requires Holds(file, codec, disk) && i <= |disk|
    ensures ReadFrom(file, Position(EncodeAll(codec, disk), i), current, offset, codec)
         == Ok(disk[Min(|disk|, Max(i, i + offset - current))..])
    decreases |disk| - i
  {
    hide Position, FromLe32, Lossless, ReadFrom, LogBytes, IsLog;
    var records := EncodeAll(codec, disk);
    if i == |disk| {
      ReadAtEnd(file, records, current, offset, codec);
      assert disk[|disk|..] == [];
    } else {
      RecordAt(file, records, i);
      DecodeEncoded(codec, disk[i]);
      ReadWellFormed(file, codec, disk, i + 1, current + 1, offset);
      ReadStep(file, Position(records, i), |records[i]|, current, offset, codec, disk[i],
               disk[Min(|disk|, Max(i + 1, i + offset - current))..]);
      SkipStep(disk, i, current, offset);
    }
  }

  lemma ReadAtEnd(file: Bytes, records: seq<Bytes>, current: nat, offset: nat, codec: Codec<Change>)
    requires IsLog(file, records)
    ensures ReadFrom(file, Position(records, |records|), current, offset, codec) == Ok([])
  {
    LogEnd(file, records);
    hide Position, IsLog;
  }

  lemma DecodeEncoded(codec: Codec<Change>, c: Change)
    requires Lossless(codec)
    ensures codec.encode(c) != [] && codec.decode(codec.encode(c)) == Some(c)
  {
  }

  // ---------- indexed reads against the plain scan ----------

  /** The plain scan: what skipping `offset` changes of a list leaves. */
  function Skip(cs: seq<Change>, offset: nat): seq<Change> {
    cs[Min(|cs|, offset)..]
  }

  /** The offsets an indexed read is exact for on a log whose first n records were indexed. */
  predicate IsIndexed(n: nat, interval: nat, offset: nat)
    requires interval > 0
  {
    n == 0 || offset == 0 || (offset < n && offset % interval == 0)
  }

  lemma SortedAt(index: seq<IndexEntry>, p: nat, q: nat)
    requires p <= q < |index| && forall d, e :: 0 <= d < e < |index| ==> index[d].offset < index[e].offset
    ensures index[p].offset <= index[q].offset
  {
  }

  /** Which entry an indexed read starts from. */
  lemma StartEntry(index: seq<IndexEntry>, indexed: seq<Bytes>, interval: nat, offset: nat) returns (e: nat)
    requires interval > 0 && indexed != [] && IsSparse(index, indexed, interval, 0)
    ensures e < |index|
    ensures StartPosition(index, offset) == index[e].position == Position(indexed, index[e].offset)
    ensures index[e].offset <= offset
    ensures IsIndexed(|indexed|, interval, offset) <==> index[e].offset == offset
  {
    hide IsSparse, Position, LowerBound;
    assert 0 % interval == 0;
    var z := SparseFinds(index, indexed, interval, 0);
    if offset == 0 {
      e := z;
      SparseEntry(index, indexed, interval, e);
      FirstPosition(indexed);
    } else {
      var p := LowerBound(index, offset);
      if p <= z {
        SparseSorted(index, indexed, interval, p, z);
      }
      e := if p < |index| && index[p].offset == offset then p else p - 1;
      SparseEntry(index, indexed, interval, e);
      if IsIndexed(|indexed|, interval, offset) {
        var q := SparseFinds(index, indexed, interval, offset);
        SparseSorted(index, indexed, interval, p, q);
      }
    }
  }

  /** Which record that is, and the reader's first count. */
  lemma StartOfRead(index: seq<IndexEntry>, records: seq<Bytes>, indexed: seq<Bytes>, interval: nat, offset: nat)
    returns (j: nat)
    requires interval > 0 && indexed <= records && IsSparse(index, indexed, interval, 0)
    ensures j <= |records| && j <= offset
    ensures StartPosition(index, offset) == Position(records, j)
    ensures StartCounter(index, StartPosition(index, offset)) == if indexed == [] then 0 else j + 1
    ensures if indexed == [] then j == 0 else IsIndexed(|indexed|, interval, offset) <==> j == offset
  {
    if indexed == [] {
      j := 0;
    } else {
      var e := StartEntry(index, indexed, interval, offset);
      j := index[e].offset;
      PrefixPosition(records, indexed, j);
      CounterAt(index, indexed, interval, e);
    }
  }

  lemma PrefixPosition(records: seq<Bytes>, indexed: seq<Bytes>, i: nat)
    requires indexed <= records && i <= |indexed|
    ensures Position(indexed, i) == Position(records, i)
  {
    assert indexed[..i] == records[..i];
  }

  lemma CounterAt(index: seq<IndexEntry>, indexed: seq<Bytes>, interval: nat, e: nat)
    requires interval > 0 && IsSparse(index, indexed, interval, 0) && e < |index|
    ensures StartCounter(index, index[e].position) == index[e].offset + 1
  {
    forall d | 0 <= d < |index|
      ensures index[d].position <= index[e].position <==> index[d].offset <= index[e].offset
    {
      if index[d].offset < index[e].offset {
        PositionsIncrease(indexed, index[d].offset, index[e].offset);
      } else if index[d].offset > index[e].offset {
        PositionsIncrease(indexed, index[e].offset, index[d].offset);
      }
    }
    hide Position;
    CounterIsMaximum(index, index[e].position, e);
  }

  lemma {:induction false} CounterIsMaximum(index: seq<IndexEntry>, start: nat, e: nat)
    requires e < |index| && index[e].position <= start
    requires forall d :: 0 <= d < |index| && index[d].position <= start ==> index[d].offset <= index[e].offset
    ensures StartCounter(index, start) == index[e].offset + 1
  {
    CounterBound(index, start, index[e].offset + 1);
    if e > 0 {
      CounterIsMaximum(index[1..], start, e - 1);
    } else {
      CounterBound(index[1..], start, index[e].offset + 1);
    }
  }

  lemma {:induction false} CounterBound(index: seq<IndexEntry>, start: nat, bound: nat)
    requires forall d :: 0 <= d < |index| && index[d].position <= start ==> index[d].offset + 1 <= bound
    ensures StartCounter(index, start) <= bound
  {
    if index != [] {
      CounterBound(index[1..], start, bound);
    }
  }

  /**
   An indexed read returns the plain scan, preceded by one extra record unless the offset is
   indexed: the counter already includes the `+ 1` when the first record is read.
   */
  lemma IndexedRead(file: Bytes, codec: Codec<Change>, disk: seq<Change>, index: seq<IndexEntry>, n: nat,
                    interval: nat, offset: nat)
    requires Holds(file, codec, disk) && n <= |disk| && interval > 0
    requires IsSparse(index, EncodeAll(codec, disk[..n]), interval, 0)
    ensures ReadSince(file, index, offset, codec)
         == Ok(Skip(disk, if IsIndexed(n, interval, offset) then offset else offset - 1))
  {
    hide Position, ReadFrom, StartCounter, StartPosition, IsSparse, Holds;
    var records, indexed := EncodeAll(codec, disk), EncodeAll(codec, disk[..n]);
    assert indexed == records[..n];
    var j := StartOfRead(index, records, indexed, interval, offset);
    ReadWellFormed(file, codec, disk, j, StartCounter(index, StartPosition(index, offset)), offset);
  }

  /** So it is exact if and only if the offset is indexed or past the last record. */
  lemma IndexedReadExact(file: Bytes, codec: Codec<Change>, disk: seq<Change>, index: seq<IndexEntry>, n: nat,
                         interval: nat, offset: nat)
    requires Holds(file, codec, disk) && n <= |disk| && interval > 0
    requires IsSparse(index, EncodeAll(codec, disk[..n]), interval, 0)
    ensures ReadSince(file, index, offset, codec) == Ok(Skip(disk, offset))
       <==> IsIndexed(n, interval, offset) || offset > |disk|
  {
    IndexedRead(file, codec, disk, index, n, interval, offset);
    if !IsIndexed(n, interval, offset) && offset <= |disk| {
      assert |Skip(disk, offset - 1)| == |Skip(disk, offset)| + 1;
    }
  }

  // ---------- opening ----------

  datatype Opened = Opened(file: Bytes, tail: nat, index: seq<IndexEntry>)

  /** The version of a header, which is not checked to be the current one but only not to exceed it. */
  function HeaderVersion(file: Bytes): nat
    requires |file| >= HEADER_SIZE
  {
    FromLe32(file[4..8])
  }

  /** The version is the little-endian word behind the magic. */
  lemma VersionAt(version: nat, rest: Bytes)
    requires version < U32 && |rest| >= 8
    ensures HeaderVersion(LOG_MAGIC + Le32(version) + rest) == version
  {
    Le32RoundTrip(version);
    hide Le32, FromLe32;
    Sequences.Fields(LOG_MAGIC, Le32(version), rest);
  }

  method InitializeFile(file: Bytes, interval: nat) returns (r: Result<Opened, StoreError>)
    requires interval > 0
    ensures |file| < HEADER_SIZE ==> r == Ok(Opened(file + Header(), 0, []))
    ensures |file| >= HEADER_SIZE && file[..4] != LOG_MAGIC ==> r == Err(BadMagic)
    ensures |file| >= HEADER_SIZE && file[..4] == LOG_MAGIC && HeaderVersion(file) > LOG_VERSION ==>
              r == Err(UnsupportedVersion(HeaderVersion(file)))
    ensures |file| >= HEADER_SIZE && file[..4] == LOG_MAGIC && HeaderVersion(file) <= LOG_VERSION ==>
              var index := IndexFrom(file, HEADER_SIZE, 0, interval);
              r == Ok(Opened(file, ReopenTail(index), index))
  {
    hide IndexFrom;
    if |file| < HEADER_SIZE {
      return Ok(Opened(file + Header(), 0, []));
    }
    if file[0..4] != LOG_MAGIC {
      return Err(BadMagic);
    }
    var version := FromLe32(file[4..8]);
    if version > LOG_VERSION {
      return Err(UnsupportedVersion(version));
    }
    var index := BuildIndex(file, interval);
    r := Ok(Opened(file, ReopenTail(index), index));
  }

  function ReopenTail(index: seq<IndexEntry>): nat {
    if index == [] then 0 else index[|index| - 1].offset + 1
  }

  /** By how much the tail offset falls short of the record count after reopening. */
  function TailLag(n: nat, interval: nat): nat
    requires interval > 0
  {
    if n == 0 then 0 else (n - 1) % interval
  }

  /** Reopening sets the append offset to the last indexed record, so it is right only if that is the last one. */
  lemma ReopenTailExact(index: seq<IndexEntry>, records: seq<Bytes>, interval: nat)
    requires interval > 0 && IsSparse(index, records, interval, 0)
    ensures ReopenTail(index) + TailLag(|records|, interval) == |records|
    ensures ReopenTail(index) == |records| <==> records == [] || (|records| - 1) % interval == 0
  {
    hide Position;
    if records != [] {
      assert 0 % interval == 0;
      var z :| 0 <= z < |index| && index[z].offset == 0;
      var m := |records| - 1 - (|records| - 1) % interval;
      Arithmetic.LastMultiple(|records| - 1, interval);
      var e :| 0 <= e < |index| && index[e].offset == m;
      SortedAt(index, e, |index| - 1);
      Arithmetic.NoLaterMultiple(|records| - 1, index[|index| - 1].offset, interval);
    }
  }

  // ---------- the store as a state machine ----------

  datatype StoreConfig = StoreConfig(flushThreshold: nat, indexInterval: nat, codec: Codec<Change>)

  /** `isOpen` is the file handle, taken away by `close`. */
  datatype StoreState = StoreState(file: Bytes, tail: nat, buffer: seq<Change>, index: seq<IndexEntry>, isOpen: bool)

  /** The entries a large flush adds; their positions are not tracked. */
  function Placeholders(offset: nat, n: nat, interval: nat): seq<IndexEntry>
    requires interval > 0
    decreases n
  {
    if n == 0 then []
    else
      [IndexEntry(offset, 0, 0)]
      + Placeholders(offset + interval, if n > interval then n - interval else 0, interval)
  }

  /** The buffer is taken before the handle is looked at, so a closed store drops it. */
  function Flushed(s: StoreState, config: StoreConfig): StoreState
    requires config.indexInterval > 0
  {
    if s.buffer == [] || !s.isOpen then s.(buffer := [])
    else
      s.(buffer := [],
         file := s.file + LogBytes(EncodeAll(config.codec, s.buffer)),
         index := if |s.buffer| >= config.indexInterval
                  then s.index + Placeholders(Max(0, s.tail - |s.buffer|), |s.buffer|, config.indexInterval)
                  else s.index)
  }

  function Appended(s: StoreState, c: Change, config: StoreConfig): StoreState
    requires config.indexInterval > 0
  {
    var t := s.(tail := s.tail + 1, buffer := s.buffer + [c]);
    if |t.buffer| >= config.flushThreshold then Flushed(t, config) else t
  }

  /** What a flush sends to the file. */
  function FlushBytes(s: StoreState, config: StoreConfig): Bytes {
    LogBytes(EncodeAll(config.codec, s.buffer))
  }

  /**
   A flush whose file takes `written` bytes and then fails (at the very end: in flushing or syncing),
   with None for no failure. The buffer has been taken by then. The flag is whether it succeeded.
   */
  function FlushedUpTo(s: StoreState, config: StoreConfig, written: Option<nat>): (StoreState, bool)
    requires config.indexInterval > 0
  {
    if s.buffer == [] || !s.isOpen || written.None? || written.value > |FlushBytes(s, config)|
    then (Flushed(s, config), true)
    else (s.(buffer := [], file := s.file + FlushBytes(s, config)[..written.value]), false)
  }

  function AppendedUpTo(s: StoreState, c: Change, config: StoreConfig, written: Option<nat>): (StoreState, bool)
    requires config.indexInterval > 0
  {
    var t := s.(tail := s.tail + 1, buffer := s.buffer + [c]);
    if |t.buffer| >= config.flushThreshold then FlushedUpTo(t, config, written) else (t, true)
  }

  /** The store holds the changes `disk`, of which the first n are indexed, and what it buffers can be written. */
  ghost predicate IndexedStore(s: StoreState, config: StoreConfig, disk: seq<Change>, n: nat) {
    && config.indexInterval > 0
    && Holds(s.file, config.codec, disk)
    && n <= |disk|
    && IsSparse(s.index, EncodeAll(config.codec, disk[..n]), config.indexInterval, 0)
    && forall c :: c in s.buffer ==> |config.codec.encode(c)| < U32
  }

  /**
   The store holds the changes `disk`, of which the first n were there when it was opened,
   and its flushes are small, so it adds no index entries.
   */
  ghost predicate StoreInvariant(s: StoreState, config: StoreConfig, disk: seq<Change>, n: nat) {
    && IndexedStore(s, config, disk, n)
    && Max(1, config.flushThreshold) < config.indexInterval
    && |s.buffer| < Max(1, config.flushThreshold)
  }

  lemma HoldsMore(file: Bytes, codec: Codec<Change>, disk: seq<Change>, more: seq<Change>)
    requires Holds(file, codec, disk) && forall c :: c in more ==> |codec.encode(c)| < U32
    ensures Holds(file + LogBytes(EncodeAll(codec, more)), codec, disk + more)
  {
    hide LogBytes;
    var a, b := EncodeAll(codec, disk), EncodeAll(codec, more);
    assert EncodeAll(codec, disk + more) == a + b;
    LogBytesJoin(a, b);
    var grown := file + LogBytes(b);
    assert grown[HEADER_SIZE..] == file[HEADER_SIZE..] + LogBytes(b);
    forall r | r in a + b
      ensures 0 < |r| < U32
    {
      if r in b {
        var i :| 0 <= i < |b| && b[i] == r;
        DecodeEncoded(codec, more[i]);
        assert more[i] in more;
      }
    }
  }

  /** A flush moves the buffer to the end of the log, if the store is still open. */
  lemma FlushKeeps(s: StoreState, config: StoreConfig, disk: seq<Change>, n: nat)
    requires config.indexInterval > |s.buffer|
    requires Max(1, config.flushThreshold) < config.indexInterval
    requires Holds(s.file, config.codec, disk) && n <= |disk|
    requires IsSparse(s.index, EncodeAll(config.codec, disk[..n]), config.indexInterval, 0)
    requires forall c :: c in s.buffer ==> |config.codec.encode(c)| < U32
    ensures StoreInvariant(Flushed(s, config), config, if s.isOpen then disk + s.buffer else disk, n)
    ensures Flushed(s, config).buffer == []
  {
    if s.isOpen && s.buffer != [] {
      HoldsMore(s.file, config.codec, disk, s.buffer);
    }
    hide Holds, LogBytes, IsSparse;
    assert (disk + s.buffer)[..n] == disk[..n];
    assert s.buffer == [] ==> disk + s.buffer == disk;
  }

  lemma AppendKeeps(s: StoreState, config: StoreConfig, disk: seq<Change>, n: nat, c: Change)
    requires StoreInvariant(s, config, disk, n) && |config.codec.encode(c)| < U32
    ensures var t := Appended(s, c, config);
            && (|s.buffer| + 1 < config.flushThreshold ==>
                  t.buffer == s.buffer + [c] && StoreInvariant(t, config, disk, n))
            && (|s.buffer| + 1 >= config.flushThreshold ==>
                  && t.buffer == []
                  && StoreInvariant(t, config, if s.isOpen then disk + (s.buffer + [c]) else disk, n))
            && t.tail == s.tail + 1 && t.isOpen == s.isOpen
  {
    hide Holds, IsSparse, LogBytes;
    var t := s.(tail := s.tail + 1, buffer := s.buffer + [c]);
    if |t.buffer| >= config.flushThreshold {
      FlushKeeps(t, config, disk, n);
    }
  }

  // ---------- the file store refines the memory store ----------

  datatype StoreOp = AppendOp(change: Change) | FlushOp | GetOp(offset: nat) | TailOp

  datatype StoreReply = Assigned(offset: nat) | Done | Got(changes: Result<seq<Change>, StoreError>) | Tail(offset: nat)

  function FileStep(s: StoreState, op: StoreOp, config: StoreConfig): (StoreState, StoreReply)
    requires config.indexInterval > 0
  {
    match op
    case AppendOp(c) => (Appended(s, c, config), Assigned(s.tail))
    case FlushOp => (Flushed(s, config), Done)
    case GetOp(o) => (s, Got(ReadSince(s.file, s.index, o, config.codec)))
    case TailOp => (s, Tail(s.tail))
  }

  /** `MemoryChangeStore`. */
  function MemoryStep(list: seq<Change>, op: StoreOp): (seq<Change>, StoreReply) {
    match op
    case AppendOp(c) => (list + [c], Assigned(|list|))
    case FlushOp => (list, Done)
    case GetOp(o) => (list, Got(Ok(Skip(list, o))))
    case TailOp => (list, Tail(|list|))
  }

  /**
   On disk or in the buffer, in order, is everything the memory store has. The first n records
   were there when the store was opened, and its offsets lag behind by `lag`.
   */
  ghost predicate Coupled(s: StoreState, config: StoreConfig, disk: seq<Change>, list: seq<Change>, n: nat, lag: nat) {
    && StoreInvariant(s, config, disk, n)
    && s.isOpen
    && disk + s.buffer == list
    && s.tail + lag == |list|
  }

  /**
   The file store's reply is the memory store's, except that offsets lag, that a read stops short
   of the buffer, and that it starts one change early between the indexed offsets.
   */
  ghost predicate SameReply(s: StoreState, config: StoreConfig, disk: seq<Change>, list: seq<Change>, n: nat, lag: nat,
                            op: StoreOp, reply: StoreReply)
    requires config.indexInterval > 0
  {
    && disk + s.buffer == list
    && match op
       case AppendOp(_) => reply.Assigned? && reply.offset + lag == |list|
       case FlushOp => reply == Done
       case GetOp(o) => reply == Got(Ok(Skip(disk, if IsIndexed(n, config.indexInterval, o) then o else o - 1)))
       case TailOp => reply.Tail? && reply.offset + lag == |list|
  }

  /** On a log that was empty when opened, with nothing buffered, that is the memory store's reply. */
  lemma SameAsMemory(s: StoreState, config: StoreConfig, disk: seq<Change>, list: seq<Change>, op: StoreOp,
                     reply: StoreReply)
    requires config.indexInterval > 0 && SameReply(s, config, disk, list, 0, 0, op, reply)
    ensures s.buffer == [] || !op.GetOp? ==> reply == MemoryStep(list, op).1
  {
    assert s.buffer == [] ==> disk == list;
  }

  lemma StepRefines(s: StoreState, config: StoreConfig, disk: seq<Change>, list: seq<Change>, n: nat, lag: nat,
                    op: StoreOp)
    returns (next: seq<Change>)
    requires Coupled(s, config, disk, list, n, lag)
    requires op.AppendOp? ==> |config.codec.encode(op.change)| < U32
    ensures SameReply(s, config, disk, list, n, lag, op, FileStep(s, op, config).1)
    ensures Coupled(FileStep(s, op, config).0, config, next, MemoryStep(list, op).0, n, lag)
    ensures op.FlushOp? ==> next == list
  {
    hide Holds, IsSparse, LogBytes, ReadSince;
    next := disk;
    match op {
      case AppendOp(c) =>
        AppendKeeps(s, config, disk, n, c);
        assert disk + (s.buffer + [c]) == list + [c];
        if |s.buffer| + 1 >= config.flushThreshold {
          next := list + [c];
          assert next + [] == next;
        }
      case FlushOp =>
        FlushKeeps(s, config, disk, n);
        next := list;
        assert next + [] == next;
      case GetOp(o) =>
        IndexedRead(s.file, config.codec, disk, s.index, n, config.indexInterval, o);
      case TailOp =>
    }
  }

  /** The file holds these changes, and the reply fits. */
  ghost predicate Fits(s: StoreState, config: StoreConfig, disk: seq<Change>, list: seq<Change>, n: nat, lag: nat,
                       op: StoreOp)
    requires config.indexInterval > 0
  {
    Holds(s.file, config.codec, disk) && SameReply(s, config, disk, list, n, lag, op, FileStep(s, op, config).1)
  }

  /** Every reply along a run of the file store fits the memory store's list along the same run. */
  ghost predicate RunMatches(s: StoreState, config: StoreConfig, list: seq<Change>, n: nat, lag: nat, ops: seq<StoreOp>)
    requires config.indexInterval > 0
    decreases |ops|
  {
    ops != [] ==>
      && (exists disk: seq<Change> :: Fits(s, config, disk, list, n, lag, ops[0]))
      && RunMatches(FileStep(s, ops[0], config).0, config, MemoryStep(list, ops[0]).0, n, lag, ops[1..])
  }

  /** Each change fits its length prefix. */
  ghost predicate Recordable(config: StoreConfig, ops: seq<StoreOp>) {
    forall op :: op in ops && op.AppendOp? ==> |config.codec.encode(op.change)| < U32
  }

  lemma {:induction false} RunRefines(s: StoreState, config: StoreConfig, disk: seq<Change>, list: seq<Change>,
                                      n: nat, lag: nat, ops: seq<StoreOp>)
    requires Coupled(s, config, disk, list, n, lag) && Recordable(config, ops)
    ensures RunMatches(s, config, list, n, lag, ops)
    decreases |ops|
  {
    assert config.indexInterval > 0;
    hide StoreInvariant, FileStep, MemoryStep, SameReply;
    if ops != [] {
      var next := StepRefines(s, config, disk, list, n, lag, ops[0]);
      assert Fits(s, config, disk, list, n, lag, ops[0]) by {
        InvariantHolds(s, config, disk, n);
      }
      RunRefines(FileStep(s, ops[0], config).0, config, next, MemoryStep(list, ops[0]).0, n, lag, ops[1..]);
    }
  }

  lemma InvariantHolds(s: StoreState, config: StoreConfig, disk: seq<Change>, n: nat)
    requires StoreInvariant(s, config, disk, n)
    ensures Holds(s.file, config.codec, disk)
  {
    hide Holds, IsSparse;
  }

  /** The store `FileChangeStore::new` makes of an empty file. */
  function NewStore(): StoreState {
    StoreState(Header(), 0, [], [], true)
  }

  lemma NewStoreRefines(config: StoreConfig, ops: seq<StoreOp>)
    requires Max(1, config.flushThreshold) < config.indexInterval && Lossless(config.codec) && Recordable(config, ops)
    ensures RunMatches(NewStore(), config, [], 0, 0, ops)
  {
    NewStoreCoupled(config);
    RunRefines(NewStore(), config, [], [], 0, 0, ops);
  }

  lemma NewStoreCoupled(config: StoreConfig)
    requires Max(1, config.flushThreshold) < config.indexInterval && Lossless(config.codec)
    ensures Coupled(NewStore(), config, [], [], 0, 0)
  {
    assert Header()[HEADER_SIZE..] == LogBytes(EncodeAll(config.codec, []));
  }

  /** The store it makes of a log that holds records. */
  function ReopenedStore(file: Bytes, interval: nat): StoreState
    requires interval > 0
  {
    var index := IndexFrom(file, HEADER_SIZE, 0, interval);
    StoreState(file, ReopenTail(index), [], index, true)
  }

  lemma ReopenedIsIndexed(file: Bytes, codec: Codec<Change>, disk: seq<Change>, interval: nat)
    requires interval > 0 && Holds(file, codec, disk)
    requires forall c :: c in disk ==> |codec.encode(c)| <= MAX_INDEXED_RECORD
    ensures IsSparse(IndexFrom(file, HEADER_SIZE, 0, interval), EncodeAll(codec, disk), interval, 0)
  {
    hide IndexFrom, IsSparse, LogBytes, EncodeAll;
    var encoded := EncodeAll(codec, disk);
    EncodedShort(codec, disk);
    FirstPosition(encoded);
    BuildIndexFindsRecords(file, encoded, interval);
  }

  /**
   Every run of a reopened store: each read is the plain scan from its offset or, between indexed
   offsets, from the one before, and appended offsets lag by a fixed amount.
   */
  lemma ReopenedStoreRefines(config: StoreConfig, file: Bytes, disk: seq<Change>, ops: seq<StoreOp>)
    requires Max(1, config.flushThreshold) < config.indexInterval && Recordable(config, ops)
    requires Holds(file, config.codec, disk) && forall c :: c in disk ==> |config.codec.encode(c)| <= MAX_INDEXED_RECORD
    ensures RunMatches(ReopenedStore(file, config.indexInterval), config, disk, |disk|,
            TailLag(|disk|, config.indexInterval), ops)
  {
    hide IndexFrom, LogBytes, RunMatches, IsSparse;
    var s := ReopenedStore(file, config.indexInterval);
    ReopenedIsIndexed(file, config.codec, disk, config.indexInterval);
    ReopenTailExact(s.index, EncodeAll(config.codec, disk), config.indexInterval);
    assert disk[..|disk|] == disk && disk + [] == disk;
    RunRefines(s, config, disk, disk, |disk|, TailLag(|disk|, config.indexInterval), ops);
  }

  /** A flush on a closed store succeeds and the buffered changes are gone. */
  lemma FlushAfterCloseLoses(s: StoreState, config: StoreConfig, disk: seq<Change>, n: nat)
    requires StoreInvariant(s, config, disk, n)
    ensures var t := Flushed(s, config);
            && t.buffer == []
            && (s.isOpen ==> Holds(t.file, config.codec, disk + s.buffer))
            && (!s.isOpen ==> t.file == s.file && Holds(t.file, config.codec, disk))
  {
    hide Holds, IsSparse, LogBytes;
    FlushKeeps(s, config, disk, n);
  }

  // ---------- what a failed flush leaves ----------

  /** Whatever follows the records: a read is the records from its offset, in front of what the rest reads as. */
  lemma {:induction false} ReadBefore(file: Bytes, codec: Codec<Change>, disk: seq<Change>, tail: Bytes,
                                      i: nat, current: nat, offset: nat)
    requires Lossless(codec) && IsLogThen(file, EncodeAll(codec, disk), tail) && i <= |disk|
    ensures ReadFrom(file, Position(EncodeAll(codec, disk), i), current, offset, codec)
         == Prepend(disk[Min(|disk|, Max(i, i + offset - current))..],
                    ReadFrom(file, Position(EncodeAll(codec, disk), |disk|), current + |disk| - i, offset, codec))
    decreases |disk| - i
  {
    hide Position, FromLe32, Lossless, ReadFrom, LogBytes, IsLogThen;
    var records := EncodeAll(codec, disk);
    var rest := ReadFrom(file, Position(records, |disk|), current + |disk| - i, offset, codec);
    if i == |disk| {
      assert disk[|disk|..] == [];
      PrependNothing(rest);
    } else {
      RecordBefore(file, records, tail, i);
      DecodeEncoded(codec, disk[i]);
      ReadBefore(file, codec, disk, tail, i + 1, current + 1, offset);
      var skipped := disk[Min(|disk|, Max(i + 1, i + offset - current))..];
      SkipStep(disk, i, current, offset);
      ReadOne(file, Position(records, i), |records[i]|, current, offset, codec, disk[i]);
      PrependTwice([disk[i]], skipped, rest);
    }
  }

  lemma PrependNothing(r: Result<seq<Change>, StoreError>)
    ensures Prepend([], r) == r
  {
    if r.Ok? {
      assert [] + r.value == r.value;
    }
  }

  lemma PrependTwice(a: seq<Change>, b: seq<Change>, r: Result<seq<Change>, StoreError>)
    ensures Prepend(a, Prepend(b, r)) == Prepend(a + b, r)
  {
    if r.Ok? {
      Sequences.Associative(a, b, r.value);
    }
  }

  /** One round of the reader over a record that decodes. */
  lemma ReadOne(file: Bytes, pos: nat, len: nat, current: nat, offset: nat, codec: Codec<Change>, c: Change)
    requires len > 0 && pos + 4 + len <= |file| && FromLe32(file[pos..pos + 4]) == len
    requires codec.decode(file[pos + 4..pos + 4 + len]) == Some(c)
    ensures var rest := ReadFrom(file, pos + 4 + len, current + 1, offset, codec);
            ReadFrom(file, pos, current, offset, codec) == if current < offset then rest else Prepend([c], rest)
  {
    hide FromLe32;
  }

  /** A length of zero ends the read like the end of the file, whatever follows it. */
  lemma ReadStops(file: Bytes, codec: Codec<Change>, disk: seq<Change>, tail: Bytes, i: nat, current: nat, offset: nat)
    requires Lossless(codec) && IsLogThen(file, EncodeAll(codec, disk), tail) && i <= |disk|
    requires |tail| < 4 || FromLe32(tail[..4]) == 0
    ensures ReadFrom(file, Position(EncodeAll(codec, disk), i), current, offset, codec)
         == Ok(disk[Min(|disk|, Max(i, i + offset - current))..])
  {
    hide Position, Lossless, ReadFrom, IsLogThen, FromLe32;
    var records := EncodeAll(codec, disk);
    ReadBefore(file, codec, disk, tail, i, current, offset);
    NothingRead(file, records, tail, current + |disk| - i, offset, codec);
    var skipped := disk[Min(|disk|, Max(i, i + offset - current))..];
    assert skipped + [] == skipped;
  }

  lemma NothingRead(file: Bytes, records: seq<Bytes>, tail: Bytes, current: nat, offset: nat, codec: Codec<Change>)
    requires IsLogThen(file, records, tail) && (|tail| < 4 || FromLe32(tail[..4]) == 0)
    ensures ReadFrom(file, Position(records, |records|), current, offset, codec) == Ok([])
  {
    hide IsLogThen, Position, FromLe32;
    TailBehind(file, records, tail);
    if |tail| >= 4 {
      Sequences.TakeAfterDrop(file, Position(records, |records|), 4);
    }
  }

  /** A log that ends in the first j bytes of one more record. */
  ghost predicate IsTorn(file: Bytes, records: seq<Bytes>, r: Bytes, j: nat) {
    && |file| >= HEADER_SIZE
    && j < |RecordBytes(r)|
    && file[HEADER_SIZE..] == LogBytes(records) + RecordBytes(r)[..j]
    && 0 < |r| < U32
    && forall x :: x in records ==> 0 < |x| < U32
  }

  lemma TornIsLogThen(file: Bytes, records: seq<Bytes>, r: Bytes, j: nat)
    requires IsTorn(file, records, r, j)
    ensures j <= |RecordBytes(r)| && IsLogThen(file, records, RecordBytes(r)[..j])
  {
    hide LogBytes, RecordBytes;
  }

  /** A torn length prefix ends the read like the end of the file; a torn body is an error. */
  lemma ReadTornEnd(file: Bytes, records: seq<Bytes>, r: Bytes, j: nat, current: nat, offset: nat, codec: Codec<Change>)
    requires IsTorn(file, records, r, j)
    ensures ReadFrom(file, Position(records, |records|), current, offset, codec)
         == if j < 4 then Ok([]) else Err(ReadError)
  {
    assert records[..|records|] == records;
    var pos := Position(records, |records|);
    assert |file| == pos + j;
    if j >= 4 {
      RecordParts(r);
      assert RecordBytes(r)[..j] == Le32(|r|) + r[..j - 4];
      var prefix := Le32(|r|);
      hide RecordBytes, Le32, FromLe32, LogBytes;
      Sequences.Associative(LogBytes(records), prefix, r[..j - 4]);
      Sequences.SliceAt(file, HEADER_SIZE, LogBytes(records), prefix, r[..j - 4]);
      assert file[pos..pos + 4] == prefix;
    }
  }

  /** A read of a torn log: what came before the tear, if the tear falls into a length prefix; an error otherwise. */
  lemma ReadTorn(file: Bytes, codec: Codec<Change>, disk: seq<Change>, r: Bytes, j: nat, i: nat, current: nat,
                 offset: nat)
    requires Lossless(codec) && IsTorn(file, EncodeAll(codec, disk), r, j) && i <= |disk|
    ensures ReadFrom(file, Position(EncodeAll(codec, disk), i), current, offset, codec)
         == if j < 4 then Ok(disk[Min(|disk|, Max(i, i + offset - current))..]) else Err(ReadError)
  {
    hide Position, Lossless, ReadFrom, IsTorn, IsLogThen;
    var records := EncodeAll(codec, disk);
    TornIsLogThen(file, records, r, j);
    ReadBefore(file, codec, disk, RecordBytes(r)[..j], i, current, offset);
    ReadTornEnd(file, records, r, j, current + |disk| - i, offset, codec);
    var skipped := disk[Min(|disk|, Max(i, i + offset - current))..];
    assert skipped + [] == skipped;
  }

  /**
   Once bytes stand behind a record that was torn in its body, the reader takes them for the rest
   of that record: it fails if they are too few, and otherwise decodes the mixture (or skips it)
   and goes on where the torn record would have ended, in the middle of what was written since.
   */
  lemma TornSwallows(file: Bytes, records: seq<Bytes>, r: Bytes, j: nat, behind: Bytes,
                     current: nat, offset: nat, codec: Codec<Change>)
    requires 0 < |r| < U32 && 4 <= j < |RecordBytes(r)| && IsLogThen(file, records, RecordBytes(r)[..j] + behind)
    ensures var pos := Position(records, |records|);
            var missing := 4 + |r| - j;
            var read := ReadFrom(file, pos, current, offset, codec);
            && missing > 0
            && (|behind| < missing ==> read == Err(ReadError))
            && (|behind| >= missing ==>
                  && pos + 4 + |r| <= |file|
                  && file[pos + 4 + |r|..] == behind[missing..]
                  && var rest := ReadFrom(file, pos + 4 + |r|, current + 1, offset, codec);
                     if current < offset then read == rest
                     else match codec.decode(r[..j - 4] + behind[..missing])
                          case None => read == Err(Undecodable)
                          case Some(c) => read == Prepend([c], rest))
  {
    hide *;
    var pos := Position(records, |records|);
    RecordIsLong(r);
    TornLayout(file, records, r, j, behind);
    ReadMixture(file, pos, |r|, current, offset, codec);
    Sequences.TakeAcross(file, pos + 4, r[..j - 4], behind, |r|);
  }

  /** Where the reader finds the torn record's length, and what it takes for its bytes. */
  lemma TornLayout(file: Bytes, records: seq<Bytes>, r: Bytes, j: nat, behind: Bytes)
    requires 0 < |r| < U32 && 4 <= j < |RecordBytes(r)| && IsLogThen(file, records, RecordBytes(r)[..j] + behind)
    ensures |RecordBytes(r)| == 4 + |r|
    ensures var pos := Position(records, |records|);
            && pos + 4 <= |file| && FromLe32(file[pos..pos + 4]) == |r|
            && file[pos + 4..] == r[..j - 4] + behind
  {
    assert records[..|records|] == records;
    assert Position(records, |records|) == HEADER_SIZE + |LogBytes(records)| by {
      hide LogBytes;
    }
    TornTail(r, j, behind);
    var before, prefix, body := LogBytes(records), Le32(|r|), r[..j - 4] + behind;
    assert file[HEADER_SIZE..] == before + (prefix + body) by {
      hide LogBytes, RecordBytes, Le32;
    }
    hide *;
    RecordParts(r);
    Sequences.Associative(before, prefix, body);
    Sequences.SliceAt(file, HEADER_SIZE, before, prefix, body);
    DropTo(file, HEADER_SIZE, before + prefix, body);
  }

  lemma TornTail(r: Bytes, j: nat, behind: Bytes)
    requires |r| < U32 && 4 <= j < |RecordBytes(r)|
    ensures |RecordBytes(r)| == 4 + |r|
    ensures RecordBytes(r)[..j] + behind == Le32(|r|) + (r[..j - 4] + behind)
  {
    hide *;
    RecordParts(r);
    RecordIsLong(r);
    Sequences.Cut(Le32(|r|), r, j);
    Sequences.Associative(Le32(|r|), r[..j - 4], behind);
  }

  lemma DropTo(file: Bytes, h: nat, a: Bytes, b: Bytes)
    requires h <= |file| && file[h..] == a + b
    ensures h + |a| <= |file| && file[h + |a|..] == b
  {
    Sequences.DropAfterDrop(file, h, |a|);
  }

  lemma ReadMixture(file: Bytes, pos: nat, len: nat, current: nat, offset: nat, codec: Codec<Change>)
    requires len > 0 && pos + 4 <= |file| && FromLe32(file[pos..pos + 4]) == len
    ensures var read := ReadFrom(file, pos, current, offset, codec);
            if pos + 4 + len > |file| then read == Err(ReadError)
            else
              var rest := ReadFrom(file, pos + 4 + len, current + 1, offset, codec);
              if current < offset then read == rest
              else match codec.decode(file[pos + 4..pos + 4 + len])
                   case None => read == Err(Undecodable)
                   case Some(c) => read == Prepend([c], rest)
  {
    hide FromLe32;
  }

  /** How many whole records lie in the first n bytes. */
  function WholeRecords(records: seq<Bytes>, n: nat): (m: nat)
    ensures m <= |records|
  {
    if records == [] || n < |RecordBytes(records[0])| then 0
    else 1 + WholeRecords(records[1..], n - |RecordBytes(records[0])|)
  }

  /** A cut of the record bytes is the whole records in it and a beginning of the next. */
  lemma {:induction false} CutRecords(records: seq<Bytes>, n: nat)
    requires n < |LogBytes(records)|
    ensures var m := WholeRecords(records, n);
            && m < |records|
            && |LogBytes(records[..m])| <= n < |LogBytes(records[..m])| + |RecordBytes(records[m])|
            && LogBytes(records)[..n] == LogBytes(records[..m])
              + RecordBytes(records[m])[..n - |LogBytes(records[..m])|]
    decreases |records|
  {
    hide RecordBytes;
    var first, rest := RecordBytes(records[0]), LogBytes(records[1..]);
    Sequences.Cut(first, rest, n);
    if n < |first| {
      assert records[..0] == [];
      assert LogBytes([]) + first[..n] == first[..n];
    } else {
      CutRecords(records[1..], n - |first|);
      var m := WholeRecords(records[1..], n - |first|);
      assert records[..m + 1][0] == records[0] && records[..m + 1][1..] == records[1..][..m];
      LogBytesCons(records[..m + 1]);
      hide LogBytes;
      var k := n - |first| - |LogBytes(records[1..][..m])|;
      Sequences.Associative(first, LogBytes(records[1..][..m]), RecordBytes(records[m + 1])[..k]);
    }
  }

  /** An indexed read of a torn log is an indexed read of what precedes the tear, or an error. */
  lemma IndexedTornRead(file: Bytes, codec: Codec<Change>, disk: seq<Change>, r: Bytes, j: nat,
                        index: seq<IndexEntry>, n: nat, interval: nat, offset: nat)
    requires Lossless(codec) && IsTorn(file, EncodeAll(codec, disk), r, j) && n <= |disk| && interval > 0
    requires IsSparse(index, EncodeAll(codec, disk[..n]), interval, 0)
    ensures ReadSince(file, index, offset, codec)
         == if j < 4 then Ok(Skip(disk, if IsIndexed(n, interval, offset) then offset else offset - 1))
           else Err(ReadError)
  {
    hide Position, ReadFrom, StartCounter, StartPosition, IsSparse, IsTorn, Lossless;
    var records, indexed := EncodeAll(codec, disk), EncodeAll(codec, disk[..n]);
    assert indexed == records[..n];
    var i := StartOfRead(index, records, indexed, interval, offset);
    ReadTorn(file, codec, disk, r, j, i, StartCounter(index, StartPosition(index, offset)), offset);
  }

  /**
   After a flush that failed before all its bytes were written, and until the next one, reads find
   what was on disk and the records that got through whole. The other buffered changes are lost:
   they are neither in the file nor in the buffer. And if the failure cut a record in its body,
   every read is an error. `TornSwallows` says what a read does once the next flush has written.
   */
  lemma FailedFlushLoses(s: StoreState, config: StoreConfig, disk: seq<Change>, n: nat, written: nat, offset: nat)
    requires IndexedStore(s, config, disk, n) && s.isOpen && s.buffer != [] && written < |FlushBytes(s, config)|
    ensures var (t, ok) := FlushedUpTo(s, config, Some(written));
            var records := EncodeAll(config.codec, s.buffer);
            var m := WholeRecords(records, written);
            && !ok && t.buffer == [] && t.tail == s.tail && m < |s.buffer|
            && var torn := written - |LogBytes(records[..m])|;
               ReadSince(t.file, t.index, offset, config.codec)
               == if torn >= 4 then Err(ReadError)
                  else
                    var from := if IsIndexed(n, config.indexInterval, offset) then offset else offset - 1;
                    Ok(Skip(disk + s.buffer[..m], from))
  {
    hide *;
    var codec := config.codec;
    var records := EncodeAll(codec, s.buffer);
    var m := WholeRecords(records, written);
    IndexedParts(s, config, disk, n);
    FlushFails(s, config, written);
    CutRecords(records, written);
    TornFile(s, config, disk, m, written);
    var kept := disk + s.buffer[..m];
    var t := FlushedUpTo(s, config, Some(written)).0;
    assert kept[..n] == disk[..n];
    HoldsLossless(s.file, codec, disk);
    IndexedTornRead(t.file, codec, kept, codec.encode(s.buffer[m]), written - |LogBytes(records[..m])|,
                    t.index, n, config.indexInterval, offset);
  }

  lemma FlushFails(s: StoreState, config: StoreConfig, written: nat)
    requires config.indexInterval > 0 && s.isOpen && s.buffer != [] && written < |FlushBytes(s, config)|
    ensures var (t, ok) := FlushedUpTo(s, config, Some(written));
            && !ok && t.buffer == [] && t.tail == s.tail && t.index == s.index
            && t.file == s.file + FlushBytes(s, config)[..written]
    ensures FlushBytes(s, config) == LogBytes(EncodeAll(config.codec, s.buffer))
  {
    hide LogBytes;
  }

  lemma IndexedParts(s: StoreState, config: StoreConfig, disk: seq<Change>, n: nat)
    requires IndexedStore(s, config, disk, n)
    ensures config.indexInterval > 0 && n <= |disk| && Holds(s.file, config.codec, disk)
    ensures IsSparse(s.index, EncodeAll(config.codec, disk[..n]), config.indexInterval, 0)
    ensures forall c :: c in s.buffer ==> |config.codec.encode(c)| < U32
  {
    hide Holds, IsSparse;
  }

  lemma HoldsLossless(file: Bytes, codec: Codec<Change>, disk: seq<Change>)
    requires Holds(file, codec, disk)
    ensures Lossless(codec)
  {
    hide IsLog;
  }

  /** A failure only after all bytes, in flushing or syncing, is reported and yet loses nothing. */
  lemma FailedSyncLosesNothing(s: StoreState, config: StoreConfig, disk: seq<Change>, n: nat, offset: nat)
    requires IndexedStore(s, config, disk, n) && s.isOpen && s.buffer != []
    ensures var (t, ok) := FlushedUpTo(s, config, Some(|FlushBytes(s, config)|));
            && !ok && t.buffer == [] && t.tail == s.tail && t.index == s.index
            && Holds(t.file, config.codec, disk + s.buffer)
            && ReadSince(t.file, t.index, offset, config.codec)
               == Ok(Skip(disk + s.buffer, if IsIndexed(n, config.indexInterval, offset) then offset else offset - 1))
  {
    IndexedParts(s, config, disk, n);
    var bytes := FlushBytes(s, config);
    assert bytes[..|bytes|] == bytes;
    HoldsMore(s.file, config.codec, disk, s.buffer);
    assert (disk + s.buffer)[..n] == disk[..n];
    hide LogBytes, Holds, IsSparse, ReadSince, IndexedStore;
    var t := FlushedUpTo(s, config, Some(|bytes|)).0;
    assert t.file == s.file + bytes && t.index == s.index;
    IndexedRead(t.file, config.codec, disk + s.buffer, t.index, n, config.indexInterval, offset);
  }

  /**
   An append reports an error exactly if it flushes and the file fails before or at the end of what
   the flush sends. The offset is counted in any case, and no later append gets it.
   */
  lemma AppendFailsExactly(s: StoreState, c: Change, config: StoreConfig, written: Option<nat>)
    requires config.indexInterval > 0
    ensures var (t, ok) := AppendedUpTo(s, c, config, written);
            && (!ok <==> |s.buffer| + 1 >= config.flushThreshold && s.isOpen && written.Some?
                         && written.value <= |LogBytes(EncodeAll(config.codec, s.buffer + [c]))|)
            && t.tail == s.tail + 1 && t.isOpen == s.isOpen
            && (!ok ==> t.buffer == [] && t.index == s.index)
  {
    hide LogBytes;
  }

  /** And what reads find then: the changes that got through whole, of the buffered ones and the new one. */
  lemma FailedAppendLoses(s: StoreState, c: Change, config: StoreConfig, disk: seq<Change>, n: nat, written: nat,
                          offset: nat)
    requires IndexedStore(s, config, disk, n) && |config.codec.encode(c)| < U32
    requires s.isOpen && |s.buffer| + 1 >= config.flushThreshold
    requires written < |LogBytes(EncodeAll(config.codec, s.buffer + [c]))|
    ensures var (t, ok) := AppendedUpTo(s, c, config, Some(written));
            var records := EncodeAll(config.codec, s.buffer + [c]);
            var m := WholeRecords(records, written);
            && !ok && m <= |s.buffer|
            && ReadSince(t.file, t.index, offset, config.codec)
               == if written - |LogBytes(records[..m])| >= 4 then Err(ReadError)
                  else
                    var from := if IsIndexed(n, config.indexInterval, offset) then offset else offset - 1;
                    Ok(Skip(disk + (s.buffer + [c])[..m], from))
  {
    hide IsSparse, Holds, LogBytes, ReadSince, WholeRecords, FlushedUpTo;
    var t := s.(tail := s.tail + 1, buffer := s.buffer + [c]);
    FailedFlushLoses(t, config, disk, n, written, offset);
  }

  lemma TornFile(s: StoreState, config: StoreConfig, disk: seq<Change>, m: nat, written: nat)
    requires Holds(s.file, config.codec, disk) && config.indexInterval > 0 && s.isOpen
    requires forall c :: c in s.buffer ==> |config.codec.encode(c)| < U32
    requires written < |FlushBytes(s, config)| && m == WholeRecords(EncodeAll(config.codec, s.buffer), written)
             && m < |s.buffer|
    ensures var (t, ok) := FlushedUpTo(s, config, Some(written));
            var records := EncodeAll(config.codec, s.buffer);
            && |LogBytes(records[..m])| <= written
            && IsTorn(t.file, EncodeAll(config.codec, disk + s.buffer[..m]), config.codec.encode(s.buffer[m]),
                      written - |LogBytes(records[..m])|)
  {
    hide *;
    var codec := config.codec;
    var records := EncodeAll(codec, s.buffer);
    FlushFails(s, config, written);
    CutRecords(records, written);
    var some, whole := s.buffer[..m], LogBytes(records[..m]);
    var torn := RecordBytes(records[m])[..written - |whole|];
    EncodeSome(codec, s.buffer, m);
    HoldsMore(s.file, codec, disk, some);
    HoldsLossless(s.file, codec, disk);
    DecodeEncoded(codec, s.buffer[m]);
    HoldsLog(s.file + whole, codec, disk + some);
    Sequences.Associative(s.file, whole, torn);
    TornGrown(s.file + whole, EncodeAll(codec, disk + some), records[m], torn);
  }

  lemma EncodeSome(codec: Codec<Change>, cs: seq<Change>, m: nat)
    requires m < |cs|
    ensures EncodeAll(codec, cs[..m]) == EncodeAll(codec, cs)[..m]
    ensures EncodeAll(codec, cs)[m] == codec.encode(cs[m])
    ensures cs[m] in cs && forall c :: c in cs[..m] ==> c in cs
  {
  }

  lemma HoldsLog(file: Bytes, codec: Codec<Change>, disk: seq<Change>)
    requires Holds(file, codec, disk)
    ensures IsLog(file, EncodeAll(codec, disk))
  {
    hide IsLog;
  }

  lemma TornGrown(file: Bytes, records: seq<Bytes>, r: Bytes, torn: Bytes)
    requires IsLog(file, records) && 0 < |r| < U32 && |torn| < |RecordBytes(r)| && torn == RecordBytes(r)[..|torn|]
    ensures IsTorn(file + torn, records, r, |torn|)
  {
    hide LogBytes, RecordBytes;
    assert (file + torn)[HEADER_SIZE..] == file[HEADER_SIZE..] + torn;
  }

  // ---------- why the flushes must be small ----------

  /** Entry e of a large flush, e intervals behind the first flushed offset. */
  function PlaceholderAt(offset: nat, e: nat, interval: nat): IndexEntry {
    IndexEntry(offset + e * interval, 0, 0)
  }

  lemma PlaceholderCons(offset: nat, n: nat, interval: nat)
    requires interval > 0 && n > 0
    ensures var left := if n > interval then n - interval else 0;
            Placeholders(offset, n, interval) == [PlaceholderAt(offset, 0, interval)]
                                                 + Placeholders(offset + interval, left, interval)
    ensures (n + interval - 1) / interval == 1 + ((if n > interval then n - interval else 0) + interval - 1) / interval
  {
    Arithmetic.DivideStep(n - 1, interval);
    if n <= interval {
      Arithmetic.DivideBelow(n - 1, interval);
      Arithmetic.DivideBelow(interval - 1, interval);
    }
  }

  lemma PlaceholderShifts(offset: nat, e: nat, interval: nat)
    ensures PlaceholderAt(offset + interval, e, interval) == PlaceholderAt(offset, e + 1, interval)
  {
  }

  /** One entry for every interval of the flushed changes, all at position 0. */
  lemma {:induction false} PlaceholdersExact(offset: nat, n: nat, interval: nat)
    requires interval > 0
    ensures |Placeholders(offset, n, interval)| == (n + interval - 1) / interval
    ensures forall e: nat :: e < |Placeholders(offset, n, interval)| ==>
              Placeholders(offset, n, interval)[e] == PlaceholderAt(offset, e, interval)
    decreases n
  {
    if n == 0 {
      Arithmetic.DivideBelow(interval - 1, interval);
    } else {
      var left := if n > interval then n - interval else 0;
      hide *;
      PlaceholderCons(offset, n, interval);
      PlaceholdersExact(offset + interval, left, interval);
      var rest := Placeholders(offset + interval, left, interval);
      forall e: nat | e < |rest|
        ensures rest[e] == PlaceholderAt(offset, e + 1, interval)
      {
        PlaceholderShifts(offset, e, interval);
      }
      assert forall e: nat :: 0 < e < 1 + |rest| ==> Placeholders(offset, n, interval)[e] == rest[e - 1];
    }
  }

  lemma PlaceholdersAtZero(offset: nat, n: nat, interval: nat)
    requires interval > 0 && n > 0
    ensures var index := Placeholders(offset, n, interval);
            && index != [] && index[0].offset == offset
            && forall e :: 0 <= e < |index| ==> index[e].position == 0
  {
    PlaceholdersExact(offset, n, interval);
    assert Placeholders(offset, n, interval)[0] == IndexEntry(offset, 0, 0);
  }

  /**
   The condition on the threshold is needed: one flush of a whole interval into a store without
   an index sends every later read from the flushed offsets to byte 0, where the magic is taken
   for a record length longer than the file.
   */
  lemma LargeFlushBreaksReads(s: StoreState, config: StoreConfig, offset: nat)
    requires config.indexInterval > 0 && |s.buffer| >= config.indexInterval && s.isOpen && s.index == []
    requires |s.file| >= HEADER_SIZE && s.file[..4] == LOG_MAGIC
    requires |Flushed(s, config).file| < 4 + FromLe32(LOG_MAGIC)
    requires offset > 0 && offset >= s.tail - |s.buffer|
    ensures var t := Flushed(s, config);
            ReadSince(t.file, t.index, offset, config.codec) == Err(ReadError)
  {
    var t := Flushed(s, config);
    PlaceholdersAtZero(Max(0, s.tail - |s.buffer|), |s.buffer|, config.indexInterval);
    assert t.index == Placeholders(Max(0, s.tail - |s.buffer|), |s.buffer|, config.indexInterval);
    hide Placeholders, Flushed, FromLe32, LOG_MAGIC;
    assert t.file[0..4] == LOG_MAGIC by { FileGrows(s, config); }
    assert StartPosition(t.index, offset) == 0;
    MagicIsLong();
  }

  /** A read from an offset before the flushed ones finds all there is, from the first record on. */
  lemma LargeFlushRereads(s: StoreState, config: StoreConfig, disk: seq<Change>, offset: nat)
    requires config.indexInterval > 0 && |s.buffer| >= config.indexInterval && s.isOpen && s.index == []
    requires Holds(s.file, config.codec, disk) && forall c :: c in s.buffer ==> |config.codec.encode(c)| < U32
    requires offset == 0 || offset < s.tail - |s.buffer|
    ensures var t := Flushed(s, config);
            ReadSince(t.file, t.index, offset, config.codec) == Ok(disk + s.buffer)
  {
    hide *;
    var t, all, codec := Flushed(s, config), disk + s.buffer, config.codec;
    HoldsMore(s.file, codec, disk, s.buffer);
    LargeFlushLeaves(s, config);
    HoldsLog(t.file, codec, all);
    HoldsLossless(t.file, codec, all);
    RereadFromStart(t.index, offset);
    ReadAll(t.file, codec, all, StartCounter(t.index, HEADER_SIZE), offset);
    ReadSinceStarts(t.file, t.index, offset, codec);
  }

  lemma LargeFlushLeaves(s: StoreState, config: StoreConfig)
    requires config.indexInterval > 0 && |s.buffer| >= config.indexInterval && s.isOpen && s.index == []
    ensures var t := Flushed(s, config);
            && t.file == s.file + LogBytes(EncodeAll(config.codec, s.buffer))
            && t.index != [] && t.index[0].offset >= s.tail - |s.buffer|
            && t.index[0].position == 0
  {
    PlaceholdersAtZero(Max(0, s.tail - |s.buffer|), |s.buffer|, config.indexInterval);
    assert Flushed(s, config).index == Placeholders(Max(0, s.tail - |s.buffer|), |s.buffer|, config.indexInterval);
    hide LogBytes;
  }

  lemma RereadFromStart(index: seq<IndexEntry>, offset: nat)
    requires index != [] && index[0].position == 0 && (offset == 0 || offset < index[0].offset)
    ensures StartPosition(index, offset) == HEADER_SIZE && StartCounter(index, HEADER_SIZE) >= offset
  {
  }

  lemma ReadAll(file: Bytes, codec: Codec<Change>, disk: seq<Change>, current: nat, offset: nat)
    requires Lossless(codec) && IsLog(file, EncodeAll(codec, disk)) && current >= offset
    ensures ReadFrom(file, HEADER_SIZE, current, offset, codec) == Ok(disk)
  {
    hide ReadFrom, Lossless, IsLog, Position;
    FirstPosition(EncodeAll(codec, disk));
    ReadWellFormed(file, codec, disk, 0, current, offset);
    assert disk[0..] == disk;
  }

  lemma ReadSinceStarts(file: Bytes, index: seq<IndexEntry>, offset: nat, codec: Codec<Change>)
    ensures var start := StartPosition(index, offset);
            ReadSince(file, index, offset, codec) == ReadFrom(file, start, StartCounter(index, start), offset, codec)
  {
  }

  lemma FileGrows(s: StoreState, config: StoreConfig)
    requires config.indexInterval > 0 && |s.file| >= 4
    ensures s.file <= Flushed(s, config).file
  {
  }

  lemma MagicIsLong()
    ensures FromLe32(LOG_MAGIC) == 0x4C43_4453
  {
  }

  function Appends(c: Change, k: nat): seq<StoreOp> {
    if k == 0 then [] else [AppendOp(c)] + Appends(c, k - 1)
  }

  lemma {:induction false} RepeatedLength(codec: Codec<Change>, cs: seq<Change>, c: Change)
    requires forall i :: 0 <= i < |cs| ==> cs[i] == c
    ensures |LogBytes(EncodeAll(codec, cs))| == |cs| * (4 + |codec.encode(c)|)
    decreases |cs|
  {
    if cs != [] {
      RepeatedLength(codec, cs[1..], c);
      hide LogBytes, RecordBytes;
      assert EncodeAll(codec, cs)[1..] == EncodeAll(codec, cs[1..]);
      LogBytesCons(EncodeAll(codec, cs));
      RecordIsLong(codec.encode(c));
      OneMore(|cs| - 1, 4 + |codec.encode(c)|);
    }
  }

  lemma OneMore(n: nat, k: nat)
    ensures (n + 1) * k == n * k + k
  {
  }

  /** An interval of copies of the change fits in front of the offset that the magic spells. */
  ghost predicate ShortEnough(config: StoreConfig, c: Change) {
    HEADER_SIZE + config.indexInterval * (4 + |config.codec.encode(c)|) < 4 + FromLe32(LOG_MAGIC)
  }

  /** Only copies of one change so far, all in the buffer. */
  predicate Gathering(s: StoreState, c: Change, count: nat) {
    && s.file == Header() && s.index == [] && s.isOpen
    && s.tail == |s.buffer| == count
    && forall i :: 0 <= i < |s.buffer| ==> s.buffer[i] == c
  }

  /** Once a whole interval is gathered, flushing it spoils the next read. */
  lemma FullFlushBreaks(s: StoreState, config: StoreConfig, c: Change)
    requires config.indexInterval > 0 && Gathering(s, c, config.indexInterval) && ShortEnough(config, c)
    ensures var t := Flushed(s, config);
            ReadSince(t.file, t.index, config.indexInterval, config.codec) == Err(ReadError)
  {
    RepeatedLength(config.codec, s.buffer, c);
    HeaderAccepted(s.file);
    assert |Flushed(s, config).file| == HEADER_SIZE + |LogBytes(EncodeAll(config.codec, s.buffer))|;
    hide LogBytes, FromLe32, ReadSince, Placeholders, EncodeAll;
    LargeFlushBreaksReads(s, config, config.indexInterval);
  }

  /** The rest of the run that gathers an interval, flushes it and reads does not match. */
  lemma {:induction false} GatheringBreaks(s: StoreState, config: StoreConfig, list: seq<Change>, c: Change, k: nat)
    requires 0 < config.indexInterval <= Max(1, config.flushThreshold) && ShortEnough(config, c)
    requires k > 0 && k <= config.indexInterval && Gathering(s, c, config.indexInterval - k)
    ensures !RunMatches(s, config, list, 0, 0, Appends(c, k) + [FlushOp, GetOp(config.indexInterval)])
    decreases k
  {
    hide LogBytes, ReadSince, Header, Placeholders, ShortEnough;
    var ending := [FlushOp, GetOp(config.indexInterval)];
    var ops := Appends(c, k) + ending;
    var grown := s.(tail := s.tail + 1, buffer := s.buffer + [c]);
    assert Gathering(grown, c, config.indexInterval - k + 1);
    assert ops[0] == AppendOp(c) && ops[1..] == Appends(c, k - 1) + ending;
    var s1 := FileStep(s, ops[0], config).0;
    var list1 := MemoryStep(list, ops[0]).0;
    if k > 1 {
      assert s1 == grown;
      GatheringBreaks(grown, config, list1, c, k - 1);
    } else {
      assert ops[1..] == ending;
      var t := Flushed(grown, config);
      assert Flushed(s1, config) == t;
      FullFlushBreaks(grown, config, c);
      FailedReadBreaks(t, config, list1, config.indexInterval);
      assert ending[1..] == [GetOp(config.indexInterval)];
      FlushThenBreaks(s1, config, list1, ending);
    }
  }

  lemma FailedReadBreaks(t: StoreState, config: StoreConfig, list: seq<Change>, o: nat)
    requires config.indexInterval > 0 && ReadSince(t.file, t.index, o, config.codec) == Err(ReadError)
    ensures !RunMatches(t, config, list, 0, 0, [GetOp(o)])
  {
    hide ReadSince, Holds;
  }

  lemma FlushThenBreaks(s: StoreState, config: StoreConfig, list: seq<Change>, ops: seq<StoreOp>)
    requires config.indexInterval > 0 && ops != [] && ops[0] == FlushOp
    requires !RunMatches(Flushed(s, config), config, list, 0, 0, ops[1..])
    ensures !RunMatches(s, config, list, 0, 0, ops)
  {
    hide Fits, Flushed;
  }

  /** When the file store refines the memory store: exactly if no flush can reach a whole index interval. */
  lemma RefinesExactly(config: StoreConfig, c: Change)
    requires config.indexInterval > 0 && Lossless(config.codec) && ShortEnough(config, c)
    ensures (forall ops :: Recordable(config, ops) ==> RunMatches(NewStore(), config, [], 0, 0, ops))
            <==> Max(1, config.flushThreshold) < config.indexInterval
  {
    hide RunMatches;
    if Max(1, config.flushThreshold) < config.indexInterval {
      forall ops | Recordable(config, ops)
        ensures RunMatches(NewStore(), config, [], 0, 0, ops)
      {
        NewStoreRefines(config, ops);
      }
    } else {
      var ops := Appends(c, config.indexInterval) + [FlushOp, GetOp(config.indexInterval)];
      GatheringBreaks(NewStore(), config, [], c, config.indexInterval);
      AppendsOnly(c, config.indexInterval);
      MagicIsLong();
      ShortRecord(config, c);
      assert Recordable(config, ops);
    }
  }

  lemma {:induction false} AppendsOnly(c: Change, k: nat)
    ensures forall op :: op in Appends(c, k) ==> op == AppendOp(c)
    decreases k
  {
    if k > 0 {
      AppendsOnly(c, k - 1);
    }
  }

  lemma ShortRecord(config: StoreConfig, c: Change)
    requires config.indexInterval > 0 && ShortEnough(config, c)
    ensures |config.codec.encode(c)| < U32
  {
    MagicIsLong();
    hide FromLe32, LOG_MAGIC;
    assert config.indexInterval * (4 + |config.codec.encode(c)|) >= 4 + |config.codec.encode(c)|;
  }

  // ---------- the stores ----------

  class FileChangeStore {
    var file: Bytes
    var tailOffset: nat
    var buffer: seq<Change>
    var index: seq<IndexEntry>
    var isOpen: bool
    const config: StoreConfig

    ghost function State(): StoreState
      reads this
    {
      StoreState(file, tailOffset, buffer, index, isOpen)
    }

    /** From what `InitializeFile` found; the interval is the default one. */
    constructor (start: Opened, flushThreshold: nat, codec: Codec<Change>)
      ensures State() == StoreState(start.file, start.tail, [], start.index, true)
      ensures config == StoreConfig(flushThreshold, DEFAULT_INDEX_INTERVAL, codec)
    {
      file := start.file;
      tailOffset := start.tail;
      buffer := [];
      index := start.index;
      isOpen := true;
      config := StoreConfig(flushThreshold, DEFAULT_INDEX_INTERVAL, codec);
    }

    /** `written` as for `Flush`. On a failure the source returns the error and no offset. */
    method Append(change: Change, written: Option<nat>) returns (offset: nat, ok: bool)
      requires config.indexInterval > 0
      modifies this
      ensures offset == old(tailOffset)
      ensures (State(), ok) == AppendedUpTo(old(State()), change, config, written)
      ensures written.None? ==> ok && (State(), Assigned(offset)) == FileStep(old(State()), AppendOp(change), config)
    {
      offset := tailOffset;
      tailOffset := tailOffset + 1;
      buffer := buffer + [change];
      ok := true;
      if |buffer| >= config.flushThreshold {
        ok := Flush(written);
      }
    }

    method GetSince(offset: nat) returns (r: Result<seq<Change>, StoreError>)
      ensures r == ReadSince(file, index, offset, config.codec)
    {
      r := ReadChangesSince(file, index, offset, config.codec);
    }

    /** The file takes `written` bytes and then fails, if that many are sent; None is no failure. */
    method Flush(written: Option<nat>) returns (ok: bool)
      requires config.indexInterval > 0
      modifies this
      ensures (State(), ok) == FlushedUpTo(old(State()), config, written)
    {
      hide LogBytes, Le32, Placeholders;
      var changes := buffer;
      buffer := [];
      if changes == [] {
        return true;
      }
      if isOpen {
        var i := 0;
        var room: Option<nat> := written;
        ghost var encoded := EncodeAll(config.codec, changes);
        NoRecords();
        assert encoded[..0] == [];
        while i < |changes|
          invariant 0 <= i <= |changes|
          invariant file == old(file) + LogBytes(encoded[..i])
          invariant buffer == [] && index == old(index) && tailOffset == old(tailOffset) && isOpen
          invariant room.Some? <==> written.Some?
          invariant written.Some? ==> room.value + |LogBytes(encoded[..i])| == written.value
        {
          var bytes := config.codec.encode(changes[i]);
          var prefix := Le32(|bytes| % U32);
          LogBytesSnoc(encoded, i);
          LogBytesPrefix(encoded, i + 1);
          Sequences.Associative(LogBytes(encoded[..i]), prefix, bytes);
          Sequences.Associative(old(file), LogBytes(encoded[..i]), prefix + bytes);
          if room.Some? && room.value < |prefix| + |bytes| {
            file := file + (prefix + bytes)[..room.value];
            TakeInto(old(file), LogBytes(encoded), LogBytes(encoded[..i]), prefix + bytes, room.value);
            return false;
          }
          file := file + prefix;
          file := file + bytes;
          room := if room.Some? then Some(room.value - |prefix| - |bytes|) else None;
          i := i + 1;
        }
        assert encoded[..i] == encoded;
        if room == Some(0) {
          assert LogBytes(encoded)[..written.value] == LogBytes(encoded);
          return false;
        }
        if |changes| >= config.indexInterval {
          AddPlaceholders(changes);
        }
      }
      ok := true;
    }

    /** The index update at the end of a large flush. */
    method AddPlaceholders(changes: seq<Change>)
      requires config.indexInterval > 0
      modifies this`index
      ensures index == old(index) + Placeholders(Max(0, tailOffset - |changes|), |changes|, config.indexInterval)
    {
      var offset := if tailOffset >= |changes| then tailOffset - |changes| else 0;
      var left := |changes|;
      ghost var goal := index + Placeholders(offset, left, config.indexInterval);
      while left > 0
        invariant left >= 0 && offset >= 0
        invariant index + Placeholders(offset, left, config.indexInterval) == goal
      {
        index := index + [IndexEntry(offset, 0, 0)];
        offset := offset + config.indexInterval;
        left := if left > config.indexInterval then left - config.indexInterval else 0;
      }
    }

    /** A failed flush leaves the store open. */
    method Close(written: Option<nat>) returns (ok: bool)
      requires config.indexInterval > 0
      modifies this
      ensures var (flushed, done) := FlushedUpTo(old(State()), config, written);
              ok == done && State() == if ok then flushed.(isOpen := false) else flushed
    {
      ok := Flush(written);
      if ok {
        isOpen := false;
      }
    }
  }

  lemma LogBytesPrefix(records: seq<Bytes>, i: nat)
    requires i <= |records|
    ensures LogBytes(records[..i]) <= LogBytes(records)
  {
    LogBytesJoin(records[..i], records[i..]);
    Sequences.Halves(records, i);
    hide LogBytes;
  }

  lemma TakeInto(file: Bytes, whole: Bytes, before: Bytes, chunk: Bytes, n: nat)
    requires before + chunk <= whole && n < |chunk|
    ensures file + before + chunk[..n] == file + whole[..|before| + n] && |before| + n < |whole|
  {
  }

  class MemoryChangeStore {
    var changes: seq<Change>

    constructor ()
      ensures changes == []
    {
      changes := [];
    }

    method Append(change: Change) returns (offset: nat)
      modifies this
      ensures (changes, Assigned(offset)) == MemoryStep(old(changes), AppendOp(change))
    {
      offset := |changes|;
      changes := changes + [change];
    }

    method GetSince(offset: nat) returns (r: seq<Change>)
      ensures r == Skip(changes, offset)
    {
      r := changes[if |changes| < offset then |changes| else offset..];
    }
  }

  /**
   Close, open again and read, any number of times: the records written before are found, as
   test_file_store_reopen expects. The first n were there when this store was opened.
   */
  method Reopen(store: FileChangeStore, offset: nat, ghost disk: seq<Change>, ghost n: nat)
    returns (again: FileChangeStore, r: Result<seq<Change>, StoreError>)
    requires StoreInvariant(store.State(), store.config, disk, n) && store.isOpen
    requires store.config.indexInterval == DEFAULT_INDEX_INTERVAL
    requires forall c :: c in disk + store.buffer ==> |store.config.codec.encode(c)| <= MAX_INDEXED_RECORD
    requires store.file[..HEADER_SIZE] == Header()
    modifies store
    ensures var all := disk + old(store.buffer);
            && again.State() == ReopenedStore(store.file, DEFAULT_INDEX_INTERVAL)
            && again.config == store.config
            && |again.file| >= HEADER_SIZE && again.file[..HEADER_SIZE] == Header()
            && StoreInvariant(again.State(), again.config, all, |all|)
            && r == Ok(Skip(all, if IsIndexed(|all|, DEFAULT_INDEX_INTERVAL, offset) then offset else offset - 1))
  {
    hide IndexFrom, LogBytes, IsSparse, ReadSince;
    ghost var all := disk + store.buffer;
    FlushKeeps(store.State(), store.config, disk, n);
    assert all == disk + store.buffer && |store.file| >= HEADER_SIZE;
    var _ := store.Close(None);
    var found := InitializeFile(store.file, DEFAULT_INDEX_INTERVAL);
    HeaderAccepted(store.file);
    ReopenedIsIndexed(store.file, store.config.codec, all, DEFAULT_INDEX_INTERVAL);
    again := new FileChangeStore(found.value, store.config.flushThreshold, store.config.codec);
    assert all[..|all|] == all;
    r := again.GetSince(offset);
    IndexedRead(again.file, again.config.codec, all, again.index, |all|, DEFAULT_INDEX_INTERVAL, offset);
  }

  lemma FirstPosition(records: seq<Bytes>)
    ensures Position(records, 0) == HEADER_SIZE
  {
  }

  lemma EncodedShort(codec: Codec<Change>, cs: seq<Change>)
    requires forall c :: c in cs ==> |codec.encode(c)| <= MAX_INDEXED_RECORD
    ensures forall r :: r in EncodeAll(codec, cs) ==> |r| <= MAX_INDEXED_RECORD
  {
  }

  lemma HeaderAccepted(file: Bytes)
    requires |file| >= HEADER_SIZE && file[..HEADER_SIZE] == Header()
    ensures file[..4] == LOG_MAGIC && HeaderVersion(file) == LOG_VERSION
  {
    Le32RoundTrip(LOG_VERSION);
    assert file[..4] == Header()[..4] && file[4..8] == Header()[4..8];
    assert Header()[4..8] == Le32(LOG_VERSION);
  }
}
