/**
  The log directory and the writer that appends to it, across restarts, rotations and crashes.
 */
module WalWriter {
  import opened Values
  import opened Crc32
  import opened WalFormat
  import opened WalNames
  import opened WalLog
  import opened WalCrashes

  /** The log directory. `disk` says what writers put into each segment and how much is left. */
  class Directory {
    var files: map<string, Bytes>
    ghost var disk: Disk

    /** The .wal files are what writers and crashes left. */
    ghost predicate Valid()
      reads this
    {
      disk.Valid() && SegmentFiles(files, disk.Files())
    }

    /** The directory as the next process finds it. */
    constructor (files: map<string, Bytes>, ghost disk: Disk)
      requires disk.Valid() && SegmentFiles(files, disk.Files())
      ensures Valid() && this.files == files && this.disk == disk
    {
      this.files := files;
      this.disk := disk;
    }

    /** One write to an open file. */
    method WriteAtEnd(name: string, bytes: Bytes)
      requires name in files
      modifies this`files
      ensures files == old(files)[name := old(files)[name] + bytes]
    {
      files := files[name := files[name] + bytes];
    }

    /** The two writes of header and payload. */
    method WriteRecord(name: string, data: Bytes)
      requires Valid() && disk.live && name == Name(|disk.segs|)
      modifies this
      ensures Valid() && disk == Written(old(disk), data)
      ensures name in old(files) && files == old(files)[name := old(files)[name] + Record(data)]
      ensures var at, f := |old(files)[name]|, files[name];
              && |f| == at + HEADER_SIZE + |data| && f[at + 8..] == data
              && f[at] as nat == |data| % 256 && f[at + 1] as nat == |data| / 256 % 256
              && f[at + 2] as nat == |data| / 65536 % 256 && f[at + 3] as nat == |data| / 16777216 % 256
              && Checksum(data)
                 == f[at + 4] as bv32 + 256 * (f[at + 5] as bv32) + 65536 * (f[at + 6] as bv32) + 16777216 * (f[at + 7] as bv32)
    {
      RecordWritten(files, disk, data);
      ghost var before := files[name];
      hide Log, Record, Name, SegmentFiles, Written, Checksum, LittleEndian, ChecksumBytes, Disk.Files;
      var header := LittleEndian(|data|) + ChecksumBytes(Checksum(data));
      TwoWrites(files, name, header, data);
      WriteAtEnd(name, header);
      WriteAtEnd(name, data);
      disk := Written(disk, data);
      assert files[name] == before + Record(data);
      RecordLayout(before, data);
    }

    /** The highest segment number in use, 0 when there is none, whatever else is in the directory. */
    method FindMaxSegment() returns (max: nat)
      ensures IsMaxSegment(files, max)
      ensures forall name | name in files && |name| >= 4 && name[|name| - 4..] == ".wal" && ParseName(name).Some? ::
                ParseName(name).value <= max
      ensures max > 0 ==>
                exists name :: name in files && |name| >= 4 && name[|name| - 4..] == ".wal" && ParseName(name) == Some(max)
      ensures Valid() && |disk.segs| <= MAX_INT64 ==> max == |disk.segs|
    {
      max := 0;
      var names := files.Keys;
      while names != {}
        invariant names <= files.Keys
        invariant forall name | name in files && name !in names :: SegmentNumber(name) <= max
        invariant max == 0 || exists name :: name in files && SegmentNumber(name) == max
        decreases names
      {
        var name :| name in names;
        names := names - {name};
        if HasSuffix(name) {
          var parsed := ParseName(name);
          if parsed.Some? && parsed.value > max {
            max := parsed.value;
          }
        }
      }
      MaxInFull(files, max);
      if Valid() && |disk.segs| <= MAX_INT64 {
        MaxOfSegments(files, disk.Files(), max);
      }
    }
  }

  /** A directory without .wal files, such as a new one, is that of an empty log. */
  lemma NewDirectory(files: map<string, Bytes>)
    requires forall name | name in files :: !HasSuffix(name)
    ensures Disk([], [], false).Valid() && SegmentFiles(files, Disk([], [], false).Files())
  {
  }

  /** The number a file name counts for: 0 for files that are not segments. */
  function SegmentNumber(name: string): nat {
    var parsed := ParseName(name);
    if HasSuffix(name) && parsed.Some? && parsed.value > 0 then parsed.value else 0
  }

  ghost predicate IsMaxSegment(files: map<string, Bytes>, max: nat) {
    && (forall name | name in files :: SegmentNumber(name) <= max)
    && (max == 0 || exists name :: name in files && SegmentNumber(name) == max)
  }

  lemma MaxInFull(files: map<string, Bytes>, max: nat)
    requires IsMaxSegment(files, max)
    ensures forall name | name in files && |name| >= 4 && name[|name| - 4..] == ".wal" && ParseName(name).Some? ::
              ParseName(name).value <= max
    ensures max > 0 ==>
              exists name :: name in files && |name| >= 4 && name[|name| - 4..] == ".wal" && ParseName(name) == Some(max)
  {
    hide ParseName;
    forall name | name in files && |name| >= 4 && name[|name| - 4..] == ".wal" && ParseName(name).Some?
      ensures ParseName(name).value <= max
    {
      assert SegmentNumber(name) <= max;
    }
    if max > 0 {
      var name :| name in files && SegmentNumber(name) == max;
      assert ParseName(name) == Some(max);
    }
  }

  /** Main result: whatever .wal files a directory holds, the number after the highest one found
      names no existing file. */
  lemma NextSegmentIsNew(files: map<string, Bytes>, max: nat)
    requires IsMaxSegment(files, max) && max < MAX_INT64
    ensures Name(max + 1) !in files
  {
    ParseInvertsName(max + 1);
  }

  lemma MaxOfSegments(files: map<string, Bytes>, contents: seq<Bytes>, max: nat)
    requires SegmentFiles(files, contents) && IsMaxSegment(files, max) && |contents| <= MAX_INT64
    ensures max == |contents|
  {
    hide Name, HasSuffix, ParseName;
    var n := |contents|;
    if n > 0 {
      assert Name(n) in files;
      ParseInvertsName(n);
      assert SegmentNumber(Name(n)) == n;
    }
    if max > 0 {
      var name :| name in files && SegmentNumber(name) == max;
      assert HasSuffix(name);
      var k :| 0 <= k < n && NumberedNames(n)[k] == name;
      ParseInvertsName(k + 1);
    }
  }

  /** Writing segment |segs| + 1 extends the directory by one segment. */
  lemma NewSegmentFile(files: map<string, Bytes>, contents: seq<Bytes>, bytes: Bytes)
    requires SegmentFiles(files, contents)
    ensures Name(|contents| + 1) !in files
    ensures SegmentFiles(files[Name(|contents| + 1) := bytes], contents + [bytes])
  {
    hide Name, HasSuffix;
    var n := |contents|;
    NameHasSuffix(n + 1);
    FreshName(n);
    forall name ensures name in NumberedNames(n + 1) <==> name in NumberedNames(n) || name == Name(n + 1) {
      assert NumberedNames(n + 1) == NumberedNames(n) + [Name(n + 1)];
    }
    forall i: nat | 0 < i <= n ensures Name(i) != Name(n + 1) {
      assert NumberedNames(n)[i - 1] == Name(i);
    }
  }

  lemma FreshName(n: nat)
    ensures Name(n + 1) !in NumberedNames(n)
  {
    hide Name;
    forall k | 0 <= k < n ensures NumberedNames(n)[k] != Name(n + 1) {
      if Name(k + 1) == Name(n + 1) {
        NameIsInjective(k + 1, n + 1);
      }
    }
  }

  /** Rewriting the last segment's file changes that segment and no other. */
  lemma LastSegmentFile(files: map<string, Bytes>, contents: seq<Bytes>, bytes: Bytes)
    requires SegmentFiles(files, contents) && contents != []
    ensures SegmentFiles(files[Name(|contents|) := bytes], contents[|contents| - 1 := bytes])
  {
    hide Name, HasSuffix;
    var n := |contents|;
    assert Name(n) in files;
    NameHasSuffix(n);
    FreshName(n - 1);
    forall i: nat | 0 < i < n ensures Name(i) != Name(n) {
      assert NumberedNames(n - 1)[i - 1] == Name(i);
    }
  }

  lemma NewestFileIs(files: map<string, Bytes>, disk: Disk)
    requires disk.Valid() && disk.live && SegmentFiles(files, disk.Files())
    ensures Name(|disk.segs|) in files && files[Name(|disk.segs|)] == disk.File(|disk.segs| - 1)
  {
    hide Name, NumberedNames, Log;
  }

  lemma RecordIsHeaderAndData(data: Bytes)
    ensures Record(data) == LittleEndian(|data|) + ChecksumBytes(Checksum(data)) + data
  {
    hide LittleEndian, ChecksumBytes, Checksum;
  }

  // ----- what each event does to the files -----

  lemma OpenedFiles(disk: Disk, max: int)
    requires disk.Valid()
    ensures var next := After(disk, max, Event.Open); next.Valid() && next.Files() == disk.Files() + [[]]
  {
    AfterIsValid(disk, max, Event.Open);
    EmptyLog();
    hide Log;
    var next := After(disk, max, Event.Open);
    forall i | 0 <= i < |disk.segs| ensures next.File(i) == disk.File(i) {
    }
  }

  lemma CrashedFiles(disk: Disk, max: int, cut: nat)
    requires disk.Valid() && disk.segs != [] && After(disk, max, Crash(cut)).Valid()
    ensures var last, next := |disk.segs| - 1, After(disk, max, Crash(cut));
            && next.left[last] <= |disk.File(last)| && next.File(last) == disk.File(last)[..next.left[last]]
            && next.Files() == disk.Files()[last := next.File(last)]
  {
    hide Log;
  }

  /** A crash leaves the directory as a crashed disk says: only the newest segment is cut. */
  lemma CrashKeepsDirectory(files: map<string, Bytes>, disk: Disk, max: int, cut: nat)
    requires disk.Valid() && SegmentFiles(files, disk.Files()) && disk.segs != []
    ensures var last, next := |disk.segs| - 1, After(disk, max, Crash(cut));
            && next.Valid()
            && SegmentFiles(files[Name(last + 1) := disk.File(last)[..next.left[last]]], next.Files())
  {
    AfterIsValid(disk, max, Crash(cut));
    hide Log, SegmentFiles, Name, NumberedNames;
    var last, next := |disk.segs| - 1, After(disk, max, Crash(cut));
    CrashedFiles(disk, max, cut);
    hide After, Disk.File, Disk.Files;
    LastSegmentFile(files, disk.Files(), next.File(last));
  }

  /** Writing a record at the end of the newest segment. */
  function Written(disk: Disk, data: Bytes): Disk
    requires disk.Valid() && disk.live
  {
    var last := |disk.segs| - 1;
    var seg := disk.segs[last] + [data];
    Disk(disk.segs[last := seg], disk.left[last := |Log(seg)|], true)
  }

  lemma WholeFile(disk: Disk)
    requires disk.Valid() && disk.live
    ensures disk.File(|disk.segs| - 1) == Log(disk.segs[|disk.segs| - 1])
  {
    hide Log;
    var all := Log(disk.segs[|disk.segs| - 1]);
    assert all[..|all|] == all;
  }

  lemma WrittenIsValid(disk: Disk, data: Bytes)
    requires disk.Valid() && disk.live
    ensures Written(disk, data).Valid()
  {
    hide Log;
  }

  lemma OlderFiles(disk: Disk, data: Bytes, i: nat)
    requires disk.Valid() && disk.live && Written(disk, data).Valid() && i < |disk.segs| - 1
    ensures Written(disk, data).File(i) == disk.File(i)
  {
    hide Log;
  }

  lemma NewestFile(disk: Disk, data: Bytes)
    requires disk.Valid() && disk.live && Written(disk, data).Valid()
    ensures Written(disk, data).File(|disk.segs| - 1) == disk.File(|disk.segs| - 1) + Record(data)
  {
    LogAppend(disk.segs[|disk.segs| - 1], [data]);
    LogOfOne(data);
    WholeFile(disk);
    WholeFile(Written(disk, data));
    hide Log, Record, Disk.File;
  }

  lemma WrittenFiles(disk: Disk, data: Bytes)
    requires disk.Valid() && disk.live
    ensures Written(disk, data).Valid()
    ensures var last := |disk.segs| - 1;
            Written(disk, data).Files() == disk.Files()[last := disk.File(last) + Record(data)]
  {
    var last, next := |disk.segs| - 1, Written(disk, data);
    WrittenIsValid(disk, data);
    NewestFile(disk, data);
    forall i: nat | i < last ensures next.File(i) == disk.File(i) {
      OlderFiles(disk, data, i);
    }
    hide Log, Record, Disk.File;
  }

  /** An append is a write, after an opening if the record does not fit. */
  lemma AppendIsWrite(disk: Disk, max: int, data: Bytes)
    requires disk.Valid() && disk.live
    ensures var full := disk.left[|disk.segs| - 1] + |Record(data)| > max;
            var open := if full then After(disk, max, Event.Open) else disk;
            open.Valid() && open.live && After(disk, max, Event.Append(data)) == Written(open, data)
  {
    if disk.left[|disk.segs| - 1] + |Record(data)| > max {
      OverflowIsWrite(disk, max, data);
    } else {
      hide Log, Record;
    }
  }

  lemma OverflowIsWrite(disk: Disk, max: int, data: Bytes)
    requires disk.Valid() && disk.live && disk.left[|disk.segs| - 1] + |Record(data)| > max
    ensures var open := After(disk, max, Event.Open);
            open.Valid() && open.live && After(disk, max, Event.Append(data)) == Written(open, data)
  {
    OpenedFiles(disk, max);
    hide Log, Record;
    var n, size := |disk.segs|, |Log([data])|;
    assert [] + [data] == [data];
    assert (disk.segs + [[]])[n := [data]] == disk.segs + [[data]];
    assert (disk.left + [0])[n := size] == disk.left + [size];
  }

  class Writer {
    const dir: Directory
    const segmentMaxSize: int
    var current: string
    var segSeq: nat
    var segSize: nat

    /** The current file is the newest segment, whole, and `segSize` is its length. */
    ghost predicate Valid()
      reads this, dir
    {
      && dir.Valid() && dir.disk.live
      && segSeq == |dir.disk.segs| + 1
      && current == Name(|dir.disk.segs|)
      && segSize == dir.disk.left[|dir.disk.segs| - 1]
    }

    /** A restart, also after a crash, continues after the highest existing number and starts a new
        segment; no other file changes. */
    constructor (dir: Directory, segmentMaxSize: int)
      requires dir.Valid() && |dir.disk.segs| < MAX_INT64
      modifies dir
      ensures Valid() && this.dir == dir && this.segmentMaxSize == segmentMaxSize
      ensures dir.disk == After(old(dir.disk), segmentMaxSize, Event.Open)
      ensures current !in old(dir.files) && dir.files == old(dir.files)[current := []]
    {
      this.dir := dir;
      this.segmentMaxSize := segmentMaxSize;
      current := "";
      segSize := 0;
      var max := dir.FindMaxSegment();
      segSeq := max + 1;
      new;
      Rotate();
    }

    /** Close the current segment and start the next one. */
    method Rotate()
      requires dir.Valid() && segSeq == |dir.disk.segs| + 1
      modifies this`current, this`segSize, this`segSeq, dir
      ensures Valid() && dir.disk == After(old(dir.disk), segmentMaxSize, Event.Open)
      ensures segSeq == old(segSeq) + 1 && segSize == 0 && current == Name(old(segSeq))
      ensures current !in old(dir.files) && dir.files == old(dir.files)[current := []]
    {
      hide Log, Record, Name, SegmentFiles;
      OpenedFiles(dir.disk, segmentMaxSize);
      NewSegmentFile(dir.files, dir.disk.Files(), []);
      current := Name(segSeq);
      dir.files := dir.files[current := []];
      dir.disk := After(dir.disk, segmentMaxSize, Event.Open);
      segSize := 0;
      segSeq := segSeq + 1;
    }

    /** Append one record, rotating first when it does not fit the current segment. */
    method Append(data: Bytes)
      requires Valid()
      modifies this`current, this`segSize, this`segSeq, dir
      ensures Valid()
      ensures dir.disk == After(old(dir.disk), segmentMaxSize, Event.Append(data))
      ensures if old(segSize) + 8 + |data| > segmentMaxSize then segSeq == old(segSeq) + 1 && segSize == 8 + |data|
              else segSeq == old(segSeq) && current == old(current) && segSize == old(segSize) + 8 + |data|
      ensures forall name | name in old(dir.files) && name != old(current) ::
                name in dir.files && dir.files[name] == old(dir.files[name])
    {
      RecordSize(data);
      AppendIsWrite(dir.disk, segmentMaxSize, data);
      hide Log, Record, Name, SegmentFiles, After, Written;
      var recordSize := HEADER_SIZE + |data|;
      if segSize + recordSize > segmentMaxSize {
        Rotate();
      }
      Write(data);
    }

    /** The two writes of header and payload at the end of the current file. */
    method Write(data: Bytes)
      requires Valid()
      modifies this`segSize, dir
      ensures Valid()
      ensures dir.disk == Written(old(dir.disk), data) && segSize == old(segSize) + HEADER_SIZE + |data|
      ensures current in old(dir.files) && dir.files == old(dir.files)[current := old(dir.files[current]) + Record(data)]
    {
      hide *;
      ValidWriter(this);
      WrittenSize(dir.disk, data);
      dir.WriteRecord(current, data);
      segSize := segSize + HEADER_SIZE + |data|;
      ValidWriter(this);
    }
  }

  lemma ValidWriter(w: Writer)
    ensures w.Valid() <==>
              && w.dir.Valid() && w.dir.disk.Valid() && w.dir.disk.live && w.segSeq == |w.dir.disk.segs| + 1
              && w.current == Name(|w.dir.disk.segs|) && |w.dir.disk.segs| == |w.dir.disk.left| > 0
              && w.segSize == w.dir.disk.left[|w.dir.disk.segs| - 1]
  {
    hide Log, Name, SegmentFiles;
  }

  lemma TwoWrites(files: map<string, Bytes>, name: string, header: Bytes, data: Bytes)
    requires name in files
    ensures var once := files[name := files[name] + header];
            once[name := once[name] + data] == files[name := files[name] + (header + data)]
  {
    assert files[name] + header + data == files[name] + (header + data);
  }

  /** A record at the end of the newest file is what the written disk says. */
  lemma RecordWritten(files: map<string, Bytes>, disk: Disk, data: Bytes)
    requires disk.Valid() && disk.live && SegmentFiles(files, disk.Files())
    ensures var name := Name(|disk.segs|);
            && name in files && Written(disk, data).Valid()
            && Record(data) == LittleEndian(|data|) + ChecksumBytes(Checksum(data)) + data
            && SegmentFiles(files[name := files[name] + Record(data)], Written(disk, data).Files())
  {
    NewestFileIs(files, disk);
    WrittenFiles(disk, data);
    LastSegmentFile(files, disk.Files(), disk.File(|disk.segs| - 1) + Record(data));
    RecordIsHeaderAndData(data);
    hide Log, Record, Name, SegmentFiles, Written, Disk.Valid, Disk.File, Disk.Files, Checksum, LittleEndian, ChecksumBytes;
  }

  lemma RecordSize(data: Bytes)
    ensures |Record(data)| == HEADER_SIZE + |data|
  {
  }

  lemma WrittenSize(disk: Disk, data: Bytes)
    requires disk.Valid() && disk.live
    ensures var last, next := |disk.segs| - 1, Written(disk, data);
            |next.segs| == |disk.segs| == |next.left| && next.Valid() && next.live && next.left[last] == disk.left[last] + HEADER_SIZE + |data|
  {
    LogGrows(disk.segs[|disk.segs| - 1], data);
    RecordSize(data);
    WrittenIsValid(disk, data);
    hide Log, Record;
  }
}
