/**
  The replay loops as the program runs them: a file read sequentially with io.ReadFull into a
  reused header buffer, and the directory listing sorted by name.
 */
module WalReplay {
  import opened Values
  import opened Crc32
  import opened WalFormat
  import opened WalNames
  import opened WalLog
  import opened WalCrashes
  import opened WalWriter

  /** An open segment file and its read position. */
  class File {
    const content: Bytes
    var pos: nat

    ghost predicate Valid()
      reads this
    {
      pos <= |content|
    }

    constructor (content: Bytes)
      ensures Valid() && this.content == content && pos == 0
    {
      this.content := content;
      pos := 0;
    }
  }

  /** The errors of io.ReadFull on an in-memory file. */
  datatype ReadError = NoError | Eof | UnexpectedEof

  /** Fills the buffer if enough bytes are left, and otherwise reads what is left. */
  method ReadFull(f: File, buf: array<bv8>) returns (err: ReadError)
    requires f.Valid()
    modifies f, buf
    ensures f.Valid()
    ensures old(f.pos) + buf.Length <= |f.content| ==>
              err == NoError && f.pos == old(f.pos) + buf.Length && buf[..] == f.content[old(f.pos)..f.pos]
    ensures old(f.pos) + buf.Length > |f.content| ==>
              f.pos == |f.content| && err == if old(f.pos) == |f.content| then Eof else UnexpectedEof
  {
    var start := f.pos;
    var n := 0;
    while n < buf.Length && f.pos < |f.content|
      invariant 0 <= n <= buf.Length && f.pos == start + n <= |f.content|
      invariant buf[..n] == f.content[start..start + n]
    {
      buf[n] := f.content[f.pos];
      n := n + 1;
      f.pos := f.pos + 1;
    }
    if n == buf.Length {
      err := NoError;
    } else if n == 0 {
      err := Eof;
    } else {
      err := UnexpectedEof;
    }
  }

  /** What lies at the front of the remaining bytes. */
  datatype First = Whole(data: Bytes) | Nothing(stop: Stop)

  function FirstRecord(bytes: Bytes): First {
    if |bytes| < HEADER_SIZE then Nothing(EndOfLog)
    else
      var length := FromLittleEndian(bytes[..4]);
      if |bytes| < HEADER_SIZE + length then Nothing(TornData)
      else
        var data := bytes[HEADER_SIZE..HEADER_SIZE + length];
        if Checksum(data) != ChecksumFrom(bytes[4..8]) then Nothing(BadChecksum) else Whole(data)
  }

  lemma ReplayByFirstRecord(bytes: Bytes, made: nat, accepts: nat -> bool)
    ensures match FirstRecord(bytes)
            case Nothing(stop) => ReplayBytes(bytes, made, accepts) == Replayed([], stop)
            case Whole(data) =>
              && HEADER_SIZE + |data| <= |bytes|
              && var tail := ReplayBytes(bytes[HEADER_SIZE + |data|..], made + 1, accepts);
                 ReplayBytes(bytes, made, accepts)
                 == if !accepts(made) then Replayed([data], CallbackFailed) else Replayed([data] + tail.calls, tail.stop)
  {
    hide Checksum, FromLittleEndian, ChecksumFrom;
  }

  /** A delivered record is the bytes after a header whose first four hold its length, lowest first. */
  lemma FirstRecordLayout(content: Bytes, at: nat)
    requires at <= |content|
    ensures var first := FirstRecord(content[at..]);
            first.Whole? ==>
              && at + HEADER_SIZE + |first.data| <= |content| && first.data == content[at + 8..at + 8 + |first.data|]
              && |first.data| == content[at] as nat + 256 * content[at + 1] as nat
                                 + 65536 * content[at + 2] as nat + 16777216 * content[at + 3] as nat
  {
    hide Checksum, ChecksumFrom;
    var bytes := content[at..];
    if FirstRecord(bytes).Whole? {
      assert FirstRecord(bytes).data == bytes[8..8 + FromLittleEndian(bytes[..4])];
    }
  }

  /** Reads and checks one record at the file's position. */
  method ReadRecord(f: File, header: array<bv8>) returns (first: First)
    requires f.Valid() && header.Length == HEADER_SIZE
    modifies f, header
    ensures f.Valid()
    ensures first == FirstRecord(f.content[old(f.pos)..])
    ensures first.Whole? ==> f.pos == old(f.pos) + HEADER_SIZE + |first.data|
  {
    hide Checksum, FromLittleEndian, ChecksumFrom;
    ghost var bytes := f.content[f.pos..];
    var err := ReadFull(f, header);
    if err != NoError {
      return Nothing(EndOfLog);
    }
    assert header[..] == bytes[..HEADER_SIZE];
    assert header[..4] == header[..][..4] == bytes[..4];
    assert header[4..8] == header[..][4..8] == bytes[4..8];
    var length := FromLittleEndian(header[..4]);
    var expected := ChecksumFrom(header[4..8]);
    var data := new bv8[length];
    err := ReadFull(f, data);
    if err != NoError {
      return Nothing(TornData);
    }
    assert data[..] == bytes[HEADER_SIZE..HEADER_SIZE + length];
    if Checksum(data[..]) != expected {
      return Nothing(BadChecksum);
    }
    first := Whole(data[..]);
  }

  lemma SuffixOfSuffix(s: Bytes, from: nat, n: nat)
    requires from + n <= |s|
    ensures s[from..][n..] == s[from + n..]
  {
  }

  lemma MoveHead(s: seq<Bytes>, x: Bytes, t: seq<Bytes>)
    ensures s + ([x] + t) == s + [x] + t
  {
  }

  /** One segment: `calls` are the payloads handed to the callback, `count` those it accepted. */
  method ReplaySegment(content: Bytes, made: nat, accepts: nat -> bool)
    returns (calls: seq<Bytes>, count: nat, stop: Stop)
    ensures Replayed(calls, stop) == ReplayBytes(content, made, accepts)
    ensures count == if stop == CallbackFailed then |calls| - 1 else |calls|
  {
    hide FirstRecord, ReplayBytes;
    var f := new File(content);
    var header := new bv8[HEADER_SIZE];
    calls, count := [], 0;
    ghost var whole, tail := ReplayBytes(content, made, accepts), ReplayBytes(content, made, accepts);
    assert content[0..] == content;
    while true
      invariant fresh(f) && fresh(header) && f.Valid() && f.content == content && header.Length == HEADER_SIZE
      invariant count == |calls|
      invariant tail == ReplayBytes(content[f.pos..], made + count, accepts)
      invariant whole == Replayed(calls + tail.calls, tail.stop)
      decreases |content| - f.pos
    {
      ghost var rest := content[f.pos..];
      ReplayByFirstRecord(rest, made + count, accepts);
      FirstStops(rest);
      var first := ReadRecord(f, header);
      if first.Nothing? {
        return calls + [], count, first.stop;
      }
      if !accepts(made + count) {
        return calls + [first.data], count, CallbackFailed;
      }
      SuffixOfSuffix(content, f.pos - HEADER_SIZE - |first.data|, HEADER_SIZE + |first.data|);
      tail := ReplayBytes(content[f.pos..], made + count + 1, accepts);
      MoveHead(calls, first.data, tail.calls);
      calls := calls + [first.data];
      count := count + 1;
    }
  }

  lemma FirstStops(bytes: Bytes)
    ensures FirstRecord(bytes).Nothing? ==> FirstRecord(bytes).stop != CallbackFailed
  {
  }

  // ----- sorting the listing -----

  /** sort.Strings. */
  method SortNames(names: seq<string>) returns (sorted: seq<string>)
    requires forall i, j | 0 <= i < j < |names| :: names[i] != names[j]
    ensures forall i, j | 0 <= i < j < |sorted| :: Before(sorted[i], sorted[j])
    ensures forall name :: name in sorted <==> name in names
  {
    sorted := [];
    for n := 0 to |names|
      invariant forall i, j | 0 <= i < j < |sorted| :: Before(sorted[i], sorted[j])
      invariant forall name :: name in sorted <==> name in names[..n]
    {
      assert names[..n + 1] == names[..n] + [names[n]];
      assert names[n] !in names[..n];
      sorted := InsertName(sorted, names[n]);
    }
    assert names[..|names|] == names;
  }

  method InsertName(sorted: seq<string>, name: string) returns (result: seq<string>)
    requires forall i, j | 0 <= i < j < |sorted| :: Before(sorted[i], sorted[j])
    requires name !in sorted
    ensures forall i, j | 0 <= i < j < |result| :: Before(result[i], result[j])
    ensures forall other :: other in result <==> other in sorted || other == name
  {
    var k := 0;
    while k < |sorted| && Before(sorted[k], name)
      invariant 0 <= k <= |sorted|
      invariant forall i | 0 <= i < k :: Before(sorted[i], name)
    {
      k := k + 1;
    }
    forall j | k <= j < |sorted| ensures Before(name, sorted[j]) {
      BeforeIsTotal(name, sorted[k]);
      if k < j {
        BeforeIsTransitive(name, sorted[k], sorted[j]);
      }
    }
    result := sorted[..k] + [name] + sorted[k..];
  }

  lemma ReplayNothing(accepts: nat -> bool)
    ensures ReplaySegments([], 0, accepts) == []
  {
  }

  /** The whole directory: an error in one segment is logged and the next segment is replayed. */
  method Replay(dir: Directory, accepts: nat -> bool)
    returns (calls: seq<Bytes>)
    ensures exists names :: IsListing(names, dir.files) && calls == ReplaySegments(FileContents(names, dir.files), 0, accepts)
    ensures dir.Valid() && |dir.disk.segs| < TEN_10 && AllFit(Flatten(dir.disk.segs)) && AcceptsAll(accepts) ==>
              && calls == Flatten(dir.disk.AllKept())
              && (Torn(dir.disk) == {} ==> calls == Flatten(dir.disk.segs))
  {
    hide ReplayBytes, Before, HasSuffix, ReplaySegments, SegmentFiles, Flatten;
    var entries: seq<string> := [];
    var rest := dir.files.Keys;
    while rest != {}
      invariant rest <= dir.files.Keys
      invariant forall i, j | 0 <= i < j < |entries| :: entries[i] != entries[j]
      invariant forall name :: name in entries <==> name in dir.files.Keys - rest && HasSuffix(name)
      decreases rest
    {
      var name :| name in rest;
      rest := rest - {name};
      if HasSuffix(name) {
        entries := entries + [name];
      }
    }
    var segments := SortNames(entries);
    forall i | 0 <= i < |segments| ensures segments[i] in dir.files {
      assert segments[i] in segments;
      assert segments[i] in entries;
    }
    ghost var contents := FileContents(segments, dir.files);
    calls := [];
    assert ReplaySegments([], 0, accepts) == [] by { ReplayNothing(accepts); }
    for n := 0 to |segments|
      invariant calls == ReplaySegments(contents[..n], 0, accepts)
      invariant forall i | 0 <= i < |segments| :: segments[i] in dir.files
    {
      var made, count, stop := ReplaySegment(dir.files[segments[n]], |calls|, accepts);
      ReplaySplits(contents[..n], [contents[n]], 0, accepts);
      assert contents[..n + 1] == contents[..n] + [contents[n]];
      ReplayOne(contents[n], |calls|, accepts);
      calls := calls + made;
    }
    assert contents[..|segments|] == contents;
    if dir.Valid() && |dir.disk.segs| < TEN_10 && AllFit(Flatten(dir.disk.segs)) && AcceptsAll(accepts) {
      ListedContents(segments, dir.files, dir.disk.Files());
      DiskReplays(dir.disk, accepts);
    }
  }
}
