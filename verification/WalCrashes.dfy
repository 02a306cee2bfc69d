/**
  Histories with crashes. A crash leaves only some first bytes of the newest segment; the next
  writer starts a new one, so what is torn is never appended to.
 */
module WalCrashes {
  import opened Values
  import opened WalFormat
  import opened WalNames
  import opened WalLog

  datatype Event = Open | Append(data: Bytes) | Crash(cut: nat)

  /** The records written to each segment, how many bytes of each are left, and whether a writer
      is at work on the newest. */
  datatype Disk = Disk(segs: seq<seq<Bytes>>, left: seq<nat>, live: bool) {
    ghost predicate Valid() {
      && |left| == |segs| && (live ==> segs != [])
      && (forall i | 0 <= i < |segs| :: left[i] <= |Log(segs[i])|)
      && (live ==> left[|segs| - 1] == |Log(segs[|segs| - 1])|)
    }

    /** The bytes of segment i. */
    function File(i: nat): Bytes
      requires Valid() && i < |segs|
    {
      Log(segs[i])[..left[i]]
    }

    function Files(): (contents: seq<Bytes>)
      requires Valid()
      ensures |contents| == |segs|
    {
      seq(|segs|, i requires 0 <= i < |segs| => File(i))
    }

    predicate IsTorn(i: nat)
      requires i < |segs| == |left|
    {
      left[i] < |Log(segs[i])|
    }

    /** The records of segment i that lie wholly in what is left of it. */
    ghost function Kept(i: nat): (records: seq<Bytes>)
      requires Valid() && i < |segs|
      ensures records <= segs[i] && WholeBefore(segs[i], left[i], |records|)
    {
      segs[i][..Whole(segs[i], left[i])]
    }

    ghost function AllKept(): (kept: seq<seq<Bytes>>)
      requires Valid()
      ensures |kept| == |segs|
    {
      seq(|segs|, i requires 0 <= i < |segs| => Kept(i))
    }
  }

  lemma WholeExists(records: seq<Bytes>, cut: nat)
    requires cut <= |Log(records)|
    ensures exists k: nat :: WholeBefore(records, cut, k)
  {
    var k := SomeWholePrefix(records, cut);
  }

  ghost function Whole(records: seq<Bytes>, cut: nat): (k: nat)
    requires cut <= |Log(records)|
    ensures WholeBefore(records, cut, k) && k <= |records|
  {
    WholeExists(records, cut);
    var k: nat :| WholeBefore(records, cut, k);
    k
  }

  predicate Possible(disk: Disk, e: Event) {
    e.Append? ==> disk.live && disk.segs != []
  }

  function After(disk: Disk, max: int, e: Event): Disk
    requires disk.Valid() && Possible(disk, e)
  {
    var last := |disk.segs| - 1;
    match e
    case Open => Disk(Opened(disk.segs), disk.left + [0], true)
    case Append(data) =>
      var segs := Appended(disk.segs, max, data);
      var size := |Log(segs[|segs| - 1])|;
      Disk(segs, if |segs| > |disk.segs| then disk.left + [size] else disk.left[last := size], true)
    case Crash(cut) =>
      if disk.segs == [] then disk
      else Disk(disk.segs, disk.left[last := if cut < disk.left[last] then cut else disk.left[last]], false)
  }

  lemma EmptyLog()
    ensures Log([]) == []
  {
  }

  lemma AfterIsValid(disk: Disk, max: int, e: Event)
    requires disk.Valid() && Possible(disk, e)
    ensures After(disk, max, e).Valid()
  {
    EmptyLog();
    hide Log, Record;
    if e.Append? {
      var segs := Appended(disk.segs, max, e.data);
      assert |segs| >= |disk.segs| && forall i | 0 <= i < |disk.segs| - 1 :: segs[i] == disk.segs[i];
    }
  }

  // ----- whole histories -----

  predicate Legal(disk: Disk, max: int, events: seq<Event>)
    requires disk.Valid()
    decreases |events|
  {
    events == [] ||
    (&& Possible(disk, events[0])
     && (AfterIsValid(disk, max, events[0]); Legal(After(disk, max, events[0]), max, events[1..])))
  }

  function Run(disk: Disk, max: int, events: seq<Event>): (end: Disk)
    requires disk.Valid() && Legal(disk, max, events)
    ensures end.Valid()
    decreases |events|
  {
    if events == [] then disk
    else
      AfterIsValid(disk, max, events[0]);
      Run(After(disk, max, events[0]), max, events[1..])
  }

  function Payloads(events: seq<Event>): seq<Bytes> {
    if events == [] then []
    else (if events[0].Append? then [events[0].data] else []) + Payloads(events[1..])
  }

  function Crashes(events: seq<Event>): nat {
    if events == [] then 0 else (if events[0].Crash? then 1 else 0) + Crashes(events[1..])
  }

  function Torn(disk: Disk): set<nat>
    requires disk.Valid()
  {
    set i: nat | i < |disk.segs| && disk.IsTorn(i)
  }

  /** One event adds its payload to what was written, tears at most one segment, and keeps to the
      size limit. */
  lemma StepKeepsRecords(disk: Disk, max: int, e: Event)
    requires disk.Valid() && Possible(disk, e) && AllWithinLimit(disk.segs, max)
    ensures var next := After(disk, max, e);
            && Flatten(next.segs) == Flatten(disk.segs) + (if e.Append? then [e.data] else [])
            && AllWithinLimit(next.segs, max)
  {
    hide Log, Flatten;
    if e.Append? {
      AppendedAddsOneRecord(disk.segs, max, e.data);
      AppendedStaysWithinLimit(disk.segs, max, e.data);
    } else {
      if e.Open? {
        OpenedKeepsRecords(disk.segs);
        EmptyLog();
      }
      assert Flatten(disk.segs) + [] == Flatten(disk.segs);
    }
  }

  lemma StepTearsOne(disk: Disk, max: int, e: Event)
    requires disk.Valid() && Possible(disk, e) && After(disk, max, e).Valid()
    ensures |Torn(After(disk, max, e))| <= |Torn(disk)| + if e.Crash? then 1 else 0
  {
    EmptyLog();
    hide Log;
    var next := After(disk, max, e);
    if e.Crash? && disk.segs != [] {
      assert Torn(next) <= Torn(disk) + {|disk.segs| - 1};
      SmallerSet(Torn(next), Torn(disk) + {|disk.segs| - 1});
    } else {
      assert Torn(next) <= Torn(disk);
      SmallerSet(Torn(next), Torn(disk));
    }
  }

  lemma {:induction false} SmallerSet(a: set<nat>, b: set<nat>)
    requires a <= b
    ensures |a| <= |b|
  {
    assert b == a + (b - a);
  }

  lemma {:induction false} RunKeepsRecords(disk: Disk, max: int, events: seq<Event>)
    requires disk.Valid() && Legal(disk, max, events) && AllWithinLimit(disk.segs, max)
    ensures Flatten(Run(disk, max, events).segs) == Flatten(disk.segs) + Payloads(events)
    ensures AllWithinLimit(Run(disk, max, events).segs, max)
    ensures |Torn(Run(disk, max, events))| <= |Torn(disk)| + Crashes(events)
    decreases |events|
  {
    hide Flatten, After, Torn, AllWithinLimit, Possible, Disk.Valid;
    if events == [] {
      assert Flatten(disk.segs) + [] == Flatten(disk.segs);
    } else {
      var e := events[0];
      AfterIsValid(disk, max, e);
      StepKeepsRecords(disk, max, e);
      StepTearsOne(disk, max, e);
      RunKeepsRecords(After(disk, max, e), max, events[1..]);
      var first := if e.Append? then [e.data] else [];
      assert Flatten(disk.segs) + (first + Payloads(events[1..])) == (Flatten(disk.segs) + first) + Payloads(events[1..]);
    }
  }

  // ----- what replay makes of it -----

  /** Whatever was delivered before, a segment delivers the records that are wholly left. */
  lemma FileDeliversKept(disk: Disk, i: nat, made: nat, accepts: nat -> bool)
    requires disk.Valid() && i < |disk.segs| && AllFit(disk.segs[i]) && AcceptsAll(accepts)
    ensures ReplayBytes(disk.File(i), made, accepts).calls == disk.Kept(i)
  {
    CutSegmentDeliversPrefix(disk.segs[i], disk.left[i], |disk.Kept(i)|, made, accepts);
    hide ReplayBytes, Log, WholeBefore;
  }

  lemma {:induction false} FilesDeliver(contents: seq<Bytes>, kept: seq<seq<Bytes>>, made: nat, accepts: nat -> bool)
    requires |contents| == |kept|
    requires forall i, n: nat | 0 <= i < |contents| :: ReplayBytes(contents[i], n, accepts).calls == kept[i]
    ensures ReplaySegments(contents, made, accepts) == Flatten(kept)
  {
    hide ReplayBytes;
    if contents != [] {
      FilesDeliver(contents[1..], kept[1..], made + |kept[0]|, accepts);
    }
  }

  lemma LogOfPrefix(records: seq<Bytes>, k: nat)
    requires k <= |records|
    ensures |Log(records[..k])| <= |Log(records)|
  {
    LogAppend(records[..k], records[k..]);
    assert records == records[..k] + records[k..];
    hide Log;
  }

  lemma WholeOfWhole(records: seq<Bytes>, k: nat)
    requires WholeBefore(records, |Log(records)|, k)
    ensures k == |records|
  {
    if k < |records| {
      LogOfPrefix(records, k + 1);
    }
    hide Log;
  }

  /** Main result: over every history of restarts, rotations, appends and crashes, replay delivers
      of each segment, in order, the records that lie wholly in what is left of it: a prefix of what
      was written to it, and all of it unless a crash tore it. No crash tears more than one segment,
      and everything ever appended was written to some segment, in order. */
  lemma CrashesLoseOnlyTails(max: int, events: seq<Event>, accepts: nat -> bool)
    requires Legal(Disk([], [], false), max, events) && AllFit(Payloads(events)) && AcceptsAll(accepts)
    ensures var disk := Run(Disk([], [], false), max, events);
            && ReplaySegments(disk.Files(), 0, accepts) == Flatten(disk.AllKept())
            && Flatten(disk.segs) == Payloads(events)
            && (forall i | 0 <= i < |disk.segs| :: disk.Kept(i) <= disk.segs[i])
            && (forall i | 0 <= i < |disk.segs| && i !in Torn(disk) :: disk.Kept(i) == disk.segs[i])
            && |Torn(disk)| <= Crashes(events)
            && AllWithinLimit(disk.segs, max)
  {
    var disk := Run(Disk([], [], false), max, events);
    RunKeepsRecords(Disk([], [], false), max, events);
    assert Flatten([]) + Payloads(events) == Payloads(events);
    assert Torn(Disk([], [], false)) == {};
    DiskReplays(disk, accepts);
    forall i | 0 <= i < |disk.segs| && i !in Torn(disk) ensures disk.Kept(i) == disk.segs[i] {
      WholeOfWhole(disk.segs[i], |disk.Kept(i)|);
    }
    hide ReplayBytes, Log, WholeBefore, Flatten, Run, Legal;
  }

  /** Main result: so replaying the directory itself delivers exactly those records, as long as there
      are fewer than 10^10 segments. */
  lemma ReplayAfterCrashes(max: int, events: seq<Event>, files: map<string, Bytes>, names: seq<string>, accepts: nat -> bool)
    requires Legal(Disk([], [], false), max, events) && AllFit(Payloads(events)) && AcceptsAll(accepts)
    requires SegmentFiles(files, Run(Disk([], [], false), max, events).Files()) && IsListing(names, files)
    requires |Run(Disk([], [], false), max, events).segs| < TEN_10
    ensures forall i | 0 <= i < |names| :: names[i] in files
    ensures ReplaySegments(FileContents(names, files), 0, accepts) == Flatten(Run(Disk([], [], false), max, events).AllKept())
  {
    CrashesLoseOnlyTails(max, events, accepts);
    ListedAreFiles(names, files);
    hide Run, Legal, SegmentFiles, IsListing, ReplaySegments, Flatten;
    ListedContents(names, files, Run(Disk([], [], false), max, events).Files());
  }

  lemma ListedAreFiles(names: seq<string>, files: map<string, Bytes>)
    requires IsListing(names, files)
    ensures forall i | 0 <= i < |names| :: names[i] in files
  {
    forall i | 0 <= i < |names| ensures names[i] in files {
      assert names[i] in names;
    }
  }

  /** What a disk keeps is what replaying its files delivers. */
  lemma DiskReplays(disk: Disk, accepts: nat -> bool)
    requires disk.Valid() && AllFit(Flatten(disk.segs)) && AcceptsAll(accepts)
    ensures ReplaySegments(disk.Files(), 0, accepts) == Flatten(disk.AllKept())
    ensures Torn(disk) == {} ==> disk.AllKept() == disk.segs
  {
    SegmentsFit(disk.segs);
    forall i, n: nat | 0 <= i < |disk.segs| ensures ReplayBytes(disk.Files()[i], n, accepts).calls == disk.AllKept()[i] {
      FileDeliversKept(disk, i, n, accepts);
    }
    if Torn(disk) == {} {
      forall i: nat | i < |disk.segs| ensures disk.Kept(i) == disk.segs[i] {
        assert i !in Torn(disk);
        WholeOfWhole(disk.segs[i], |disk.Kept(i)|);
      }
    }
    hide ReplayBytes, Log, WholeBefore, Flatten;
    FilesDeliver(disk.Files(), disk.AllKept(), 0, accepts);
  }
}
