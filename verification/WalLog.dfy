/**
  The log directory, the writer that appends to it across restarts and rotations, and the
  replay of the whole directory.
 */
module WalLog {
  import opened Values
  import opened Crc32
  import opened WalFormat
  import opened WalNames

  // ----- what the directory holds -----

  /** The names of segments 1 to n. */
  function NumberedNames(n: nat): (names: seq<string>)
    ensures |names| == n
  {
    seq(n, i requires 0 <= i < n => Name(i + 1))
  }

  /** The .wal files are Name(1) .. Name(n) with the given contents; other files may exist. */
  ghost predicate SegmentFiles(files: map<string, Bytes>, contents: seq<Bytes>) {
    && (forall i: nat | 0 < i <= |contents| :: Name(i) in files && files[Name(i)] == contents[i - 1])
    && (forall name :: name in files && HasSuffix(name) <==> name in NumberedNames(|contents|))
  }

  /** Segment i holds exactly the records segs[i]. */
  ghost predicate Intact(contents: seq<Bytes>, segs: seq<seq<Bytes>>) {
    |contents| == |segs| && forall i | 0 <= i < |segs| :: contents[i] == Log(segs[i])
  }

  function Flatten(segs: seq<seq<Bytes>>): seq<Bytes> {
    if segs == [] then [] else segs[0] + Flatten(segs[1..])
  }

  lemma {:induction false} FlattenAppend(u: seq<seq<Bytes>>, v: seq<seq<Bytes>>)
    ensures Flatten(u + v) == Flatten(u) + Flatten(v)
  {
    if u == [] {
      assert u + v == v;
    } else {
      assert (u + v)[1..] == u[1..] + v;
      FlattenAppend(u[1..], v);
    }
  }

  lemma FlattenOne(s: seq<Bytes>)
    ensures Flatten([s]) == s
  {
    assert [s][1..] == [];
    assert Flatten([s]) == s + [];
  }

  // ----- the operations on the list of segments -----

  /** Opening a writer starts a new, empty segment. */
  function Opened(segs: seq<seq<Bytes>>): seq<seq<Bytes>> {
    segs + [[]]
  }

  /** Appending starts a new segment first if the record does not fit the last one. */
  function Appended(segs: seq<seq<Bytes>>, max: int, data: Bytes): seq<seq<Bytes>>
    requires segs != []
  {
    var last := |segs| - 1;
    if |Log(segs[last])| + |Record(data)| > max then segs + [[data]]
    else segs[last := segs[last] + [data]]
  }

  lemma OpenedKeepsRecords(segs: seq<seq<Bytes>>)
    ensures Flatten(Opened(segs)) == Flatten(segs)
  {
    FlattenAppend(segs, [[]]);
    FlattenOne([]);
  }

  lemma AppendedAddsOneRecord(segs: seq<seq<Bytes>>, max: int, data: Bytes)
    requires segs != []
    ensures Flatten(Appended(segs, max, data)) == Flatten(segs) + [data]
  {
    hide Log, Record, Flatten;
    var last := |segs| - 1;
    var init := segs[..last];
    if |Log(segs[last])| + |Record(data)| > max {
      FlattenAppend(segs, [[data]]);
      FlattenOne([data]);
    } else {
      assert segs == init + [segs[last]];
      assert Appended(segs, max, data) == init + [segs[last] + [data]];
      FlattenAppend(init, [segs[last]]);
      FlattenAppend(init, [segs[last] + [data]]);
      FlattenOne(segs[last]);
      FlattenOne(segs[last] + [data]);
    }
  }

  lemma LogOfOne(data: Bytes)
    ensures Log([data]) == Record(data)
  {
    assert [data][1..] == [];
    assert Log([data]) == Record(data) + [];
  }

  /** A segment respects the limit, or could not because it holds a single record. */
  ghost predicate WithinLimit(seg: seq<Bytes>, max: int) {
    |Log(seg)| <= max || |seg| <= 1
  }

  ghost predicate AllWithinLimit(segs: seq<seq<Bytes>>, max: int) {
    forall i | 0 <= i < |segs| :: WithinLimit(segs[i], max)
  }

  lemma LogGrows(seg: seq<Bytes>, data: Bytes)
    ensures |Log(seg + [data])| == |Log(seg)| + |Record(data)|
  {
    LogAppend(seg, [data]);
    LogOfOne(data);
  }

  lemma AppendedStaysWithinLimit(segs: seq<seq<Bytes>>, max: int, data: Bytes)
    requires segs != [] && AllWithinLimit(segs, max)
    ensures AllWithinLimit(Appended(segs, max, data), max)
  {
    LogGrows(segs[|segs| - 1], data);
    hide Log, Record;
    var after := Appended(segs, max, data);
    forall i | 0 <= i < |after| ensures WithinLimit(after[i], max) {
      if i < |segs| {
        assert WithinLimit(segs[i], max);
      }
    }
  }

  // ----- whole histories: any number of restarts and appends -----

  datatype Op = Open | Append(data: Bytes)

  /** A writer is opened before the first append, as every program must. */
  predicate Runnable(ops: seq<Op>) {
    ops == [] || ops[0].Open?
  }

  function RunOps(ops: seq<Op>, max: int): (segs: seq<seq<Bytes>>)
    requires Runnable(ops)
    ensures ops != [] ==> segs != []
  {
    if ops == [] then []
    else
      var segs := RunOps(ops[..|ops| - 1], max);
      match ops[|ops| - 1]
      case Open => Opened(segs)
      case Append(data) => Appended(segs, max, data)
  }

  function Payloads(ops: seq<Op>): seq<Bytes> {
    if ops == [] then []
    else
      match ops[|ops| - 1]
      case Open => Payloads(ops[..|ops| - 1])
      case Append(data) => Payloads(ops[..|ops| - 1]) + [data]
  }

  /** Over every history the segments hold the appended payloads in order, none lost at a
      restart or a rotation, and every segment keeps to the size limit. */
  lemma {:induction false} HistoryKeepsEveryPayload(ops: seq<Op>, max: int)
    requires Runnable(ops)
    ensures Flatten(RunOps(ops, max)) == Payloads(ops)
    ensures AllWithinLimit(RunOps(ops, max), max)
  {
    if ops != [] {
      var before := ops[..|ops| - 1];
      HistoryKeepsEveryPayload(before, max);
      var segs := RunOps(before, max);
      match ops[|ops| - 1]
      case Open =>
        OpenedKeepsRecords(segs);
      case Append(data) =>
        AppendedAddsOneRecord(segs, max, data);
        AppendedStaysWithinLimit(segs, max, data);
    }
  }

  // ----- replaying the directory -----

  /** The names replay visits: every .wal file once, in the order of sort.Strings. */
  ghost predicate IsListing(names: seq<string>, files: map<string, Bytes>) {
    && (forall i, j | 0 <= i < j < |names| :: Before(names[i], names[j]))
    && (forall name :: name in names <==> name in files && HasSuffix(name))
  }

  /** Replay of the segments one after the other; an error skips the rest of its segment only. */
  function ReplaySegments(contents: seq<Bytes>, made: nat, accepts: nat -> bool): seq<Bytes> {
    if contents == [] then []
    else
      var first := ReplayBytes(contents[0], made, accepts).calls;
      first + ReplaySegments(contents[1..], made + |first|, accepts)
  }

  lemma HasMember(v: seq<string>)
    ensures v == [] || exists name :: name in v
  {
    if v != [] {
      assert v[0] in v;
    }
  }

  /** Two strictly ordered listings of the same names are equal. */
  lemma {:induction false} OrderedListingIsUnique(u: seq<string>, v: seq<string>)
    requires forall i, j | 0 <= i < j < |u| :: Before(u[i], u[j])
    requires forall i, j | 0 <= i < j < |v| :: Before(v[i], v[j])
    requires forall name :: name in u <==> name in v
    ensures u == v
    decreases |u|
  {
    if u == [] {
      HasMember(v);
    } else {
      assert u[0] in v;
      assert v[0] in u;
      FirstIsLeast(u, v[0]);
      FirstIsLeast(v, u[0]);
      BeforeIsTotal(u[0], v[0]);
      forall name ensures name in u[1..] <==> name in v[1..] {
        RestIsOther(u, name);
        RestIsOther(v, name);
      }
      OrderedListingIsUnique(u[1..], v[1..]);
    }
  }

  lemma FirstIsLeast(u: seq<string>, name: string)
    requires forall i, j | 0 <= i < j < |u| :: Before(u[i], u[j])
    requires name in u
    ensures name == u[0] || Before(u[0], name)
  {
  }

  lemma RestIsOther(u: seq<string>, name: string)
    requires u != [] && forall i, j | 0 <= i < j < |u| :: Before(u[i], u[j])
    ensures name in u[1..] <==> name in u && name != u[0]
  {
    BeforeIsTotal(u[0], u[0]);
  }

  /** Replay visits the segments in the order they were written. */
  lemma ListingIsNumeric(names: seq<string>, files: map<string, Bytes>, contents: seq<Bytes>)
    requires SegmentFiles(files, contents) && IsListing(names, files) && |contents| < TEN_10
    ensures names == NumberedNames(|contents|)
  {
    hide Before, Name, HasSuffix;
    var numbered := NumberedNames(|contents|);
    forall i, j | 0 <= i < j < |numbered| ensures Before(numbered[i], numbered[j]) {
      NamesSortNumerically(i + 1, j + 1);
    }
    OrderedListingIsUnique(names, numbered);
  }

  lemma {:induction false} IntactSegmentsReplay(contents: seq<Bytes>, segs: seq<seq<Bytes>>, made: nat, accepts: nat -> bool)
    requires Intact(contents, segs) && AcceptsAll(accepts) && forall i | 0 <= i < |segs| :: AllFit(segs[i])
    ensures ReplaySegments(contents, made, accepts) == Flatten(segs)
  {
    hide ReplayBytes, Log;
    if segs != [] {
      WriteThenReplay(segs[0], made, accepts);
      IntactSegmentsReplay(contents[1..], segs[1..], made + |segs[0]|, accepts);
    }
  }

  /** Replay is the concatenation of what each segment delivers, damaged or not. */
  lemma {:induction false} ReplaySplits(u: seq<Bytes>, v: seq<Bytes>, made: nat, accepts: nat -> bool)
    ensures ReplaySegments(u + v, made, accepts)
            == ReplaySegments(u, made, accepts)
               + ReplaySegments(v, made + |ReplaySegments(u, made, accepts)|, accepts)
  {
    hide ReplayBytes;
    if u == [] {
      assert u + v == v;
    } else {
      assert (u + v)[1..] == u[1..] + v;
      ReplaySplits(u[1..], v, made + |ReplayBytes(u[0], made, accepts).calls|, accepts);
    }
  }

  lemma ReplayOne(bytes: Bytes, made: nat, accepts: nat -> bool)
    ensures ReplaySegments([bytes], made, accepts) == ReplayBytes(bytes, made, accepts).calls
  {
    hide ReplayBytes;
    assert [bytes][1..] == [];
    var first := ReplayBytes(bytes, made, accepts).calls;
    assert first + [] == first;
  }

  /** A damaged segment costs only its own records: everything in the others is delivered. */
  lemma DamageIsContained(contents: seq<Bytes>, segs: seq<seq<Bytes>>, i: nat, delivered: seq<Bytes>,
                          made: nat, accepts: nat -> bool)
    requires |contents| == |segs| && i < |segs| && AcceptsAll(accepts)
    requires forall j | 0 <= j < |segs| :: AllFit(segs[j]) && (j != i ==> contents[j] == Log(segs[j]))
    requires forall n :: ReplayBytes(contents[i], n, accepts).calls == delivered
    ensures ReplaySegments(contents, made, accepts) == Flatten(segs[..i]) + delivered + Flatten(segs[i + 1..])
  {
    hide ReplayBytes, Log, ReplaySegments, Flatten, AllFit;
    var before, after := contents[..i], contents[i + 1..];
    assert contents == before + ([contents[i]] + after);
    IntactSegmentsReplay(before, segs[..i], made, accepts);
    ReplaySplits(before, [contents[i]] + after, made, accepts);
    var n := made + |ReplaySegments(before, made, accepts)|;
    ReplaySplits([contents[i]], after, n, accepts);
    ReplayOne(contents[i], n, accepts);
    IntactSegmentsReplay(after, segs[i + 1..], n + |delivered|, accepts);
  }

  /** Main result: after any history of restarts, rotations and appends, replaying the directory
      delivers every appended payload once, in append order. */
  lemma ReplayInvertsHistory(ops: seq<Op>, max: int, files: map<string, Bytes>, contents: seq<Bytes>,
                             names: seq<string>, accepts: nat -> bool)
    requires Runnable(ops) && Intact(contents, RunOps(ops, max)) && SegmentFiles(files, contents)
    requires AllFit(Payloads(ops)) && |contents| < TEN_10 && AcceptsAll(accepts)
    requires IsListing(names, files)
    ensures names == NumberedNames(|contents|)
    ensures ReplaySegments(contents, 0, accepts) == Payloads(ops)
  {
    HistoryKeepsEveryPayload(ops, max);
    ListingIsNumeric(names, files, contents);
    SegmentsFit(RunOps(ops, max));
    IntactSegmentsReplay(contents, RunOps(ops, max), 0, accepts);
  }

  lemma {:induction false} SegmentsFit(segs: seq<seq<Bytes>>)
    requires AllFit(Flatten(segs))
    ensures forall i | 0 <= i < |segs| :: AllFit(segs[i])
  {
    if segs != [] {
      var all := Flatten(segs);
      assert forall j | 0 <= j < |segs[0]| :: segs[0][j] == all[j];
      assert forall j | 0 <= j < |Flatten(segs[1..])| :: Flatten(segs[1..])[j] == all[|segs[0]| + j];
      SegmentsFit(segs[1..]);
      assert forall i | 0 < i < |segs| :: segs[i] == segs[1..][i - 1];
    }
  }

  /** Main result: a crash that leaves only the first `cut` bytes of the last segment loses exactly
      the records not wholly before the cut, so replay delivers a prefix of the log. */
  lemma CrashDeliversPrefix(segs: seq<seq<Bytes>>, cut: nat, k: nat, made: nat, accepts: nat -> bool)
    requires segs != [] && AcceptsAll(accepts) && forall i | 0 <= i < |segs| :: AllFit(segs[i])
    requires cut <= |Log(segs[|segs| - 1])| && WholeBefore(segs[|segs| - 1], cut, k)
    ensures var last := |segs| - 1;
            var contents := seq(|segs|, i requires 0 <= i < |segs| => if i == last then Log(segs[i])[..cut] else Log(segs[i]));
            && ReplaySegments(contents, made, accepts) == Flatten(segs[..last]) + segs[last][..k]
            && ReplaySegments(contents, made, accepts) <= Flatten(segs)
  {
    hide ReplayBytes, Log, WholeBefore;
    var last := |segs| - 1;
    var contents := seq(|segs|, i requires 0 <= i < |segs| => if i == last then Log(segs[i])[..cut] else Log(segs[i]));
    WholeIsAPrefix(segs[last], cut, k);
    forall n: nat ensures ReplayBytes(contents[last], n, accepts).calls == segs[last][..k] {
      CutSegmentDeliversPrefix(segs[last], cut, k, n, accepts);
    }
    DamageIsContained(contents, segs, last, segs[last][..k], made, accepts);
    assert segs[last + 1..] == [];
    assert segs == segs[..last] + [segs[last]];
    FlattenAppend(segs[..last], [segs[last]]);
    FlattenOne(segs[last]);
    assert Flatten(segs[..last]) + segs[last][..k] + [] == Flatten(segs[..last]) + segs[last][..k];
  }

  lemma WholeIsAPrefix(records: seq<Bytes>, cut: nat, k: nat)
    requires WholeBefore(records, cut, k)
    ensures k <= |records|
  {
  }

  /** Main result: overwriting up to four consecutive bytes of one payload costs that record and
      the ones after it in its segment, and nothing else. */
  lemma CorruptionCostsOnlyItsTail(segs: seq<seq<Bytes>>, i: nat, j: nat, data: Bytes, at: int,
                                   made: nat, accepts: nat -> bool)
    requires AcceptsAll(accepts) && forall n | 0 <= n < |segs| :: AllFit(segs[n])
    requires i < |segs| && j < |segs[i]| && |data| == |segs[i][j]| && data != segs[i][j]
    requires forall n | 0 <= n < |data| && data[n] != segs[i][j][n] :: at <= n < at + 4
    ensures var contents := seq(|segs|, n requires 0 <= n < |segs| => if n == i then Overwritten(segs[i], j, data) else Log(segs[n]));
            ReplaySegments(contents, made, accepts) == Flatten(segs[..i]) + segs[i][..j] + Flatten(segs[i + 1..])
  {
    hide ReplayBytes, Log, Overwritten;
    var contents := seq(|segs|, n requires 0 <= n < |segs| => if n == i then Overwritten(segs[i], j, data) else Log(segs[n]));
    forall n: nat ensures ReplayBytes(contents[i], n, accepts).calls == segs[i][..j] {
      FourByteCorruptionIsDetected(segs[i], j, data, at, n, accepts);
    }
    DamageIsContained(contents, segs, i, segs[i][..j], made, accepts);
  }

  // ----- the contents a listing stands for -----

  function FileContents(names: seq<string>, files: map<string, Bytes>): (contents: seq<Bytes>)
    requires forall i | 0 <= i < |names| :: names[i] in files
    ensures |contents| == |names|
  {
    seq(|names|, i requires 0 <= i < |names| => files[names[i]])
  }

  /** Replay reads the segments in the order they were created. */
  lemma ListedContents(names: seq<string>, files: map<string, Bytes>, contents: seq<Bytes>)
    requires SegmentFiles(files, contents) && IsListing(names, files) && |contents| < TEN_10
    requires forall i | 0 <= i < |names| :: names[i] in files
    ensures FileContents(names, files) == contents
  {
    ListingIsNumeric(names, files, contents);
    hide Name, HasSuffix, IsListing, Before;
    forall i | 0 <= i < |names| ensures files[names[i]] == contents[i] {
      assert names[i] == Name(i + 1);
    }
  }
}
