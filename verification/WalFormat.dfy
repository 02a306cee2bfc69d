/**
  Record framing of the write-ahead log: [length:4][crc32:4][payload], little endian, and what
  replaying the bytes of one segment delivers.
 */
module WalFormat {
  import opened Values
  import opened Crc32

  const HEADER_SIZE: nat := 8

  const TWO_32: nat := 0x1_0000_0000

  predicate IsOdd(n: nat) { n % 2 == 1 }

  /** The conversion to a byte: the lowest 8 binary digits, and nothing above them. */
  function ByteOf(n: nat): bv8 {
    Pack(IsOdd(n), IsOdd(n / 2), IsOdd(n / 4), IsOdd(n / 8), IsOdd(n / 16), IsOdd(n / 32), IsOdd(n / 64), IsOdd(n / 128))
  }

  function Pack(b0: bool, b1: bool, b2: bool, b3: bool, b4: bool, b5: bool, b6: bool, b7: bool): bv8 {
    (if b0 then 1 else 0) | (if b1 then 2 else 0) | (if b2 then 4 else 0) | (if b3 then 8 else 0)
    | (if b4 then 16 else 0) | (if b5 then 32 else 0) | (if b6 then 64 else 0) | (if b7 then 128 else 0)
  }

  lemma PackValue(b0: bool, b1: bool, b2: bool, b3: bool, b4: bool, b5: bool, b6: bool, b7: bool)
    ensures Pack(b0, b1, b2, b3, b4, b5, b6, b7) as nat
            == (if b0 then 1 else 0) + (if b1 then 2 else 0) + (if b2 then 4 else 0) + (if b3 then 8 else 0)
               + (if b4 then 16 else 0) + (if b5 then 32 else 0) + (if b6 then 64 else 0) + (if b7 then 128 else 0)
  {
  }

  lemma LowBit(n: nat)
    ensures n == (if IsOdd(n) then 1 else 0) + 2 * (n / 2)
  {
  }

  lemma LowNibble(n: nat)
    ensures n == (if IsOdd(n) then 1 else 0) + (if IsOdd(n / 2) then 2 else 0) + (if IsOdd(n / 4) then 4 else 0)
                 + (if IsOdd(n / 8) then 8 else 0) + 16 * (n / 16)
  {
    assert n / 4 == n / 2 / 2 && n / 8 == n / 4 / 2 && n / 16 == n / 8 / 2;
    LowBit(n);
    LowBit(n / 2);
    LowBit(n / 4);
    LowBit(n / 8);
    hide IsOdd;
  }

  lemma ByteOfValue(n: nat)
    ensures ByteOf(n) as nat == n % 256
  {
    PackValue(IsOdd(n), IsOdd(n / 2), IsOdd(n / 4), IsOdd(n / 8), IsOdd(n / 16), IsOdd(n / 32), IsOdd(n / 64), IsOdd(n / 128));
    LowByte(n);
    hide Pack, IsOdd;
  }

  lemma LowByte(n: nat)
    ensures n % 256 == (if IsOdd(n) then 1 else 0) + (if IsOdd(n / 2) then 2 else 0) + (if IsOdd(n / 4) then 4 else 0)
                       + (if IsOdd(n / 8) then 8 else 0) + (if IsOdd(n / 16) then 16 else 0) + (if IsOdd(n / 32) then 32 else 0)
                       + (if IsOdd(n / 64) then 64 else 0) + (if IsOdd(n / 128) then 128 else 0)
  {
    LowNibble(n);
    LowNibble(n / 16);
    assert n / 16 / 2 == n / 32 && n / 16 / 4 == n / 64 && n / 16 / 8 == n / 128 && n / 16 / 16 == n / 256;
    assert n == 256 * (n / 256) + n % 256;
    hide IsOdd;
  }

  /** PutUint32 of uint32(n), the lowest byte first; what does not fit 32 bits is dropped. */
  function LittleEndian(n: nat): (b: Bytes)
    ensures |b| == 4
  {
    [ByteOf(n), ByteOf(n / 256), ByteOf(n / 65536), ByteOf(n / 16777216)]
  }

  function FromLittleEndian(b: Bytes): (n: nat)
    requires |b| == 4
  {
    ByteValue(b[0]) + 256 * ByteValue(b[1]) + 65536 * ByteValue(b[2]) + 16777216 * ByteValue(b[3])
  }

  function ByteValue(b: bv8): nat { b as nat }

  /** 2^32, the first length the header cannot represent. */
  lemma LengthFieldBound(b: Bytes)
    requires |b| == 4
    ensures FromLittleEndian(b) < TWO_32
  {
  }

  /** The four base-256 digits of a number make it up. */
  lemma Base256(n: nat)
    ensures n == n % 256 + 256 * (n / 256 % 256) + 65536 * (n / 65536 % 256) + 16777216 * (n / 16777216)
  {
    LowDigit(n);
    LowDigit(n / 256);
    LowDigit(n / 256 / 256);
    assert n / 65536 == n / 256 / 256 && n / 16777216 == n / 256 / 256 / 256;
  }

  lemma LowDigit(n: nat)
    ensures n == n % 256 + 256 * (n / 256)
  {
  }

  /** A length comes back, and its lowest byte is the first. */
  lemma LittleEndianRoundTrip(n: nat)
    requires n < TWO_32
    ensures FromLittleEndian(LittleEndian(n)) == n
    ensures var b := LittleEndian(n);
            n == b[0] as nat + 256 * b[1] as nat + 65536 * b[2] as nat + 16777216 * b[3] as nat
  {
    DigitsMakeUp(n);
    hide LittleEndian;
  }

  lemma DigitsMakeUp(n: nat)
    requires n < TWO_32
    ensures FromLittleEndian(LittleEndian(n)) == n
  {
    LittleEndianDigits(n);
    hide LittleEndian, ByteValue;
    TopDigit(n);
    Base256(n);
  }

  lemma TopDigit(n: nat)
    requires n < TWO_32
    ensures n / 16777216 % 256 == n / 16777216
  {
  }

  lemma LittleEndianDigits(n: nat)
    ensures var b := LittleEndian(n);
            && ByteValue(b[0]) == n % 256 && ByteValue(b[1]) == n / 256 % 256
            && ByteValue(b[2]) == n / 65536 % 256 && ByteValue(b[3]) == n / 16777216 % 256
  {
    ByteOfValue(n);
    ByteOfValue(n / 256);
    ByteOfValue(n / 65536);
    ByteOfValue(n / 16777216);
    hide ByteOf;
  }

  /** Byte k of the length field is digit k of the length in base 256, lowest first. */
  lemma LengthField(data: Bytes)
    ensures var h := Header(data);
            && h[0] as nat == |data| % 256 && h[1] as nat == |data| / 256 % 256
            && h[2] as nat == |data| / 65536 % 256 && h[3] as nat == |data| / 16777216 % 256
  {
    LittleEndianDigits(|data|);
    hide LittleEndian, ChecksumBytes;
    var h := Header(data);
    assert h[..4] == LittleEndian(|data|);
    assert h[0] == h[..4][0] && h[1] == h[..4][1] && h[2] == h[..4][2] && h[3] == h[..4][3];
  }

  /** The checksum field follows it, its lowest byte first as well. */
  lemma ChecksumField(data: Bytes)
    ensures var h := Header(data);
            Checksum(data) == h[4] as bv32 + 256 * (h[5] as bv32) + 65536 * (h[6] as bv32) + 16777216 * (h[7] as bv32)
  {
    hide Checksum, LittleEndian;
    ChecksumDigits(Checksum(data));
    hide ChecksumBytes;
    var h := Header(data);
    assert h[4..] == ChecksumBytes(Checksum(data));
    assert h[4] == h[4..][0] && h[5] == h[4..][1] && h[6] == h[4..][2] && h[7] == h[4..][3];
  }

  lemma ChecksumDigits(c: bv32)
    ensures var b := ChecksumBytes(c);
            c == b[0] as bv32 + 256 * (b[1] as bv32) + 65536 * (b[2] as bv32) + 16777216 * (b[3] as bv32)
  {
  }

  /** Reading the field back takes the bytes in the same order. */
  lemma ChecksumFromDigits(b: Bytes)
    requires |b| == 4
    ensures ChecksumFrom(b) == b[0] as bv32 + 256 * (b[1] as bv32) + 65536 * (b[2] as bv32) + 16777216 * (b[3] as bv32)
  {
  }

  function ChecksumBytes(c: bv32): (b: Bytes)
    ensures |b| == 4
  {
    [(c & 0xff) as bv8, ((c >> 8) & 0xff) as bv8, ((c >> 16) & 0xff) as bv8, (c >> 24) as bv8]
  }

  function ChecksumFrom(b: Bytes): bv32
    requires |b| == 4
  {
    (b[0] as bv32) | ((b[1] as bv32) << 8) | ((b[2] as bv32) << 16) | ((b[3] as bv32) << 24)
  }

  lemma ChecksumRoundTrip(c: bv32)
    ensures ChecksumFrom(ChecksumBytes(c)) == c
  {
  }

  function Header(data: Bytes): (h: Bytes)
    ensures |h| == HEADER_SIZE
  {
    LittleEndian(|data|) + ChecksumBytes(Checksum(data))
  }

  /** What Append writes for one payload. */
  function Record(data: Bytes): (r: Bytes)
    ensures |r| == HEADER_SIZE + |data|
  {
    Header(data) + data
  }

  /** What a record adds to a file, byte by byte. */
  lemma RecordLayout(before: Bytes, data: Bytes)
    ensures var at, f := |before|, before + Record(data);
            && |f| == at + HEADER_SIZE + |data| && f[..at] == before && f[at + 8..] == data
            && f[at] as nat == |data| % 256 && f[at + 1] as nat == |data| / 256 % 256
            && f[at + 2] as nat == |data| / 65536 % 256 && f[at + 3] as nat == |data| / 16777216 % 256
            && Checksum(data)
               == f[at + 4] as bv32 + 256 * (f[at + 5] as bv32) + 65536 * (f[at + 6] as bv32) + 16777216 * (f[at + 7] as bv32)
  {
    LengthField(data);
    ChecksumField(data);
    hide Header, Checksum;
    var at, f, h := |before|, before + Record(data), Header(data);
    assert forall k | 0 <= k < 8 :: f[at + k] == h[k];
  }

  function Log(records: seq<Bytes>): Bytes {
    if records == [] then [] else Record(records[0]) + Log(records[1..])
  }

  lemma {:induction false} LogAppend(u: seq<Bytes>, v: seq<Bytes>)
    ensures Log(u + v) == Log(u) + Log(v)
  {
    if u == [] {
      assert u + v == v;
    } else {
      assert (u + v)[1..] == u[1..] + v;
      LogAppend(u[1..], v);
    }
  }

  // ----- replaying one segment -----

  /** Why the replay of a segment stopped. Only `EndOfLog` is not an error. */
  datatype Stop = EndOfLog | TornData | BadChecksum | CallbackFailed

  /** `calls` is what the callback received, in order. */
  datatype Replayed = Replayed(calls: seq<Bytes>, stop: Stop)

  /** Replay of the bytes of one segment. `accepts(i)` says whether the callback's i-th call of the
      whole replay succeeds; `made` calls have been made before. */
  function ReplayBytes(bytes: Bytes, made: nat, accepts: nat -> bool): Replayed
    decreases |bytes|
  {
    if |bytes| < HEADER_SIZE then Replayed([], EndOfLog)
    else
      var length := FromLittleEndian(bytes[..4]);
      if |bytes| - HEADER_SIZE < length then Replayed([], TornData)
      else
        var data := bytes[HEADER_SIZE..HEADER_SIZE + length];
        if Checksum(data) != ChecksumFrom(bytes[4..8]) then Replayed([], BadChecksum)
        else if !accepts(made) then Replayed([data], CallbackFailed)
        else
          var rest := ReplayBytes(bytes[HEADER_SIZE + length..], made + 1, accepts);
          Replayed([data] + rest.calls, rest.stop)
  }

  ghost predicate AcceptsAll(accepts: nat -> bool) {
    forall i :: accepts(i)
  }

  /** The length field can represent every payload. */
  ghost predicate AllFit(records: seq<Bytes>) {
    forall i | 0 <= i < |records| :: |records[i]| < TWO_32
  }

  lemma HeaderFields(data: Bytes, rest: Bytes)
    requires |data| < TWO_32
    ensures var bytes := Record(data) + rest;
            && FromLittleEndian(bytes[..4]) == |data|
            && ChecksumFrom(bytes[4..8]) == Checksum(data)
            && bytes[HEADER_SIZE..HEADER_SIZE + |data|] == data
            && bytes[HEADER_SIZE + |data|..] == rest
  {
    hide LittleEndian, ChecksumBytes, FromLittleEndian, ChecksumFrom, Checksum;
    var bytes := Record(data) + rest;
    LittleEndianRoundTrip(|data|);
    ChecksumRoundTrip(Checksum(data));
    assert bytes[..4] == LittleEndian(|data|);
    assert bytes[4..8] == ChecksumBytes(Checksum(data));
  }

  /** A whole record at the front is delivered and replay goes on behind it. */
  lemma ReplayOneRecord(data: Bytes, rest: Bytes, made: nat, accepts: nat -> bool)
    requires |data| < TWO_32 && accepts(made)
    ensures var tail := ReplayBytes(rest, made + 1, accepts);
            ReplayBytes(Record(data) + rest, made, accepts) == Replayed([data] + tail.calls, tail.stop)
  {
    hide LittleEndian, ChecksumBytes, FromLittleEndian, ChecksumFrom, Checksum, Record;
    HeaderFields(data, rest);
  }

  /** Replay of whole records followed by anything delivers the records and then the rest. */
  lemma {:induction false} ReplayWholeRecords(records: seq<Bytes>, rest: Bytes, made: nat, accepts: nat -> bool)
    requires AllFit(records) && AcceptsAll(accepts)
    ensures var tail := ReplayBytes(rest, made + |records|, accepts);
            ReplayBytes(Log(records) + rest, made, accepts) == Replayed(records + tail.calls, tail.stop)
    decreases |records|
  {
    hide ReplayBytes, Record;
    if records == [] {
      assert Log(records) + rest == rest;
      var tail := ReplayBytes(rest, made, accepts);
      assert records + tail.calls == tail.calls;
    } else {
      var behind := Log(records[1..]) + rest;
      assert Log(records) + rest == Record(records[0]) + behind;
      ReplayOneRecord(records[0], behind, made, accepts);
      ReplayWholeRecords(records[1..], rest, made + 1, accepts);
      var tail := ReplayBytes(rest, made + |records|, accepts);
      assert [records[0]] + (records[1..] + tail.calls) == records + tail.calls;
    }
  }

  /** Main result: replaying what was written delivers exactly what was written. */
  lemma WriteThenReplay(records: seq<Bytes>, made: nat, accepts: nat -> bool)
    requires AllFit(records) && AcceptsAll(accepts)
    ensures ReplayBytes(Log(records), made, accepts) == Replayed(records, EndOfLog)
  {
    ReplayWholeRecords(records, [], made, accepts);
    assert Log(records) + [] == Log(records);
    assert records + [] == records;
  }

  /** The first payload the callback refuses is the last one of the segment it gets to see. */
  lemma {:induction false} RefusalStops(records: seq<Bytes>, k: nat, made: nat, accepts: nat -> bool)
    requires AllFit(records) && k < |records|
    requires !accepts(made + k) && forall n: nat | made <= n < made + k :: accepts(n)
    ensures ReplayBytes(Log(records), made, accepts) == Replayed(records[..k + 1], CallbackFailed)
    decreases k
  {
    hide LittleEndian, ChecksumBytes, FromLittleEndian, ChecksumFrom, Checksum, Record;
    var behind := Log(records[1..]);
    HeaderFields(records[0], behind);
    if k > 0 {
      RefusalStops(records[1..], k - 1, made + 1, accepts);
      assert [records[0]] + records[1..][..k] == records[..k + 1];
    } else {
      assert [records[0]] == records[..1];
    }
  }

  /** A payload survives the round trip exactly when its length fits the 32-bit field. */
  lemma PayloadSurvivesExactly(data: Bytes, made: nat, accepts: nat -> bool)
    requires AcceptsAll(accepts)
    ensures ReplayBytes(Log([data]), made, accepts) == Replayed([data], EndOfLog) <==> |data| < TWO_32
  {
    hide Checksum, Record;
    if |data| < TWO_32 {
      assert AllFit([data]);
      WriteThenReplay([data], made, accepts);
    } else {
      CallsAreShort(Log([data]), made, accepts);
    }
  }

  /** No delivered payload reaches 2^32 bytes. */
  lemma {:induction false} CallsAreShort(bytes: Bytes, made: nat, accepts: nat -> bool)
    ensures AllFit(ReplayBytes(bytes, made, accepts).calls)
    decreases |bytes|
  {
    hide Checksum, FromLittleEndian, ChecksumFrom;
    if |bytes| >= HEADER_SIZE {
      var length := FromLittleEndian(bytes[..4]);
      LengthFieldBound(bytes[..4]);
      if length <= |bytes| - HEADER_SIZE {
        CallsAreShort(bytes[HEADER_SIZE + length..], made + 1, accepts);
      }
    }
  }

  // ----- crash: the segment ends early -----

  /** The first k records are exactly those that lie wholly before byte `cut`. */
  ghost predicate WholeBefore(records: seq<Bytes>, cut: nat, k: nat) {
    && k <= |records|
    && |Log(records[..k])| <= cut
    && (k < |records| ==> cut < |Log(records[..k + 1])|)
  }

  lemma LogStart(records: seq<Bytes>, k: nat)
    requires 0 < k <= |records|
    ensures Log(records[..k]) == Record(records[0]) + Log(records[1..][..k - 1])
  {
    hide Record;
    assert records[..k][1..] == records[1..][..k - 1];
  }

  lemma {:induction false} SomeWholePrefix(records: seq<Bytes>, cut: nat) returns (k: nat)
    requires cut <= |Log(records)|
    ensures WholeBefore(records, cut, k)
    decreases |records|
  {
    if records == [] || cut < |Record(records[0])| {
      k := 0;
      assert records[..0] == [];
      if records != [] {
        LogStart(records, 1);
      }
    } else {
      var j := SomeWholePrefix(records[1..], cut - |Record(records[0])|);
      k := j + 1;
      LogStart(records, k);
      if k < |records| {
        LogStart(records, k + 1);
      }
    }
    hide Record;
  }

  /** A strict prefix of a record delivers nothing; it is an error only if the header is complete. */
  lemma TornRecord(data: Bytes, n: nat, made: nat, accepts: nat -> bool)
    requires |data| < TWO_32 && n < |Record(data)|
    ensures ReplayBytes(Record(data)[..n], made, accepts)
            == Replayed([], if n < HEADER_SIZE then EndOfLog else TornData)
  {
    hide LittleEndian, ChecksumBytes, FromLittleEndian, ChecksumFrom, Checksum, Record;
    if n >= HEADER_SIZE {
      HeaderFields(data, []);
      assert Record(data) + [] == Record(data);
      assert Record(data)[..n][..4] == Record(data)[..4];
    }
  }

  lemma LogFirst(records: seq<Bytes>, k: nat)
    requires 0 < k <= |records|
    ensures Log(records[..k]) == Record(records[0]) + Log(records[1..][..k - 1])
  {
    assert records[..k][1..] == records[1..][..k - 1];
  }

  /** Main result: cutting a segment at any byte makes replay deliver exactly the records wholly
      before the cut. */
  lemma {:induction false} CutSegmentDeliversPrefix(
    records: seq<Bytes>, cut: nat, k: nat, made: nat, accepts: nat -> bool)
    requires AllFit(records) && AcceptsAll(accepts) && cut <= |Log(records)| && WholeBefore(records, cut, k)
    ensures ReplayBytes(Log(records)[..cut], made, accepts)
            == Replayed(records[..k], if cut - |Log(records[..k])| < HEADER_SIZE then EndOfLog else TornData)
    decreases |records|
  {
    hide ReplayBytes, Record;
    if records == [] {
      WriteThenReplay(records, made, accepts);
      assert Log(records)[..cut] == Log(records);
    } else if k == 0 {
      LogFirst(records, 1);
      assert Log([]) == [] && Log(records[1..][..0]) == [];
      assert Log(records)[..cut] == Record(records[0])[..cut];
      TornRecord(records[0], cut, made, accepts);
    } else {
      var n := |Record(records[0])|;
      LogFirst(records, k);
      if k < |records| {
        LogFirst(records, k + 1);
      }
      CutSegmentDeliversPrefix(records[1..], cut - n, k - 1, made + 1, accepts);
      assert Log(records)[..cut] == Record(records[0]) + Log(records[1..])[..cut - n];
      ReplayOneRecord(records[0], Log(records[1..])[..cut - n], made, accepts);
      assert records[..k] == [records[0]] + records[1..][..k - 1];
    }
  }

  // ----- corruption: a payload changed in place -----

  /** The segment with the payload of record i overwritten. */
  function Overwritten(records: seq<Bytes>, i: nat, data: Bytes): Bytes
    requires i < |records|
  {
    Log(records[..i]) + (Header(records[i]) + data + Log(records[i + 1..]))
  }

  lemma OverwrittenHeader(original: Bytes, data: Bytes, rest: Bytes)
    requires |data| == |original| < TWO_32
    ensures var bytes := Header(original) + data + rest;
            && FromLittleEndian(bytes[..4]) == |data|
            && ChecksumFrom(bytes[4..8]) == Checksum(original)
            && bytes[HEADER_SIZE..HEADER_SIZE + |data|] == data
  {
    hide LittleEndian, ChecksumBytes, FromLittleEndian, ChecksumFrom, Checksum;
    var bytes := Header(original) + data + rest;
    LittleEndianRoundTrip(|original|);
    ChecksumRoundTrip(Checksum(original));
    assert bytes[..4] == LittleEndian(|original|);
    assert bytes[4..8] == ChecksumBytes(Checksum(original));
  }

  /** If the checksum sees the change, replay stops right before the changed record. */
  lemma VisibleChangeStopsReplay(records: seq<Bytes>, i: nat, data: Bytes, made: nat, accepts: nat -> bool)
    requires AllFit(records) && AcceptsAll(accepts) && i < |records|
    requires |data| == |records[i]| && Checksum(data) != Checksum(records[i])
    ensures ReplayBytes(Overwritten(records, i, data), made, accepts) == Replayed(records[..i], BadChecksum)
  {
    hide LittleEndian, ChecksumBytes, FromLittleEndian, ChecksumFrom, Checksum, Header, Log;
    var rest := Log(records[i + 1..]);
    ReplayWholeRecords(records[..i], Header(records[i]) + data + rest, made, accepts);
    OverwrittenHeader(records[i], data, rest);
    assert records[..i] + [] == records[..i];
  }

  /** Main result: any change of a payload confined to four consecutive bytes, in particular of
      any single byte, is detected, and exactly the records before it are delivered. */
  lemma FourByteCorruptionIsDetected(records: seq<Bytes>, i: nat, data: Bytes, at: int,
                                     made: nat, accepts: nat -> bool)
    requires AllFit(records) && AcceptsAll(accepts) && i < |records|
    requires |data| == |records[i]| && data != records[i]
    requires forall j | 0 <= j < |data| && data[j] != records[i][j] :: at <= j < at + 4
    ensures ReplayBytes(Overwritten(records, i, data), made, accepts) == Replayed(records[..i], BadChecksum)
  {
    hide *;
    FourByteChangeIsDetected(data, records[i], at);
    VisibleChangeStopsReplay(records, i, data, made, accepts);
  }
}
