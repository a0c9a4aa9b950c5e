/** The record-stream parser that stands for a DPI box: it reads the record layer of
    section 5.1 of RFC 8446, with the ciphertext bound of section 6.2.3 of RFC 5246. */
module TlsRecords {
  import opened Bytes

  const MAX_LENGTH: nat := 16384 + 2048
  const HEADER_SIZE: nat := 5

  datatype Header = Header(contentType: byte, major: byte, minor: byte, length: nat)

  predicate Acceptable(h: Header)
  {
    0x14 <= h.contentType <= 0x17 && h.major == 3 && h.minor <= 4 && h.length <= MAX_LENGTH
  }

  function BigEndian(hi: byte, lo: byte): nat
  {
    256 * (hi as int) + lo as int
  }

  function HeaderOf(raw: seq<byte>): Header
    requires |raw| >= HEADER_SIZE
  {
    Header(raw[0], raw[1], raw[2], BigEndian(raw[3], raw[4]))
  }

  /** What is left after `k` bytes; nothing when there are fewer. */
  function Drop(raw: seq<byte>, k: nat): seq<byte>
  {
    if k <= |raw| then raw[k..] else []
  }

  /** The headers found, and whether the scan ended without meeting an unacceptable one. */
  datatype Scanned = Scanned(records: seq<Header>, clean: bool)

  function Scan(raw: seq<byte>): Scanned
    decreases |raw|
  {
    if |raw| < HEADER_SIZE then Scanned([], true)
    else
      var h := HeaderOf(raw);
      if !Acceptable(h) then Scanned([], false)
      else
        var rest := Scan(Drop(raw, HEADER_SIZE + h.length));
        Scanned([h] + rest.records, rest.clean)
  }

  lemma ScanShort(raw: seq<byte>)
    requires |raw| < HEADER_SIZE
    ensures Scan(raw) == Scanned([], true)
  {
  }

  lemma ScanOpened(raw: seq<byte>)
    requires |raw| >= HEADER_SIZE
    ensures var h := HeaderOf(raw);
      var rest := Scan(Drop(raw, HEADER_SIZE + h.length));
      Scan(raw) == if Acceptable(h) then Scanned([h] + rest.records, rest.clean) else Scanned([], false)
  {
  }

  lemma DropDrop(raw: seq<byte>, j: nat, k: nat)
    requires j <= |raw|
    ensures Drop(Drop(raw, j), k) == Drop(raw, j + k)
  {
  }

  /** One round of the parser's loop. */
  lemma ScanAt(raw: seq<byte>, offset: nat)
    requires offset + HEADER_SIZE <= |raw|
    ensures var h := Header(raw[offset], raw[offset + 1], raw[offset + 2], BigEndian(raw[offset + 3], raw[offset + 4]));
      var rest := Scan(Drop(raw, offset + HEADER_SIZE + h.length));
      Scan(Drop(raw, offset)) == if Acceptable(h) then Scanned([h] + rest.records, rest.clean) else Scanned([], false)
  {
    hide Scan, BigEndian;
    var suffix := Drop(raw, offset);
    assert HeaderOf(suffix) ==
           Header(raw[offset], raw[offset + 1], raw[offset + 2], BigEndian(raw[offset + 3], raw[offset + 4]));
    DropDrop(raw, offset, HEADER_SIZE + HeaderOf(suffix).length);
    hide Drop;
    ScanOpened(suffix);
  }

  lemma {:induction false} RecordsAreInBounds(raw: seq<byte>)
    ensures forall r :: r in Scan(raw).records ==>
      0x14 <= r.contentType <= 0x17 && r.major == 3 && r.minor <= 4 && r.length <= 18432
    decreases |raw|
  {
    if |raw| >= HEADER_SIZE && Acceptable(HeaderOf(raw)) {
      RecordsAreInBounds(Drop(raw, HEADER_SIZE + HeaderOf(raw).length));
    }
  }

  /** The first whole header decides, in the numbers of the record layer: it is the first
      record returned, or nothing is returned and the bytes are rejected. */
  lemma FirstHeader(raw: seq<byte>)
    requires |raw| >= 5
    ensures var length := 256 * (raw[3] as int) + (raw[4] as int);
      if 0x14 <= raw[0] <= 0x17 && raw[1] == 3 && raw[2] <= 4 && length <= 18432
      then Scan(raw).records != [] && Scan(raw).records[0] == Header(raw[0], raw[1], raw[2], length)
      else Scan(raw) == Scanned([], false)
  {
    ScanOpened(raw);
  }

  method ParseTLSRecords(raw: seq<byte>) returns (records: seq<Header>, ok: bool)
    ensures records == Scan(raw).records
    ensures ok <==> Scan(raw).clean && records != []
    ensures forall r :: r in records ==>
      0x14 <= r.contentType <= 0x17 && r.major == 3 && r.minor <= 4 && r.length <= 18432
  {
    RecordsAreInBounds(raw);
    hide Scan, BigEndian;
    records := [];
    var offset: nat := 0;
    assert Drop(raw, 0) == raw;
    while offset + HEADER_SIZE <= |raw|
      invariant records + Scan(Drop(raw, offset)).records == Scan(raw).records
      invariant Scan(Drop(raw, offset)).clean == Scan(raw).clean
    {
      ScanAt(raw, offset);
      var ct := raw[offset];
      if ct < 0x14 || ct > 0x17 {
        return records, false;
      }
      var major, minor := raw[offset + 1], raw[offset + 2];
      if major != 0x03 {
        return records, false;
      }
      if minor > 0x04 {
        return records, false;
      }
      var length := BigEndian(raw[offset + 3], raw[offset + 4]);
      if length > 16384 + 2048 {
        return records, false;
      }
      records := records + [Header(ct, major, minor, length)];
      offset := offset + HEADER_SIZE + length;
    }
    ScanShort(Drop(raw, offset));
    return records, |records| > 0;
  }

  // ---------------------------------------------------------------------------------------
  // The matching serialiser

  datatype Record = Record(contentType: byte, major: byte, minor: byte, body: seq<byte>)

  function HeaderFor(r: Record): Header
  {
    Header(r.contentType, r.major, r.minor, |r.body|)
  }

  predicate WellFormed(rs: seq<Record>)
  {
    forall r :: r in rs ==> Acceptable(HeaderFor(r))
  }

  function Encode(r: Record): seq<byte>
    requires |r.body| <= MAX_LENGTH
  {
    [r.contentType, r.major, r.minor, |r.body| / 256, |r.body| % 256] + r.body
  }

  function EncodeAll(rs: seq<Record>): seq<byte>
    requires WellFormed(rs)
  {
    if rs == [] then []
    else
      assert Acceptable(HeaderFor(rs[0]));
      Encode(rs[0]) + EncodeAll(rs[1..])
  }

  function Headers(rs: seq<Record>): seq<Header>
  {
    if rs == [] then [] else [HeaderFor(rs[0])] + Headers(rs[1..])
  }

  lemma ScanEncoded(r: Record, rest: seq<byte>)
    requires Acceptable(HeaderFor(r))
    ensures var after := Scan(rest);
      Scan(Encode(r) + rest) == Scanned([HeaderFor(r)] + after.records, after.clean)
  {
    var raw := Encode(r) + rest;
    assert HeaderOf(raw) == HeaderFor(r);
    assert Drop(raw, HEADER_SIZE + |r.body|) == rest;
  }

  lemma {:induction false} ScanEncodedAll(rs: seq<Record>, rest: seq<byte>)
    requires WellFormed(rs)
    ensures var after := Scan(rest);
      Scan(EncodeAll(rs) + rest) == Scanned(Headers(rs) + after.records, after.clean)
  {
    if rs == [] {
      assert EncodeAll(rs) + rest == rest && Headers(rs) + Scan(rest).records == Scan(rest).records;
    } else {
      hide Scan, Encode;
      assert Acceptable(HeaderFor(rs[0]));
      ScanEncodedAll(rs[1..], rest);
      ScanEncodedMore(rs[0], EncodeAll(rs[1..]), Headers(rs[1..]), rest);
    }
  }

  lemma ScanEncodedMore(r: Record, others: seq<byte>, hs: seq<Header>, rest: seq<byte>)
    requires Acceptable(HeaderFor(r)) && Scan(others + rest) == Scanned(hs + Scan(rest).records, Scan(rest).clean)
    ensures Scan((Encode(r) + others) + rest) == Scanned(([HeaderFor(r)] + hs) + Scan(rest).records, Scan(rest).clean)
  {
    hide Scan, Encode;
    var h, after := HeaderFor(r), Scan(rest);
    calc {
      Scan((Encode(r) + others) + rest);
      { Assoc(Encode(r), others, rest); }
      Scan(Encode(r) + (others + rest));
      { ScanEncoded(r, others + rest); }
      Scanned([h] + (hs + after.records), after.clean);
      { Assoc([h], hs, after.records); }
      Scanned(([h] + hs) + after.records, after.clean);
    }
  }

  /** Parsing what was serialised gives back exactly the headers. */
  lemma {:induction false} RoundTrip(rs: seq<Record>)
    requires WellFormed(rs) && rs != []
    ensures Scan(EncodeAll(rs)) == Scanned(Headers(rs), true)
  {
    ScanEncodedAll(rs, []);
    assert EncodeAll(rs) + [] == EncodeAll(rs) && Headers(rs) + [] == Headers(rs);
  }

  /** The same with the bounds and the bytes of each header written out: a nonempty list of
      records of type 0x14 to 0x17, version 3.0 to 3.4 and at most 18432 bytes of body, sent
      one after another with a big-endian length, is read in full. */
  lemma {:induction false} RecordsAreRead(rs: seq<Record>)
    requires rs != [] && forall r :: r in rs ==>
      0x14 <= r.contentType <= 0x17 && r.major == 3 && r.minor <= 4 && |r.body| <= 18432
    ensures WellFormed(rs)
    ensures Scan(EncodeAll(rs)) == Scanned(Headers(rs), true)
    ensures |Headers(rs)| == |rs| && forall k :: 0 <= k < |rs| ==>
      Headers(rs)[k] == Header(rs[k].contentType, rs[k].major, rs[k].minor, |rs[k].body|)
  {
    assert forall r :: r in rs ==> Acceptable(HeaderFor(r));
    RoundTrip(rs);
    HeadersInOrder(rs);
  }

  lemma {:induction false} HeadersInOrder(rs: seq<Record>)
    ensures |Headers(rs)| == |rs| && forall k :: 0 <= k < |rs| ==> Headers(rs)[k] == HeaderFor(rs[k])
  {
    if rs != [] {
      HeadersInOrder(rs[1..]);
      assert forall k :: 1 <= k < |rs| ==> Headers(rs)[k] == Headers(rs[1..])[k - 1];
    }
  }

  /** A handshake record of 256 bytes has the length bytes 1 and 0. */
  lemma LengthIsBigEndian(body: seq<byte>)
    requires |body| == 256
    ensures Encode(Record(0x16, 3, 1, body)) == [0x16, 3, 1, 1, 0] + body
    ensures Scan([0x16, 3, 1, 1, 0] + body) == Scanned([Header(0x16, 3, 1, 256)], true)
  {
    var raw := [0x16, 3, 1, 1, 0] + body;
    ScanOpened(raw);
    ScanShort([]);
    assert Drop(raw, 261) == [];
  }

  // ---------------------------------------------------------------------------------------
  // Arbitrary bytes

  /** A capture cut off anywhere shows a prefix of the records of the whole. */
  lemma {:induction false} PrefixMonotone(raw: seq<byte>, k: nat)
    requires k <= |raw|
    ensures Scan(raw[..k]).records <= Scan(raw).records
    decreases |raw|
  {
    hide Scan, BigEndian;
    if k < HEADER_SIZE {
      ScanShort(raw[..k]);
    } else {
      var h := HeaderOf(raw);
      var size := HEADER_SIZE + h.length;
      assert HeaderOf(raw[..k]) == h;
      CutAfter(raw, k, size);
      hide HeaderOf, Drop;
      ScanOpened(raw);
      ScanOpened(raw[..k]);
      if size < k {
        PrefixMonotone(Drop(raw, size), k - size);
      } else {
        ScanShort([]);
      }
    }
  }

  /** What a cut capture has left after its first record. */
  lemma CutAfter(raw: seq<byte>, k: nat, size: nat)
    requires k <= |raw| && size >= HEADER_SIZE
    ensures k <= size ==> Drop(raw[..k], size) == []
    ensures size < k ==> k - size <= |Drop(raw, size)| < |raw| && Drop(raw[..k], size) == Drop(raw, size)[..k - size]
  {
  }

  /** The bytes are these records, the last one possibly cut inside its body, followed by
      fewer bytes than a header. */
  ghost predicate Shows(raw: seq<byte>, rs: seq<Record>, tail: seq<byte>)
  {
    && WellFormed(rs) && |tail| < HEADER_SIZE
    && (raw == EncodeAll(rs) + tail ||
        (rs != [] && raw < EncodeAll(rs) && |EncodeAll(rs)| - |rs[|rs| - 1].body| <= |raw|))
  }

  lemma ShownIsClean(raw: seq<byte>, rs: seq<Record>, tail: seq<byte>)
    requires Shows(raw, rs, tail)
    ensures Scan(raw) == Scanned(Headers(rs), true)
  {
    hide Scan;
    if raw == EncodeAll(rs) + tail {
      ScanEncodedAll(rs, tail);
      ScanShort(tail);
      assert Headers(rs) + [] == Headers(rs);
    } else {
      CutIsClean(raw, rs);
    }
  }

  /** What a capture that starts with a record, cut after its header, has left. */
  lemma CutHead(raw: seq<byte>, r: Record, others: seq<byte>)
    requires Acceptable(HeaderFor(r)) && raw <= Encode(r) + others && |raw| >= HEADER_SIZE
    ensures HeaderOf(raw) == HeaderFor(r)
    ensures var rest := Drop(raw, HEADER_SIZE + |r.body|);
      rest <= others && |rest| == if |raw| <= HEADER_SIZE + |r.body| then 0 else |raw| - HEADER_SIZE - |r.body|
  {
    var whole := Encode(r) + others;
    assert forall i :: 0 <= i < HEADER_SIZE ==> raw[i] == whole[i] == Encode(r)[i];
  }

  lemma {:induction false} CutIsClean(raw: seq<byte>, rs: seq<Record>)
    requires WellFormed(rs) && rs != [] && raw <= EncodeAll(rs)
    requires |EncodeAll(rs)| - |rs[|rs| - 1].body| <= |raw|
    ensures Scan(raw) == Scanned(Headers(rs), true)
    decreases |rs|
  {
    hide Scan, Encode, HeaderOf, Drop;
    assert Acceptable(HeaderFor(rs[0]));
    LastBodyFits(rs);
    EncodeSize(rs[0]);
    CutHead(raw, rs[0], EncodeAll(rs[1..]));
    ScanOpened(raw);
    if |rs| == 1 {
      ScanShort([]);
      assert Headers(rs[1..]) == [];
    } else {
      LastBodyFits(rs[1..]);
      CutIsClean(Drop(raw, HEADER_SIZE + |rs[0].body|), rs[1..]);
    }
  }

  lemma EncodeSize(r: Record)
    requires Acceptable(HeaderFor(r))
    ensures |Encode(r)| == HEADER_SIZE + |r.body|
  {
  }

  lemma {:induction false} LastBodyFits(rs: seq<Record>)
    requires WellFormed(rs) && rs != []
    ensures |EncodeAll(rs)| >= HEADER_SIZE + |rs[|rs| - 1].body|
  {
    assert Acceptable(HeaderFor(rs[0]));
    if |rs| > 1 {
      LastBodyFits(rs[1..]);
    }
  }

  /** Recover the records from a clean capture, padding the last body if it was cut. */
  lemma {:induction false} CleanIsShown(raw: seq<byte>) returns (rs: seq<Record>, tail: seq<byte>)
    requires Scan(raw).clean
    ensures Shows(raw, rs, tail)
    decreases |raw|
  {
    hide Scan, HeaderOf, Encode, Shows;
    if |raw| < HEADER_SIZE {
      rs, tail := [], raw;
      ShortIsShown(raw);
    } else {
      ScanOpened(raw);
      var size := HEADER_SIZE + HeaderOf(raw).length;
      if |raw| < size {
        rs, tail := [PaddedRecord(raw)], [];
      } else {
        assert raw == raw[..size] + raw[size..];
        var others;
        others, tail := CleanIsShown(raw[size..]);
        rs := [FirstRecord(raw)] + others;
        ShownAfter(FirstRecord(raw), raw[size..], others, tail);
      }
    }
  }

  lemma ShortIsShown(raw: seq<byte>)
    requires |raw| < HEADER_SIZE
    ensures Shows(raw, [], raw)
  {
    assert EncodeAll([]) + raw == raw;
  }

  function FirstRecord(raw: seq<byte>): (r: Record)
    requires |raw| >= HEADER_SIZE && Acceptable(HeaderOf(raw)) && HEADER_SIZE + HeaderOf(raw).length <= |raw|
    ensures HeaderFor(r) == HeaderOf(raw) && Encode(r) == raw[..HEADER_SIZE + HeaderOf(raw).length]
  {
    var h := HeaderOf(raw);
    Record(h.contentType, h.major, h.minor, raw[HEADER_SIZE..HEADER_SIZE + h.length])
  }

  function PaddedRecord(raw: seq<byte>): (r: Record)
    requires |raw| >= HEADER_SIZE && Acceptable(HeaderOf(raw)) && |raw| < HEADER_SIZE + HeaderOf(raw).length
    ensures HeaderFor(r) == HeaderOf(raw) && Shows(raw, [r], [])
  {
    var h := HeaderOf(raw);
    var padding := seq(HEADER_SIZE + h.length - |raw|, _ => 0);
    var r := Record(h.contentType, h.major, h.minor, raw[HEADER_SIZE..] + padding);
    EncodeOne(r);
    assert Encode(r) == raw + padding;
    r
  }

  lemma EncodeOne(r: Record)
    requires WellFormed([r])
    ensures |r.body| <= MAX_LENGTH && EncodeAll([r]) == Encode(r)
  {
    assert r in [r];
    assert EncodeAll([r]) == Encode(r) + EncodeAll([]);
  }

  lemma ShownAfter(r: Record, rest: seq<byte>, others: seq<Record>, tail: seq<byte>)
    requires Acceptable(HeaderFor(r)) && Shows(rest, others, tail)
    ensures Shows(Encode(r) + rest, [r] + others, tail)
  {
    var rs := [r] + others;
    assert rs[1..] == others && EncodeAll(rs) == Encode(r) + EncodeAll(others);
    if rest == EncodeAll(others) + tail {
      assert Encode(r) + rest == EncodeAll(rs) + tail;
    } else {
      assert rs[|rs| - 1] == others[|others| - 1];
      assert Encode(r) + rest < EncodeAll(rs);
    }
  }

  /** Exactly which captures the parser takes for TLS, and with which headers. */
  lemma CleanExactly(raw: seq<byte>, hs: seq<Header>)
    ensures Scan(raw) == Scanned(hs, true) <==> exists rs, tail :: Shows(raw, rs, tail) && Headers(rs) == hs
  {
    if Scan(raw).clean {
      var rs, tail := CleanIsShown(raw);
      ShownIsClean(raw, rs, tail);
    }
    forall rs, tail | Shows(raw, rs, tail)
      ensures Scan(raw) == Scanned(Headers(rs), true)
    {
      ShownIsClean(raw, rs, tail);
    }
  }

  /** The bytes are these records, followed by a whole header that is not acceptable. */
  ghost predicate Breaks(raw: seq<byte>, rs: seq<Record>, rest: seq<byte>)
  {
    && WellFormed(rs) && raw == EncodeAll(rs) + rest
    && |rest| >= HEADER_SIZE && !Acceptable(HeaderOf(rest))
  }

  lemma BreakIsDirty(raw: seq<byte>, rs: seq<Record>, rest: seq<byte>)
    requires Breaks(raw, rs, rest)
    ensures Scan(raw) == Scanned(Headers(rs), false)
  {
    ScanOpened(rest);
    ScanEncodedAll(rs, rest);
    assert Headers(rs) + [] == Headers(rs);
  }

  /** Recover the records before the unacceptable header. */
  lemma {:induction false} DirtyBreaks(raw: seq<byte>) returns (rs: seq<Record>, rest: seq<byte>)
    requires !Scan(raw).clean
    ensures Breaks(raw, rs, rest)
    decreases |raw|
  {
    hide Scan, HeaderOf, Encode;
    if |raw| < HEADER_SIZE {
      ScanShort(raw);
    }
    ScanOpened(raw);
    if !Acceptable(HeaderOf(raw)) {
      rs, rest := [], raw;
      assert EncodeAll([]) + raw == raw;
    } else {
      var size := HEADER_SIZE + HeaderOf(raw).length;
      if |raw| < size {
        ScanShort([]);
      }
      assert raw == raw[..size] + raw[size..];
      var others;
      others, rest := DirtyBreaks(raw[size..]);
      rs := [FirstRecord(raw)] + others;
      assert rs[1..] == others;
      Assoc(Encode(FirstRecord(raw)), EncodeAll(others), rest);
    }
  }

  /** Exactly which captures the parser rejects, and with which headers before the break. */
  lemma DirtyExactly(raw: seq<byte>, hs: seq<Header>)
    ensures Scan(raw) == Scanned(hs, false) <==> exists rs, rest :: Breaks(raw, rs, rest) && Headers(rs) == hs
  {
    if !Scan(raw).clean {
      var rs, rest := DirtyBreaks(raw);
      BreakIsDirty(raw, rs, rest);
    }
    forall rs, rest | Breaks(raw, rs, rest)
      ensures Scan(raw) == Scanned(Headers(rs), false)
    {
      BreakIsDirty(raw, rs, rest);
    }
  }
}
