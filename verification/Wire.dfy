/** Length-prefixed framing: single messages, batches of messages, and manifest sections. */
module Wire {
  import opened Common

  const PROTO_BIT := 0x8000_0000

  // ----- one message -----

  /** Outcome of decoding; `Fault` is a slice whose end lies before its start. */
  datatype Decoded = Invalid | Fault | Skipped | Message(emsg: nat, header: Bytes, body: Bytes)

  function WithProtoBit(emsg: nat): nat {
    if emsg >= PROTO_BIT then emsg else emsg + PROTO_BIT
  }

  function Frame(emsg: nat, header: Bytes, body: Bytes): Bytes {
    Le(WithProtoBit(emsg), WORD) + Le(|header| % TWO_32, WORD) + header + body
  }

  /** `wellFormed` says which header bytes the protobuf decoder accepts. Lengths are 32-bit words. */
  function Decode(data: Bytes, wellFormed: Bytes -> bool): Decoded {
    if |data| < 8 then Invalid else
    var raw := LeValue(data[..4]);
    if raw < PROTO_BIT then Skipped else
    var end := (8 + LeValue(data[4..8])) % TWO_32;
    if |data| % TWO_32 < end then Invalid
    else if end < 8 then Fault
    else if !wellFormed(data[8..end]) then Invalid
    else Message(raw - PROTO_BIT, data[8..end], data[end..])
  }

  /** Decoding what was sent recovers it, exactly when the frame's own 32-bit length check passes. */
  lemma DecodeInvertsFrame(emsg: nat, header: Bytes, body: Bytes, wellFormed: Bytes -> bool)
    requires emsg < PROTO_BIT && |header| < TWO_32 - 8 && wellFormed(header)
    ensures
      var f := Frame(emsg, header, body);
      Decode(f, wellFormed) == Message(emsg, header, body) <==> 8 + |header| <= |f| % TWO_32
    ensures |Frame(emsg, header, body)| < TWO_32 ==>
              Decode(Frame(emsg, header, body), wellFormed) == Message(emsg, header, body)
  {
    FrameValues(emsg, header, body);
  }

  lemma FrameValues(emsg: nat, header: Bytes, body: Bytes)
    requires emsg < PROTO_BIT && |header| < TWO_32 - 8
    ensures
      var f := Frame(emsg, header, body);
      && |f| == 8 + |header| + |body|
      && LeValue(f[..4]) == emsg + PROTO_BIT && LeValue(f[4..8]) == |header|
      && f[8..8 + |header|] == header && f[8 + |header|..] == body
  {
    var f := Frame(emsg, header, body);
    assert |header| % TWO_32 == |header|;
    WordValue(f[..4], emsg + PROTO_BIT);
    WordValue(f[4..8], |header|);
  }

  lemma WordValue(s: Bytes, n: nat)
    requires n < TWO_32 && s == Le(n, WORD)
    ensures LeValue(s) == n
  {
    Le4RoundTrip(n);
  }

  /** Decoding faults exactly when the declared header length makes the 32-bit sum wrap. */
  lemma FaultsExactlyOnWrap(data: Bytes, wellFormed: Bytes -> bool)
    ensures Decode(data, wellFormed).Fault? <==>
            && |data| >= 8 && LeValue(data[..4]) >= PROTO_BIT
            && LeValue(data[4..8]) >= TWO_32 - 8 && LeValue(data[4..8]) + 8 - TWO_32 <= |data| % TWO_32
  {
    if |data| >= 8 {
      LeBound(data[4..8]);
    }
  }

  /** Eight bytes that declare a header of 2^32 - 8 bytes. */
  lemma WrappedLengthExample(wellFormed: Bytes -> bool)
    ensures Decode(Le(PROTO_BIT, WORD) + Le(TWO_32 - 8, WORD), wellFormed) == Fault
  {
    var data := Le(PROTO_BIT, WORD) + Le(TWO_32 - 8, WORD);
    Le4RoundTrip(PROTO_BIT);
    Le4RoundTrip(TWO_32 - 8);
    assert data[..4] == Le(PROTO_BIT, WORD) && data[4..8] == Le(TWO_32 - 8, WORD);
    FaultsExactlyOnWrap(data, wellFormed);
  }

  /** A frame with the top bit of its first word set is a message, if the header can be read. */
  lemma TopBitMarksMessages(emsg: nat, header: Bytes, body: Bytes, f: Bytes, wellFormed: Bytes -> bool)
    requires 8 <= |f| < 0x1_0000_0000 && f[8..] == header + body
    requires LeValue(f[..4]) == emsg + 0x8000_0000 && LeValue(f[4..8]) == |header|
    ensures Decode(f, wellFormed) == if wellFormed(header) then Message(emsg, header, body) else Invalid
  {
    assert f[8..8 + |header|] == header && f[8 + |header|..] == body;
  }

  /** A frame shorter than it says, without its first words or without all of its header, is invalid. */
  lemma ShortFramesAreInvalid(data: Bytes, wellFormed: Bytes -> bool)
    requires |data| < 0x1_0000_0000
    requires |data| < 8 || (LeValue(data[..4]) >= 0x8000_0000 && LeValue(data[4..8]) > |data| - 8)
    ensures Decode(data, wellFormed).Invalid? || (|data| >= 8 && LeValue(data[4..8]) >= 0xFFFF_FFF8)
  {
  }

  /** A frame without it is left out. */
  lemma OtherFramesAreSkipped(f: Bytes, wellFormed: Bytes -> bool)
    requires |f| >= 8 && LeValue(f[..4]) < 0x8000_0000
    ensures Decode(f, wellFormed) == Skipped
  {
  }

  /** The send buffer, filled part by part. */
  method Send(emsg: nat, header: Bytes, body: Bytes) returns (buf: array<byte>)
    requires emsg < TWO_32
    ensures fresh(buf) && buf[..] == Frame(emsg, header, body)
  {
    var rawEmsg := if emsg >= PROTO_BIT then emsg else emsg + PROTO_BIT;
    buf := new byte[8 + |header| + |body|];
    PutBytes(buf, 0, Le(rawEmsg, WORD));
    PutBytes(buf, 4, Le(|header| % TWO_32, WORD));
    PutBytes(buf, 8, header);
    PutBytes(buf, 8 + |header|, body);
    assert buf[..8 + |header| + |body|] == buf[..];
  }

  method PutBytes(buf: array<byte>, at: nat, part: Bytes)
    requires at + |part| <= buf.Length
    modifies buf
    ensures buf[..at + |part|] == old(buf[..at]) + part
  {
    for i := 0 to |part|
      invariant buf[..at + i] == old(buf[..at]) + part[..i]
    {
      buf[at + i] := part[i];
      assert buf[..at + i + 1] == buf[..at + i] + [part[i]];
      assert part[..i + 1] == part[..i] + [part[i]];
    }
    assert part[..|part|] == part;
  }

  // ----- batches of messages -----

  datatype Batch = Messages(msgs: seq<Decoded>) | BatchInvalid | BatchFault

  function InFront(d: Decoded, rest: Batch): Batch {
    match d
    case Invalid => BatchInvalid
    case Fault => BatchFault
    case Skipped => rest
    case Message(_, _, _) => if rest.Messages? then Messages([d] + rest.msgs) else rest
  }

  function DecodeBatch(p: Bytes, wellFormed: Bytes -> bool): Batch
    decreases |p|
  {
    if |p| < 4 then Messages([]) else
    var size := LeValue(p[..4]);
    if |p[4..]| % TWO_32 < size then BatchInvalid
    else InFront(Decode(p[4..4 + size], wellFormed), DecodeBatch(p[4 + size..], wellFormed))
  }

  function EncodeBatch(frames: seq<Bytes>): Bytes {
    if frames == [] then [] else Le(|frames[0]| % TWO_32, WORD) + (frames[0] + EncodeBatch(frames[1..]))
  }

  /** The frames decoded one by one: non-protobuf ones are left out, the first bad one decides. */
  function DecodeEach(frames: seq<Bytes>, wellFormed: Bytes -> bool): Batch {
    if frames == [] then Messages([]) else InFront(Decode(frames[0], wellFormed), DecodeEach(frames[1..], wellFormed))
  }

  lemma BatchUnfold(p: Bytes, f: Bytes, rest: Bytes, wellFormed: Bytes -> bool)
    requires |p| == 4 + |f| + |rest| && |f| + |rest| < TWO_32 && LeValue(p[..4]) == |f|
    requires p[4..4 + |f|] == f && p[4 + |f|..] == rest
    ensures DecodeBatch(p, wellFormed) == InFront(Decode(f, wellFormed), DecodeBatch(rest, wellFormed))
  {
  }

  lemma {:induction false} BatchStep(f: Bytes, rest: Bytes, wellFormed: Bytes -> bool)
    requires |f| + |rest| < TWO_32
    ensures DecodeBatch(Le(|f|, WORD) + (f + rest), wellFormed) ==
            InFront(Decode(f, wellFormed), DecodeBatch(rest, wellFormed))
  {
    Le4RoundTrip(|f|);
    BatchUnfold(Le(|f|, WORD) + (f + rest), f, rest, wellFormed);
  }

  lemma BatchFront(frames: seq<Bytes>, stray: Bytes)
    requires frames != [] && |EncodeBatch(frames)| < TWO_32
    ensures
      var f, rest := frames[0], EncodeBatch(frames[1..]) + stray;
      EncodeBatch(frames) + stray == Le(|f|, WORD) + (f + rest)
  {
    var f, more := frames[0], EncodeBatch(frames[1..]);
    assert |f| % TWO_32 == |f|;
  }

  /** A batch gives its frames' messages in order; up to three stray bytes at the end are ignored. */
  lemma {:induction false} DecodeBatchInvertsEncode(frames: seq<Bytes>, stray: Bytes, wellFormed: Bytes -> bool)
    requires |EncodeBatch(frames)| + |stray| < TWO_32 && |stray| < 4
    ensures DecodeBatch(EncodeBatch(frames) + stray, wellFormed) == DecodeEach(frames, wellFormed)
  {
    if frames == [] {
      assert EncodeBatch(frames) + stray == stray;
    } else {
      BatchFront(frames, stray);
      DecodeBatchInvertsEncode(frames[1..], stray, wellFormed);
      BatchStep(frames[0], EncodeBatch(frames[1..]) + stray, wellFormed);
    }
  }

  function FrameEach(ms: seq<Decoded>): seq<Bytes>
    requires forall i :: 0 <= i < |ms| ==> ms[i].Message?
  {
    if ms == [] then [] else [Frame(ms[0].emsg, ms[0].header, ms[0].body)] + FrameEach(ms[1..])
  }

  lemma {:induction false} EachFrameDecodes(ms: seq<Decoded>, wellFormed: Bytes -> bool)
    requires forall i :: 0 <= i < |ms| ==>
               && ms[i].Message? && ms[i].emsg < PROTO_BIT && |ms[i].header| < TWO_32 - 8 && wellFormed(ms[i].header)
    requires |EncodeBatch(FrameEach(ms))| < TWO_32
    ensures DecodeEach(FrameEach(ms), wellFormed) == Messages(ms)
  {
    if ms != [] {
      var f := Frame(ms[0].emsg, ms[0].header, ms[0].body);
      assert FrameEach(ms) == [f] + FrameEach(ms[1..]) && FrameEach(ms)[1..] == FrameEach(ms[1..]);
      EachFrameDecodes(ms[1..], wellFormed);
      DecodeInvertsFrame(ms[0].emsg, ms[0].header, ms[0].body, wellFormed);
      assert ms == [ms[0]] + ms[1..];
    }
  }

  /** Sent messages packed into one batch come out again, all of them and in order. */
  lemma {:induction false} BatchRecoversMessages(ms: seq<Decoded>, wellFormed: Bytes -> bool)
    requires forall i :: 0 <= i < |ms| ==>
               && ms[i].Message? && ms[i].emsg < PROTO_BIT && |ms[i].header| < TWO_32 - 8 && wellFormed(ms[i].header)
    requires |EncodeBatch(FrameEach(ms))| < TWO_32
    ensures DecodeBatch(EncodeBatch(FrameEach(ms)), wellFormed) == Messages(ms)
  {
    EachFrameDecodes(ms, wellFormed);
    DecodeBatchInvertsEncode(FrameEach(ms), [], wellFormed);
    assert EncodeBatch(FrameEach(ms)) + [] == EncodeBatch(FrameEach(ms));
  }

  method DecodeMulti(body: Bytes, wellFormed: Bytes -> bool) returns (r: Batch)
    ensures r == DecodeBatch(body, wellFormed)
  {
    var payload, msgs := body, [];
    while |payload| >= 4
      invariant DecodeBatch(body, wellFormed) == Continued(msgs, DecodeBatch(payload, wellFormed))
      decreases |payload|
    {
      var subSize := LeValue(payload[..4]);
      ghost var before := payload;
      payload := payload[4..];
      if |payload| % TWO_32 < subSize {
        return BatchInvalid;
      }
      var msg := Decode(payload[..subSize], wellFormed);
      assert payload[..subSize] == before[4..4 + subSize] && payload[subSize..] == before[4 + subSize..];
      match msg {
        case Invalid => return BatchInvalid;
        case Fault => return BatchFault;
        case Skipped =>
        case Message(_, _, _) =>
          msgs := msgs + [msg];
      }
      payload := payload[subSize..];
    }
    return Messages(msgs);
  }

  function Continued(front: seq<Decoded>, b: Batch): Batch {
    if b.Messages? then Messages(front + b.msgs) else b
  }

  // ----- manifest sections -----

  const PAYLOAD_MAGIC := 0x71F6_17D0
  const METADATA_MAGIC := 0x1F48_12BE
  const END_MAGIC := 0x32C4_15AB

  datatype Section = Section(magic: nat, data: Bytes)

  /** The sections up to the end marker or the end of the data. */
  function Scan(data: Bytes): Result<seq<Section>>
    decreases |data|
  {
    if |data| < 8 then Ok([]) else
    var magic, size := LeValue(data[..4]), LeValue(data[4..8]);
    if magic == END_MAGIC then Ok([])
    else if |data[8..]| % TWO_32 < size then Err
    else
      Then([Section(magic, data[8..8 + size])], Scan(data[8 + size..]))
  }

  function Then(front: seq<Section>, r: Result<seq<Section>>): Result<seq<Section>> {
    if r.Ok? then Ok(front + r.value) else Err
  }

  lemma ThenThen(front: seq<Section>, s: Section, r: Result<seq<Section>>)
    ensures Then(front, Then([s], r)) == Then(front + [s], r)
    ensures Then([s], Then(front, r)) == Then([s] + front, r)
  {
    if r.Ok? {
      assert front + ([s] + r.value) == front + [s] + r.value;
      assert [s] + (front + r.value) == [s] + front + r.value;
    }
  }

  lemma ThenEnds(front: seq<Section>, r: Result<seq<Section>>)
    ensures Then(front, Ok([])) == Ok(front) && Then([], r) == r
  {
    assert front + [] == front;
    if r.Ok? {
      assert [] + r.value == r.value;
    }
  }

  function EncodeSections(ss: seq<Section>): Bytes {
    if ss == [] then [] else
    Le(ss[0].magic, WORD) + (Le(|ss[0].data|, WORD) + (ss[0].data + EncodeSections(ss[1..])))
  }

  ghost predicate Encodable(ss: seq<Section>) {
    forall i :: 0 <= i < |ss| ==> ss[i].magic < TWO_32 && ss[i].magic != END_MAGIC
  }

  lemma {:induction false} ScanStep(s: Section, rest: Bytes)
    requires s.magic < TWO_32 && s.magic != END_MAGIC && |s.data| + |rest| < TWO_32
    ensures Scan(Le(s.magic, WORD) + (Le(|s.data|, WORD) + (s.data + rest))) == Then([s], Scan(rest))
  {
    var data := Le(s.magic, WORD) + (Le(|s.data|, WORD) + (s.data + rest));
    SectionParts(s, rest, data);
  }

  /** Sections in front of other data are scanned first. */
  lemma {:induction false} SectionsInFront(ss: seq<Section>, tail: Bytes)
    requires Encodable(ss) && |EncodeSections(ss) + tail| < TWO_32
    ensures Scan(EncodeSections(ss) + tail) == Then(ss, Scan(tail))
  {
    var data := EncodeSections(ss) + tail;
    if ss == [] {
      assert data == tail;
      ThenEnds([], Scan(tail));
    } else {
      var s, rest := ss[0], EncodeSections(ss[1..]) + tail;
      var more := EncodeSections(ss[1..]);
      ConcatAssoc(Le(s.magic, WORD), Le(|s.data|, WORD) + (s.data + more), tail);
      ConcatAssoc(Le(|s.data|, WORD), s.data + more, tail);
      ConcatAssoc(s.data, more, tail);
      ScanStep(s, rest);
      SectionsInFront(ss[1..], tail);
      ThenThen(ss[1..], s, Scan(tail));
      assert ss == [s] + ss[1..];
    }
  }

  lemma SectionParts(s: Section, rest: Bytes, data: Bytes)
    requires s.magic < TWO_32 && |s.data| < TWO_32
    requires data == Le(s.magic, WORD) + (Le(|s.data|, WORD) + (s.data + rest))
    ensures |data| == 8 + |s.data| + |rest|
    ensures LeValue(data[..4]) == s.magic && LeValue(data[4..8]) == |s.data|
    ensures data[8..8 + |s.data|] == s.data && data[8 + |s.data|..] == rest
  {
    WordValue(data[..4], s.magic);
    WordValue(data[4..8], |s.data|);
  }

  /** Whatever follows the end marker, the sections before it are recovered. */
  lemma ScanInvertsEncode(ss: seq<Section>, size: Bytes, junk: Bytes)
    requires Encodable(ss) && |size| == 4
    requires |EncodeSections(ss) + (Le(END_MAGIC, WORD) + size + junk)| < TWO_32
    ensures Scan(EncodeSections(ss) + (Le(END_MAGIC, WORD) + size + junk)) == Ok(ss)
  {
    var tail := Le(END_MAGIC, WORD) + size + junk;
    assert tail[..4] == Le(END_MAGIC, WORD);
    Le4RoundTrip(END_MAGIC);
    assert Scan(tail) == Ok([]);
    SectionsInFront(ss, tail);
    ThenEnds(ss, Ok([]));
  }

  /** A section with less data than it declares is rejected; fewer than eight bytes left are ignored. */
  lemma TruncatedSectionIsRejected(ss: seq<Section>, magic: nat, size: nat, part: Bytes)
    requires Encodable(ss) && magic < TWO_32 && magic != END_MAGIC && |part| < size < TWO_32
    requires |EncodeSections(ss) + (Le(magic, WORD) + Le(size, WORD) + part)| < TWO_32
    ensures Scan(EncodeSections(ss) + (Le(magic, WORD) + Le(size, WORD) + part)) == Err
  {
    var tail := Le(magic, WORD) + Le(size, WORD) + part;
    assert tail[..4] == Le(magic, WORD) && tail[4..8] == Le(size, WORD) && tail[8..] == part;
    Le4RoundTrip(magic);
    Le4RoundTrip(size);
    assert Scan(tail) == Err;
    SectionsInFront(ss, tail);
  }

  /** The data of the last section with a magic. */
  function LastOf(ss: seq<Section>, magic: nat): Option<Bytes>
    decreases |ss|
  {
    if ss == [] then None
    else if ss[|ss| - 1].magic == magic then Some(ss[|ss| - 1].data)
    else LastOf(ss[..|ss| - 1], magic)
  }

  /** The section loop has read `seen` and stands at `pos` with these two results. */
  ghost predicate Reached(data: Bytes, readable: Bytes -> bool, seen: seq<Section>, pos: nat,
                          payload: Option<Bytes>, metadata: Option<Bytes>)
  {
    && pos <= |data|
    && Scan(data) == Then(seen, Scan(data[pos..]))
    && payload == LastOf(seen, PAYLOAD_MAGIC) && metadata == LastOf(seen, METADATA_MAGIC)
    && forall s :: s in seen && s.magic in {PAYLOAD_MAGIC, METADATA_MAGIC} ==> readable(s.data)
  }

  /** One round of the loop on a complete section. */
  lemma {:induction false} NextSection(data: Bytes, readable: Bytes -> bool, seen: seq<Section>, pos: nat,
                    payload: Option<Bytes>, metadata: Option<Bytes>, s: Section)
    requires Reached(data, readable, seen, pos, payload, metadata) && pos + 8 + |s.data| <= |data|
    requires Scan(data[pos..]) == Then([s], Scan(data[pos + 8 + |s.data|..]))
    ensures Scan(data).Ok? ==> s in Scan(data).value
    ensures (s.magic in {PAYLOAD_MAGIC, METADATA_MAGIC} ==> readable(s.data)) ==>
              Reached(data, readable, seen + [s], pos + 8 + |s.data|,
                      if s.magic == PAYLOAD_MAGIC then Some(s.data) else payload,
                      if s.magic == METADATA_MAGIC then Some(s.data) else metadata)
  {
    ThenThen(seen, s, Scan(data[pos + 8 + |s.data|..]));
  }

  /** Payload and metadata of a readable section list; the last section of each kind wins. */
  ghost predicate Reads(data: Bytes, readable: Bytes -> bool, r: Result<(Bytes, Option<Bytes>)>) {
    && (r.Ok? <==>
          && Scan(data).Ok? && LastOf(Scan(data).value, PAYLOAD_MAGIC).Some?
          && forall s :: s in Scan(data).value && s.magic in {PAYLOAD_MAGIC, METADATA_MAGIC} ==> readable(s.data))
    && (r.Ok? ==> LastOf(Scan(data).value, PAYLOAD_MAGIC) == Some(r.value.0) &&
                  LastOf(Scan(data).value, METADATA_MAGIC) == r.value.1)
  }

  lemma ReadsAtEnd(data: Bytes, readable: Bytes -> bool, seen: seq<Section>, pos: nat,
                   payload: Option<Bytes>, metadata: Option<Bytes>)
    requires Reached(data, readable, seen, pos, payload, metadata) && Scan(data[pos..]) == Ok([])
    ensures Reads(data, readable, if payload.None? then Err else Ok((payload.value, metadata)))
  {
    ThenEnds(seen, Ok([]));
  }

  /** A payload and a metadata section and the end marker, by their magic numbers. */
  lemma MagicNumbers(payload: Bytes, metadata: Bytes, size: Bytes, data: Bytes, readable: Bytes -> bool)
    requires readable(payload) && readable(metadata) && |data| < 0x1_0000_0000 && |size| == 4
    requires data == EncodeSections([Section(0x71F6_17D0, payload), Section(0x1F48_12BE, metadata)]) +
                     (Le(0x32C4_15AB, 4) + size + [])
    ensures Reads(data, readable, Ok((payload, Some(metadata))))
  {
    var p, m := Section(0x71F6_17D0, payload), Section(0x1F48_12BE, metadata);
    ScanInvertsEncode([p, m], size, []);
    assert [p, m][..1] == [p];
  }

  /** One section, if this is not the end marker and the data is all there. */
  method ReadSection(data: Bytes, pos: nat) returns (ended: bool, s: Option<Section>)
    requires pos + 8 <= |data|
    ensures ended ==> Scan(data[pos..]) == Ok([])
    ensures !ended && s.None? ==> Scan(data[pos..]) == Err
    ensures !ended && s.Some? ==>
              && pos + 8 + |s.value.data| <= |data|
              && Scan(data[pos..]) == Then([s.value], Scan(data[pos + 8 + |s.value.data|..]))
  {
    var magic, size := LeValue(data[pos..pos + 4]), LeValue(data[pos + 4..pos + 8]);
    ScanAt(data, pos);
    if magic == END_MAGIC {
      return true, None;
    }
    if (|data| - pos - 8) % TWO_32 < size {
      return false, None;
    }
    return false, Some(Section(magic, data[pos + 8..pos + 8 + size]));
  }

  /** The section loop; `readable` says what the protobuf decoder accepts. */
  method ParseManifestSections(data: Bytes, readable: Bytes -> bool) returns (r: Result<(Bytes, Option<Bytes>)>)
    ensures Reads(data, readable, r)
  {
    var pos := 0;
    var payload, metadata: Option<Bytes> := None, None;
    ghost var seen: seq<Section> := [];
    assert data[0..] == data;
    ThenEnds([], Scan(data));
    while pos + 8 <= |data|
      invariant 0 <= pos && Reached(data, readable, seen, pos, payload, metadata)
      decreases |data| - pos
    {
      var ended, section := ReadSection(data, pos);
      if ended {
        break;
      }
      if section.None? {
        return Err;
      }
      var s := section.value;
      NextSection(data, readable, seen, pos, payload, metadata, s);
      if s.magic in {PAYLOAD_MAGIC, METADATA_MAGIC} && !readable(s.data) {
        return Err;
      }
      if s.magic == PAYLOAD_MAGIC {
        payload := Some(s.data);
      } else if s.magic == METADATA_MAGIC {
        metadata := Some(s.data);
      }
      seen := seen + [s];
      pos := pos + 8 + |s.data|;
    }
    ReadsAtEnd(data, readable, seen, pos, payload, metadata);
    if payload.None? {
      return Err;
    }
    return Ok((payload.value, metadata));
  }

  /** One round of the scan, by position. */
  lemma ScanAt(data: Bytes, pos: nat)
    requires pos + 8 <= |data|
    ensures
      var magic, size := LeValue(data[pos..pos + 4]), LeValue(data[pos + 4..pos + 8]);
      Scan(data[pos..]) ==
      if magic == END_MAGIC then Ok([])
      else if (|data| - pos - 8) % TWO_32 < size then Err
      else
        assert size <= |data| - pos - 8;
        Then([Section(magic, data[pos + 8..pos + 8 + size])], Scan(data[pos + 8 + size..]))
  {
    var rest := data[pos..];
    var size := LeValue(data[pos + 4..pos + 8]);
    assert rest[..4] == data[pos..pos + 4] && rest[4..8] == data[pos + 4..pos + 8] && rest[8..] == data[pos + 8..];
    if size <= |rest| - 8 {
      assert rest[8..8 + size] == data[pos + 8..pos + 8 + size] && rest[8 + size..] == data[pos + 8 + size..];
    }
  }
}
