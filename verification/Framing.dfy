/** Frames on a connection: a 32-byte header and the payload. The checksum function is a parameter. */
module Framing {
  import opened Bounded
  import opened Endian
  import opened Messages
  import Records
  import Wire

  const PROTOCOL_MAGIC: u32 := 0x4859_5045
  const PROTOCOL_VERSION: u16 := 1
  const HEADER_SIZE := 32
  const MAX_PAYLOAD := 10 * 1024 * 1024

  type FrameHeader = m: Message | m.Header? witness Header(0, 0, 0, 0, 0, 0, 0, [0, 0, 0, 0])

  datatype Frame = Frame(header: FrameHeader, payload: Bytes)

  type Crc = Bytes -> u32

  function FrameBytes(f: Frame): Bytes {
    Serialize(f.header) + f.payload
  }

  predicate IsValid(h: FrameHeader) {
    h.magic == PROTOCOL_MAGIC && h.version == PROTOCOL_VERSION
  }

  predicate ChecksumMatches(crc: Crc, h: FrameHeader, payload: Bytes) {
    GetInt(Big, h.checksum) == crc(payload)
  }

  /** What a sender has to put into a frame for the reader to accept it. The checksum of an empty payload is free. */
  predicate Acceptable(crc: Crc, f: Frame) {
    && IsValid(f.header)
    && f.header.payloadSize == |f.payload| <= MAX_PAYLOAD
    && (f.payload != [] ==> ChecksumMatches(crc, f.header, f.payload))
  }

  // ----- headers have one size -----

  predicate Fixed(s: Wire.Shape) {
    match s
    case Then(first, rest) => Fixed(first) && Fixed(rest)
    case UInt(_, _) => true
    case Raw(_) => true
    case Empty => true
    case _ => false
  }

  function Width(s: Wire.Shape): nat
    requires Fixed(s)
  {
    match s
    case Then(first, rest) => Width(first) + Width(rest)
    case UInt(width, _) => width
    case Raw(length) => length
    case Empty => 0
  }

  lemma {:induction false} FixedDecodes(s: Wire.Shape, b: Bytes)
    requires Fixed(s)
    ensures Wire.Decode(s, b).Fail? <==> |b| < Width(s)
    ensures Wire.Decode(s, b).Parsed? ==> Wire.Decode(s, b).rest == b[Width(s)..]
  {
    match s
    case Then(first, rest) =>
      FixedDecodes(first, b);
      if |b| >= Width(first) {
        FixedDecodes(rest, b[Width(first)..]);
        if |b| >= Width(s) {
          assert b[Width(first)..][Width(rest)..] == b[Width(s)..];
        }
      }
    case _ =>
  }

  lemma HeaderShape()
    ensures Fixed(Records.Chain(Layout(HeaderKind))) && Width(Records.Chain(Layout(HeaderKind))) == HEADER_SIZE
  {
    var l := Layout(HeaderKind);
    var c8 := Records.Chain(l[8..]);
    var c7 := Records.Chain(l[7..]);
    var c6 := Records.Chain(l[6..]);
    var c5 := Records.Chain(l[5..]);
    var c4 := Records.Chain(l[4..]);
    var c3 := Records.Chain(l[3..]);
    var c2 := Records.Chain(l[2..]);
    var c1 := Records.Chain(l[1..]);
    assert l[8..] == [] && l[7..][1..] == l[8..] && l[6..][1..] == l[7..] && l[5..][1..] == l[6..];
    assert l[4..][1..] == l[5..] && l[3..][1..] == l[4..] && l[2..][1..] == l[3..] && l[1..][1..] == l[2..];
    assert Fixed(c8) && Width(c8) == 0;
    assert Fixed(c7) && Width(c7) == 4;
    assert Fixed(c6) && Width(c6) == 12;
    assert Fixed(c5) && Width(c5) == 16;
    assert Fixed(c4) && Width(c4) == 24;
    assert Fixed(c3) && Width(c3) == 25;
    assert Fixed(c2) && Width(c2) == 26;
    assert Fixed(c1) && Width(c1) == 28;
  }

  lemma AnyBytesAreAHeader(b: Bytes)
    requires |b| == HEADER_SIZE
    ensures Deserialize(HeaderKind, b).Some? && Deserialize(HeaderKind, b).value.Header?
    ensures Serialize(Deserialize(HeaderKind, b).value) == b
  {
    HeaderShape();
    FixedDecodes(Records.Chain(Layout(HeaderKind)), b);
    AcceptedIsCanonical(HeaderKind, b);
    HeaderLength(Deserialize(HeaderKind, b).value);
  }

  function HeaderOf(b: Bytes): (h: FrameHeader)
    requires |b| == HEADER_SIZE
  {
    AnyBytesAreAHeader(b);
    Deserialize(HeaderKind, b).value
  }

  lemma HeaderLength(h: FrameHeader)
    ensures |Serialize(h)| == HEADER_SIZE
  {
    HeaderShape();
    FieldsMatch(h);
    Records.TupleMatches(Layout(HeaderKind), Fields(h));
    Wire.RoundTrip(Records.Chain(Layout(HeaderKind)), Records.Tuple(Fields(h)), []);
    assert Serialize(h) + [] == Serialize(h);
    FixedDecodes(Records.Chain(Layout(HeaderKind)), Serialize(h));
  }

  lemma HeaderOfSerialized(h: FrameHeader)
    ensures |Serialize(h)| == HEADER_SIZE && HeaderOf(Serialize(h)) == h
  {
    HeaderLength(h);
    RoundTripsExactly(h, []);
    assert Serialize(h) + [] == Serialize(h);
  }

  /** The frame the program makes of a payload: current version, no flags, its size and its checksum. */
  function MakeFrame(crc: Crc, kind: u8, id: u64, timestamp: u64, payload: Bytes): Frame {
    Frame(Header(PROTOCOL_MAGIC, PROTOCOL_VERSION, kind, 0, id, |payload| % TWO_TO_THE_32, timestamp,
                 PutInt(Big, 4, crc(payload))), payload)
  }

  /** The first four bytes of every frame spell HYPE. */
  lemma MagicSpells()
    ensures High(PROTOCOL_MAGIC, 4) == [0x48, 0x59, 0x50, 0x45]
  {
    assert Power256(0) == 1 && Power256(1) == 0x100 && Power256(2) == 0x1_0000;
    assert Power256(3) == 0x100 * Power256(2) == 0x100_0000;
  }

  /** What a reader demands: the magic number, version 1, at most ten mebibytes as announced and, unless there is no
      payload, its checksum. */
  lemma AcceptableMeans(crc: Crc, f: Frame)
    ensures Acceptable(crc, f) <==>
              && f.header.magic == 0x4859_5045 && f.header.version == 1
              && f.header.payloadSize == |f.payload| <= 10_485_760
              && (f.payload != [] ==> f.header.checksum == High(crc(f.payload), 4))
  {
    Powers();
    BigIsHigh(crc(f.payload), 4);
    IntRoundTrip(Big, 4, crc(f.payload));
    IntBound(Big, f.header.checksum);
  }

  /** Such a frame is accepted exactly when its payload has at most ten mebibytes. */
  lemma MadeFrameAcceptableExactly(crc: Crc, kind: u8, id: u64, timestamp: u64, payload: Bytes)
    ensures Acceptable(crc, MakeFrame(crc, kind, id, timestamp, payload)) <==> |payload| <= 10_485_760
    ensures var f := MakeFrame(crc, kind, id, timestamp, payload);
      && f.payload == payload && f.header.kind == kind && f.header.flags == 0 && f.header.messageId == id
      && f.header.timestamp == timestamp && f.header.checksum == High(crc(payload), 4)
      && High(f.header.magic, 4) == [0x48, 0x59, 0x50, 0x45] && f.header.version == 1
  {
    BigIsHigh(crc(payload), 4);
    MagicSpells();
    Powers();
    IntRoundTrip(Big, 4, crc(payload));
  }

  // ----- reading a stream -----

  datatype Next = NeedMore | Bad | Got(frame: Frame, rest: Bytes)

  /** One header read and, if the header asks for it, one payload read. */
  function NextFrame(crc: Crc, b: Bytes): Next {
    if |b| < HEADER_SIZE then NeedMore else
    var h := HeaderOf(b[..HEADER_SIZE]);
    if !IsValid(h) then Bad
    else if h.payloadSize == 0 then Got(Frame(h, []), b[HEADER_SIZE..])
    else if h.payloadSize > MAX_PAYLOAD then Bad
    else if |b| < HEADER_SIZE + h.payloadSize then NeedMore
    else
      var payload := b[HEADER_SIZE..HEADER_SIZE + h.payloadSize];
      if ChecksumMatches(crc, h, payload) then Got(Frame(h, payload), b[HEADER_SIZE + h.payloadSize..]) else Bad
  }

  lemma NextShrinks(crc: Crc, b: Bytes)
    requires NextFrame(crc, b).Got?
    ensures |NextFrame(crc, b).rest| < |b|
  {
  }

  /** `closed` when the reader gave up; otherwise it waits for more behind `rest`. */
  datatype Reading = Reading(delivered: seq<Frame>, closed: bool, rest: Bytes)

  function ReadAll(crc: Crc, b: Bytes): Reading
    decreases |b|
  {
    match NextFrame(crc, b)
    case NeedMore => Reading([], false, b)
    case Bad => Reading([], true, b)
    case Got(f, rest) =>
      NextShrinks(crc, b);
      After([f], ReadAll(crc, rest))
  }

  function After(frames: seq<Frame>, r: Reading): Reading {
    r.(delivered := frames + r.delivered)
  }

  lemma ReadGot(crc: Crc, b: Bytes, f: Frame, rest: Bytes)
    requires NextFrame(crc, b) == Got(f, rest)
    ensures |rest| < |b| && ReadAll(crc, b) == After([f], ReadAll(crc, rest))
  {
    NextShrinks(crc, b);
  }

  lemma AfterAfter(frames: seq<Frame>, more: seq<Frame>, r: Reading)
    ensures After(frames, After(more, r)) == After(frames + more, r)
  {
    assert frames + (more + r.delivered) == (frames + more) + r.delivered;
  }

  lemma NextExtends(crc: Crc, b: Bytes, more: Bytes)
    requires NextFrame(crc, b) != NeedMore
    ensures NextFrame(crc, b).Bad? ==> NextFrame(crc, b + more) == Bad
    ensures NextFrame(crc, b).Got? ==> NextFrame(crc, b + more) == Got(NextFrame(crc, b).frame, NextFrame(crc, b).rest + more)
  {
    Wire.Slices(b, more, 0, HEADER_SIZE);
    var h := HeaderOf(b[..HEADER_SIZE]);
    if h.payloadSize <= |b| - HEADER_SIZE {
      Wire.Slices(b, more, HEADER_SIZE, HEADER_SIZE + h.payloadSize);
    }
  }

  lemma NextOfFrame(crc: Crc, f: Frame, suffix: Bytes)
    requires Acceptable(crc, f)
    ensures NextFrame(crc, FrameBytes(f) + suffix) == Got(f, suffix)
  {
    HeaderOfSerialized(f.header);
    var b := FrameBytes(f) + suffix;
    assert b[..HEADER_SIZE] == Serialize(f.header);
    assert b[HEADER_SIZE..HEADER_SIZE + |f.payload|] == f.payload;
    assert b[HEADER_SIZE + |f.payload|..] == suffix;
  }

  lemma FrameSplitsOff(b: Bytes, size: nat)
    requires HEADER_SIZE + size <= |b|
    ensures b == FrameBytes(Frame(HeaderOf(b[..HEADER_SIZE]), b[HEADER_SIZE..HEADER_SIZE + size]))
                 + b[HEADER_SIZE + size..]
  {
    var head, payload, rest := b[..HEADER_SIZE], b[HEADER_SIZE..HEADER_SIZE + size], b[HEADER_SIZE + size..];
    AnyBytesAreAHeader(head);
    assert b == (head + payload) + rest;
  }

  lemma NextIsAcceptable(crc: Crc, b: Bytes)
    requires NextFrame(crc, b).Got?
    ensures Acceptable(crc, NextFrame(crc, b).frame)
    ensures b == FrameBytes(NextFrame(crc, b).frame) + NextFrame(crc, b).rest
  {
    var size := HeaderOf(b[..HEADER_SIZE]).payloadSize;
    FrameSplitsOff(b, size);
    assert NextFrame(crc, b).frame.payload == b[HEADER_SIZE..HEADER_SIZE + size];
    assert NextFrame(crc, b).rest == b[HEADER_SIZE + size..];
  }

  lemma PartOfFrameNeedsMore(crc: Crc, f: Frame, n: nat)
    requires Acceptable(crc, f) && n < |FrameBytes(f)|
    ensures NextFrame(crc, FrameBytes(f)[..n]) == NeedMore
  {
    var b := FrameBytes(f);
    if NextFrame(crc, b[..n]) != NeedMore {
      NextExtends(crc, b[..n], b[n..]);
      assert b[..n] + b[n..] == b == b + [];
      NextOfFrame(crc, f, []);
      assert false;
    }
  }

  /** The parser for a message that is wholly in memory; it knows no limit on the payload. */
  function ParseMessage(crc: Crc, data: Bytes): Option<Frame> {
    if |data| < HEADER_SIZE then None else
    var h := HeaderOf(data[..HEADER_SIZE]);
    if !IsValid(h) || |data| < HEADER_SIZE + h.payloadSize then None else
    var payload := data[HEADER_SIZE..HEADER_SIZE + h.payloadSize];
    if h.payloadSize > 0 && !ChecksumMatches(crc, h, payload) then None else Some(Frame(h, payload))
  }

  /** It agrees with the reader of the stream on all payloads within the limit. */
  lemma ParsersAgree(crc: Crc, data: Bytes)
    ensures NextFrame(crc, data).Got? <==>
              ParseMessage(crc, data).Some? && |ParseMessage(crc, data).value.payload| <= MAX_PAYLOAD
    ensures NextFrame(crc, data).Got? ==> ParseMessage(crc, data) == Some(NextFrame(crc, data).frame)
  {
    if |data| >= HEADER_SIZE { assert data[HEADER_SIZE..HEADER_SIZE] == []; }
  }

  // ----- whole streams -----

  function FramesBytes(frames: seq<Frame>): Bytes {
    if frames == [] then [] else FrameBytes(frames[0]) + FramesBytes(frames[1..])
  }

  predicate AllAcceptable(crc: Crc, frames: seq<Frame>) {
    forall i | 0 <= i < |frames| :: Acceptable(crc, frames[i])
  }

  /** What the reader comes to when more bytes arrive: a closed connection stays closed, and otherwise whatever was
      left over is read again together with what arrived. */
  ghost predicate GoesOn(crc: Crc, r: Reading, more: Bytes, whole: Reading) {
    if r.closed then whole.closed && whole.delivered == r.delivered
    else whole == After(r.delivered, ReadAll(crc, r.rest + more))
  }

  /** Reading in pieces is reading at once. */
  lemma {:induction false} ReadsOn(crc: Crc, b: Bytes, more: Bytes)
    ensures GoesOn(crc, ReadAll(crc, b), more, ReadAll(crc, b + more))
    decreases |b|
  {
    match NextFrame(crc, b)
    case NeedMore => assert After([], ReadAll(crc, b + more)) == ReadAll(crc, b + more);
    case Bad => NextExtends(crc, b, more);
    case Got(f, rest) =>
      NextExtends(crc, b, more);
      ReadGot(crc, b, f, rest);
      ReadGot(crc, b + more, f, rest + more);
      ReadsOn(crc, rest, more);
      var r := ReadAll(crc, rest);
      AfterAfter([f], r.delivered, ReadAll(crc, r.rest + more));
  }

  /** One step of reading what is left, given what has been delivered so far. */
  lemma ReadsOneMore(crc: Crc, r: Reading, delivered: seq<Frame>, b: Bytes)
    requires r == After(delivered, ReadAll(crc, b))
    ensures match NextFrame(crc, b)
            case NeedMore => r == Reading(delivered, false, b)
            case Bad => r == Reading(delivered, true, b)
            case Got(f, rest) => |rest| < |b| && r == After(delivered + [f], ReadAll(crc, rest))
  {
    assert delivered + [] == delivered;
    var n := NextFrame(crc, b);
    if n.Got? {
      ReadGot(crc, b, n.frame, n.rest);
      AfterAfter(delivered, [n.frame], ReadAll(crc, n.rest));
    }
  }

  lemma FramesBytesCons(f: Frame, frames: seq<Frame>, rest: Bytes)
    ensures FramesBytes([f] + frames) + rest == FrameBytes(f) + (FramesBytes(frames) + rest)
  {
    assert ([f] + frames)[1..] == frames;
    assert FramesBytes([f] + frames) == FrameBytes(f) + FramesBytes(frames);
  }

  lemma AcceptableCons(crc: Crc, f: Frame, frames: seq<Frame>)
    requires Acceptable(crc, f) && AllAcceptable(crc, frames)
    ensures AllAcceptable(crc, [f] + frames)
  {
    assert forall i | 0 < i <= |frames| :: ([f] + frames)[i] == frames[i - 1];
  }

  lemma {:induction false} DeliveredAreAcceptable(crc: Crc, b: Bytes)
    ensures AllAcceptable(crc, ReadAll(crc, b).delivered)
    ensures b == FramesBytes(ReadAll(crc, b).delivered) + ReadAll(crc, b).rest
    decreases |b|
  {
    var n := NextFrame(crc, b);
    if n.Got? {
      ReadGot(crc, b, n.frame, n.rest);
      NextIsAcceptable(crc, b);
      DeliveredAreAcceptable(crc, n.rest);
      var r := ReadAll(crc, n.rest);
      AcceptableCons(crc, n.frame, r.delivered);
      FramesBytesCons(n.frame, r.delivered, r.rest);
    }
  }

  lemma {:induction false} ReadsFrames(crc: Crc, frames: seq<Frame>, suffix: Bytes)
    requires AllAcceptable(crc, frames)
    ensures ReadAll(crc, FramesBytes(frames) + suffix) == After(frames, ReadAll(crc, suffix))
    decreases |frames|
  {
    if frames == [] {
      assert FramesBytes(frames) + suffix == suffix;
    } else {
      var f, others := frames[0], frames[1..];
      var tail := FramesBytes(others) + suffix;
      assert frames == [f] + others;
      FramesBytesCons(f, others, suffix);
      NextOfFrame(crc, f, tail);
      ReadGot(crc, FrameBytes(f) + tail, f, tail);
      assert forall i | 0 <= i < |others| :: others[i] == frames[i + 1];
      ReadsFrames(crc, others, suffix);
      AfterAfter([f], others, ReadAll(crc, suffix));
    }
  }

  /** The reader recovers exactly what was sent if and only if every frame was acceptable. */
  lemma RecoversExactly(crc: Crc, frames: seq<Frame>)
    ensures ReadAll(crc, FramesBytes(frames)) == Reading(frames, false, []) <==> AllAcceptable(crc, frames)
  {
    assert FramesBytes(frames) + [] == FramesBytes(frames);
    if AllAcceptable(crc, frames) {
      ReadsFrames(crc, frames, []);
    }
    DeliveredAreAcceptable(crc, FramesBytes(frames));
  }

  /** At any moment the reader has delivered a prefix of what was sent, and has not given up. */
  lemma {:induction false} PrefixDeliversPrefix(crc: Crc, frames: seq<Frame>, b: Bytes)
    requires AllAcceptable(crc, frames) && b <= FramesBytes(frames)
    ensures ReadAll(crc, b).delivered <= frames && !ReadAll(crc, b).closed
    decreases |frames|
  {
    if frames == [] {
      assert b == [];
    } else {
      var f, rest := frames[0], frames[1..];
      if |b| < |FrameBytes(f)| {
        assert b == FrameBytes(f)[..|b|];
        PartOfFrameNeedsMore(crc, f, |b|);
      } else {
        var tail := b[|FrameBytes(f)|..];
        assert b == FrameBytes(f) + tail && tail <= FramesBytes(rest);
        NextOfFrame(crc, f, tail);
        ReadGot(crc, b, f, tail);
        assert forall i | 0 <= i < |rest| :: rest[i] == frames[i + 1];
        PrefixDeliversPrefix(crc, rest, tail);
        assert frames == [f] + rest;
      }
    }
  }
}
