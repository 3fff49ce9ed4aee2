/** The sending half of a connection as a state machine over sends, write completions and closing. */
module WriteQueue {
  import opened Bounded
  import opened Framing

  /** `open` in the states in which sending is accepted; `wire` is what the socket has taken. */
  datatype Sender = Sender(open: bool, queue: seq<Bytes>, writing: bool, wire: Bytes)

  datatype Event =
    | Send(frame: Frame)
    | Written                       // the write of the front completed
    | WriteFailed(count: nat)       // it failed after `count` bytes
    | Close

  const INITIAL := Sender(true, [], false, [])

  predicate Enabled(s: Sender, e: Event) {
    match e
    case Written => s.writing && s.queue != []
    case WriteFailed(count) => s.writing && s.queue != [] && count <= |s.queue[0]|
    case _ => true
  }

  function StartWrite(s: Sender): Sender {
    if s.queue == [] || s.writing then s else s.(writing := true)
  }

  function Step(s: Sender, e: Event): Sender
    requires Enabled(s, e)
  {
    match e
    case Send(f) =>
      if !s.open then s else
      var queued := s.(queue := s.queue + [FrameBytes(f)]);
      if s.queue == [] && !s.writing then StartWrite(queued) else queued
    case Written => StartWrite(s.(writing := false, queue := s.queue[1..], wire := s.wire + s.queue[0]))
    case WriteFailed(count) => s.(writing := false, wire := s.wire + s.queue[0][..count], open := false)
    case Close => s.(open := false)
  }

  /** A run and the frames it accepted. */
  datatype Trace = Trace(sender: Sender, accepted: seq<Frame>)

  function StepTrace(t: Trace, e: Event): Trace
    requires Enabled(t.sender, e)
  {
    Trace(Step(t.sender, e), if e.Send? && t.sender.open then t.accepted + [e.frame] else t.accepted)
  }

  ghost predicate IsRun(events: seq<Event>)
    decreases |events|, 0
  {
    events == [] || (IsRun(events[..|events| - 1]) && Enabled(Run(events[..|events| - 1]).sender, events[|events| - 1]))
  }

  ghost function Run(events: seq<Event>): Trace
    requires IsRun(events)
    decreases |events|, 1
  {
    if events == [] then Trace(INITIAL, []) else StepTrace(Run(events[..|events| - 1]), events[|events| - 1])
  }

  /** Nothing is being written although something is queued: a write failed. */
  predicate Broken(s: Sender) {
    !s.writing && s.queue != []
  }

  ghost predicate Invariant(t: Trace) {
    && (t.sender.writing ==> t.sender.queue != [])
    && (t.sender.open ==> !Broken(t.sender))
    && if Broken(t.sender) then t.sender.wire <= FramesBytes(t.accepted)
       else FramesBytes(t.accepted) == t.sender.wire + Concat(t.sender.queue)
  }

  lemma {:induction false} ConcatPush(parts: seq<Bytes>, last: Bytes)
    ensures Concat(parts + [last]) == Concat(parts) + last
  {
    if parts == [] {
      assert [last][1..] == [];
      assert parts + [last] == [last];
    } else {
      assert (parts + [last])[1..] == parts[1..] + [last];
      ConcatPush(parts[1..], last);
      assert parts[0] + (Concat(parts[1..]) + last) == parts[0] + Concat(parts[1..]) + last;
    }
  }

  lemma {:induction false} FramesPush(frames: seq<Frame>, last: Frame)
    ensures FramesBytes(frames + [last]) == FramesBytes(frames) + FrameBytes(last)
  {
    if frames == [] {
      assert [last][1..] == [];
      assert frames + [last] == [last];
    } else {
      assert (frames + [last])[1..] == frames[1..] + [last];
      FramesPush(frames[1..], last);
      assert FrameBytes(frames[0]) + (FramesBytes(frames[1..]) + FrameBytes(last))
             == FrameBytes(frames[0]) + FramesBytes(frames[1..]) + FrameBytes(last);
    }
  }

  lemma QueuedBehind(total: Bytes, wire: Bytes, queue: seq<Bytes>, b: Bytes)
    requires total == wire + Concat(queue)
    ensures total + b == wire + Concat(queue + [b])
  {
    ConcatPush(queue, b);
  }

  lemma SendKeeps(t: Trace, f: Frame)
    requires Invariant(t) && t.sender.open
    ensures Invariant(StepTrace(t, Send(f)))
  {
    FramesPush(t.accepted, f);
    QueuedBehind(FramesBytes(t.accepted), t.sender.wire, t.sender.queue, FrameBytes(f));
  }

  lemma WrittenKeeps(t: Trace)
    requires Invariant(t) && Enabled(t.sender, Written)
    ensures Invariant(StepTrace(t, Written))
  {
    var s := t.sender;
    assert s.wire + (s.queue[0] + Concat(s.queue[1..])) == s.wire + s.queue[0] + Concat(s.queue[1..]);
  }

  lemma FailureKeeps(t: Trace, count: nat)
    requires Invariant(t) && Enabled(t.sender, WriteFailed(count))
    ensures Invariant(StepTrace(t, WriteFailed(count)))
  {
    var s, front := t.sender, t.sender.queue[0];
    var part, left, more := front[..count], front[count..], Concat(s.queue[1..]);
    assert front == part + left;
    assert s.wire + ((part + left) + more) == (s.wire + part) + (left + more);
  }

  lemma StepKeeps(t: Trace, e: Event)
    requires Invariant(t) && Enabled(t.sender, e)
    ensures Invariant(StepTrace(t, e))
  {
    match e
    case Send(f) => if t.sender.open { SendKeeps(t, f); }
    case Written => WrittenKeeps(t);
    case WriteFailed(count) => FailureKeeps(t, count);
    case Close =>
  }

  /** Over every interleaving of sends, completions, failures and closing: as long as the connection is open, one write is
      in progress exactly while something is queued. Unless a write has failed, the bytes on the wire followed by the queue
      are the accepted frames in order; after a failure the wire holds a prefix of them. */
  lemma {:induction false} RunKeeps(events: seq<Event>)
    requires IsRun(events)
    ensures Invariant(Run(events))
    ensures var s := Run(events).sender; s.open ==> (s.writing <==> s.queue != [])
  {
    if events == [] {
      assert [] + Concat([]) == [];
    } else {
      RunKeeps(events[..|events| - 1]);
      StepKeeps(Run(events[..|events| - 1]), events[|events| - 1]);
    }
  }

  /** Whatever part of the wire has arrived, the reader at the other end has delivered a prefix of the accepted frames,
      in order and unchanged; once the queue has drained and all has arrived, it has delivered all of them. */
  lemma EndToEnd(crc: Crc, events: seq<Event>, arrived: Bytes)
    requires IsRun(events) && AllAcceptable(crc, Run(events).accepted)
    requires arrived <= Run(events).sender.wire
    ensures ReadAll(crc, arrived).delivered <= Run(events).accepted && !ReadAll(crc, arrived).closed
    ensures Run(events).sender.queue == [] && arrived == Run(events).sender.wire ==>
              ReadAll(crc, arrived).delivered == Run(events).accepted
  {
    RunKeeps(events);
    var t := Run(events);
    assert t.sender.wire <= FramesBytes(t.accepted);
    PrefixDeliversPrefix(crc, t.accepted, arrived);
    if t.sender.queue == [] && arrived == t.sender.wire {
      assert t.sender.wire + [] == t.sender.wire;
      RecoversExactly(crc, t.accepted);
    }
  }
}
