/** A connection: the queue of outgoing frames and the reader of incoming ones. The socket appears as the bytes it
    has taken (`wire`) and the bytes it holds for the reader (`unread`). */
module Connection {
  import opened Bounded
  import opened Framing
  import opened Messages
  import opened WriteQueue

  datatype ConnectionState = DISCONNECTED | CONNECTING | CONNECTED | AUTHENTICATED | CLOSING

  class Connection {
    const crc: Crc
    var state: ConnectionState
    var writeQueue: seq<Bytes>
    var writeInProgress: bool
    var wire: Bytes
    var unread: Bytes
    var delivered: seq<Frame>     // handed to the message handler, in order
    var notified: nat             // how often the disconnect handler was called
    ghost var received: Bytes     // everything that arrived while the connection was open

    constructor (crc: Crc)
      ensures this.crc == crc && state == CONNECTED
      ensures AsSender() == INITIAL
      ensures received == [] && delivered == [] && Valid()
    {
      this.crc := crc;
      state, writeQueue, writeInProgress, wire := CONNECTED, [], false, [];
      unread, delivered, received, notified := [], [], [], 0;
    }

    predicate MaySend()
      reads this
    {
      state == CONNECTED || state == AUTHENTICATED
    }

    predicate IsDown()
      reads this
    {
      state == DISCONNECTED || state == CLOSING
    }

    function AsSender(): Sender
      reads this
    {
      Sender(MaySend(), writeQueue, writeInProgress, wire)
    }

    /** The reader is where reading all received bytes at once would be, unless the connection went down on the way; the
        disconnect handler was called exactly once if it did. */
    ghost predicate Valid()
      reads this
    {
      var r := ReadAll(crc, received);
      && delivered <= r.delivered
      && (!IsDown() ==> !r.closed && delivered == r.delivered && unread == r.rest)
      && notified == if IsDown() then 1 else 0
    }

    /** Closing a connection that is down changes nothing. */
    method Close()
      modifies this`state, this`notified
      ensures old(Valid()) ==> Valid()
      ensures if old(IsDown()) then state == old(state) && notified == old(notified)
              else state == DISCONNECTED && notified == old(notified) + 1
      ensures AsSender() == Step(old(AsSender()), Event.Close)
    {
      if state == DISCONNECTED || state == CLOSING { return; }
      state := CLOSING;
      state := DISCONNECTED;
      notified := notified + 1;
    }

    method DoWrite()
      modifies this`writeInProgress
      ensures AsSender() == StartWrite(old(AsSender()))
    {
      if writeQueue == [] || writeInProgress { return; }
      writeInProgress := true;
    }

    method SendMessage(header: FrameHeader, payload: Bytes)
      requires Valid()
      modifies this`writeQueue, this`writeInProgress
      ensures Valid()
      ensures AsSender() == Step(old(AsSender()), Send(Frame(header, payload)))
    {
      if state != CONNECTED && state != AUTHENTICATED { return; }
      var message := Serialize(header) + payload;
      var wasEmpty := writeQueue == [];
      writeQueue := writeQueue + [message];
      if wasEmpty && !writeInProgress { DoWrite(); }
    }

    /** The completion handler of a write: `count` bytes were taken, all of them unless there was an error. */
    method OnWritten(error: bool, count: nat)
      requires Valid() && writeInProgress && writeQueue != []
      requires if error then count <= |writeQueue[0]| else count == |writeQueue[0]|
      modifies this`state, this`notified, this`writeQueue, this`writeInProgress, this`wire
      ensures Valid() && (error ==> IsDown())
      ensures AsSender() == Step(old(AsSender()), if error then WriteFailed(count) else Written)
    {
      writeInProgress := false;
      wire := wire + writeQueue[0][..count];
      if !error {
        assert writeQueue[0][..count] == writeQueue[0];
        writeQueue := writeQueue[1..];
        if writeQueue != [] { DoWrite(); }
      } else {
        Close();
      }
    }

    /** A header read and the payload read it asks for, as far as the bytes at hand allow. */
    method ReadFrame() returns (waiting: bool)
      requires !IsDown()
      modifies this`state, this`notified, this`unread, this`delivered
      ensures match NextFrame(crc, old(unread))
              case NeedMore => waiting && unchanged(this)
              case Bad =>
                !waiting && IsDown() && notified == old(notified) + 1 && unchanged(this`unread, this`delivered)
              case Got(f, rest) =>
                !waiting && unread == rest && delivered == old(delivered) + [f] && unchanged(this`state, this`notified)
    {
      if |unread| < HEADER_SIZE { return true; }
      var header := HeaderOf(unread[..HEADER_SIZE]);
      if !IsValid(header) {
        Close();
      } else if header.payloadSize == 0 {
        delivered := delivered + [Frame(header, [])];
        unread := unread[HEADER_SIZE..];
      } else if header.payloadSize > MAX_PAYLOAD {
        Close();
      } else if |unread| < HEADER_SIZE + header.payloadSize {
        return true;
      } else {
        var payload := unread[HEADER_SIZE..HEADER_SIZE + header.payloadSize];
        if !ChecksumMatches(crc, header, payload) {
          Close();
        } else {
          delivered := delivered + [Frame(header, payload)];
          unread := unread[HEADER_SIZE + header.payloadSize..];
        }
      }
      return false;
    }

    /** Bytes arrive; as many reads as they allow complete. The message handler may close the connection, upon the message
        with the given number. Then that message is the last; otherwise everything readable is delivered. */
    method OnReceived(bytes: Bytes, handlerClosesAt: Option<nat>)
      requires Valid() && !IsDown()
      requires handlerClosesAt.Some? ==> handlerClosesAt.value > |delivered|
      modifies this`state, this`notified, this`unread, this`delivered, this`received
      ensures Valid() && received == old(received) + bytes
      ensures var r := ReadAll(crc, received);
        if handlerClosesAt.Some? && handlerClosesAt.value <= |r.delivered|
        then delivered == r.delivered[..handlerClosesAt.value] && IsDown()
        else delivered == r.delivered && (IsDown() <==> r.closed)
      ensures IsDown() || state == old(state)
    {
      ReadsOn(crc, received, bytes);
      received := received + bytes;
      unread := unread + bytes;
      ghost var r := ReadAll(crc, received);
      var waiting := false;
      while !IsDown() && !waiting
        invariant received == old(received) + bytes
        invariant IsDown() || state == old(state)
        invariant notified == if IsDown() then 1 else 0
        invariant IsDown() ==> StoppedAt(r, delivered, handlerClosesAt)
        invariant !IsDown() ==> Ongoing(crc, r, delivered, unread, waiting) && NotYet(delivered, handlerClosesAt)
        decreases |unread|, !IsDown() && !waiting
      {
        GoesOnReading(crc, r, delivered, unread, handlerClosesAt);
        waiting := ReadFrame();
        if !waiting && handlerClosesAt == Some(|delivered|) { Close(); }
      }
    }
  }

  predicate NotYet(delivered: seq<Frame>, handlerClosesAt: Option<nat>) {
    handlerClosesAt.Some? ==> |delivered| < handlerClosesAt.value
  }

  /** What the whole of the received bytes comes to, given what was delivered and is still unread. */
  ghost predicate Ongoing(crc: Crc, r: Reading, delivered: seq<Frame>, unread: Bytes, waiting: bool) {
    r == if waiting then Reading(delivered, false, unread) else After(delivered, ReadAll(crc, unread))
  }

  /** Either the handler closed the connection upon the last message delivered, or the reader gave up behind it. */
  ghost predicate StoppedAt(r: Reading, delivered: seq<Frame>, handlerClosesAt: Option<nat>) {
    || (handlerClosesAt == Some(|delivered|) && delivered <= r.delivered)
    || (r.closed && r.delivered == delivered && NotYet(delivered, handlerClosesAt))
  }

  lemma GoesOnReading(crc: Crc, r: Reading, delivered: seq<Frame>, b: Bytes, handlerClosesAt: Option<nat>)
    requires Ongoing(crc, r, delivered, b, false) && NotYet(delivered, handlerClosesAt)
    ensures match NextFrame(crc, b)
            case NeedMore => Ongoing(crc, r, delivered, b, true)
            case Bad => StoppedAt(r, delivered, handlerClosesAt)
            case Got(f, rest) =>
              && |rest| < |b| && Ongoing(crc, r, delivered + [f], rest, false)
              && if handlerClosesAt == Some(|delivered| + 1) then StoppedAt(r, delivered + [f], handlerClosesAt)
                 else NotYet(delivered + [f], handlerClosesAt)
  {
    ReadsOneMore(crc, r, delivered, b);
  }
}
