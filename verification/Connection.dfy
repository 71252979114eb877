/** Serving one incoming connection over a length-prefixed byte stream (src/protocol.rs). */
module Connection {
  import opened Changes
  import opened Sync
  import opened ByteOrder
  import opened Protocol
  import Sequences

  /** 16 MiB. */
  const MAX_MESSAGE_SIZE: nat := 16 * 1024 * 1024

  const END_MARKER: Bytes := [0, 0, 0, 0]

  /** Why the read loop stopped. An oversized length prefix and a failed write return at once. */
  datatype Ending = Closed | EndOfStream | TooLarge | Truncated | Undecodable | WriteFailed

  // ---------- frames ----------

  function Frame(payload: Bytes): Bytes {
    Be32(|payload| % U32) + payload
  }

  datatype FrameRead = Stop(ending: Ending) | Payload(bytes: Bytes, rest: Bytes)

  /** One round of the reader: four length bytes, the checks on them, then the body. */
  function ReadFrame(input: Bytes): (r: FrameRead)
    ensures r.Payload? ==> |r.rest| < |input|
  {
    if |input| < 4 then Stop(Closed)
    else
      var len := FromBe32(input[..4]);
      if len == 0 then Stop(EndOfStream)
      else if len > MAX_MESSAGE_SIZE then Stop(TooLarge)
      else if |input| < 4 + len then Stop(Truncated)
      else Payload(input[4..4 + len], input[4 + len..])
  }

  function Stream(codec: Codec<SyncMessage>, msgs: seq<SyncMessage>): Bytes {
    if msgs == [] then [] else Frame(codec.encode(msgs[0])) + Stream(codec, msgs[1..])
  }

  /** How many more answers the peer takes in before a write fails; None if all of them. */
  type Writes = Option<nat>

  function OneWritten(writes: Writes): Writes
    requires writes != Some(0)
  {
    match writes
    case None => None
    case Some(n) => Some(n - 1)
  }

  /** The log the server ends with, the answers it has written whole, and why it stopped. */
  function Serve(log: LogState, input: Bytes, localOffset: u64, codec: Codec<SyncMessage>, writes: Writes)
    : (LogState, Bytes, Ending)
    decreases |input|
  {
    match ReadFrame(input)
    case Stop(ending) => (log, [], ending)
    case Payload(bytes, rest) =>
      match codec.decode(bytes)
      case None => (log, [], Undecodable)
      case Some(msg) =>
        var (next, reply) := Process(log, msg, localOffset);
        if writes == Some(0) then (next, [], WriteFailed)
        else
          var (end, output, ending) := Serve(next, rest, localOffset, codec, OneWritten(writes));
          (end, Frame(codec.encode(reply)) + output, ending)
  }

  // ---------- the stream laws ----------

  ghost predicate Sendable(codec: Codec<SyncMessage>, msgs: seq<SyncMessage>) {
    forall m :: m in msgs ==> |codec.encode(m)| <= MAX_MESSAGE_SIZE
  }

  /** Processing the messages one after the other, without any bytes. */
  function ProcessAll(log: LogState, msgs: seq<SyncMessage>, localOffset: u64): (LogState, seq<SyncMessage>)
    decreases |msgs|
  {
    if msgs == [] then (log, [])
    else
      var (next, reply) := Process(log, msgs[0], localOffset);
      var (end, replies) := ProcessAll(next, msgs[1..], localOffset);
      (end, [reply] + replies)
  }

  /** The same with failing writes: the log, the answers written, and whether all were. */
  function Answered(log: LogState, msgs: seq<SyncMessage>, localOffset: u64, writes: Writes)
    : (LogState, seq<SyncMessage>, bool)
    decreases |msgs|
  {
    if msgs == [] then (log, [], true)
    else
      var (next, reply) := Process(log, msgs[0], localOffset);
      if writes == Some(0) then (next, [], false)
      else
        var (end, replies, all) := Answered(next, msgs[1..], localOffset, OneWritten(writes));
        (end, [reply] + replies, all)
  }

  /** A failed write costs its answer only: the message is processed, and none after it. */
  lemma {:induction false} WritesDecide(log: LogState, msgs: seq<SyncMessage>, localOffset: u64, writes: Writes)
    ensures var (end, replies, all) := Answered(log, msgs, localOffset, writes);
            && (all <==> writes.None? || |msgs| <= writes.value)
            && (all ==> (end, replies) == ProcessAll(log, msgs, localOffset))
            && (!all ==>
                  && end == ProcessAll(log, msgs[..writes.value + 1], localOffset).0
                  && replies == ProcessAll(log, msgs[..writes.value], localOffset).1)
    decreases |msgs|
  {
    hide Process;
    if msgs != [] {
      var (next, reply) := Process(log, msgs[0], localOffset);
      if writes == Some(0) {
        assert msgs[..1][1..] == [] && msgs[..0] == [];
      } else {
        WritesDecide(next, msgs[1..], localOffset, OneWritten(writes));
        if writes.Some? && |msgs| > writes.value {
          assert msgs[..writes.value + 1][1..] == msgs[1..][..writes.value];
          assert msgs[..writes.value][1..] == msgs[1..][..writes.value - 1];
        }
      }
    }
  }

  /** How many whole frames lie in the first n bytes of the stream. */
  function WholeFrames(codec: Codec<SyncMessage>, msgs: seq<SyncMessage>, n: int): (k: nat)
    ensures k <= |msgs|
    decreases |msgs|
  {
    if msgs == [] then 0
    else
      var len := |Frame(codec.encode(msgs[0]))|;
      if n < len then 0 else 1 + WholeFrames(codec, msgs[1..], n - len)
  }

  lemma FrameParts(payload: Bytes)
    requires 0 < |payload| <= MAX_MESSAGE_SIZE
    ensures Frame(payload) == Be32(|payload|) + payload
    ensures |Be32(|payload|)| == 4 && FromBe32(Be32(|payload|)) == |payload|
  {
    hide Be32, FromBe32;
    Be32RoundTrip(|payload|);
    InOneWord(|payload|);
  }

  lemma InOneWord(n: nat)
    requires n <= MAX_MESSAGE_SIZE
    ensures n < U32 && n % U32 == n
  {
  }

  lemma ReadsPayload(input: Bytes, payload: Bytes, rest: Bytes)
    requires |input| == 4 + |payload| + |rest| && 0 < |payload| <= MAX_MESSAGE_SIZE
    requires FromBe32(input[..4]) == |payload|
    requires input[4..4 + |payload|] == payload && input[4 + |payload|..] == rest
    ensures ReadFrame(input) == Payload(payload, rest)
  {
    hide FromBe32;
  }

  lemma ReadWholeFrame(payload: Bytes, rest: Bytes)
    requires 0 < |payload| <= MAX_MESSAGE_SIZE
    ensures ReadFrame(Frame(payload) + rest) == Payload(payload, rest)
  {
    hide *;
    FrameParts(payload);
    Sequences.Fields(Be32(|payload|), payload, rest);
    ReadsPayload(Frame(payload) + rest, payload, rest);
  }

  lemma ReadPartialFrame(payload: Bytes, n: nat)
    requires 0 < |payload| <= MAX_MESSAGE_SIZE && n < |Frame(payload)|
    ensures ReadFrame(Frame(payload)[..n]) == Stop(if n < 4 then Closed else Truncated)
  {
    hide Frame, Be32, FromBe32;
    FrameParts(payload);
    if n >= 4 {
      Sequences.Fields(Be32(|payload|), payload, []);
      assert Frame(payload) + [] == Frame(payload);
      assert Frame(payload)[..n][..4] == Frame(payload)[..4];
    }
  }

  lemma ReadMarker(rest: Bytes)
    ensures ReadFrame(END_MARKER + rest) == Stop(EndOfStream)
  {
    assert (END_MARKER + rest)[..4] == END_MARKER;
  }

  /**
   A stream of any messages closed by the zero marker is answered message by message, whatever
   follows the marker, until a write fails.
   */
  lemma {:induction false} ServeWholeStream(log: LogState, codec: Codec<SyncMessage>, msgs: seq<SyncMessage>,
                                            rest: Bytes, localOffset: u64, writes: Writes)
    requires Lossless(codec) && Sendable(codec, msgs)
    ensures var (end, replies, all) := Answered(log, msgs, localOffset, writes);
            Serve(log, Stream(codec, msgs) + (END_MARKER + rest), localOffset, codec, writes)
            == (end, Stream(codec, replies), if all then EndOfStream else WriteFailed)
    decreases |msgs|
  {
    hide Process, Frame, ReadFrame, END_MARKER, Lossless, Serve;
    var tail := END_MARKER + rest;
    if msgs == [] {
      assert Stream(codec, msgs) + tail == tail;
      ReadMarker(rest);
      ServeStops(log, tail, localOffset, codec, writes);
    } else {
      var payload := codec.encode(msgs[0]);
      assert payload != [] && codec.decode(payload) == Some(msgs[0]) by { LosslessAt(codec, msgs[0]); }
      var after := Stream(codec, msgs[1..]) + tail;
      Sequences.Associative(Frame(payload), Stream(codec, msgs[1..]), tail);
      assert Stream(codec, msgs) + tail == Frame(payload) + after;
      ReadWholeFrame(payload, after);
      ServeStep(log, Frame(payload) + after, localOffset, codec, writes, payload, after, msgs[0]);
      if writes != Some(0) {
        var (next, reply) := Process(log, msgs[0], localOffset);
        ServeWholeStream(next, codec, msgs[1..], rest, localOffset, OneWritten(writes));
        StreamCons(codec, reply, Answered(next, msgs[1..], localOffset, OneWritten(writes)).1);
      }
    }
  }

  lemma LosslessAt(codec: Codec<SyncMessage>, msg: SyncMessage)
    requires Lossless(codec)
    ensures codec.encode(msg) != [] && codec.decode(codec.encode(msg)) == Some(msg)
  {
  }

  lemma ServeStep(log: LogState, input: Bytes, localOffset: u64, codec: Codec<SyncMessage>, writes: Writes,
                  payload: Bytes, after: Bytes, msg: SyncMessage)
    requires ReadFrame(input) == Payload(payload, after) && codec.decode(payload) == Some(msg)
    ensures |after| < |input|
    ensures var (next, reply) := Process(log, msg, localOffset);
            if writes == Some(0) then Serve(log, input, localOffset, codec, writes) == (next, [], WriteFailed)
            else
              var (end, output, ending) := Serve(next, after, localOffset, codec, OneWritten(writes));
              Serve(log, input, localOffset, codec, writes) == (end, Frame(codec.encode(reply)) + output, ending)
  {
    hide Process, Frame;
  }

  lemma StreamCons(codec: Codec<SyncMessage>, msg: SyncMessage, msgs: seq<SyncMessage>)
    ensures Stream(codec, [msg] + msgs) == Frame(codec.encode(msg)) + Stream(codec, msgs)
  {
    hide Frame;
    assert ([msg] + msgs)[1..] == msgs;
  }

  lemma ServeStops(log: LogState, input: Bytes, localOffset: u64, codec: Codec<SyncMessage>, writes: Writes)
    ensures var read := ReadFrame(input);
            && (read.Stop? ==> Serve(log, input, localOffset, codec, writes) == (log, [], read.ending))
            && (read.Payload? && codec.decode(read.bytes).None? ==>
                  Serve(log, input, localOffset, codec, writes) == (log, [], Undecodable))
  {
    hide Process, Frame, ReadFrame;
  }

  /** A cut of the stream falls into its first frame, or leaves that frame and a cut of the rest. */
  lemma CutStream(codec: Codec<SyncMessage>, msgs: seq<SyncMessage>, n: nat)
    requires msgs != [] && n < |Stream(codec, msgs)| + 4
    ensures var frame := Frame(codec.encode(msgs[0]));
            var whole := Stream(codec, msgs) + END_MARKER;
            var after := Stream(codec, msgs[1..]) + END_MARKER;
            && |Stream(codec, msgs)| == |frame| + |Stream(codec, msgs[1..])|
            && (n < |frame| ==> whole[..n] == frame[..n])
            && (n >= |frame| ==> whole[..n] == frame + after[..n - |frame|])
  {
    hide Frame;
    var frame := Frame(codec.encode(msgs[0]));
    Sequences.Associative(frame, Stream(codec, msgs[1..]), END_MARKER);
    Sequences.Cut(frame, Stream(codec, msgs[1..]) + END_MARKER, n);
  }

  /** The server has acted on exactly these messages, as far as writes allowed, and then stopped for want of input. */
  ghost predicate ActedOn(log: LogState, input: Bytes, codec: Codec<SyncMessage>, msgs: seq<SyncMessage>,
                          localOffset: u64, writes: Writes)
  {
    var (end, replies, all) := Answered(log, msgs, localOffset, writes);
    var served := Serve(log, input, localOffset, codec, writes);
    && served.0 == end && served.1 == Stream(codec, replies)
    && (if all then served.2 == Closed || served.2 == Truncated else served.2 == WriteFailed)
  }

  lemma ActedOnNone(log: LogState, input: Bytes, codec: Codec<SyncMessage>, localOffset: u64, writes: Writes)
    requires ReadFrame(input) == Stop(Closed) || ReadFrame(input) == Stop(Truncated)
    ensures ActedOn(log, input, codec, [], localOffset, writes)
  {
    hide ReadFrame, Frame, Process;
  }

  lemma ActedOnOneMore(log: LogState, input: Bytes, codec: Codec<SyncMessage>, payload: Bytes, after: Bytes,
                       msg: SyncMessage, msgs: seq<SyncMessage>, localOffset: u64, writes: Writes)
    requires ReadFrame(input) == Payload(payload, after) && codec.decode(payload) == Some(msg)
    requires writes != Some(0) ==>
               ActedOn(Process(log, msg, localOffset).0, after, codec, msgs, localOffset, OneWritten(writes))
    ensures ActedOn(log, input, codec, [msg] + msgs, localOffset, writes)
  {
    hide ReadFrame, Frame, Process, Serve;
    ServeStep(log, input, localOffset, codec, writes, payload, after, msg);
    assert ([msg] + msgs)[1..] == msgs;
    if writes != Some(0) {
      var (next, reply) := Process(log, msg, localOffset);
      StreamCons(codec, reply, Answered(next, msgs, localOffset, OneWritten(writes)).1);
    }
  }

  /**
   Cut anywhere, the stream is answered as far as its whole frames reach, or until a write fails:
   the server acts on a prefix of the messages and never on part of one.
   */
  lemma {:induction false} ServePrefix(log: LogState, codec: Codec<SyncMessage>, msgs: seq<SyncMessage>, n: nat,
                                       localOffset: u64, writes: Writes)
    requires Lossless(codec) && Sendable(codec, msgs) && n < |Stream(codec, msgs)| + 4
    ensures ActedOn(log, (Stream(codec, msgs) + END_MARKER)[..n], codec, msgs[..WholeFrames(codec, msgs, n)],
            localOffset, writes)
    decreases |msgs|
  {
    hide *;
    MarkerLength();
    var whole := Stream(codec, msgs) + END_MARKER;
    if msgs == [] {
      NothingSent(codec, n);
      ActedOnNone(log, whole[..n], codec, localOffset, writes);
      assert msgs[..WholeFrames(codec, msgs, n)] == [];
    } else {
      var payload := codec.encode(msgs[0]);
      LosslessAt(codec, msgs[0]);
      FirstIsSendable(codec, msgs);
      CutStream(codec, msgs, n);
      WholeFramesStep(codec, msgs, n);
      var frame := Frame(payload);
      if n < |frame| {
        ReadPartialFrame(payload, n);
        ActedOnNone(log, whole[..n], codec, localOffset, writes);
        assert msgs[..0] == [];
      } else {
        var cut := (Stream(codec, msgs[1..]) + END_MARKER)[..n - |frame|];
        ReadWholeFrame(payload, cut);
        var k := WholeFrames(codec, msgs[1..], n - |frame|);
        if writes != Some(0) {
          ServePrefix(Process(log, msgs[0], localOffset).0, codec, msgs[1..], n - |frame|, localOffset,
            OneWritten(writes));
        }
        ActedOnOneMore(log, frame + cut, codec, payload, cut, msgs[0], msgs[1..][..k], localOffset, writes);
        assert [msgs[0]] + msgs[1..][..k] == msgs[..k + 1];
      }
    }
  }

  lemma MarkerLength()
    ensures |END_MARKER| == 4
  {
  }

  lemma NothingSent(codec: Codec<SyncMessage>, n: nat)
    requires n < |Stream(codec, [])| + 4
    ensures |Stream(codec, []) + END_MARKER| == 4 && WholeFrames(codec, [], n) == 0
    ensures ReadFrame((Stream(codec, []) + END_MARKER)[..n]) == Stop(Closed)
    ensures Stream(codec, []) == []
  {
    ReadShort((Stream(codec, []) + END_MARKER)[..n]);
  }

  lemma FirstIsSendable(codec: Codec<SyncMessage>, msgs: seq<SyncMessage>)
    requires Sendable(codec, msgs) && msgs != []
    ensures |codec.encode(msgs[0])| <= MAX_MESSAGE_SIZE && Sendable(codec, msgs[1..])
  {
    assert msgs[0] in msgs && forall m :: m in msgs[1..] ==> m in msgs;
  }

  lemma WholeFramesStep(codec: Codec<SyncMessage>, msgs: seq<SyncMessage>, n: nat)
    requires msgs != []
    ensures var len := |Frame(codec.encode(msgs[0]))|;
            WholeFrames(codec, msgs, n) == if n < len then 0 else 1 + WholeFrames(codec, msgs[1..], n - len)
  {
    hide Frame;
  }

  lemma ReadShort(input: Bytes)
    requires |input| < 4
    ensures ReadFrame(input) == Stop(Closed)
  {
  }

  lemma ReadsHeader(input: Bytes)
    ensures |input| < 4 ==> ReadFrame(input) == Stop(Closed)
    ensures |input| >= 4 ==>
              var len := FromBe32(input[..4]);
              && (len == 0 ==> ReadFrame(input) == Stop(EndOfStream))
              && (len > MAX_MESSAGE_SIZE ==> ReadFrame(input) == Stop(TooLarge))
              && (0 < len <= MAX_MESSAGE_SIZE && |input| < 4 + len ==> ReadFrame(input) == Stop(Truncated))
              && (0 < len <= MAX_MESSAGE_SIZE && |input| >= 4 + len ==>
                    ReadFrame(input) == Payload(input[4..4 + len], input[4 + len..]))
  {
    hide FromBe32;
  }

  // ---------- the connection loop ----------

  /** What is written already and the service of the rest of the input make up the whole service. */
  ghost predicate LeadsTo(whole: (LogState, Bytes, Ending), output: Bytes, log: LogState, rest: Bytes, localOffset: u64,
                          codec: Codec<SyncMessage>, writes: Writes) {
    var served := Serve(log, rest, localOffset, codec, writes);
    whole == (served.0, output + served.1, served.2)
  }

  lemma LeadsFromStart(log: LogState, input: Bytes, localOffset: u64, codec: Codec<SyncMessage>, writes: Writes)
    ensures LeadsTo(Serve(log, input, localOffset, codec, writes), [], log, input, localOffset, codec, writes)
  {
    hide Serve;
    var output := Serve(log, input, localOffset, codec, writes).1;
    assert [] + output == output;
  }

  lemma LeadsToStop(whole: (LogState, Bytes, Ending), output: Bytes, log: LogState, rest: Bytes, localOffset: u64,
                    codec: Codec<SyncMessage>, writes: Writes)
    requires LeadsTo(whole, output, log, rest, localOffset, codec, writes)
    ensures var read := ReadFrame(rest);
            && (read.Stop? ==> whole == (log, output, read.ending))
            && (read.Payload? && codec.decode(read.bytes).None? ==> whole == (log, output, Undecodable))
  {
    hide Serve, ReadFrame;
    ServeStops(log, rest, localOffset, codec, writes);
    assert output + [] == output;
  }

  lemma LeadsOn(whole: (LogState, Bytes, Ending), output: Bytes, log: LogState, rest: Bytes, localOffset: u64,
                codec: Codec<SyncMessage>, writes: Writes, payload: Bytes, after: Bytes, msg: SyncMessage)
    requires LeadsTo(whole, output, log, rest, localOffset, codec, writes)
    requires ReadFrame(rest) == Payload(payload, after) && codec.decode(payload) == Some(msg)
    ensures var (next, reply) := Process(log, msg, localOffset);
            if writes == Some(0) then whole == (next, output, WriteFailed)
            else LeadsTo(whole, output + Frame(codec.encode(reply)), next, after, localOffset, codec,
              OneWritten(writes))
  {
    hide Serve, ReadFrame, Process, Frame;
    ServeStep(log, rest, localOffset, codec, writes, payload, after, msg);
    assert output + [] == output;
    var (next, reply) := Process(log, msg, localOffset);
    if writes != Some(0) {
      Sequences.Associative(output, Frame(codec.encode(reply)),
        Serve(next, after, localOffset, codec, OneWritten(writes)).1);
    }
  }

  /**
   `input` is everything the peer sends before its stream ends, `writes` how many answers it takes
   in, `finishes` whether the end of data can be signalled. The peer is left in `Syncing` exactly
   when the handler returns an error.
   */
  method HandleConnection(manager: SyncManager, peer: PeerId, input: Bytes, codec: Codec<SyncMessage>, writes: Writes,
                          finishes: bool)
    returns (output: Bytes, ending: Ending, ok: bool)
    requires manager.Valid() && manager.isKey(peer)
    modifies manager
    ensures manager.Valid()
    ensures (manager.Log(), output, ending) == Serve(old(manager.Log()), input, old(manager.offset), codec, writes)
    ensures ok <==> ending != TooLarge && ending != WriteFailed && finishes
    ensures PeerKey(peer) in manager.peerStates
    ensures manager.peerStates[PeerKey(peer)].state == if ok then Synchronized else Syncing
  {
    hide Process, Frame, PeerKey, Serve, OwnKeys, ReadFrame, FromBe32, LeadsTo;
    manager.UpdatePeerState(peer, Syncing);
    var localOffset := manager.offset;
    var pos := 0;
    var left := writes;
    output := [];
    ending := Closed;
    assert input[pos..] == input;
    ghost var whole := Serve(manager.Log(), input, localOffset, codec, writes);
    LeadsFromStart(manager.Log(), input, localOffset, codec, writes);
    while true
      invariant 0 <= pos <= |input|
      invariant manager.Valid() && PeerKey(peer) in manager.peerStates
      invariant manager.peerStates[PeerKey(peer)].state == Syncing
      invariant LeadsTo(whole, output, manager.Log(), input[pos..], localOffset, codec, left)
      decreases |input| - pos
    {
      ghost var rest := input[pos..];
      LeadsToStop(whole, output, manager.Log(), rest, localOffset, codec, left);
      ReadsHeader(rest);
      if |input| - pos < 4 {
        ending := Closed;
        break;
      }
      Sequences.TakeAfterDrop(input, pos, 4);
      var len := FromBe32(input[pos..pos + 4]);
      if len == 0 {
        ending := EndOfStream;
        break;
      }
      if len > MAX_MESSAGE_SIZE {
        return output, TooLarge, false;
      }
      if |input| - pos < 4 + len {
        ending := Truncated;
        break;
      }
      var payload := input[pos + 4..pos + 4 + len];
      Sequences.Window(input, pos, 4, 4 + len);
      Sequences.DropAfterDrop(input, pos, 4 + len);
      match codec.decode(payload) {
        case None =>
          ending := Undecodable;
          break;
        case Some(msg) =>
          LeadsOn(whole, output, manager.Log(), rest, localOffset, codec, left, payload, rest[4 + len..], msg);
          var reply := ProcessMessage(manager, msg, localOffset);
          if left == Some(0) {
            return output, WriteFailed, false;
          }
          left := OneWritten(left);
          output := output + Frame(codec.encode(reply));
          pos := pos + 4 + len;
      }
    }
    if !finishes {
      return output, ending, false;
    }
    manager.UpdatePeerState(peer, Synchronized);
    ok := true;
  }
}
