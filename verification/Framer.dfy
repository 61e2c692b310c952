/** Packing frames into a packet. */
module Framing {
  import opened StreamBytes
  import opened Wire
  import opened SendStates
  import opened SendInvariant
  import opened SendStreaming
  import opened ControlFrames
  import opened ControlPacking

  const MIN_STREAM_FRAME_SIZE := 128
  const MAX_PATH_RESPONSES := 256
  const MAX_CONTROL_FRAMES := 16384

  function StreamTotal(fs: seq<StreamFrame>): nat {
    if fs == [] then 0 else StreamTotal(fs[..|fs| - 1]) + Length(fs[|fs| - 1])
  }

  lemma StreamTotalAppend(fs: seq<StreamFrame>, f: StreamFrame)
    ensures StreamTotal(fs + [f]) == StreamTotal(fs) + Length(f)
  {
    assert (fs + [f])[..|fs|] == fs;
  }

  function WithoutLen(f: StreamFrame): StreamFrame {
    f.(dataLenPresent := false)
  }

  // What the last STREAM frame of a packet saves.
  function Saved(fs: seq<StreamFrame>): nat {
    if fs == [] then 0 else Length(fs[|fs| - 1]) - Length(WithoutLen(fs[|fs| - 1]))
  }

  // The STREAM frames as they are encoded: only the last one has no length.
  function Final(fs: seq<StreamFrame>): seq<StreamFrame> {
    if fs == [] then [] else fs[..|fs| - 1] + [WithoutLen(fs[|fs| - 1])]
  }

  lemma FinalTotal(fs: seq<StreamFrame>)
    ensures StreamTotal(Final(fs)) == StreamTotal(fs) - Saved(fs)
  {
    if fs != [] {
      var n := |fs| - 1;
      StreamTotalAppend(fs[..n], WithoutLen(fs[n]));
    }
  }

  /** Streams are offered more than is left, by the size of a length field.  A frame that makes
      use of that fits once its own length field is removed, even if that is smaller. */
  lemma LastFrameFits(f: StreamFrame, maxLen: int)
    requires MIN_STREAM_FRAME_SIZE <= maxLen <= MAX_VARINT2 && f.dataLenPresent
    requires Length(f) <= maxLen + VarintLen(maxLen) || (f.data == [] && Length(f) <= 18)
    ensures Length(WithoutLen(f)) <= maxLen
  {
  }

  /** Of the larger packets, it does so for all but a few: the length field that is removed is smaller than that of
      the packet, and the rest of the header is long. */
  predicate HeaderOverruns(maxLen: nat) {
    MAX_VARINT2 < maxLen < MAX_VARINT2 + 17 || MAX_VARINT4 < maxLen < MAX_VARINT4 + 17
  }

  predicate Offer(f: StreamFrame, maxLen: nat) {
    f.dataLenPresent && (Length(f) <= maxLen + VarintLen(maxLen) || (f.data == [] && Length(f) <= 18))
  }

  lemma LastFrameDoesNotFit(maxLen: nat) returns (f: StreamFrame)
    requires HeaderOverruns(maxLen)
    ensures Offer(f, maxLen) && Length(WithoutLen(f)) == maxLen + 1
  {
    f := StreamFrame(MAX_VARINT4 + 1, MAX_VARINT4 + 1, seq(maxLen - 16, _ => 0), false, true);
  }

  lemma LastFrameFitsExactly(maxLen: nat)
    requires MIN_STREAM_FRAME_SIZE <= maxLen
    ensures (forall f | Offer(f, maxLen) :: Length(WithoutLen(f)) <= maxLen) <==> !HeaderOverruns(maxLen)
  {
    if HeaderOverruns(maxLen) {
      var f := LastFrameDoesNotFit(maxLen);
    } else {
      forall f | Offer(f, maxLen) ensures Length(WithoutLen(f)) <= maxLen {
      }
    }
  }

  /** Every stream that was active still is, unless it has nothing left to send. */
  ghost predicate NoneForgotten(before: map<nat, SendStream>, after: map<nat, SendStream>)
    reads before.Values
  {
    && (forall id | id in after :: id in before && after[id] == before[id])
    && (forall id | id in before && id !in after :: !Pending(before[id].Now()))
  }

  ghost predicate AllValid(streams: map<nat, SendStream>)
    reads streams.Values
  {
    forall id | id in streams :: streams[id].streamID == id && streams[id].Valid()
  }

  lemma EachValid(streams: map<nat, SendStream>)
    requires AllValid(streams)
    ensures forall str | str in streams.Values :: str.Valid()
  {
    hide SendStream.Valid;
  }

  /** A turn of a stream: what it gave, unless it was not active any more. */
  datatype Turn = Turn(id: nat, pops: Option<Pops>)

  function FrameOf(t: Turn): seq<StreamFrame> {
    if t.pops.Some? && t.pops.value.frame.Some? then [t.pops.value.frame.value] else []
  }

  function BlockedOf(t: Turn): seq<ControlFrame> {
    if t.pops.Some? && t.pops.value.blocked.Some? then [StreamDataBlocked(t.id, t.pops.value.blocked.value)] else []
  }

  /** The STREAM frames that streams gave, in order. */
  function TurnFrames(log: seq<Turn>): seq<StreamFrame> {
    if log == [] then [] else TurnFrames(log[..|log| - 1]) + FrameOf(log[|log| - 1])
  }

  /** The streams that gave them. */
  function TurnOwners(log: seq<Turn>): (ids: seq<nat>)
    ensures |ids| == |TurnFrames(log)|
  {
    if log == [] then []
    else
      var last := log[|log| - 1];
      TurnOwners(log[..|log| - 1]) + if FrameOf(last) == [] then [] else [last.id]
  }

  /** The STREAM_DATA_BLOCKED frames of the streams that became blocked, in order. */
  function TurnBlocked(log: seq<Turn>): seq<ControlFrame> {
    if log == [] then [] else TurnBlocked(log[..|log| - 1]) + BlockedOf(log[|log| - 1])
  }

  /** The frames of one stream. */
  function FramesOf(frames: seq<StreamFrame>, owners: seq<nat>, id: nat): seq<StreamFrame>
    requires |owners| == |frames|
  {
    if frames == [] then []
    else
      var n := |frames| - 1;
      FramesOf(frames[..n], owners[..n], id) + if owners[n] == id then [frames[n]] else []
  }

  /** The state of a stream after these turns. */
  function StateAfter(before: State, log: seq<Turn>, id: nat): State {
    if log == [] then before
    else
      var last := log[|log| - 1];
      if last.id == id && last.pops.Some? then last.pops.value.s else StateAfter(before, log[..|log| - 1], id)
  }

  /** A stream is active until it has nothing more to send. */
  predicate ActiveAfter(log: seq<Turn>, id: nat) {
    forall i | 0 <= i < |log| && log[i].id == id && log[i].pops.Some? :: log[i].pops.value.hasMore
  }

  /** The space that is left after these turns, if all frames were packed. */
  function LeftAfter(maxLen: int, log: seq<Turn>): int {
    maxLen - StreamTotal(TurnFrames(log)) - TotalLen(TurnBlocked(log))
  }

  /** The next stream in the queue is asked for what fits into the space that is left. */
  ghost predicate IsTurn(states: map<nat, State>, log: seq<Turn>, turn: Turn, id: nat, left: int, flow: (nat, bool)) {
    && turn.id == id && MIN_STREAM_FRAME_SIZE <= left
    && turn.pops == if id !in states || !ActiveAfter(log, id) then None
                    else Some(PopStep(StateAfter(states[id], log, id), left + VarintLen(left), flow.0, flow.1))
  }

  /** All turns are as they should be. */
  ghost predicate AllTurns(states: map<nat, State>, queue: seq<nat>, log: seq<Turn>, maxLen: int,
                           flow: nat -> (nat, bool)) {
    && |log| <= |queue|
    && forall i | 0 <= i < |log| :: IsTurn(states, log[..i], log[i], queue[i], LeftAfter(maxLen, log[..i]), flow(i))
  }

  lemma NextTurn(states: map<nat, State>, queue: seq<nat>, log: seq<Turn>, maxLen: int, flow: nat -> (nat, bool),
                 turn: Turn)
    requires AllTurns(states, queue, log, maxLen, flow) && |log| < |queue|
    requires IsTurn(states, log, turn, queue[|log|], LeftAfter(maxLen, log), flow(|log|))
    ensures AllTurns(states, queue, log + [turn], maxLen, flow)
  {
    hide IsTurn, LeftAfter;
    var all := log + [turn];
    assert all[..|log|] == log;
    forall i | 0 <= i < |all|
      ensures IsTurn(states, all[..i], all[i], queue[i], LeftAfter(maxLen, all[..i]), flow(i))
    {
      if i < |log| {
        assert all[..i] == log[..i] && all[i] == log[i];
      }
    }
  }

  // One more turn.
  lemma LogNext(log: seq<Turn>, turn: Turn)
    ensures TurnFrames(log + [turn]) == TurnFrames(log) + FrameOf(turn)
    ensures TurnOwners(log + [turn]) == TurnOwners(log) + if FrameOf(turn) == [] then [] else [turn.id]
    ensures TurnBlocked(log + [turn]) == TurnBlocked(log) + BlockedOf(turn)
  {
    assert (log + [turn])[..|log|] == log;
  }

  lemma StateNext(before: State, log: seq<Turn>, turn: Turn, id: nat)
    ensures StateAfter(before, log + [turn], id) ==
            if turn.id == id && turn.pops.Some? then turn.pops.value.s else StateAfter(before, log, id)
    ensures ActiveAfter(log + [turn], id) <==>
            ActiveAfter(log, id) && (turn.id == id && turn.pops.Some? ==> turn.pops.value.hasMore)
  {
    var all := log + [turn];
    assert all[..|log|] == log;
    assert forall i | 0 <= i < |log| :: all[i] == log[i];
  }

  lemma FramesNext(log: seq<Turn>, turn: Turn, id: nat)
    ensures FramesOf(TurnFrames(log + [turn]), TurnOwners(log + [turn]), id) ==
            FramesOf(TurnFrames(log), TurnOwners(log), id) + if turn.id == id then FrameOf(turn) else []
  {
    hide TurnFrames, TurnOwners;
    LogNext(log, turn);
    var frames, owners := TurnFrames(log), TurnOwners(log);
    if FrameOf(turn) != [] {
      var f := FrameOf(turn)[0];
      assert (frames + [f])[..|frames|] == frames && (owners + [turn.id])[..|frames|] == owners;
    } else {
      assert frames + [] == frames && owners + [] == owners;
    }
  }

  /** Every frame of a packet is among those of its stream. */
  lemma {:induction false} FramesOfAll(frames: seq<StreamFrame>, owners: seq<nat>, i: nat)
    requires |owners| == |frames| && i < |frames|
    ensures frames[i] in FramesOf(frames, owners, owners[i])
  {
    var n := |frames| - 1;
    if i < n {
      FramesOfAll(frames[..n], owners[..n], i);
    }
  }

  // The states of streams, and what they have in flight.
  ghost function NowOf(streams: map<nat, SendStream>): map<nat, State>
    reads streams.Values
  {
    map id | id in streams :: streams[id].Now()
  }

  ghost function FlightsOf(streams: map<nat, SendStream>): map<nat, seq<StreamFrame>>
    reads streams.Values
  {
    map id | id in streams :: streams[id].history.inFlight
  }

  /** What has become of the streams after these turns: each one has in flight what it had, and what it gave, in
      order. */
  ghost predicate Served(states: map<nat, State>, flights: map<nat, seq<StreamFrame>>, log: seq<Turn>,
                         now: map<nat, State>, inFlight: map<nat, seq<StreamFrame>>, active: set<nat>) {
    && now.Keys == inFlight.Keys == flights.Keys == states.Keys
    && active <= states.Keys
    && forall id | id in states ::
         && now[id] == StateAfter(states[id], log, id)
         && inFlight[id] == flights[id] + FramesOf(TurnFrames(log), TurnOwners(log), id)
         && (id in active <==> ActiveAfter(log, id))
  }

  lemma ServedNext(states: map<nat, State>, flights: map<nat, seq<StreamFrame>>, log: seq<Turn>,
                   now: map<nat, State>, inFlight: map<nat, seq<StreamFrame>>, active: set<nat>, turn: Turn)
    requires Served(states, flights, log, now, inFlight, active)
    requires turn.pops.Some? ==> turn.id in active
    ensures Served(states, flights, log + [turn],
                   if turn.pops.Some? then now[turn.id := turn.pops.value.s] else now,
                   if turn.pops.Some? then inFlight[turn.id := inFlight[turn.id] + FrameOf(turn)] else inFlight,
                   if turn.pops.Some? && !turn.pops.value.hasMore then active - {turn.id} else active)
  {
    hide TurnFrames, TurnOwners, FramesOf, StateAfter, ActiveAfter, FrameOf;
    NoFrameOf(turn);
    forall id | id in states
      ensures FramesOf(TurnFrames(log + [turn]), TurnOwners(log + [turn]), id) ==
              FramesOf(TurnFrames(log), TurnOwners(log), id) + if turn.id == id then FrameOf(turn) else []
      ensures StateAfter(states[id], log + [turn], id) ==
              if turn.id == id && turn.pops.Some? then turn.pops.value.s else StateAfter(states[id], log, id)
      ensures ActiveAfter(log + [turn], id) <==>
              ActiveAfter(log, id) && (turn.id == id && turn.pops.Some? ==> turn.pops.value.hasMore)
    {
      StateNext(states[id], log, turn, id);
      FramesNext(log, turn, id);
    }
  }

  lemma ActiveOnes(streams: map<nat, SendStream>, active: map<nat, SendStream>)
    requires AllValid(streams) && NoneForgotten(streams, active)
    ensures forall k | k in active :: k in streams && active[k] == streams[k]
    ensures forall k | k in streams && k !in active :: !Pending(NowOf(streams)[k])
    ensures forall k | k in streams :: streams[k].streamID == k && streams[k].Valid()
    ensures forall k | k in streams :: k in active <==> streams[k] in active.Values
  {
    hide SendStream.Valid, Pending;
  }

  lemma AreValid(streams: map<nat, SendStream>)
    requires forall k | k in streams :: streams[k].streamID == k && streams[k].Valid()
    ensures AllValid(streams)
  {
    hide SendStream.Valid;
  }

  lemma StillNone(streams: map<nat, SendStream>, active: map<nat, SendStream>, active': map<nat, SendStream>,
                  now: map<nat, State>, id: nat)
    requires now.Keys == streams.Keys && (forall k | k in active :: k in streams && active[k] == streams[k])
    requires forall k | k in streams && k !in active :: !Pending(now[k])
    requires forall k | k in streams && (k != id || id !in active) :: streams[k].Now() == now[k]
    requires active' == active || (id in active && active' == active - {id} && !Pending(streams[id].Now()))
    ensures NoneForgotten(streams, active')
  {
    hide Pending, SendStream.Now;
  }

  lemma Snapshot(streams: map<nat, SendStream>)
    ensures NowOf(streams).Keys == FlightsOf(streams).Keys == streams.Keys
    ensures forall k | k in streams ::
              streams[k].Now() == NowOf(streams)[k] && streams[k].history.inFlight == FlightsOf(streams)[k]
  {
  }

  lemma Changed(streams: map<nat, SendStream>, now: map<nat, State>, inFlight: map<nat, seq<StreamFrame>>, id: nat,
                s: State, more: seq<StreamFrame>)
    requires now.Keys == inFlight.Keys == streams.Keys && id in streams
    requires forall k | k in streams && k != id ::
               streams[k].Now() == now[k] && streams[k].history.inFlight == inFlight[k]
    requires streams[id].Now() == s && streams[id].history.inFlight == inFlight[id] + more
    ensures NowOf(streams) == now[id := s] && FlightsOf(streams) == inFlight[id := inFlight[id] + more]
  {
  }

  lemma Unchanged(streams: map<nat, SendStream>, now: map<nat, State>, inFlight: map<nat, seq<StreamFrame>>)
    requires now.Keys == inFlight.Keys == streams.Keys
    requires forall k | k in streams :: streams[k].Now() == now[k] && streams[k].history.inFlight == inFlight[k]
    ensures NowOf(streams) == now && FlightsOf(streams) == inFlight
  {
  }

  lemma NoFrameOf(turn: Turn)
    ensures turn.pops.None? ==> FrameOf(turn) == []
  {
  }

  // The stream whose turn it is, if it is still active.
  ghost function TurnOf(now: map<nat, State>, active: set<nat>, id: nat, left: nat, flow: (nat, bool)): Turn {
    Turn(id, if id in active && id in now
             then Some(PopStep(now[id], left + VarintLen(left), flow.0, flow.1)) else None)
  }

  lemma TurnOfIs(states: map<nat, State>, flights: map<nat, seq<StreamFrame>>, log: seq<Turn>,
                 now: map<nat, State>, inFlight: map<nat, seq<StreamFrame>>, active: set<nat>, id: nat, left: nat,
                 flow: (nat, bool))
    requires Served(states, flights, log, now, inFlight, active) && MIN_STREAM_FRAME_SIZE <= left
    ensures IsTurn(states, log, TurnOf(now, active, id, left, flow), id, left, flow)
  {
    hide PopStep, StateAfter, ActiveAfter, FramesOf, TurnFrames, TurnOwners;
  }

  // The last STREAM frame of a packet needs no length.
  method DropLastLength(sent: seq<StreamFrame>, length: nat) returns (streamFrames: seq<StreamFrame>, newLength: nat)
    requires length == StreamTotal(sent)
    requires forall i | 0 <= i < |sent| :: sent[i].dataLenPresent
    ensures newLength == StreamTotal(streamFrames) == length - Saved(sent)
    ensures streamFrames == Final(sent)
    ensures forall i | 0 <= i < |streamFrames| :: streamFrames[i].dataLenPresent <==> i < |streamFrames| - 1
  {
    hide StreamTotal, Length;
    FinalTotal(sent);
    streamFrames, newLength := sent, length;
    if |sent| > 0 {
      var lastFrame := sent[|sent| - 1];
      streamFrames := sent[..|sent| - 1] + [WithoutLen(lastFrame)];
      newLength := length - Length(lastFrame) + Length(WithoutLen(lastFrame));
    }
  }

  // The streams that have not had their turn stay in front.
  lemma TurnTaken(all: seq<nat>, turns: nat, q: seq<nat>, q': seq<nat>)
    requires turns < |all| && all[turns..] <= q && (q' == q[1..] || q' == q[1..] + [q[0]])
    ensures all[turns + 1..] <= q'
  {
    assert q[1..][..|all| - turns - 1] == all[turns + 1..];
  }

  class Framer {
    var activeStreams: map<nat, SendStream>
    var streamQueue: seq<nat>
    // Of a stream with control frames, only the frames matter that it has to offer, in order.
    var streamsWithControlFrames: map<nat, seq<ControlFrame>>
    var controlFrames: seq<ControlFrame>
    var pathResponses: seq<ControlFrame>
    var queuedTooManyControlFrames: bool

    /** No active stream is forgotten. */
    ghost predicate Valid()
      reads this`activeStreams, this`streamQueue, activeStreams.Values
    {
      forall id | id in activeStreams :: id in streamQueue && activeStreams[id].streamID == id
          && activeStreams[id].Valid()
    }

    function Control(): Unsent
      reads this`controlFrames, this`pathResponses, this`streamsWithControlFrames
    {
      Unsent(pathResponses, streamsWithControlFrames, controlFrames)
    }

    ghost function Queued(): multiset<ControlFrame>
      reads this`controlFrames, this`pathResponses, this`streamsWithControlFrames
    {
      Backlog(controlFrames, pathResponses, Offered(streamsWithControlFrames))
    }

    constructor ()
      ensures Valid() && activeStreams == map[] && streamQueue == [] && !queuedTooManyControlFrames
      ensures controlFrames == [] && pathResponses == [] && streamsWithControlFrames == map[]
    {
      activeStreams, streamQueue, streamsWithControlFrames := map[], [], map[];
      controlFrames, pathResponses, queuedTooManyControlFrames := [], [], false;
    }

    method QueueControlFrame(frame: ControlFrame)
      requires Valid()
      modifies this`controlFrames, this`pathResponses, this`queuedTooManyControlFrames
      ensures Valid()
      ensures pathResponses == if frame.PathResponse? && |old(pathResponses)| < MAX_PATH_RESPONSES
              then old(pathResponses) + [frame] else old(pathResponses)
      ensures controlFrames == if !frame.PathResponse? && |old(controlFrames)| < MAX_CONTROL_FRAMES
              then old(controlFrames) + [frame] else old(controlFrames)
      ensures queuedTooManyControlFrames == (old(queuedTooManyControlFrames)
                                             || (!frame.PathResponse? && |old(controlFrames)| >= MAX_CONTROL_FRAMES))
    {
      if frame.PathResponse? {
        if |pathResponses| >= MAX_PATH_RESPONSES {
          return;
        }
        pathResponses := pathResponses + [frame];
        return;
      }
      if |controlFrames| >= MAX_CONTROL_FRAMES {
        queuedTooManyControlFrames := true;
        return;
      }
      controlFrames := controlFrames + [frame];
    }

    method AddActiveStream(str: SendStream)
      requires Valid() && str.Valid()
      modifies this`streamQueue, this`activeStreams
      ensures Valid() && str.streamID in streamQueue
      ensures activeStreams == if str.streamID in old(activeStreams) then old(activeStreams)
              else old(activeStreams)[str.streamID := str]
      ensures streamQueue == if str.streamID in old(activeStreams) then old(streamQueue)
              else old(streamQueue) + [str.streamID]
    {
      if str.streamID !in activeStreams {
        streamQueue := streamQueue + [str.streamID];
        activeStreams := activeStreams[str.streamID := str];
      }
    }

    method RemoveActiveStream(id: nat)
      requires Valid()
      modifies this`activeStreams
      ensures Valid() && activeStreams == old(activeStreams) - {id}
    {
      activeStreams := activeStreams - {id};
    }

    /** A stream has more frames to offer.  It is asked for all that it has, once. */
    method AddStreamWithControlFrames(id: nat, frames: seq<ControlFrame>)
      modifies this`streamsWithControlFrames
      ensures id in streamsWithControlFrames
      ensures streamsWithControlFrames.Keys == old(streamsWithControlFrames).Keys + {id}
      ensures Offered(streamsWithControlFrames) == old(Offered(streamsWithControlFrames)) + multiset(frames)
    {
      hide Offered;
      ghost var before := streamsWithControlFrames;
      var offered := if id in streamsWithControlFrames then streamsWithControlFrames[id] else [];
      streamsWithControlFrames := streamsWithControlFrames[id := offered + frames];
      OfferedWithout(streamsWithControlFrames, id);
      assert streamsWithControlFrames - {id} == before - {id};
      if id in before {
        OfferedWithout(before, id);
      } else {
        assert before - {id} == before;
      }
    }

    method AppendPathResponse(maxLen: nat) returns (added: seq<ControlFrame>, length: nat)
      modifies this`pathResponses
      ensures length == TotalLen(added) <= maxLen && |added| <= 1
      ensures |added| <= |old(pathResponses)|
      ensures added == old(pathResponses)[..|added|] && pathResponses == old(pathResponses)[|added|..]
      ensures added == [] <==> old(pathResponses) == [] || Len(old(pathResponses)[0]) > maxLen
    {
      added, length := [], 0;
      if |pathResponses| > 0 {
        var frame := pathResponses[0];
        var frameLen := Len(frame);
        if frameLen <= maxLen {
          TotalLenAppend([], frame);
          assert [] + [frame] == [frame];
          added := [frame];
          length := frameLen;
          pathResponses := pathResponses[1..];
        }
      }
    }

    method GetControlFrame(id: nat) returns (frame: Option<ControlFrame>, hasMore: bool)
      requires id in streamsWithControlFrames
      modifies this`streamsWithControlFrames
      ensures var left := old(streamsWithControlFrames)[id];
              if left == [] then frame == None && !hasMore && streamsWithControlFrames == old(streamsWithControlFrames)
              else frame == Some(left[0]) && hasMore == (|left| > 1)
                   && streamsWithControlFrames == old(streamsWithControlFrames)[id := left[1..]]
    {
      var left := streamsWithControlFrames[id];
      if |left| == 0 {
        return None, false;
      }
      streamsWithControlFrames := streamsWithControlFrames[id := left[1..]];
      return Some(left[0]), |left| > 1;
    }

    /** Add the control frames of one stream, as long as any of them is sure to fit. */
    method AppendFrom(id: nat, maxLen: nat, start: nat) returns (added: seq<ControlFrame>, length: nat)
      requires id in streamsWithControlFrames
      modifies this`streamsWithControlFrames
      ensures length == start + TotalLen(added)
      ensures added == old(streamsWithControlFrames)[id][..TakenFrom(old(streamsWithControlFrames)[id], maxLen - start)]
      ensures streamsWithControlFrames == StreamsAfter(old(streamsWithControlFrames), id, maxLen - start)
      ensures multiset(added) + Offered(streamsWithControlFrames) == old(Offered(streamsWithControlFrames))
    {
      hide TotalLen, Len, Offered;
      TakingKeeps(streamsWithControlFrames, id, maxLen - start);
      ghost var streams, frames, i := streamsWithControlFrames, streamsWithControlFrames[id], 0;
      added, length := [], start;
      NoFrames();
      while maxLen - length > MAX_STREAM_CONTROL_FRAME_SIZE
        invariant length == start + TotalLen(added)
        invariant i <= |frames| && added == frames[..i] && streamsWithControlFrames == streams[id := frames[i..]]
        invariant TakenFrom(frames, maxLen - start) == i + TakenFrom(frames[i..], maxLen - length)
        invariant maxLen - start <= MAX_STREAM_CONTROL_FRAME_SIZE ==> i == 0
        invariant 0 < i ==> i < |frames|
        decreases |frames| - i
      {
        var frame, hasMore := GetControlFrame(id);
        if frame.None? {
          streamsWithControlFrames := streamsWithControlFrames - {id};
          assert streamsWithControlFrames == streams - {id};
          return;
        }
        TotalLenAppend(added, frame.value);
        added := added + [frame.value];
        length := length + Len(frame.value);
        i := i + 1;
        assert frames[i - 1..][1..] == frames[i..];
        if !hasMore {
          streamsWithControlFrames := streamsWithControlFrames - {id};
          assert streamsWithControlFrames == streams - {id} && frames[..i] == frames;
          return;
        }
      }
    }

    /** Add the control frames of the streams, in any order of streams. */
    method AppendStreamControlFrames(maxLen: nat, start: nat)
      returns (added: seq<ControlFrame>, length: nat, ghost order: seq<nat>)
      modifies this`streamsWithControlFrames
      ensures length == start + TotalLen(added) && Orders(old(streamsWithControlFrames).Keys, order)
      ensures (added, streamsWithControlFrames) == FromStreams(old(streamsWithControlFrames), order, maxLen - start)
      ensures multiset(added) + Offered(streamsWithControlFrames) == old(Offered(streamsWithControlFrames))
      ensures maxLen - length > MAX_STREAM_CONTROL_FRAME_SIZE ==> streamsWithControlFrames == map[]
    {
      hide Offered, TotalLen, StreamsAfter, TakenFrom, FromStreams, Orders;
      added, length, order := [], start, [];
      ghost var streams, room := streamsWithControlFrames, maxLen - start;
      FromNone(streams, room);
      var ids := streamsWithControlFrames.Keys;
      while ids != {} && maxLen - length > MAX_STREAM_CONTROL_FRAME_SIZE
        invariant length == start + TotalLen(added)
        invariant (added, streamsWithControlFrames) == FromStreams(streams, order, room)
        invariant ids <= streamsWithControlFrames.Keys && ids <= streams.Keys && Orders(streams.Keys - ids, order)
        decreases ids
      {
        var id :| id in ids;
        OrdersNext(streams.Keys - ids, order, id);
        TakingKeeps(streamsWithControlFrames, id, maxLen - length);
        FromNext(streams, order, room, id);
        assert streams.Keys - (ids - {id}) == streams.Keys - ids + {id};
        ids := ids - {id};
        var more;
        more, length := AppendFrom(id, maxLen, length);
        TotalLenConcat(added, more);
        added := added + more;
        order := order + [id];
      }
      ghost var rest := AnyOrder(ids);
      FromNoMore(streams, order, rest, room, ids);
      order := order + rest;
      FromStreamsKeep(streams, order, room);
      NoStreamsLeft(streams, order, room);
    }

    /** Add queued control frames, the last one first, until one does not fit. */
    method AppendQueued(maxLen: nat, start: nat) returns (added: seq<ControlFrame>, length: nat)
      modifies this`controlFrames
      ensures |controlFrames| == Staying(old(controlFrames), maxLen - start)
      ensures length == start + TotalLen(added) <= Max(start, maxLen)
      ensures |controlFrames| <= |old(controlFrames)| && controlFrames == old(controlFrames)[..|controlFrames|]
      ensures added == Reversed(old(controlFrames)[|controlFrames|..])
      ensures controlFrames != [] ==> length + Len(controlFrames[|controlFrames| - 1]) > maxLen
    {
      hide TotalLen, Len, Reversed;
      added, length := [], start;
      NoFrames();
      assert controlFrames[|controlFrames|..] == [];
      while |controlFrames| > 0
        invariant length == start + TotalLen(added) <= Max(start, maxLen)
        invariant |controlFrames| <= |old(controlFrames)| && controlFrames == old(controlFrames)[..|controlFrames|]
        invariant added == Reversed(old(controlFrames)[|controlFrames|..])
        invariant Staying(controlFrames, maxLen - length) == Staying(old(controlFrames), maxLen - start)
      {
        var n := |controlFrames| - 1;
        var frame := controlFrames[n];
        var frameLen := Len(frame);
        if length + frameLen > maxLen {
          break;
        }
        TotalLenAppend(added, frame);
        ReversedCons(frame, old(controlFrames)[n + 1..]);
        assert old(controlFrames)[n..] == [frame] + old(controlFrames)[n + 1..];
        added := added + [frame];
        length := length + frameLen;
        controlFrames := controlFrames[..n];
      }
    }

    /** Control frames come first; none is lost, and together they fit. */
    method AppendControlFrames(maxLen: nat) returns (added: seq<ControlFrame>, length: nat, ghost order: seq<nat>)
      modifies this`pathResponses, this`streamsWithControlFrames, this`controlFrames
      ensures length == TotalLen(added) && Orders(old(streamsWithControlFrames).Keys, order)
      ensures (added, Control()) == Pack(old(Control()), order, maxLen)
      ensures old(SmallFrames(streamsWithControlFrames)) ==> length <= maxLen
      ensures multiset(added) + Queued() == old(Queued())
      ensures controlFrames <= old(controlFrames) && |pathResponses| <= |old(pathResponses)| <= |pathResponses| + 1
      ensures maxLen - length > MAX_STREAM_CONTROL_FRAME_SIZE ==> streamsWithControlFrames == map[]
      ensures controlFrames != [] ==> length + Len(controlFrames[|controlFrames| - 1]) > maxLen
    {
      hide TotalLen, Len, Reversed, Offered, SmallFrames, Backlog, FromStreams, Staying, Orders, Pack;
      ghost var w := Control();
      added, length := AppendPathResponse(maxLen);
      ghost var p := |added|;
      var more, queued;
      more, length, order := AppendStreamControlFrames(maxLen, length);
      queued, length := AppendQueued(maxLen, length);
      TotalLenConcat(added, more);
      TotalLenConcat(added + more, queued);
      PackParts(w, order, maxLen, p, more, |controlFrames|);
      added := added + more + queued;
      assert (added, Control()) == Pack(w, order, maxLen);
      PackKeeps(w, order, maxLen);
      PackStreams(w, order, maxLen);
      PackTight(w, order, maxLen);
      if SmallFrames(w.streams) {
        SmallFramesFit(w, order, maxLen);
      }
    }

    /** Ask the first stream in the queue for a frame. */
    method GetNextStreamFrame(maxLen: nat, window: nat, newlyBlocked: bool)
      returns (frame: Option<StreamFrame>, blocked: Option<ControlFrame>)
      requires Valid() && streamQueue != [] && MIN_STREAM_FRAME_SIZE <= maxLen <= MAX_VARINT2
      modifies this`streamQueue, this`activeStreams, activeStreams.Values
      ensures Valid() && activeStreams.Values <= old(activeStreams.Values)
      ensures frame.Some? ==> frame.value.dataLenPresent && Length(WithoutLen(frame.value)) <= maxLen
      ensures forall str | str in old(activeStreams.Values) :: str.Valid()
      ensures blocked.Some? ==> blocked.value.StreamDataBlocked? && blocked.value.streamID == old(streamQueue)[0]
      ensures var id := old(streamQueue)[0];
              if id !in old(activeStreams) then
                && frame == None && blocked == None && activeStreams == old(activeStreams)
                && (forall s | s in old(activeStreams.Values) :: unchanged(s))
              else
                var str := old(activeStreams)[id];
                && str.history.inFlight == old(activeStreams[streamQueue[0]].history.inFlight)
                                           + (if frame.Some? then [frame.value] else [])
                && (forall s | s in old(activeStreams.Values) && s != str :: unchanged(s))
                && (activeStreams == old(activeStreams)
                    || (activeStreams == old(activeStreams) - {id} && !Pending(str.Now())))
      ensures var id := old(streamQueue)[0];
              id in old(activeStreams) ==>
                var r := PopStep(old(activeStreams[streamQueue[0]].Now()), maxLen + VarintLen(maxLen), window,
                                 newlyBlocked);
                && frame == r.frame && old(activeStreams)[id].Now() == r.s
                && blocked == (if r.blocked.Some? then Some(StreamDataBlocked(id, r.blocked.value)) else None)
                && streamQueue == old(streamQueue[1..]) + (if r.hasMore then [id] else [])
                && activeStreams == if r.hasMore then old(activeStreams) else old(activeStreams) - {id}
      ensures old(streamQueue)[0] !in old(activeStreams) ==> streamQueue == old(streamQueue[1..])
    {
      hide SendStream.Valid, Pending, PopStep, Length, StreamLen;
      frame, blocked := None, None;
      var id := streamQueue[0];
      streamQueue := streamQueue[1..];
      if id !in activeStreams {
        return;
      }
      var offered := maxLen + VarintLen(maxLen);
      var at, hasMoreData;
      frame, at, hasMoreData := activeStreams[id].PopStreamFrame(offered, window, newlyBlocked);
      if at.Some? {
        blocked := Some(StreamDataBlocked(id, at.value));
      }
      if frame.Some? {
        LastFrameFits(frame.value, maxLen);
      }
      if hasMoreData {
        streamQueue := streamQueue + [id];
      } else {
        activeStreams := activeStreams - {id};
      }
    }

    // The first stream's turn, after others have had theirs.
    method TakeTurn(left: nat, flow: (nat, bool), ghost streams: map<nat, SendStream>)
      returns (frame: Option<StreamFrame>, blocked: Option<ControlFrame>)
      requires Valid() && streamQueue != [] && MIN_STREAM_FRAME_SIZE <= left <= MAX_VARINT2
      requires AllValid(streams) && NoneForgotten(streams, activeStreams)
      modifies this`streamQueue, this`activeStreams, activeStreams.Values
      ensures Valid() && AllValid(streams) && NoneForgotten(streams, activeStreams)
      ensures activeStreams.Values <= old(activeStreams.Values)
      ensures frame.Some? ==> frame.value.dataLenPresent && Length(WithoutLen(frame.value)) <= left
      ensures var turn := TurnOf(old(NowOf(streams)), old(activeStreams.Keys), old(streamQueue)[0], left, flow);
              && FrameOf(turn) == (if frame.Some? then [frame.value] else [])
              && BlockedOf(turn) == (if blocked.Some? then [blocked.value] else [])
              && (turn.pops.Some? ==> turn.id in old(activeStreams.Keys) && turn.id in streams)
              && NowOf(streams) == (if turn.pops.Some? then old(NowOf(streams))[turn.id := turn.pops.value.s]
                                    else old(NowOf(streams)))
              && FlightsOf(streams) ==
                 (if turn.pops.Some?
                  then old(FlightsOf(streams))[turn.id := old(FlightsOf(streams))[turn.id] + FrameOf(turn)]
                  else old(FlightsOf(streams)))
              && activeStreams.Keys == if turn.pops.Some? && !turn.pops.value.hasMore
                                       then old(activeStreams.Keys) - {turn.id} else old(activeStreams.Keys)
      ensures streamQueue == old(streamQueue[1..]) || streamQueue == old(streamQueue[1..] + [streamQueue[0]])
    {
      hide Framer.Valid, SendStream.Valid, SendStream.Now, Pending, Length, PopStep, NowOf, FlightsOf, NoneForgotten,
           AllValid;
      ghost var now, inFlight, active, id := NowOf(streams), FlightsOf(streams), activeStreams, streamQueue[0];
      ghost var turn := TurnOf(now, active.Keys, id, left, flow);
      Snapshot(streams);
      ActiveOnes(streams, active);
      frame, blocked := GetNextStreamFrame(left, flow.0, flow.1);
      forall k | k in streams && (k != id || id !in active)
        ensures streams[k].Now() == now[k] && streams[k].history.inFlight == inFlight[k] && streams[k].Valid()
      {
        assert k in active <==> streams[k] in active.Values;
      }
      AreValid(streams);
      StillNone(streams, active, activeStreams, now, id);
      if id in active {
        Changed(streams, now, inFlight, id, turn.pops.value.s, FrameOf(turn));
      } else {
        Unchanged(streams, now, inFlight);
      }
    }

    // The same, with its frame added to the packet.
    method AppendTurn(maxLen: int, left: int, flow: (nat, bool), sent: seq<StreamFrame>, ghost added: seq<ControlFrame>,
                      streamFrameLen: nat, ghost controlFrameLen: nat, ghost streams: map<nat, SendStream>,
                      ghost states: map<nat, State>, ghost flights: map<nat, seq<StreamFrame>>, ghost log: seq<Turn>)
      returns (sent': seq<StreamFrame>, streamFrameLen': nat, left': int, blocked: Option<ControlFrame>,
               ghost turn: Turn)
      requires Valid() && streamQueue != [] && MIN_STREAM_FRAME_SIZE <= left <= maxLen <= MAX_VARINT2
      requires AllValid(streams) && NoneForgotten(streams, activeStreams)
      requires Served(states, flights, log, NowOf(streams), FlightsOf(streams), activeStreams.Keys)
      requires sent == TurnFrames(log)
      requires Accounts(maxLen, left, sent, added, streamFrameLen, controlFrameLen)
      modifies this`streamQueue, this`activeStreams, activeStreams.Values
      ensures Valid() && AllValid(streams) && NoneForgotten(streams, activeStreams)
      ensures activeStreams.Values <= old(activeStreams.Values)
      ensures Served(states, flights, log + [turn], NowOf(streams), FlightsOf(streams), activeStreams.Keys)
      ensures sent' == TurnFrames(log + [turn])
      ensures IsTurn(states, log, turn, old(streamQueue)[0], left, flow)
      ensures BlockedOf(turn) == if blocked.Some? then [blocked.value] else []
      ensures Accounts(maxLen, left', sent', added, streamFrameLen', controlFrameLen) && left' <= left
      ensures streamQueue == old(streamQueue[1..]) || streamQueue == old(streamQueue[1..] + [streamQueue[0]])
    {
      hide Valid, AllValid, Length, Accounts, Served, NoneForgotten, IsTurn, TurnFrames, FrameOf, BlockedOf, TurnOf,
           NowOf, FlightsOf;
      var frame;
      sent', streamFrameLen', left' := sent, streamFrameLen, left;
      turn := TurnOf(NowOf(streams), activeStreams.Keys, streamQueue[0], left, flow);
      ghost var now, inFlight, active := NowOf(streams), FlightsOf(streams), activeStreams.Keys;
      TurnOfIs(states, flights, log, now, inFlight, active, streamQueue[0], left, flow);
      frame, blocked := TakeTurn(left, flow, streams);
      ServedNext(states, flights, log, now, inFlight, active, turn);
      LogNext(log, turn);
      if frame.Some? {
        AccountStream(maxLen, left, sent, added, streamFrameLen, controlFrameLen, frame.value);
        sent' := sent + [frame.value];
        left' := left - Length(frame.value);
        streamFrameLen' := streamFrameLen + Length(frame.value);
      } else {
        assert sent + [] == sent;
      }
    }

    /** Give every stream in the queue one turn, as long as enough space is left.  left is what the
        packet has left if all frames keep their length: it can be negative, but not by more than the
        last frame saves.  The log says what each stream gave in its turn: these frames are packed, and
        in flight on their streams.  The STREAM_DATA_BLOCKED frames are packed, except for one that does
        not fit, which is late. */
    method GiveTurns(maxLen: int, flow: nat -> (nat, bool))
      returns (sent: seq<StreamFrame>, added: seq<ControlFrame>, late: seq<ControlFrame>, streamFrameLen: nat,
               controlFrameLen: nat, left: int, turns: nat, ghost log: seq<Turn>)
      requires Valid() && maxLen <= MAX_VARINT2
      modifies this`streamQueue, this`activeStreams, activeStreams.Values
      ensures Valid() && (forall str | str in old(activeStreams.Values) :: str.Valid())
      ensures Accounts(maxLen, left, sent, added, streamFrameLen, controlFrameLen)
      ensures added + late == TurnBlocked(log) && sent == TurnFrames(log)
      ensures NoneForgotten(old(activeStreams), activeStreams)
      ensures Served(old(NowOf(activeStreams)), old(FlightsOf(activeStreams)), log,
                     NowOf(old(activeStreams)), FlightsOf(old(activeStreams)), activeStreams.Keys)
      ensures AllTurns(old(NowOf(activeStreams)), old(streamQueue), log, maxLen, flow)
      ensures turns == |log| <= |old(streamQueue)| && old(streamQueue)[turns..] <= streamQueue
      ensures turns < |old(streamQueue)| ==> left < MIN_STREAM_FRAME_SIZE || TurnBlocked(log) != []
    {
      hide Valid, AllValid, Pending, Length, Len, Accounts, Served, NoneForgotten, AllTurns, IsTurn, TurnFrames,
           TurnBlocked, BlockedOf, LeftAfter, NowOf, FlightsOf;
      ghost var streams, states, flights, queue := activeStreams, NowOf(activeStreams), FlightsOf(activeStreams),
                                                   streamQueue;
      StreamsValid();
      sent, added, late, left, turns, log := [], [], [], maxLen, 0, [];
      streamFrameLen, controlFrameLen := 0, 0;
      NoAccounts(maxLen);
      NoTurns(streams, streamQueue, maxLen, flow);
      NoneYet(streams);
      var numActiveStreams := |streamQueue|;
      while turns < numActiveStreams
        invariant Valid() && AllValid(streams)
        invariant NoneForgotten(streams, activeStreams)
        invariant Accounts(maxLen, left, sent, added, streamFrameLen, controlFrameLen) && left <= maxLen
        invariant activeStreams.Values <= streams.Values
        invariant added == TurnBlocked(log) && sent == TurnFrames(log) && late == []
        invariant Served(states, flights, log, NowOf(streams), FlightsOf(streams), activeStreams.Keys)
        invariant AllTurns(states, queue, log, maxLen, flow)
        invariant turns == |log| <= numActiveStreams && queue[turns..] <= streamQueue
      {
        if MIN_STREAM_FRAME_SIZE > left {
          break;
        }
        ghost var q := streamQueue;
        ghost var turn;
        var b;
        LeftIs(maxLen, left, log, streamFrameLen, controlFrameLen);
        sent, streamFrameLen, left, b, turn :=
          AppendTurn(maxLen, left, flow(turns), sent, added, streamFrameLen, controlFrameLen, streams, states, flights,
                     log);
        TurnTaken(queue, turns, q, streamQueue);
        NextTurn(states, queue, log, maxLen, flow, turn);
        LogNext(log, turn);
        log := log + [turn];
        turns := turns + 1;
        if b.Some? {
          var l := Len(b.value);
          if left < l {
            late := [b.value];
            break;
          }
          AccountControl(maxLen, left, sent, added, streamFrameLen, controlFrameLen, b.value);
          added := added + [b.value];
          left := left - l;
          controlFrameLen := controlFrameLen + l;
        } else {
          assert added + [] == added;
        }
      }
      assert added + [] == added;
      EachValid(streams);
    }

    /** The connection itself may have become blocked: the frame is packed if it fits. */
    static method AppendDataBlocked(maxLen: int, left: int, ghost sent: seq<StreamFrame>, added: seq<ControlFrame>,
                                    late: seq<ControlFrame>, ghost streamFrameLen: nat, controlFrameLen: nat,
                                    connBlockedAt: Option<nat>)
      returns (added': seq<ControlFrame>, late': seq<ControlFrame>, controlFrameLen': nat, left': int)
      requires Accounts(maxLen, left, sent, added, streamFrameLen, controlFrameLen)
      ensures Accounts(maxLen, left', sent, added', streamFrameLen, controlFrameLen')
      ensures multiset(added') + multiset(late') == multiset((added + late) + ConnBlocked(connBlockedAt))
      ensures connBlockedAt == None || left < Len(DataBlocked(connBlockedAt.value)) ==> added' == added && left' == left
      ensures connBlockedAt == None || left >= Len(DataBlocked(connBlockedAt.value)) ==> late' == late
      ensures ConnBlocked(connBlockedAt) == [] ==> left' == left
    {
      hide Accounts, Len;
      added', late', controlFrameLen', left' := added, late, controlFrameLen, left;
      if connBlockedAt.Some? {
        var frame := DataBlocked(connBlockedAt.value);
        if left >= Len(frame) {
          AccountControl(maxLen, left, sent, added, streamFrameLen, controlFrameLen, frame);
          added', controlFrameLen', left' := added + [frame], controlFrameLen + Len(frame), left - Len(frame);
        } else {
          late' := late + [frame];
        }
      }
    }

    /** The same, and then the DATA_BLOCKED frame, if the connection is blocked.  Frames that do not fit are queued. */
    method AppendStreamFrames(maxLen: int, flow: nat -> (nat, bool), connBlockedAt: Option<nat>)
      returns (sent: seq<StreamFrame>, added: seq<ControlFrame>, streamFrameLen: nat, controlFrameLen: nat, left: int,
               ghost log: seq<Turn>)
      requires Valid() && maxLen <= MAX_VARINT2
      modifies this`streamQueue, this`activeStreams, this`controlFrames, activeStreams.Values
      ensures Valid() && (forall str | str in old(activeStreams.Values) :: str.Valid())
      ensures Accounts(maxLen, left, sent, added, streamFrameLen, controlFrameLen)
      ensures multiset(added) + multiset(controlFrames) ==
              old(multiset(controlFrames)) + multiset(TurnBlocked(log) + ConnBlocked(connBlockedAt))
      ensures NoneForgotten(old(activeStreams), activeStreams) && sent == TurnFrames(log)
      ensures Served(old(NowOf(activeStreams)), old(FlightsOf(activeStreams)), log,
                     NowOf(old(activeStreams)), FlightsOf(old(activeStreams)), activeStreams.Keys)
      ensures AllTurns(old(NowOf(activeStreams)), old(streamQueue), log, maxLen, flow)
      ensures |log| <= |old(streamQueue)| && old(streamQueue)[|log|..] <= streamQueue
      ensures |log| < |old(streamQueue)| ==>
                left < MIN_STREAM_FRAME_SIZE || TurnBlocked(log) + ConnBlocked(connBlockedAt) != []
    {
      hide Valid, SendStream.Valid, Accounts, Served, NoneForgotten, AllTurns, TurnFrames, TurnBlocked, NowOf,
           FlightsOf, ConnBlocked;
      ghost var streams := activeStreams;
      var late, turns;
      sent, added, late, streamFrameLen, controlFrameLen, left, turns, log := GiveTurns(maxLen, flow);
      added, late, controlFrameLen, left :=
        AppendDataBlocked(maxLen, left, sent, added, late, streamFrameLen, controlFrameLen, connBlockedAt);
      ghost var now, inFlight := NowOf(streams), FlightsOf(streams);
      controlFrames := controlFrames + late;
      assert NowOf(streams) == now && FlightsOf(streams) == inFlight;
      QueueLate(old(controlFrames), added, late, multiset(TurnBlocked(log) + ConnBlocked(connBlockedAt)));
      assert TurnBlocked(log) == [] ==> TurnBlocked(log) + ConnBlocked(connBlockedAt) == ConnBlocked(connBlockedAt);
    }

    lemma StreamsValid()
      requires Valid()
      ensures AllValid(activeStreams)
    {
      hide SendStream.Valid;
    }

    /** Fill a packet.  The length returned is exactly that of the frames as they are encoded, and at
        most maxLen.  No queued control frame is lost; control are those that were added first.  The STREAM frames are
        exactly those that the streams gave in their turns, and each stream has exactly its own ones in flight on top
        of what it had.  Frames that announce blocked streams, and the blocked connection, are packed or queued.
        Every stream gets a turn if there is space. */
    method Append(maxLen: nat, flow: nat -> (nat, bool), connBlockedAt: Option<nat>)
      returns (frames: seq<ControlFrame>, streamFrames: seq<StreamFrame>, length: nat,
               ghost control: seq<ControlFrame>, ghost log: seq<Turn>)
      requires Valid() && maxLen <= MAX_VARINT2
      modifies this`streamQueue, this`activeStreams, this`pathResponses, this`streamsWithControlFrames,
               this`controlFrames, activeStreams.Values
      ensures Valid() && (forall str | str in old(activeStreams.Values) :: str.Valid())
      ensures length == TotalLen(frames) + StreamTotal(streamFrames)
      ensures old(SmallFrames(streamsWithControlFrames)) ==> length <= maxLen
      ensures forall i | 0 <= i < |streamFrames| :: streamFrames[i].dataLenPresent <==> i < |streamFrames| - 1
      ensures multiset(frames) + Queued() ==
              old(Queued()) + multiset(TurnBlocked(log) + ConnBlocked(connBlockedAt))
      ensures control <= frames
              && (maxLen - TotalLen(control) > MAX_STREAM_CONTROL_FRAME_SIZE ==> streamsWithControlFrames == map[])
      ensures streamFrames == Final(TurnFrames(log))
      ensures Served(old(NowOf(activeStreams)), old(FlightsOf(activeStreams)), log,
                     NowOf(old(activeStreams)), FlightsOf(old(activeStreams)), activeStreams.Keys)
      ensures AllTurns(old(NowOf(activeStreams)), old(streamQueue), log, maxLen - TotalLen(control), flow)
      ensures NoneForgotten(old(activeStreams), activeStreams)
      ensures |log| <= |old(streamQueue)| && old(streamQueue)[|log|..] <= streamQueue
      ensures |log| < |old(streamQueue)| && TurnBlocked(log) + ConnBlocked(connBlockedAt) == [] ==>
                maxLen - length < MIN_STREAM_FRAME_SIZE + Saved(TurnFrames(log))
    {
      hide Valid, SendStream.Valid, Len, TotalLen, StreamTotal, Offered, SmallFrames, Saved, Backlog, Served, Final,
           NoneForgotten, Pack, Orders, AllTurns, TurnFrames, TurnBlocked, NowOf, FlightsOf, ConnBlocked;
      var controlFrameLen, sent, added, streamFrameLen, l, left;
      ghost var order;
      frames, controlFrameLen, order := AppendControlFrames(maxLen);
      control := frames;
      ghost var queue := controlFrames;
      sent, added, streamFrameLen, l, left, log := AppendStreamFrames(maxLen - controlFrameLen, flow, connBlockedAt);
      controlFrameLen := controlFrameLen + l;
      TotalLenConcat(frames, added);
      Collect(frames, added, queue, controlFrames, pathResponses, Offered(streamsWithControlFrames),
              TurnBlocked(log) + ConnBlocked(connBlockedAt));
      streamFrames, streamFrameLen := DropLastLength(sent, streamFrameLen);
      frames := frames + added;
      length := controlFrameLen + streamFrameLen;
    }
  }

  /** The lengths are those of the frames; the packet is overfull by at most what the last frame saves. */
  ghost predicate Accounts(maxLen: int, left: int, sent: seq<StreamFrame>, added: seq<ControlFrame>,
                           streamFrameLen: nat, controlFrameLen: nat) {
    && streamFrameLen == StreamTotal(sent) && controlFrameLen == TotalLen(added)
    && left == maxLen - streamFrameLen - controlFrameLen && left + Saved(sent) >= Min(0, maxLen)
    && (forall i | 0 <= i < |sent| :: sent[i].dataLenPresent)
  }

  lemma NoAccounts(maxLen: int)
    ensures Accounts(maxLen, maxLen, [], [], 0, 0)
  {
    NoFrames();
  }

  lemma NoneYet(streams: map<nat, SendStream>)
    ensures NoneForgotten(streams, streams)
  {
  }

  lemma AccountStream(maxLen: int, left: int, sent: seq<StreamFrame>, added: seq<ControlFrame>, streamFrameLen: nat,
                      controlFrameLen: nat,
                      f: StreamFrame)
    requires Accounts(maxLen, left, sent, added, streamFrameLen, controlFrameLen) && left >= 0
    requires f.dataLenPresent && Length(WithoutLen(f)) <= left
    ensures Accounts(maxLen, left - Length(f), sent + [f], added, streamFrameLen + Length(f), controlFrameLen)
  {
    StreamTotalAppend(sent, f);
  }

  lemma AccountControl(maxLen: int, left: int, sent: seq<StreamFrame>, added: seq<ControlFrame>, streamFrameLen: nat,
                       controlFrameLen: nat,
                       f: ControlFrame)
    requires Accounts(maxLen, left, sent, added, streamFrameLen, controlFrameLen) && Len(f) <= left
    ensures Accounts(maxLen, left - Len(f), sent, added + [f], streamFrameLen, controlFrameLen + Len(f))
  {
    TotalLenAppend(added, f);
  }

  function ConnBlocked(connBlockedAt: Option<nat>): seq<ControlFrame> {
    if connBlockedAt.Some? then [DataBlocked(connBlockedAt.value)] else []
  }

  lemma NoTurns(streams: map<nat, SendStream>, queue: seq<nat>, maxLen: int, flow: nat -> (nat, bool))
    ensures Served(NowOf(streams), FlightsOf(streams), [], NowOf(streams), FlightsOf(streams), streams.Keys)
    ensures AllTurns(NowOf(streams), queue, [], maxLen, flow)
    ensures TurnFrames([]) == [] && TurnBlocked([]) == [] && StreamTotal([]) == 0
  {
  }

  lemma LeftIs(maxLen: int, left: int, log: seq<Turn>, streamFrameLen: nat, controlFrameLen: nat)
    requires Accounts(maxLen, left, TurnFrames(log), TurnBlocked(log), streamFrameLen, controlFrameLen)
    ensures left == LeftAfter(maxLen, log)
  {
  }

  lemma {:induction false} ReversedCons(f: ControlFrame, fs: seq<ControlFrame>)
    ensures Reversed([f] + fs) == Reversed(fs) + [f]
  {
    if fs == [] {
      assert [f] + fs == [f];
    } else {
      var n := |fs| - 1;
      assert ([f] + fs)[..n + 1] == [f] + fs[..n];
      ReversedCons(f, fs[..n]);
    }
  }

  lemma Collect(frames: seq<ControlFrame>, added: seq<ControlFrame>, q1: seq<ControlFrame>, q2: seq<ControlFrame>,
                path: seq<ControlFrame>, offered: multiset<ControlFrame>, blocked: seq<ControlFrame>)
    requires multiset(added) + multiset(q2) == multiset(q1) + multiset(blocked)
    ensures multiset(frames + added) + Backlog(q2, path, offered) ==
            multiset(frames) + Backlog(q1, path, offered) + multiset(blocked)
  {
    ghost var rest := multiset(path) + offered;
    calc {
      multiset(frames + added) + Backlog(q2, path, offered);
      multiset(frames) + (multiset(added) + multiset(q2)) + rest;
      multiset(frames) + Backlog(q1, path, offered) + multiset(blocked);
    }
  }

  lemma QueueLate(queue: seq<ControlFrame>, added: seq<ControlFrame>, late: seq<ControlFrame>,
                  all: multiset<ControlFrame>)
    requires multiset(added) + multiset(late) == all
    ensures multiset(added) + multiset(queue + late) == multiset(queue) + all
  {
  }
}
