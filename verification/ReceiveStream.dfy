/** The receiving half of a stream: frames arrive, the application reads. */
module ReceiveStreaming {
  import opened StreamBytes
  import opened Tiling
  import opened FrameSorting
  import opened Reassembly

  datatype ReadResult = Ok | EOF | WouldBlock
  datatype FrameError = FinalSizeError | FlowControlError | TooManyGapsError

  // Nothing from offset h on has arrived.
  ghost predicate NothingFrom(g: Gaps, h: nat) {
    forall x: nat | h <= x < MAX_BYTE_COUNT :: Missing(g, x)
  }

  lemma ReadPosBelow(q: Queue, g: Gaps, readPos: nat, h: nat)
    requires Tiles(q, g, readPos) && NothingFrom(g, h)
    ensures readPos <= MAX_BYTE_COUNT && (h <= MAX_BYTE_COUNT ==> readPos <= h)
  {
    hide Apart;
    assert h < readPos && h < MAX_BYTE_COUNT ==> Missing(g, h);
  }

  lemma AgreesWithout(q: Queue, k: nat, stream: seq<Byte>)
    requires Agrees(q, stream)
    ensures Agrees(q - {k}, stream)
  {
  }

  lemma StillLeft(q: Queue)
    ensures Leftover(q, q)
  {
  }

  lemma LessLeft(q0: Queue, q: Queue, q': Queue)
    requires Leftover(q0, q) && Leftover(q, q')
    ensures Leftover(q0, q')
  {
  }

  // The final size is that of the flow controller, once it is known.
  ghost predicate Sizes(finalOffset: nat, receivedFinalOffset: bool, highestReceived: nat) {
    highestReceived <= finalOffset && finalOffset == if receivedFinalOffset then highestReceived else MAX_BYTE_COUNT
  }

  lemma SizesBound(finalOffset: nat, receivedFinalOffset: bool, highestReceived: nat)
    requires Sizes(finalOffset, receivedFinalOffset, highestReceived)
    ensures highestReceived <= finalOffset && (highestReceived <= MAX_BYTE_COUNT ==> finalOffset <= MAX_BYTE_COUNT)
  {
  }

  // The final size must stay the same, and nothing may lie beyond it.
  predicate SizeMismatch(received: bool, highest: nat, offset: nat, final: bool) {
    || (received && (offset > highest || (final && offset != highest)))
    || (final && offset < highest)
  }

  lemma SizesNext(finalOffset: nat, received: bool, highest: nat, offset: nat, final: bool, sorterPos: nat)
    requires Sizes(finalOffset, received, highest) && sorterPos <= highest <= MAX_BYTE_COUNT && offset <= MAX_BYTE_COUNT
    requires !SizeMismatch(received, highest, offset, final)
    ensures highest <= Max(highest, offset) <= MAX_BYTE_COUNT && offset <= Max(highest, offset)
    ensures var finalOffset' := if final then offset else finalOffset;
            && Sizes(finalOffset', received || final, Max(highest, offset)) && Max(highest, offset) <= finalOffset'
            && (received ==> finalOffset' == finalOffset)
            && (received || final ==> finalOffset' == Max(highest, offset))
            && sorterPos <= finalOffset' && (sorterPos == finalOffset ==> finalOffset' == finalOffset)
  {
  }

  lemma CompletionKept(completed: bool, errorRead: bool, finalOffset: nat, completions: nat, finalOffset': nat)
    requires Completion(completed, errorRead, finalOffset, completions) && (errorRead ==> finalOffset' == finalOffset)
    ensures Completion(completed, errorRead, finalOffset', completions)
  {
  }

  // Completion is reported once, after the end has been read.
  ghost predicate Completion(completed: bool, errorRead: bool, finalOffset: nat, completions: nat) {
    (completed <==> errorRead && finalOffset != MAX_BYTE_COUNT) && completions == if completed then 1 else 0
  }

  // Every callback that was handed out has been invoked, or will be when its frame has been read.
  ghost predicate Paid(popped: multiset<Callback>, invoked: multiset<Callback>, held: multiset<Callback>) {
    popped == invoked + held
  }

  lemma PayNext(popped: multiset<Callback>, invoked: multiset<Callback>, held: multiset<Callback>,
                next: multiset<Callback>)
    requires Paid(popped, invoked, held)
    ensures Paid(popped + next, invoked + held, next)
  {
  }

  lemma PayLast(popped: multiset<Callback>, invoked: multiset<Callback>, held: multiset<Callback>)
    requires Paid(popped, invoked, held)
    ensures Paid(popped, invoked + held, multiset{})
  {
  }

  lemma Regroup(a: multiset<Callback>, b: multiset<Callback>, c: multiset<Callback>)
    ensures a + b + c == a + c + b
  {
  }

  lemma StillNothing(g: Gaps, h: nat, h': nat)
    requires NothingFrom(g, h) && h <= h'
    ensures NothingFrom(g, h')
  {
  }

  lemma FillsUpTo(g0: Gaps, g: Gaps, offset: nat, data: seq<Byte>, h: nat)
    requires Fills(g0, g, offset, data) && NothingFrom(g0, h)
    ensures NothingFrom(g, Max(h, offset + |data|))
  {
  }

  /** The frame that is being read: its unread part comes next in the stream, and the sorter
      continues after it. */
  ghost predicate Position(stream: seq<Byte>, readPos: nat, frame: Option<seq<Byte>>, pos: nat, sorterPos: nat) {
    match frame
    case None => sorterPos == readPos <= |stream|
    case Some(data) => 0 < |data| && pos <= |data| && sorterPos == readPos + |data| - pos
                       && IsSlice(stream, readPos, data[pos..])
  }

  lemma CopyKeepsPosition(stream: seq<Byte>, readPos: nat, data: seq<Byte>, pos: nat, sorterPos: nat, m: nat)
    requires Position(stream, readPos, Some(data), pos, sorterPos) && pos + m <= |data|
    ensures Position(stream, readPos + m, Some(data), pos + m, sorterPos)
            && IsSlice(stream, readPos, data[pos..pos + m])
  {
    var rest := data[pos..];
    SliceOfSlice(stream, readPos, rest, 0, m);
    SliceOfSlice(stream, readPos, rest, m, |rest|);
    assert rest[0..m] == data[pos..pos + m] && rest[m..|rest|] == data[pos + m..];
  }

  lemma Consumed(stream: seq<Byte>, readPos: nat, frame: Option<seq<Byte>>, pos: nat, sorterPos: nat)
    requires Position(stream, readPos, frame, pos, sorterPos) && (frame.Some? ==> pos == |frame.value|)
    ensures sorterPos == readPos && Position(stream, readPos, None, 0, sorterPos)
  {
  }

  lemma ConsumedAnywhere(stream: seq<Byte>, readPos: nat, pos: nat, sorterPos: nat)
    requires Position(stream, readPos, None, 0, sorterPos)
    ensures Position(stream, readPos, None, pos, sorterPos)
  {
  }

  lemma NoSlice(stream: seq<Byte>, offset: nat)
    requires offset <= |stream|
    ensures IsSlice(stream, offset, [])
  {
  }

  lemma SliceSlice(stream: seq<Byte>, offset: nat, a: seq<Byte>, b: seq<Byte>)
    requires IsSlice(stream, offset, a) && IsSlice(stream, offset + |a|, b)
    ensures IsSlice(stream, offset, a + b)
  {
    assert stream[offset..offset + |a|] + stream[offset + |a|..offset + |a| + |b|] == stream[offset..offset + |a + b|];
  }

  lemma NextFrame(stream: seq<Byte>, readPos: nat, q: Queue, data: seq<Byte>)
    requires Agrees(q, stream) && readPos in q && q[readPos].data == data != []
    ensures Position(stream, readPos, Some(data), 0, readPos + |data|)
  {
    assert data[0..] == data;
  }

  lemma PositionBounds(stream: seq<Byte>, readPos: nat, frame: Option<seq<Byte>>, pos: nat, sorterPos: nat)
    requires Position(stream, readPos, frame, pos, sorterPos)
    ensures readPos <= |stream|
    ensures frame.None? ==> sorterPos == readPos
    ensures frame.Some? ==> 0 < |frame.value| && pos <= |frame.value| && sorterPos == readPos + |frame.value| - pos
  {
  }

  class ReceiveStream {
    const frameQueue: FrameSorter
    var finalOffset: nat
    var currentFrame: Option<seq<Byte>>
    var currentFrameDone: Option<Callback>
    var readPosInFrame: nat
    var currentFrameIsLast: bool
    var errorRead: bool
    var completed: bool
    var readPos: nat
    var signalled: bool  // the channel that wakes up Read holds a value
    var highestReceived: nat  // of the flow controller
    var receivedFinalOffset: bool  // of the flow controller
    var invoked: multiset<Callback>  // the callbacks of frames that were read

    ghost var stream: seq<Byte>  // what the peer sends
    ghost var popped: multiset<Callback>  // the callbacks handed out by the sorter
    ghost var completions: nat

    // The callback of the frame that is being read.
    ghost function Held(): multiset<Callback>
      reads this`errorRead, this`currentFrameDone
    {
      if errorRead then multiset{} else Calls(currentFrameDone)
    }

    ghost function AllCallbacks(): multiset<Callback>
      reads this`popped, frameQueue`queue, frameQueue`released
    {
      Callbacks(frameQueue.queue) + frameQueue.released + popped
    }

    // What the sizes do not matter for.
    ghost predicate Reading()
      reads this`stream, this`readPos, this`currentFrame, this`currentFrameDone, this`readPosInFrame,
            this`currentFrameIsLast, this`errorRead, this`popped, this`invoked, frameQueue
    {
      && frameQueue.Valid() && |stream| <= MAX_BYTE_COUNT
      && Agrees(frameQueue.queue, stream)
      && Position(stream, readPos, currentFrame, readPosInFrame, frameQueue.readPos)
      && (currentFrame.None? && !errorRead ==> currentFrameDone.None?)
      && (errorRead ==> currentFrame.None? && currentFrameIsLast)
      && Paid(popped, invoked, Held())
    }

    ghost predicate Valid()
      reads this`stream, this`readPos, this`currentFrame, this`currentFrameDone, this`readPosInFrame,
            this`currentFrameIsLast, this`errorRead, this`popped, this`invoked, this`finalOffset,
            this`highestReceived, this`receivedFinalOffset, frameQueue
    {
      && Reading() && highestReceived <= MAX_BYTE_COUNT
      && NothingFrom(frameQueue.gapTree, highestReceived)
      && Sizes(finalOffset, receivedFinalOffset, highestReceived)
      && frameQueue.readPos <= finalOffset && (currentFrameIsLast ==> frameQueue.readPos == finalOffset)
    }

    // The frame that is being read is marked as the last one, or there are more to come.
    predicate EndSeen()
      reads this`currentFrameIsLast, this`finalOffset, frameQueue`readPos
    {
      currentFrameIsLast || frameQueue.readPos < finalOffset
    }

    ghost predicate Settled()
      reads this`completed, this`errorRead, this`finalOffset, this`completions
    {
      Completion(completed, errorRead, finalOffset, completions)
    }

    constructor (ghost stream: seq<Byte>)
      requires |stream| <= MAX_BYTE_COUNT
      ensures Valid() && Settled() && fresh(frameQueue) && this.stream == stream && readPos == 0
              && AllCallbacks() == multiset{}
      ensures finalOffset == MAX_BYTE_COUNT && !receivedFinalOffset && highestReceived == 0 && invoked == multiset{}
      ensures !completed && !errorRead && frameQueue.gapTree == map[0 := MAX_BYTE_COUNT]
      ensures frameQueue.queue == map[] && frameQueue.released == multiset{} && Held() == multiset{}
    {
      frameQueue := new FrameSorter();
      finalOffset, currentFrame, currentFrameDone, readPosInFrame, currentFrameIsLast := MAX_BYTE_COUNT, None, None, 0,
        false;
      errorRead, completed, readPos, signalled, highestReceived, receivedFinalOffset := false, false, 0, false, 0,
        false;
      invoked, popped, completions := multiset{}, multiset{}, 0;
      this.stream := stream;
      new;
      assert NothingFrom(frameQueue.gapTree, 0) by {
        forall x: nat | x < MAX_BYTE_COUNT ensures Missing(frameQueue.gapTree, x) {
          assert 0 in frameQueue.gapTree;
        }
      }
    }

    // The sorter hands out what comes next.
    method PopNext() returns (end: nat, frame: Option<seq<Byte>>, doneCb: Option<Callback>)
      requires frameQueue.Valid() && Agrees(frameQueue.queue, stream)
               && NothingFrom(frameQueue.gapTree, highestReceived)
      requires highestReceived <= MAX_BYTE_COUNT && Position(stream, readPos, None, 0, frameQueue.readPos)
      modifies frameQueue`queue, frameQueue`readPos
      ensures frameQueue.Valid() && Agrees(frameQueue.queue, stream)
      ensures end == frameQueue.readPos <= highestReceived && Position(stream, readPos, frame, 0, end)
      ensures frame.None? <==> Missing(frameQueue.gapTree, readPos) || readPos == MAX_BYTE_COUNT
      ensures frame.None? ==> doneCb == None && end == readPos
      ensures Callbacks(frameQueue.queue) + Calls(doneCb) == old(Callbacks(frameQueue.queue))
      ensures Leftover(old(frameQueue.queue), frameQueue.queue)
    {
      hide Callbacks, Calls, Agrees, NothingFrom, Missing, Tiles, Position;
      ghost var q := frameQueue.queue;
      AgreesWithout(q, frameQueue.readPos, stream);
      Consumed(stream, readPos, None, 0, frameQueue.readPos);
      var offset, data;
      offset, data, doneCb := frameQueue.Pop();
      ReadPosBelow(frameQueue.queue, frameQueue.gapTree, frameQueue.readPos, highestReceived);
      end := offset + |data|;
      if |data| == 0 {
        frame := None;
      } else {
        NextFrame(stream, readPos, q, data);
        frame := Some(data);
      }
    }

    method LoadNext()
      requires frameQueue.Valid() && Agrees(frameQueue.queue, stream)
               && NothingFrom(frameQueue.gapTree, highestReceived)
      requires highestReceived <= finalOffset && highestReceived <= MAX_BYTE_COUNT
               && Position(stream, readPos, None, 0, frameQueue.readPos)
      modifies frameQueue`queue, frameQueue`readPos, this`popped, this`currentFrame, this`currentFrameDone,
               this`readPosInFrame, this`currentFrameIsLast
      ensures frameQueue.Valid() && Agrees(frameQueue.queue, stream)
      ensures Position(stream, readPos, currentFrame, 0, frameQueue.readPos) && readPosInFrame == 0
      ensures frameQueue.readPos <= finalOffset && (currentFrameIsLast <==> frameQueue.readPos == finalOffset)
      ensures currentFrame.None? <==> Missing(frameQueue.gapTree, readPos) || readPos == MAX_BYTE_COUNT
      ensures currentFrame.None? ==> currentFrameDone == None && frameQueue.readPos == readPos
      ensures AllCallbacks() == old(AllCallbacks()) && popped == old(popped) + Calls(currentFrameDone)
      ensures Leftover(old(frameQueue.queue), frameQueue.queue)
    {
      hide Leftover, Callbacks, Calls, Agrees, NothingFrom, Missing, Tiles, Position;
      var end, frame, doneCb := PopNext();
      popped := popped + Calls(doneCb);
      currentFrame, currentFrameDone, currentFrameIsLast, readPosInFrame := frame, doneCb, end >= finalOffset, 0;
    }

    method DequeueNextFrame()
      requires Valid() && !errorRead && (currentFrame.Some? ==> readPosInFrame == |currentFrame.value|)
      modifies this`currentFrame, this`currentFrameDone, this`readPosInFrame, this`currentFrameIsLast, this`invoked,
               this`popped,
               frameQueue`queue, frameQueue`readPos
      ensures Valid() && readPosInFrame == 0
      ensures AllCallbacks() == old(AllCallbacks())
      ensures currentFrame.None? ==> (Missing(frameQueue.gapTree, readPos) || readPos == finalOffset)
                                     && (currentFrameIsLast <==> readPos == finalOffset)
      ensures currentFrameIsLast <==> frameQueue.readPos == finalOffset
      ensures !errorRead
      ensures Leftover(old(frameQueue.queue), frameQueue.queue)
    {
      hide Leftover, Tiles, Callbacks, Calls, Agrees, NothingFrom, Missing, Position, Paid, Sizes;
      SizesBound(finalOffset, receivedFinalOffset, highestReceived);
      Consumed(stream, readPos, currentFrame, readPosInFrame, frameQueue.readPos);
      ghost var held := Calls(currentFrameDone);
      invoked := invoked + Calls(currentFrameDone);
      LoadNext();
      PayNext(old(popped), old(invoked), held, Calls(currentFrameDone));
    }

    // Copy what is left of the current frame, or as much as is wanted.
    method CopyOut(want: nat) returns (chunk: seq<Byte>)
      requires Valid() && currentFrame.Some? && readPosInFrame < |currentFrame.value| && 0 < want
      modifies this`readPosInFrame, this`readPos
      ensures Valid() && readPos == old(readPos) + |chunk| && 0 < |chunk| <= want
      ensures IsSlice(stream, old(readPos), chunk)
      ensures |chunk| == want || readPosInFrame == |currentFrame.value|
    {
      hide Tiles, Agrees, NothingFrom, Missing, Paid, Sizes, IsSlice;
      var m := Min(want, |currentFrame.value| - readPosInFrame);
      CopyKeepsPosition(stream, readPos, currentFrame.value, readPosInFrame, frameQueue.readPos, m);
      chunk := currentFrame.value[readPosInFrame..readPosInFrame + m];
      readPosInFrame := readPosInFrame + m;
      readPos := readPos + m;
    }

    // The last frame has been read.
    method FinishLast()
      requires Valid() && !errorRead && currentFrameIsLast
               && (currentFrame.Some? ==> readPosInFrame == |currentFrame.value|)
      modifies this`currentFrame, this`invoked, this`errorRead
      ensures Valid() && errorRead && readPos == finalOffset
    {
      hide Tiles, Agrees, NothingFrom, Missing, Paid, Sizes, Position, Calls;
      Consumed(stream, readPos, currentFrame, readPosInFrame, frameQueue.readPos);
      ConsumedAnywhere(stream, readPos, readPosInFrame, frameQueue.readPos);
      PayLast(popped, invoked, Calls(currentFrameDone));
      currentFrame := None;
      invoked := invoked + Calls(currentFrameDone);
      errorRead := true;
    }

    // One turn of the loop in Read, which has read some bytes before or not.
    method ReadMore(want: nat, some: bool) returns (chunk: seq<Byte>, r: Option<ReadResult>)
      requires Valid() && !errorRead && 0 < want
      modifies this`currentFrame, this`currentFrameDone, this`readPosInFrame, this`currentFrameIsLast, this`invoked,
               this`popped,
               this`readPos, this`errorRead, frameQueue`queue, frameQueue`readPos
      ensures Valid() && AllCallbacks() == old(AllCallbacks())
      ensures |chunk| <= want && readPos == old(readPos) + |chunk| <= finalOffset
              && IsSlice(stream, old(readPos), chunk)
      ensures errorRead <==> r == Some(EOF)
      ensures r == Some(EOF) ==> readPos == finalOffset
      ensures r == Some(WouldBlock) ==> !some && chunk == [] && Missing(frameQueue.gapTree, readPos)
                                        && readPos < finalOffset
      ensures r == Some(Ok) ==> some && chunk == [] && (Missing(frameQueue.gapTree, readPos) || readPos == finalOffset)
      ensures r == None ==> chunk != []
      ensures old(EndSeen()) ==>
                (r == None ==> EndSeen()) && (chunk != [] && readPos == finalOffset ==> r == Some(EOF))
      ensures !old(EndSeen()) ==>
                (chunk != [] ==> r == None && !EndSeen()) && (r == Some(EOF) ==> !some)
      ensures Leftover(old(frameQueue.queue), frameQueue.queue)
    {
      hide Valid, AllCallbacks, Missing, IsSlice, Leftover;
      StillLeft(frameQueue.queue);
      chunk := [];
      Bounds();
      NoSlice(stream, readPos);
      if currentFrame.None? || readPosInFrame >= |currentFrame.value| {
        DequeueNextFrame();
        Bounds();
      }
      if currentFrame.None? && some {
        return [], Some(Ok);
      }
      if currentFrame.None? && !currentFrameIsLast {
        return [], Some(WouldBlock);
      }
      if currentFrame.Some? {
        chunk := CopyOut(want);
        Bounds();
      }
      r := None;
      if currentFrameIsLast && (currentFrame.None? || readPosInFrame >= |currentFrame.value|) {
        FinishLast();
        r := Some(EOF);
      }
    }

    method ReadImpl(n: nat) returns (data: seq<Byte>, r: ReadResult)
      requires Valid()
      modifies this`currentFrame, this`currentFrameDone, this`readPosInFrame, this`currentFrameIsLast, this`invoked,
               this`popped,
               this`readPos, this`errorRead, frameQueue`queue, frameQueue`readPos
      ensures Valid() && AllCallbacks() == old(AllCallbacks())
      ensures |data| <= n && readPos == old(readPos) + |data| && IsSlice(stream, old(readPos), data)
      ensures errorRead <==> r == EOF || old(errorRead)
      ensures r == EOF ==> readPos == finalOffset
      ensures r == WouldBlock ==> data == [] && 0 < n && Missing(frameQueue.gapTree, readPos) && readPos < finalOffset
      ensures r == Ok && |data| < n ==> data != [] && (Missing(frameQueue.gapTree, readPos) || readPos == finalOffset)
      ensures old(readPos) == finalOffset && 0 < n ==> r == EOF
      ensures data != [] && readPos == finalOffset ==> (r == EOF <==> old(EndSeen()))
      ensures Leftover(old(frameQueue.queue), frameQueue.queue)
    {
      hide Valid, AllCallbacks, Missing, IsSlice, Leftover;
      StillLeft(frameQueue.queue);
      data := [];
      Bounds();
      NoSlice(stream, readPos);
      if currentFrameIsLast && currentFrame.None? {
        ReadEnd();
        return [], EOF;
      }
      NotAtEnd();
      while |data| < n
        invariant Valid() && !errorRead && AllCallbacks() == old(AllCallbacks())
        invariant |data| <= n && readPos == old(readPos) + |data| <= finalOffset && IsSlice(stream, old(readPos), data)
        invariant EndSeen() == old(EndSeen()) && (data != [] && EndSeen() ==> readPos < finalOffset)
        invariant Leftover(old(frameQueue.queue), frameQueue.queue)
      {
        ghost var q := frameQueue.queue;
        var chunk, done := ReadMore(n - |data|, |data| > 0);
        LessLeft(old(frameQueue.queue), q, frameQueue.queue);
        SliceSlice(stream, old(readPos), data, chunk);
        data := data + chunk;
        if done.Some? {
          return data, done.value;
        }
      }
      r := Ok;
    }

    lemma Bounds()
      requires Valid()
      ensures readPos <= |stream| && readPos <= frameQueue.readPos <= finalOffset
      ensures currentFrame.None? ==> frameQueue.readPos == readPos
      ensures currentFrame.Some? ==> 0 < |currentFrame.value| && readPosInFrame <= |currentFrame.value|
                                     && frameQueue.readPos == readPos + |currentFrame.value| - readPosInFrame
    {
      hide Tiles, Agrees, NothingFrom, Missing, Paid, Sizes, Position;
      PositionBounds(stream, readPos, currentFrame, readPosInFrame, frameQueue.readPos);
    }

    lemma NotAtEnd()
      requires Valid() && !(currentFrameIsLast && currentFrame.None?)
      ensures !errorRead
    {
    }

    method ReadEnd()
      requires Valid() && currentFrameIsLast && currentFrame.None?
      modifies this`errorRead
      ensures Valid() && errorRead && readPos == finalOffset
    {
      hide Tiles, Agrees, NothingFrom, Missing, Paid, Sizes, Position;
      PositionBounds(stream, readPos, currentFrame, readPosInFrame, frameQueue.readPos);
      errorRead := true;
    }

    /** Read from the stream.  The bytes returned are the next bytes of the stream; the end is reported
        only when all of it has been read, and then at once, unless it became known while the last frame
        was being read; and the call waits only if the next byte is missing. */
    method Read(n: nat) returns (data: seq<Byte>, r: ReadResult, newlyCompleted: bool)
      requires Valid() && Settled()
      modifies this`currentFrame, this`currentFrameDone, this`readPosInFrame, this`currentFrameIsLast, this`invoked,
               this`popped,
               this`readPos, this`errorRead, this`completed, this`completions, frameQueue`queue, frameQueue`readPos
      ensures Valid() && Settled() && AllCallbacks() == old(AllCallbacks())
      ensures |data| <= n && readPos == old(readPos) + |data| && IsSlice(stream, old(readPos), data)
      ensures errorRead <==> r == EOF || old(errorRead)
      ensures r == EOF ==> readPos == finalOffset
      ensures r == WouldBlock ==> data == [] && 0 < n && Missing(frameQueue.gapTree, readPos) && readPos < finalOffset
      ensures r == Ok && |data| < n ==> data != [] && (Missing(frameQueue.gapTree, readPos) || readPos == finalOffset)
      ensures old(readPos) == finalOffset && 0 < n ==> r == EOF
      ensures data != [] && readPos == finalOffset ==> (r == EOF <==> old(EndSeen()))
      ensures newlyCompleted <==> r == EOF && !old(completed) && finalOffset != MAX_BYTE_COUNT
      ensures Leftover(old(frameQueue.queue), frameQueue.queue)
    {
      hide Valid, AllCallbacks, Missing, IsSlice, Leftover;
      data, r := ReadImpl(n);
      newlyCompleted := IsNewlyCompleted();
    }

    method IsNewlyCompleted() returns (newly: bool)
      modifies this`completed, this`completions
      ensures newly <==> !old(completed) && errorRead && finalOffset != MAX_BYTE_COUNT
      ensures completed == (old(completed) || newly) && completions == old(completions) + if newly then 1 else 0
    {
      if completed {
        return false;
      }
      if finalOffset == MAX_BYTE_COUNT {
        return false;
      }
      if errorRead {
        completed := true;
        completions := completions + 1;
        return true;
      }
      return false;
    }

    predicate Inconsistent(offset: nat, final: bool)
      reads this`highestReceived, this`receivedFinalOffset
    {
      SizeMismatch(receivedFinalOffset, highestReceived, offset, final)
    }

    /** The flow controller.  inWindow says whether the receive windows allow the offset. */
    method UpdateHighestReceived(offset: nat, final: bool, inWindow: bool) returns (err: Option<FrameError>)
      modifies this`highestReceived, this`receivedFinalOffset
      ensures err == Some(FinalSizeError) <==> old(Inconsistent(offset, final))
      ensures err == Some(FlowControlError) <==> !old(Inconsistent(offset, final)) && offset > old(highestReceived)
                                                 && !inWindow
      ensures err != Some(TooManyGapsError)
      ensures err == None ==> highestReceived == Max(old(highestReceived), offset)
                              && receivedFinalOffset == (old(receivedFinalOffset) || final)
    {
      if receivedFinalOffset {
        if final && offset != highestReceived {
          return Some(FinalSizeError);
        }
        if offset > highestReceived {
          return Some(FinalSizeError);
        }
      }
      if final {
        receivedFinalOffset := true;
      }
      if offset == highestReceived {
        return None;
      }
      if offset < highestReceived {
        return if final then Some(FinalSizeError) else None;
      }
      highestReceived := offset;
      return if inWindow then None else Some(FlowControlError);
    }

    lemma ReadPosBounded()
      requires Valid()
      ensures frameQueue.readPos <= highestReceived && (errorRead ==> currentFrameIsLast)
    {
      hide Tiles, NothingFrom, Agrees, Paid, Position, Sizes;
      ReadPosBelow(frameQueue.queue, frameQueue.gapTree, frameQueue.readPos, highestReceived);
    }

    method AcceptSize(offset: nat, final: bool, inWindow: bool) returns (err: Option<FrameError>)
      requires Valid() && Settled() && offset <= MAX_BYTE_COUNT
      modifies this`highestReceived, this`receivedFinalOffset, this`finalOffset
      ensures err == Some(FinalSizeError) <==> old(Inconsistent(offset, final))
      ensures err == Some(FlowControlError) <==> !old(Inconsistent(offset, final)) && offset > old(highestReceived)
                                                 && !inWindow
      ensures err != Some(TooManyGapsError)
      ensures err == None ==>
                && Valid() && Settled()
                && finalOffset == (if final then offset else old(finalOffset))
                && highestReceived == Max(old(highestReceived), offset)
                && receivedFinalOffset == (old(receivedFinalOffset) || final)
    {
      hide Reading, NothingFrom, Sizes, Completion, SizeMismatch, Max;
      ReadPosBounded();
      ghost var h, received := highestReceived, receivedFinalOffset;
      err := UpdateHighestReceived(offset, final, inWindow);
      if err != None {
        return;
      }
      SizesNext(finalOffset, received, h, offset, final, frameQueue.readPos);
      StillNothing(frameQueue.gapTree, h, highestReceived);
      CompletionKept(completed, errorRead, finalOffset, completions, if final then offset else finalOffset);
      if final {
        finalOffset := offset;
      }
    }

    /** Take in a STREAM frame whose data is part of the stream. */
    method HandleStreamFrame(offset: nat, data: seq<Byte>, fin: bool, doneCb: Option<Callback>, inWindow: bool)
      returns (err: Option<FrameError>)
      requires Valid() && Settled() && IsSlice(stream, offset, data)
      modifies this`highestReceived, this`receivedFinalOffset, this`finalOffset, this`signalled,
               frameQueue`queue, frameQueue`released, frameQueue`gapTree
      ensures err == Some(FinalSizeError) <==> old(Inconsistent(offset + |data|, fin))
      ensures err == Some(FlowControlError) <==> !old(Inconsistent(offset + |data|, fin))
                                                 && offset + |data| > old(highestReceived) && !inWindow
      ensures err == Some(TooManyGapsError) <==>
                && !old(Inconsistent(offset + |data|, fin)) && (offset + |data| > old(highestReceived) ==> inWindow)
                && |old(frameQueue.gapTree)| == MAX_STREAM_FRAME_SORTER_GAPS
                && Splits(old(frameQueue.gapTree), offset, data)
      ensures err == None ==>
                && Valid() && Settled() && signalled
                && finalOffset == (if fin then offset + |data| else old(finalOffset))
                && highestReceived == Max(old(highestReceived), offset + |data|) <= finalOffset
                && (receivedFinalOffset ==> finalOffset == highestReceived)
                && receivedFinalOffset == (old(receivedFinalOffset) || fin)
                && (old(receivedFinalOffset) ==> finalOffset == old(finalOffset))
                && Fills(old(frameQueue.gapTree), frameQueue.gapTree, offset, data)
                && AllCallbacks() == old(AllCallbacks()) + Calls(doneCb)
                && Provenance(old(frameQueue.queue), old(frameQueue.gapTree), frameQueue.queue, offset, data, doneCb)
    {
      hide Valid, AllCallbacks, Missing, Fills, Calls, IsSlice, SizeMismatch, Splits, Sizes, Max, Provenance;
      SliceBound(stream, offset, data);
      ValidBound();
      if !Inconsistent(offset + |data|, fin) {
        SizesNext(finalOffset, receivedFinalOffset, highestReceived, offset + |data|, fin, 0);
      }
      err := AcceptSize(offset + |data|, fin, inWindow);
      if err != None {
        assert err.value == FinalSizeError || err.value == FlowControlError;
        return;
      }
      var ok := PushFrame(offset, data, doneCb);
      if !ok {
        return Some(TooManyGapsError);
      }
    }

    lemma ValidBound()
      requires Valid()
      ensures |stream| <= MAX_BYTE_COUNT && highestReceived <= MAX_BYTE_COUNT
      ensures Sizes(finalOffset, receivedFinalOffset, highestReceived)
    {
    }

    method PushFrame(offset: nat, data: seq<Byte>, doneCb: Option<Callback>) returns (ok: bool)
      requires Valid() && IsSlice(stream, offset, data) && offset + |data| <= highestReceived
      modifies frameQueue`queue, frameQueue`released, frameQueue`gapTree, this`signalled
      ensures !ok <==> |old(frameQueue.gapTree)| == MAX_STREAM_FRAME_SORTER_GAPS
                       && Splits(old(frameQueue.gapTree), offset, data)
      ensures ok ==> Valid() && signalled && Fills(old(frameQueue.gapTree), frameQueue.gapTree, offset, data)
      ensures ok ==> AllCallbacks() == old(AllCallbacks()) + Calls(doneCb)
      ensures ok ==> Provenance(old(frameQueue.queue), old(frameQueue.gapTree), frameQueue.queue, offset, data, doneCb)
    {
      hide Tiles, Missing, Paid, Position, NothingFrom, Fills, Provenance, Splits, Callbacks, Agrees, Sizes, Calls;
      ghost var q, g, calls := frameQueue.queue, frameQueue.gapTree, Callbacks(frameQueue.queue) + frameQueue.released;
      ok := frameQueue.Push(data, offset, doneCb);
      if ok {
        PushedPartsAgree(q, g, frameQueue.queue, offset, data, doneCb, stream);
        FillsUpTo(g, frameQueue.gapTree, offset, data, highestReceived);
        Regroup(calls, Calls(doneCb), popped);
        signalled := true;
      }
    }
  }
}
