/** The outgoing streams map: the fields behind the protocol, one method per section that holds
    the lock.
 */
module OutgoingMap {
  import opened StreamNumbers
  import opened OutgoingStreams

  lemma WithoutNone(w: nat)
    ensures Without([], w) == []
  {
  }

  lemma WithoutHead(q: seq<nat>, w: nat)
    requires q != []
    ensures Without(q, w) == if q[0] == w then Without(q[1..], w) else [q[0]] + Without(q[1..], w)
  {
  }

  method Delete(q: seq<nat>, waiter: nat) returns (rest: seq<nat>)
    ensures rest == Without(q, waiter)
  {
    hide Without;
    rest := [];
    WithoutNone(waiter);
    assert q[0..] == q;
    for i := 0 to |q|
      invariant Without(q, waiter) == rest + Without(q[i..], waiter)
    {
      assert q[i..][0] == q[i] && q[i..][1..] == q[i + 1..];
      WithoutHead(q[i..], waiter);
      if q[i] != waiter {
        rest := rest + [q[i]];
      }
    }
  }

  class OutgoingStreamsMap {
    const first: int
    var openQueue: seq<nat>  // the channels of the waiting calls, numbered
    var nextStream: int
    var maxStream: int
    var blockedSent: bool
    var waiters: nat
    var tokens: set<nat>  // the channels that hold a value
    var blockedFrames: seq<int>  // the STREAMS_BLOCKED frames queued
    var woken: set<nat>
    var leaving: set<nat>
    ghost var streamsOpened: seq<int>
    ghost var served: seq<nat>

    ghost function Abstract(): State
      reads this
    {
      State(first, nextStream, maxStream, blockedSent, openQueue, waiters, tokens, woken, leaving, streamsOpened,
            served, blockedFrames)
    }

    constructor (first: int)
      requires 0 <= first < 4
      ensures Abstract() == Initial(first) && Inv(Abstract())
    {
      this.first := first;
      openQueue, nextStream, maxStream, blockedSent := [], first, INVALID_STREAM_ID, false;
      waiters, tokens, blockedFrames, woken, leaving := 0, {}, [], {}, {};
      streamsOpened, served := [], [];
    }

    // Returns the ID of the new stream.
    method OpenNext() returns (id: int)
      modifies this`nextStream, this`streamsOpened
      ensures Abstract() == Open(old(Abstract())) && id == old(nextStream)
    {
      id := nextStream;
      streamsOpened := streamsOpened + [nextStream];
      nextStream := nextStream + 4;
    }

    method MaybeSendBlocked()
      modifies this`blockedSent, this`blockedFrames
      ensures Abstract() == MaybeSendBlockedFrame(old(Abstract())) && blockedSent
    {
      if blockedSent {
        return;
      }
      var streamLimit := 0;
      if maxStream != INVALID_STREAM_ID {
        streamLimit := maxStream / 4 + 1;
      }
      blockedFrames := blockedFrames + [streamLimit];
      blockedSent := true;
    }

    method MaybeUnblock()
      modifies this`tokens
      ensures Abstract() == MaybeUnblockOpenSync(old(Abstract()))
      ensures openQueue != [] && nextStream <= maxStream ==> openQueue[0] in tokens
    {
      if |openQueue| == 0 {
        return;
      }
      if nextStream > maxStream {
        return;
      }
      // A channel that is full already stays full.
      tokens := tokens + {openQueue[0]};
    }

    /** Open a stream without waiting; it fails if none is available or others are waiting. */
    method TryOpenStream() returns (ok: bool, id: int)
      requires Inv(Abstract())
      modifies this
      ensures Inv(Abstract()) && Abstract() == Step(old(Abstract()), OpenStream)
      ensures ok <==> old(openQueue) == [] && old(nextStream) <= old(maxStream)
      ensures ok ==> id == old(nextStream) <= maxStream
    {
      StepKeepsInv(Abstract(), OpenStream);
      hide Inv;
      if |openQueue| > 0 || nextStream > maxStream {
        MaybeSendBlocked();
        return false, INVALID_STREAM_ID;
      }
      id := OpenNext();
      ok := true;
    }

    /** The first section of OpenStreamSync: open a stream, or join the queue. */
    method Enter() returns (ok: bool, id: int, waiter: nat)
      requires Inv(Abstract())
      modifies this
      ensures Inv(Abstract()) && Abstract() == Step(old(Abstract()), OpenStreamSync)
      ensures ok <==> old(openQueue) == [] && old(nextStream) <= old(maxStream)
      ensures ok ==> id == old(nextStream) <= maxStream
      ensures !ok ==> openQueue == old(openQueue) + [waiter] && blockedSent
    {
      StepKeepsInv(Abstract(), OpenStreamSync);
      hide Inv;
      if |openQueue| == 0 && nextStream <= maxStream {
        id := OpenNext();
        return true, id, 0;
      }
      waiter := waiters;
      waiters := waiters + 1;
      openQueue := openQueue + [waiter];
      MaybeSendBlocked();
      return false, INVALID_STREAM_ID, waiter;
    }

    // The channel of a waiting call is read.
    method Receive(waiter: nat)
      requires Inv(Abstract()) && waiter in tokens && waiter !in woken && waiter !in leaving
      modifies this`tokens, this`woken
      ensures Inv(Abstract()) && Abstract() == Step(old(Abstract()), ReceiveToken(waiter))
    {
      StepKeepsInv(Abstract(), ReceiveToken(waiter));
      hide Inv;
      tokens := tokens - {waiter};
      woken := woken + {waiter};
    }

    /** A woken call takes the lock: it opens the next stream and leaves the queue, of which it is
        the head.  The code would wait again if no stream were available: that never happens. */
    method Wake(waiter: nat) returns (id: int)
      requires Inv(Abstract()) && waiter in woken
      modifies this
      ensures Inv(Abstract()) && Abstract() == Step(old(Abstract()), Proceed(waiter))
      ensures old(openQueue) == [waiter] + openQueue && id == old(nextStream) <= maxStream
    {
      StepKeepsInv(Abstract(), Proceed(waiter));
      ProceedServesCaller(Abstract(), waiter);
      hide Inv, Without, Open;
      id := Serve(waiter);
      MaybeUnblock();
    }

    method Serve(waiter: nat) returns (id: int)
      requires openQueue != []
      modifies this`woken, this`tokens, this`openQueue, this`served, this`nextStream, this`streamsOpened
      ensures Abstract() == old(Open(Abstract()).(openQueue := openQueue[1..], served := served + [waiter],
                                                  woken := woken - {waiter}, tokens := tokens - {waiter}))
      ensures id == old(nextStream)
    {
      woken := woken - {waiter};
      tokens := tokens - {waiter};
      id := OpenNext();
      openQueue := openQueue[1..];
      served := served + [waiter];
    }

    // The context of a waiting call ends first.
    method Cancel(waiter: nat)
      requires Inv(Abstract()) && waiter in openQueue && waiter !in woken && waiter !in leaving
      modifies this`leaving
      ensures Inv(Abstract()) && Abstract() == Step(old(Abstract()), ContextDone(waiter))
    {
      StepKeepsInv(Abstract(), ContextDone(waiter));
      hide Inv;
      leaving := leaving + {waiter};
    }

    /** A cancelled call takes the lock: it leaves the queue, and passes on its token. */
    method Quit(waiter: nat)
      requires Inv(Abstract()) && waiter in leaving
      modifies this
      ensures Inv(Abstract()) && Abstract() == Step(old(Abstract()), Leave(waiter))
      ensures waiter !in openQueue
    {
      StepKeepsInv(Abstract(), Leave(waiter));
      hide Inv;
      var queue := Delete(openQueue, waiter);
      openQueue := queue;
      leaving := leaving - {waiter};
      tokens := tokens - {waiter};
      MaybeUnblock();
    }

    method SetMax(id: int)
      requires Inv(Abstract()) && Possible(Abstract(), SetMaxStream(id))
      modifies this
      ensures Inv(Abstract()) && Abstract() == Step(old(Abstract()), SetMaxStream(id))
      ensures maxStream == if id > old(maxStream) then id else old(maxStream)
      ensures openQueue == old(openQueue) && nextStream == old(nextStream)
      ensures openQueue != [] && nextStream <= maxStream ==> openQueue[0] in tokens || openQueue[0] in woken
      ensures blockedFrames ==
              if old(maxStream) < id < nextStream - 4 + 4 * |openQueue| then old(blockedFrames) + [StreamNum(id)]
              else old(blockedFrames)
    {
      StepKeepsInv(Abstract(), SetMaxStream(id));
      hide Inv;
      if id <= maxStream {
        return;
      }
      maxStream := id;
      blockedSent := false;
      if maxStream < nextStream - 4 + 4 * |openQueue| {
        MaybeSendBlocked();
      }
      MaybeUnblock();
    }
  }
}
