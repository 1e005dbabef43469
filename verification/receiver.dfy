/** The stream accumulator of one session (kernel/client/receive.rs). */
module Receiver {
  import opened Framing
  import opened TagSpace

  /** How one receive pass ends. The last two are the source's own sanity errors. */
  datatype Outcome =
    | Received(flushBarrier: bool)
    | Malformed
    | Rejected
    | Disconnected
    | NoRoom
    | BoundsFault

  /** What happened to one buffered frame. */
  datatype Progress = Published(consumed: nat) | Declined | Failed(error: Outcome)

  predicate OneMore(before: seq<seq<byte>>, after: seq<seq<byte>>) {
    |after| == |before| + 1 && before <= after
  }

  class Accumulator {
    const msize: nat
    const buffer: array<byte>
    /** Of the n-th frame: whether its read destination is claimed, its header expected, its bytes
        accepted. The waiters decide, so nothing is known of these. */
    const claims: nat -> bool
    const expects: nat -> bool
    const accepts: nat -> bool
    var buffered: nat
    /** Bytes this connection will still deliver, in order. */
    var unread: seq<byte>
    /** Complete frames handed to their waiters, in order. */
    var published: seq<seq<byte>>
    /** Everything this connection ever delivers. */
    ghost const stream: seq<byte>

    constructor (msize: nat, stream: seq<byte>, claims: nat -> bool, expects: nat -> bool, accepts: nat -> bool)
      requires 4096 <= msize
      ensures Valid() && published == [] && Pending() == stream
      ensures this.claims == claims && this.expects == expects && this.accepts == accepts
      ensures this.msize == msize && this.stream == stream && fresh(buffer)
    {
      this.msize, this.claims, this.expects, this.accepts := msize, claims, expects, accepts;
      this.buffer := new byte[if msize < 65536 then msize else 65536](_ => 0);
      this.buffered := 0;
      this.unread := stream;
      this.published := [];
      this.stream := stream;
    }

    ghost predicate Sized()
      reads this
    {
      READ_PAYLOAD_OFFSET <= buffer.Length <= msize && buffered <= buffer.Length
    }

    /** Bytes not handed over yet: the accumulator's, then the socket's. */
    ghost function Pending(): seq<byte>
      requires buffered <= buffer.Length
      reads this, buffer
    {
      buffer[..buffered] + unread
    }

    /** The published frames are whole, and with what is pending they are the stream. */
    ghost predicate Valid()
      reads this, buffer
    {
      Sized() && AllFrames(published, msize) && Flatten(published) + Pending() == stream
    }

    /** The same in the middle of a pass, with `offset` buffered bytes consumed. */
    ghost predicate ValidFrom(offset: nat)
      reads this, buffer
    {
      Sized() && offset <= buffered && AllFrames(published, msize)
      && Ahead(buffer[offset..buffered]) == stream
    }

    /** Whatever the chunks, the published frames are the stream's first frames. */
    lemma PublishedIsParsed()
      requires Valid()
      ensures published <= Parse(stream, msize)
    {
      FramesAreParsed(published, Pending(), msize);
    }

    method Publish(f: seq<byte>)
      requires IsFrame(f, msize) && AllFrames(published, msize)
      modifies this`published
      ensures published == old(published) + [f] && AllFrames(published, msize)
      ensures Flatten(published) == Flatten(old(published)) + f
    {
      FlattenAppend(published, f);
      published := published + [f];
    }

    /** Published frames, then `window`, then the socket. */
    ghost function Ahead(window: seq<byte>): seq<byte>
      reads this
    {
      Flatten(published) + (window + unread)
    }

    /** The connection still has all of the front frame to give. */
    ghost predicate Arrives(window: seq<byte>)
      requires HEADER_SIZE <= |window|
      reads this
    {
      U32At(window, 0) <= |window| + |unread|
    }

    /** The front frame is a read reply whose count is exactly its payload, for a claimed ordinary tag. */
    ghost predicate Direct(window: seq<byte>)
      requires READ_PAYLOAD_OFFSET <= |window|
      reads this`published
    {
      && U32At(window, 0) == READ_PAYLOAD_OFFSET + U32At(window, HEADER_SIZE)
      && claims(|published|) && TagOf(window) >= FLUSH_SLOTS
    }

    /** If the front frame is a read reply whose slot is claimed, publish it: as much of it as
        `window` has, then as many bytes of `unread` as its size still asks for. */
    method TryDirectRead(window: seq<byte>) returns (p: Progress)
      requires READ_PAYLOAD_OFFSET <= |window| && HeaderOk(window, msize) && AllFrames(published, msize)
      modifies this`unread, this`published
      ensures p.Declined? <==> !old(Direct(window))
      ensures p.Declined? ==> unread == old(unread) && published == old(published)
      ensures p.Published? ==> 0 < p.consumed <= |window| && Ahead(window[p.consumed..]) == old(Ahead(window))
      ensures p.Published? ==> OneMore(old(published), published) && !FlushFrame(published[|old(published)|])
      ensures p.Published? ==> AllFrames(published, msize) && accepts(|old(published)|)
      ensures p.Failed? ==> published == old(published)
      ensures p.Failed? ==> p.error == if old(Arrives(window)) then Rejected else Disconnected
      ensures p == Failed(Rejected) ==> !accepts(|published|)
    {
      var size := U32At(window, 0);
      if size < READ_PAYLOAD_OFFSET {
        return Declined;
      }
      var payload := size - READ_PAYLOAD_OFFSET;
      if U32At(window, HEADER_SIZE) != payload {
        return Declined;
      }
      var inBuffer := if |window| - READ_PAYLOAD_OFFSET < payload then |window| - READ_PAYLOAD_OFFSET else payload;
      var consumed := READ_PAYLOAD_OFFSET + inBuffer;
      // A control tag's slot expects only Rflush, so it never grants a claim.
      if !claims(|published|) || TagOf(window) < FLUSH_SLOTS {
        return Declined;
      }
      var remainder := payload - inBuffer;
      if |unread| < remainder {
        return Failed(Disconnected);
      }
      CutFrame(Flatten(published), window, consumed, unread, remainder);
      var whole := window[..consumed] + unread[..remainder];
      unread := unread[remainder..];
      if !accepts(|published|) {
        return Failed(Rejected);
      }
      Publish(whole);
      return Published(consumed);
    }

    /** A frame too large for the accumulator is wanted by an ordinary tag that expects its header. */
    ghost predicate Wanted(window: seq<byte>)
      requires HEADER_SIZE <= |window|
      reads this`published
    {
      expects(|published|) && TagOf(window) >= FLUSH_SLOTS
    }

    /** Receive the body of a frame larger than the accumulator. */
    method ReceiveOversized(window: seq<byte>) returns (p: Progress)
      requires HEADER_SIZE <= |window| && HeaderOk(window, msize) && |window| < U32At(window, 0)
      requires AllFrames(published, msize)
      modifies this`unread, this`published
      ensures p.Published? ==> p.consumed == |window| && Ahead([]) == old(Ahead(window))
      ensures p.Published? ==> OneMore(old(published), published) && !FlushFrame(published[|old(published)|])
      ensures p.Published? ==> AllFrames(published, msize)
      ensures p.Published? <==> old(Wanted(window) && Arrives(window)) && accepts(|old(published)|)
      ensures p.Failed? ==> published == old(published)
      ensures p.Failed? ==> p.error == if old(Wanted(window) && !Arrives(window)) then Disconnected else Rejected
      ensures !p.Declined?
    {
      // The tag's own size bound is checked first; a control reply is never this large.
      if !expects(|published|) || TagOf(window) < FLUSH_SLOTS {
        return Failed(Rejected);
      }
      var remainder := U32At(window, 0) - |window|;
      if |unread| < remainder {
        return Failed(Disconnected);
      }
      CutFrame(Flatten(published), window, |window|, unread, remainder);
      assert window[..|window|] == window && window[|window|..] == [];
      var whole := window + unread[..remainder];
      unread := unread[remainder..];
      if !accepts(|published|) {
        return Failed(Rejected);
      }
      Publish(whole);
      return Published(|window|);
    }

    /** Copy one complete buffered frame out and publish it. */
    method PublishBuffered(window: seq<byte>) returns (p: Progress)
      requires HEADER_SIZE <= |window| && HeaderOk(window, msize) && U32At(window, 0) <= |window|
      requires AllFrames(published, msize)
      modifies this`published
      ensures p.Published? ==> p.consumed == U32At(window, 0) && Ahead(window[p.consumed..]) == old(Ahead(window))
      ensures p.Published? ==> OneMore(old(published), published)
                               && FlushFrame(published[|old(published)|]) == (TagOf(window) < FLUSH_SLOTS)
      ensures p.Published? ==> AllFrames(published, msize)
      ensures p.Published? <==> accepts(|old(published)|)
      ensures p.Failed? ==> p.error.Rejected? && published == old(published)
      ensures !p.Declined?
    {
      var size := U32At(window, 0);
      if !accepts(|published|) {
        return Failed(Rejected);
      }
      CutFrame(Flatten(published), window, size, unread, 0);
      assert unread[0..] == unread && window[..size] + unread[..0] == window[..size];
      Publish(window[..size]);
      return Published(size);
    }

    /** A waiter may turn the front frame down: by its bytes, or, if it does not fit the accumulator,
        by its header. */
    ghost predicate Refusable(window: seq<byte>)
      requires HEADER_SIZE <= |window|
      reads this`published
    {
      !accepts(|published|) || (U32At(window, 0) > buffer.Length && !Wanted(window))
    }

    /** Deliver the frame at the front of the window by whichever path fits it; decline
        when it is still incomplete. */
    method DispatchFrame(window: seq<byte>) returns (p: Progress)
      requires HEADER_SIZE <= |window| <= buffer.Length && AllFrames(published, msize)
      modifies this`unread, this`published
      ensures p.Declined? ==> unread == old(unread) && published == old(published) && |window| < buffer.Length
      ensures p.Declined? ==> Parse(window, msize) == [] && !Broken(window, msize)
      ensures p.Published? ==> 0 < p.consumed <= |window| && Ahead(window[p.consumed..]) == old(Ahead(window))
      ensures p.Published? ==> OneMore(old(published), published) && AllFrames(published, msize)
      ensures p.Failed? ==> published == old(published)
      ensures p.Failed? ==> p.error.Rejected? || p.error.Disconnected? || p.error.Malformed?
      ensures p == Failed(Malformed) <==> Broken(window, msize)
      ensures p == Failed(Disconnected) ==> !old(Arrives(window))
      ensures p == Failed(Rejected) ==> old(Refusable(window))
      ensures !Broken(window, msize) && U32At(window, 0) <= |window| ==> (p.Published? <==> accepts(|old(published)|))
    {
      if !HeaderOk(window, msize) {
        return Failed(Malformed);
      }
      if TypeOf(window) == RREAD && READ_PAYLOAD_OFFSET <= |window| {
        p := TryDirectRead(window);
        if !p.Declined? {
          return;
        }
      }
      if U32At(window, 0) > buffer.Length {
        p := ReceiveOversized(window);
        assert window[|window|..] == [];
        return;
      }
      if |window| < U32At(window, 0) {
        return Declined;
      }
      p := PublishBuffered(window);
    }

    /** The published frames are whole and are where the stream begins. */
    ghost predicate Handed()
      reads this
    {
      AllFrames(published, msize) && Flatten(published) <= stream
    }

    /** What the stream holds after the published frames, received or not. */
    ghost function Rest(): seq<byte>
      requires Handed()
      reads this
    {
      stream[|Flatten(published)|..]
    }

    /** The next frame of the stream is one a waiter may turn down. */
    ghost predicate Refused()
      requires Handed()
      reads this
    {
      HEADER_SIZE <= |Rest()| && Refusable(Rest())
    }

    /** Between passes that is what is pending. */
    lemma PendingIsRest()
      requires Valid()
      ensures Handed() && Rest() == Pending()
    {
    }

    /** Before the front frame is taken out, the window and the socket are the rest of the stream, and
        begin with the same header. */
    lemma RestIs(window: seq<byte>, socket: seq<byte>)
      requires AllFrames(published, msize) && Flatten(published) + (window + socket) == stream
      requires HEADER_SIZE <= |window|
      ensures Handed() && Rest() == window + socket
      ensures U32At(Rest(), 0) == U32At(window, 0) && TagOf(Rest()) == TagOf(window)
      ensures Broken(Rest(), msize) <==> Broken(window, msize)
      ensures U32At(window, 0) > |window| + |socket| ==> Parse(Rest(), msize) == []
      ensures Refused() <==> Refusable(window)
    {
      assert forall i :: 0 <= i < HEADER_SIZE ==> Rest()[i] == window[i];
    }

    /** The inner loop: publish every complete frame the accumulator holds. */
    method DispatchBuffered() returns (offset: nat, any: bool, r: Outcome)
      requires Valid()
      modifies this`unread, this`published
      ensures r.Received? ==> ValidFrom(offset) && old(published) <= published
      ensures r.Received? ==> (any <==> published != old(published))
      ensures r.Received? ==> (r.flushBarrier <==> any && FlushFrame(published[|published| - 1]))
      ensures r.Received? ==> forall i :: |old(published)| <= i < |published| - 1 ==> !FlushFrame(published[i])
      ensures r.Received? && !r.flushBarrier ==>
                Parse(buffer[offset..buffered], msize) == [] && !Broken(buffer[offset..buffered], msize)
      ensures Handed() && old(published) <= published
      ensures r.Malformed? <==> !r.Received? && Broken(Rest(), msize)
      ensures r.Rejected? ==> Refused()
      ensures r.Disconnected? ==> Parse(Rest(), msize) == []
      ensures r.Received? && !any ==> offset == 0 && buffered < buffer.Length && unread == old(unread)
      ensures !r.NoRoom? && !r.BoundsFault?
    {
      hide Parse, Broken, Refusable, IsFrame, Flatten;
      offset, any := 0, false;
      assert buffer[0..buffered] == buffer[..buffered];
      while HEADER_SIZE <= buffered - offset
        invariant ValidFrom(offset)
        invariant old(published) <= published && (any <==> published != old(published))
        invariant !any ==> offset == 0 && unread == old(unread)
        invariant forall i :: |old(published)| <= i < |published| ==> !FlushFrame(published[i])
        decreases buffered - offset
      {
        var window := buffer[offset..buffered];
        ghost var before := unread;
        var p := DispatchFrame(window);
        if p.Failed? {
          RestIs(window, before);
          return offset, any, p.error;
        }
        if p.Declined? {
          return offset, any, Received(false);
        }
        Advance(window, offset, p.consumed);
        offset, any := offset + p.consumed, true;
        if FlushFrame(published[|published| - 1]) {
          return offset, any, Received(true);
        }
      }
      HeaderIsMissing(buffer[offset..buffered], msize);
      return offset, any, Received(false);
    }

    /** What is left of the window is the rest of the buffer. */
    lemma Advance(window: seq<byte>, offset: nat, consumed: nat)
      requires Sized() && offset <= buffered && window == buffer[offset..buffered] && consumed <= |window|
      ensures window[consumed..] == buffer[offset + consumed..buffered]
      ensures consumed == |window| ==> window[consumed..] == []
    {
    }

    /** Move the unconsumed tail to the front, byte by byte as `copy_within` does. */
    method Compact(offset: nat)
      requires offset <= buffered <= buffer.Length
      modifies this`buffered, buffer
      ensures buffered == old(buffered) - offset
      ensures buffer[..buffered] == old(buffer[offset..buffered])
    {
      var remaining := buffered - offset;
      ghost var tail := buffer[offset..buffered];
      if offset != 0 && remaining != 0 {
        for k := 0 to remaining
          invariant forall j :: 0 <= j < k ==> buffer[j] == tail[j]
          invariant forall j :: k <= j < remaining ==> buffer[offset + j] == tail[j]
        {
          buffer[k] := buffer[offset + k];
        }
      }
      buffered := remaining;
    }

    /** Move between one and `limit` bytes of `unread` behind the buffered ones. */
    method ReceiveSome(limit: nat) returns (connected: bool)
      requires Valid() && 0 < limit <= buffer.Length - buffered
      modifies this`buffered, this`unread, buffer
      ensures connected <==> old(unread) != []
      ensures connected ==> Valid() && old(buffered) < buffered && |unread| < |old(unread)|
      ensures !connected ==> buffered == old(buffered) && unread == old(unread)
                             && buffer[..buffered] == old(buffer[..buffered])
    {
      if |unread| == 0 {
        return false;
      }
      var count :| 0 < count <= limit && count <= |unread|;
      for k := 0 to count
        invariant buffered == old(buffered) && unread == old(unread)
        invariant buffer[..buffered] == old(buffer[..buffered])
        invariant forall j :: 0 <= j < k ==> buffer[buffered + j] == unread[j]
      {
        buffer[buffered + k] := unread[k];
      }
      assert buffer[buffered..buffered + count] == unread[..count];
      assert buffer[..buffered + count] == buffer[..buffered] + unread[..count];
      assert unread == unread[..count] + unread[count..];
      assert buffer[..buffered + count] + unread[count..] == old(Pending());
      buffered, unread := buffered + count, unread[count..];
      return true;
    }

    /** The inner loop, and then the accumulator begins with what it left. */
    method DispatchAndCompact() returns (any: bool, r: Outcome)
      requires Valid()
      modifies this`unread, this`published, this`buffered, buffer
      ensures Handed() && old(published) <= published
      ensures r.Received? ==> Valid() && published <= Parse(stream, msize)
      ensures r.Received? ==> (any <==> published != old(published))
      ensures r.Received? ==> (r.flushBarrier <==> any && FlushFrame(published[|published| - 1]))
      ensures r.Received? ==> forall i :: |old(published)| <= i < |published| - 1 ==> !FlushFrame(published[i])
      ensures r.Received? && !r.flushBarrier ==>
                Parse(buffer[..buffered], msize) == [] && !Broken(buffer[..buffered], msize)
      ensures r.Received? && !any ==> buffered < buffer.Length && unread == old(unread)
      ensures r.Malformed? <==> !r.Received? && Broken(Rest(), msize)
      ensures r.Rejected? ==> Refused()
      ensures r.Disconnected? ==> Parse(Rest(), msize) == []
      ensures !r.NoRoom? && !r.BoundsFault?
    {
      hide Parse, Broken, Refusable, IsFrame, Flatten, FlushFrame;
      var offset;
      offset, any, r := DispatchBuffered();
      if r.Received? {
        Compact(offset);
        PublishedIsParsed();
      }
    }

    /** One receive pass.

        For every chunking and every mix of the three delivery paths, while no
        error is returned the stream stays exactly the published frames followed
        by the pending bytes; consumption stops right after a flush reply and
        otherwise leaves no complete frame behind; the accumulator is never found
        full. And an error has its cause: the stream goes on with a header of an
        impossible size, with a frame a waiter turns down, or ends before its
        next frame does. */
    method ReceiveAvailable() returns (r: Outcome)
      requires Valid()
      modifies this, buffer
      ensures !r.NoRoom? && !r.BoundsFault?
      ensures r.Received? ==> Valid() && old(published) <= published
      ensures r.Received? ==> published <= Parse(stream, msize)
      ensures r.Received? && !r.flushBarrier ==>
                Parse(buffer[..buffered], msize) == [] && !Broken(buffer[..buffered], msize)
      ensures Handed() && old(published) <= published
      ensures r.Malformed? <==> !r.Received? && Broken(Rest(), msize)
      ensures r.Rejected? ==> Refused()
      ensures r.Disconnected? ==> Parse(Rest(), msize) == []
      ensures r.Received? ==> |old(published)| < |published| || |unread| < |old(unread)|
      ensures r.Received? ==>
                (r.flushBarrier <==> published != old(published) && FlushFrame(published[|published| - 1]))
      ensures r.Received? ==> forall i :: |old(published)| <= i < |published| - 1 ==> !FlushFrame(published[i])
    {
      hide Parse, Broken, Refusable, IsFrame, Flatten, FlushFrame;
      if buffered > buffer.Length {
        return BoundsFault;
      }
      var received := false;
      while true
        invariant Valid() && published == old(published)
        invariant !received ==> unread == old(unread)
        invariant received ==> |unread| < |old(unread)|
        decreases !received
      {
        var any, pass := DispatchAndCompact();
        if !pass.Received? {
          return pass;
        }
        if any {
          return Received(pass.flushBarrier);
        }
        if received {
          return Received(false);
        }
        var room := buffer.Length - buffered;
        if room == 0 {
          return NoRoom;
        }
        var bulk: bool := *;
        if buffered == 0 && bulk {
          if room < READ_PAYLOAD_OFFSET {
            return BoundsFault;
          }
          room := READ_PAYLOAD_OFFSET;
        }
        PendingIsRest();
        var connected := ReceiveSome(room);
        if !connected {
          assert Rest() == buffer[..buffered];
          return Disconnected;
        }
        received := true;
      }
    }
  }
}
