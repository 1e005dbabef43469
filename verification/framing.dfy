/** The byte stream as frames: the reference meaning of receiving.

    A frame is size[4] type[1] tag[2] and a body, little endian, with the size
    counting the whole frame (intro(5) in section 5 of the Plan 9 Programmer's
    Manual; zerofs/ninep-proto/src/slice_codec.rs). */
module Framing {
  import opened TagSpace

  const HEADER_SIZE: nat := 7
  const READ_PAYLOAD_OFFSET: nat := 11
  const RREAD: nat := 117

  type byte = x: int | 0 <= x < 256

  function U16At(s: seq<byte>, i: nat): nat
    requires i + 2 <= |s|
  {
    s[i] as int + 256 * (s[i + 1] as int)
  }

  function U32At(s: seq<byte>, i: nat): nat
    requires i + 4 <= |s|
  {
    s[i] as int + 0x100 * (s[i + 1] as int) + 0x1_0000 * (s[i + 2] as int) + 0x100_0000 * (s[i + 3] as int)
  }

  /** Little endian: the number's k-th byte, counted from the least significant, is the k-th read. */
  lemma LittleEndian(s: seq<byte>, i: nat)
    requires i + 4 <= |s|
    ensures U32At(s, i) < 0x1_0000_0000 && U16At(s, i) < 0x1_0000
    ensures U32At(s, i) % 0x100 == s[i] && U32At(s, i) / 0x100 % 0x100 == s[i + 1]
    ensures U32At(s, i) / 0x1_0000 % 0x100 == s[i + 2] && U32At(s, i) / 0x100_0000 == s[i + 3]
    ensures U16At(s, i) % 0x100 == s[i] && U16At(s, i) / 0x100 == s[i + 1]
  {
    var a, b, c, d := s[i] as int, s[i + 1] as int, s[i + 2] as int, s[i + 3] as int;
    assert U32At(s, i) == a + 0x100 * (b + 0x100 * (c + 0x100 * d));
    Digit(a, b + 0x100 * (c + 0x100 * d));
    Digit(b, c + 0x100 * d);
    Digit(c, d);
    Digit(a, b);
    var n := U32At(s, i);
    assert n / 0x1_0000 == n / 0x100 / 0x100 && n / 0x100_0000 == n / 0x100 / 0x100 / 0x100;
  }

  lemma Digit(low: int, high: int)
    requires 0 <= low < 0x100 && 0 <= high
    ensures (low + 0x100 * high) % 0x100 == low && (low + 0x100 * high) / 0x100 == high
  {
  }

  /** The bytes begin with a header whose declared size no frame can have. */
  predicate Broken(s: seq<byte>, msize: nat) {
    HEADER_SIZE <= |s| && !(HEADER_SIZE <= U32At(s, 0) <= msize)
  }

  /** `decode_header` on a prefix: the declared size is acceptable. */
  predicate HeaderOk(s: seq<byte>, msize: nat)
    requires HEADER_SIZE <= |s|
  {
    HEADER_SIZE <= U32At(s, 0) <= msize
  }

  function TypeOf(s: seq<byte>): nat
    requires HEADER_SIZE <= |s|
  {
    s[4]
  }

  function TagOf(s: seq<byte>): nat
    requires HEADER_SIZE <= |s|
  {
    U16At(s, 5)
  }

  /** One whole frame. */
  predicate IsFrame(f: seq<byte>, msize: nat) {
    HEADER_SIZE <= |f| <= msize && U32At(f, 0) == |f|
  }

  predicate FlushFrame(f: seq<byte>) {
    HEADER_SIZE <= |f| && TagOf(f) < FLUSH_SLOTS
  }

  function Flatten(frames: seq<seq<byte>>): seq<byte> {
    if frames == [] then [] else Flatten(frames[..|frames| - 1]) + frames[|frames| - 1]
  }

  ghost predicate AllFrames(frames: seq<seq<byte>>, msize: nat) {
    forall i :: 0 <= i < |frames| ==> IsFrame(frames[i], msize)
  }

  /** Parse frame by frame until the rest is incomplete or malformed. */
  function Parse(stream: seq<byte>, msize: nat): seq<seq<byte>>
    decreases |stream|
  {
    if |stream| < HEADER_SIZE || !HeaderOk(stream, msize) || |stream| < U32At(stream, 0) then []
    else [stream[..U32At(stream, 0)]] + Parse(stream[U32At(stream, 0)..], msize)
  }

  lemma HeaderIsMissing(stream: seq<byte>, msize: nat)
    requires |stream| < HEADER_SIZE
    ensures Parse(stream, msize) == [] && !Broken(stream, msize)
  {
  }

  lemma {:induction false} FlattenFirst(frames: seq<seq<byte>>)
    requires frames != []
    ensures Flatten(frames) == frames[0] + Flatten(frames[1..])
  {
    var n := |frames| - 1;
    if n == 0 {
      assert frames[..0] == [] && frames[1..] == [];
    } else {
      var tail := frames[1..];
      FlattenFirst(frames[..n]);
      assert frames[..n][1..] == tail[..n - 1] && frames[..n][0] == frames[0] && tail[n - 1] == frames[n];
      Associate(frames[0], Flatten(tail[..n - 1]), frames[n]);
    }
  }

  lemma Associate(a: seq<byte>, b: seq<byte>, c: seq<byte>)
    ensures (a + b) + c == a + (b + c)
  {
  }

  /** A stream that starts with a frame parses as that frame and then the rest. */
  lemma ParseFirst(f: seq<byte>, rest: seq<byte>, msize: nat)
    requires IsFrame(f, msize)
    ensures Parse(f + rest, msize) == [f] + Parse(rest, msize)
  {
    var stream := f + rest;
    assert forall i :: 0 <= i < |f| ==> stream[i] == f[i];
    assert stream[..|f|] == f && stream[|f|..] == rest;
  }

  /** Framing is unambiguous: frames that concatenate to a prefix of the stream are
      its first frames, whatever chunks it arrived in. */
  lemma {:induction false} FramesAreParsed(frames: seq<seq<byte>>, rest: seq<byte>, msize: nat)
    requires AllFrames(frames, msize)
    ensures frames <= Parse(Flatten(frames) + rest, msize)
    decreases |frames|
  {
    if frames != [] {
      hide Parse, IsFrame, Flatten;
      var f, tail := frames[0], frames[1..];
      FlattenFirst(frames);
      Associate(f, Flatten(tail), rest);
      ParseFirst(f, Flatten(tail) + rest, msize);
      FramesAreParsed(tail, rest, msize);
      assert frames == [f] + tail;
    }
  }

  /** Appending one frame appends its bytes. */
  lemma FlattenAppend(frames: seq<seq<byte>>, f: seq<byte>)
    ensures Flatten(frames + [f]) == Flatten(frames) + f
  {
    assert (frames + [f])[..|frames|] == frames;
  }

  /** Cutting one frame out of a buffered window and the socket behind it leaves the
      rest of both, in order, after the frames already taken. */
  lemma CutFrame(taken: seq<byte>, window: seq<byte>, consumed: nat, socket: seq<byte>, remainder: nat)
    requires HEADER_SIZE <= consumed <= |window| && remainder <= |socket|
    requires remainder > 0 ==> consumed == |window|
    ensures var f := window[..consumed] + socket[..remainder];
            && taken + (window + socket) == (taken + f) + (window[consumed..] + socket[remainder..])
            && U32At(f, 0) == U32At(window, 0)
            && TagOf(f) == TagOf(window)
            && |f| == consumed + remainder
  {
    var f := window[..consumed] + socket[..remainder];
    assert window + socket == f + (window[consumed..] + socket[remainder..]);
    assert forall i :: 0 <= i < HEADER_SIZE ==> f[i] == window[i];
  }
}
