/**
 * Frame reassembly in `TcpChannel::thread_proc` (src/tcpserver.cpp) over
 * `MemoryStream` (include/stream.hpp). A frame starts with an eight-byte header
 * part whose bytes 4..7 hold `nMsgLen`, a signed 32-bit length low byte first.
 */
module TcpFraming {
  import opened Common

  const INT_MAX := 0x7FFF_FFFF
  const RECV_SIZE := 4096   // sizeof(EVENTINFO)

  // ---- The stream object --------------------------------------------------

  datatype Origin = FromBeginning | FromCurrent | FromEnd

  class MemoryStream {
    var buf: seq<Byte>
    var pos: int

    constructor ()
      ensures buf == [] && pos == 0
    {
      buf, pos := [], 0;
    }

    /** Writes over or past the end of the buffer; nothing happens for a negative
        position or an empty write. The new size must fit a 32-bit integer. */
    method Write(bs: seq<Byte>) returns (n: int)
      requires pos + |bs| <= INT_MAX
      modifies this
      ensures old(pos) < 0 || bs == [] ==> n == 0 && buf == old(buf) && pos == old(pos)
      ensures old(pos) >= 0 && bs != [] ==> n == |bs| && pos == old(pos) + |bs|
      ensures old(pos) >= 0 && bs != [] ==>
                && |buf| == (if pos > |old(buf)| then pos else |old(buf)|)
                && buf[old(pos)..pos] == bs
                && (forall i :: 0 <= i < |buf| && !(old(pos) <= i < pos) ==>
                      buf[i] == if i < |old(buf)| then old(buf)[i] else 0)
      ensures old(pos) == |old(buf)| && bs != [] ==> buf == old(buf) + bs
    {
      if pos < 0 || |bs| <= 0 { return 0; }
      var newSize := pos + |bs|;
      if newSize > |buf| {
        buf := buf + seq(newSize - |buf|, i => 0);
      }
      buf := buf[..pos] + bs + buf[newSize..];
      pos := newSize;
      n := |bs|;
    }

    method Seek(offset: int, origin: Origin) returns (p: int)
      modifies this`pos
      ensures p == pos == match origin
                          case FromBeginning => offset
                          case FromCurrent => old(pos) + offset
                          case FromEnd => |buf| + offset
    {
      match origin {
        case FromBeginning => pos := offset;
        case FromCurrent => pos := pos + offset;
        case FromEnd => pos := |buf| + offset;
      }
      p := pos;
    }

    /** The size, found by seeking to the end and back. */
    method GetSize() returns (size: int)
      modifies this`pos
      ensures size == |buf| && pos == old(pos)
    {
      var cur := Seek(0, FromCurrent);
      size := Seek(0, FromEnd);
      var _ := Seek(cur, FromBeginning);
    }

    method SetSize(n: int)
      modifies this
      ensures n <= |old(buf)| ==> buf == old(buf)[..if n > 0 then n else 0]
      ensures n > |old(buf)| ==> && |buf| == n && buf[..|old(buf)|] == old(buf)
                                 && forall i :: |old(buf)| <= i < n ==> buf[i] == 0
      ensures pos == if old(pos) > n then n else old(pos)
    {
      var size := if n > 0 then n else 0;
      if size <= |buf| { buf := buf[..size]; } else { buf := buf + seq(size - |buf|, i => 0); }
      if pos > n { pos := n; }
    }

    /** `memcpy(p, p + n, size - n)`, as an overlap-safe move. */
    method ShiftDown(n: nat)
      requires n <= |buf|
      modifies this`buf
      ensures |buf| == |old(buf)| && buf[..|buf| - n] == old(buf)[n..]
    {
      buf := buf[n..] + buf[|buf| - n..];
    }
  }

  // ---- The specification --------------------------------------------------

  /** `pPacket->h.nMsgLen`. */
  function MsgLen(buf: seq<Byte>): int
    requires |buf| >= 8
  {
    var b4: int, b5: int, b6: int, b7: int := buf[4], buf[5], buf[6], buf[7];
    var n := b4 + 0x100 * b5 + 0x1_0000 * b6 + 0x100_0000 * b7;
    if n < 0x8000_0000 then n else n - 0x1_0000_0000
  }

  /** The field is the signed 32-bit integer stored low byte first behind the first
      four bytes. */
  lemma MsgLenIsLittleEndian(head: seq<Byte>, n: int, tail: seq<Byte>)
    requires |head| == 4 && -0x8000_0000 <= n < 0x8000_0000
    ensures MsgLen(head + LittleEndian(n % 0x1_0000_0000, 4) + tail) == n
  {
    var m, bs := n % 0x1_0000_0000, LittleEndian(n % 0x1_0000_0000, 4);
    var buf := head + bs + tail;
    assert buf[4] == bs[0] && buf[5] == bs[1] && buf[6] == bs[2] && buf[7] == bs[3];
    FourDigits(m);
  }

  lemma FourDigits(m: nat)
    requires m < 0x1_0000_0000
    ensures var bs := LittleEndian(m, 4);
            m == bs[0] as int + 0x100 * bs[1] as int + 0x1_0000 * bs[2] as int + 0x100_0000 * bs[3] as int
  {
    assert Pow256(4) == 0x1_0000_0000;
    LittleEndianRoundTrip(m, 4);
    FourBytes(LittleEndian(m, 4));
  }

  lemma FourBytes(bs: seq<Byte>)
    requires |bs| == 4
    ensures FromLittleEndian(bs)
            == bs[0] as int + 0x100 * bs[1] as int + 0x1_0000 * bs[2] as int + 0x100_0000 * bs[3] as int
  {
    var b1, b2, b3 := bs[1..], bs[1..][1..], bs[1..][1..][1..];
    assert b1[0] == bs[1] && b2[0] == bs[2] && b3[0] == bs[3] && b3[1..] == [];
    assert FromLittleEndian(b3) == bs[3];
    assert FromLittleEndian(b2) == bs[2] as int + 256 * bs[3] as int;
    assert FromLittleEndian(b1) == bs[1] as int + 256 * FromLittleEndian(b2);
  }

  /** What is left when the inner loop stops: the undelivered bytes, a connection
      dropped for an illegal length, or a header examined with one to seven bytes
      buffered, which the code reads beyond the buffer. */
  datatype Rest = Open(buf: seq<Byte>) | Dropped | OverRead

  datatype Result = Result(frames: seq<seq<Byte>>, rest: Rest) {
    /** The same with `fs` delivered first. */
    function After(fs: seq<seq<Byte>>): Result { Result(fs + frames, rest) }
  }

  lemma AfterAfter(r: Result, fs: seq<seq<Byte>>, gs: seq<seq<Byte>>)
    ensures r.After(gs).After(fs) == r.After(fs + gs)
    ensures r.After([]) == r
  {
  }

  /** Cutting frames off the front of the buffered bytes. */
  function Drain(buf: seq<Byte>): Result
    decreases |buf|
  {
    if buf == [] then Result([], Open([]))
    else if |buf| < 8 then Result([], OverRead)
    else
      var n := MsgLen(buf);
      if n < 1 then Result([], Dropped)
      else if n > |buf| then Result([], Open(buf))
      else Drain(buf[n..]).After([buf[..n]])
  }

  /** The outer loop over the received chunks. */
  function Receive(buf: seq<Byte>, chunks: seq<seq<Byte>>): Result
    decreases |chunks|
  {
    if chunks == [] then Result([], Open(buf)) else
    var r := Drain(buf + chunks[0]);
    if r.rest.Open? then Receive(r.rest.buf, chunks[1..]).After(r.frames) else r
  }

  function Concat(chunks: seq<seq<Byte>>): seq<Byte> {
    if chunks == [] then [] else chunks[0] + Concat(chunks[1..])
  }

  // ---- Independence from chunking -----------------------------------------

  /** More bytes only continue the cut where it stopped. */
  lemma {:induction false} DrainContinues(a: seq<Byte>, b: seq<Byte>)
    requires !Drain(a).rest.OverRead?
    ensures Drain(a + b) ==
              if Drain(a).rest.Open? then Drain(Drain(a).rest.buf + b).After(Drain(a).frames) else Drain(a)
    decreases |a|
  {
    if a == [] {
      assert a + b == b && [] + b == b;
      AfterAfter(Drain(b), [], []);
    } else {
      assert MsgLen(a + b) == MsgLen(a);
      var n := MsgLen(a);
      if 1 <= n <= |a| {
        SplitPrefix(a, b, n);
        DrainContinues(a[n..], b);
        var r := Drain(a[n..]);
        if r.rest.Open? { AfterAfter(Drain(r.rest.buf + b), [a[..n]], r.frames); }
      } else if n > |a| {
        AfterAfter(Drain(a + b), [], []);
      }
    }
  }

  /** A drained buffer is drained. */
  lemma {:induction false} DrainStops(a: seq<Byte>)
    requires Drain(a).rest.Open?
    ensures Drain(Drain(a).rest.buf) == Result([], Drain(a).rest)
    decreases |a|
  {
    if |a| >= 8 && 1 <= MsgLen(a) <= |a| { DrainStops(a[MsgLen(a)..]); }
  }

  /** However the bytes are split into chunks, as long as the header hypothesis
      holds: same frames, same undelivered bytes, same verdict. */
  lemma {:induction false} ChunkingDoesNotMatter(buf: seq<Byte>, chunks: seq<seq<Byte>>)
    requires Drain(buf) == Result([], Open(buf))
    requires !Receive(buf, chunks).rest.OverRead?
    ensures Receive(buf, chunks) == Drain(buf + Concat(chunks))
    decreases |chunks|
  {
    if chunks == [] {
      assert buf + Concat(chunks) == buf;
    } else {
      var tail := Concat(chunks[1..]);
      var all := buf + chunks[0];
      assert buf + Concat(chunks) == all + tail;
      var r := Drain(all);
      DrainContinues(all, tail);
      if r.rest.Open? {
        DrainStops(all);
        ChunkingDoesNotMatter(r.rest.buf, chunks[1..]);
      }
    }
  }

  /** Nothing is lost, no delivered frame is empty, and the bytes left over are why
      the drain stopped: none, too few for a header, an illegal length, or an
      incomplete frame. */
  ghost predicate Explains(buf: seq<Byte>, r: Result, rest: seq<Byte>) {
    && Concat(r.frames) + rest == buf && (forall i :: 0 <= i < |r.frames| ==> r.frames[i] != [])
    && match r.rest
       case Open(b) => b == rest && (rest == [] || (|rest| >= 8 && MsgLen(rest) > |rest|))
       case Dropped => |rest| >= 8 && MsgLen(rest) < 1
       case OverRead => 1 <= |rest| <= 7
  }

  lemma ExplainsNext(f: seq<Byte>, buf: seq<Byte>, r: Result, rest: seq<Byte>)
    requires f != [] && Explains(buf, r, rest)
    ensures Explains(f + buf, r.After([f]), rest)
  {
    assert ([f] + r.frames)[1..] == r.frames;
    ConcatAssoc(f, Concat(r.frames), rest);
  }

  lemma {:induction false} DrainMeaning(buf: seq<Byte>) returns (rest: seq<Byte>)
    ensures Explains(buf, Drain(buf), rest)
    decreases |buf|
  {
    if |buf| >= 8 && 1 <= MsgLen(buf) <= |buf| {
      var n := MsgLen(buf);
      rest := DrainMeaning(buf[n..]);
      ExplainsNext(buf[..n], buf[n..], Drain(buf[n..]), rest);
      assert buf[..n] + buf[n..] == buf;
    } else {
      rest := buf;
      assert Concat([]) + buf == buf;
    }
  }

  /** An illegal length behind complete frames: they are delivered and the peer is
      dropped. */
  lemma {:induction false} IllegalLengthDrops(frames: seq<seq<Byte>>, bad: seq<Byte>)
    requires (forall f :: f in frames ==> IsFrame(f)) && |bad| >= 8 && MsgLen(bad) < 1
    ensures Drain(Concat(frames) + bad) == Result(frames, Dropped)
  {
    if frames == [] {
      assert Concat(frames) + bad == bad;
    } else {
      var f, tail := frames[0], Concat(frames[1..]) + bad;
      assert f in frames;
      IllegalLengthDrops(frames[1..], bad);
      ConcatAssoc(f, Concat(frames[1..]), bad);
      DrainFrame(f, tail);
      assert [f] + frames[1..] == frames;
    }
  }

  lemma DrainFrame(f: seq<Byte>, tail: seq<Byte>)
    requires IsFrame(f)
    ensures Drain(f + tail) == Drain(tail).After([f])
  {
    SplitConcat(f, tail);
    assert MsgLen(f + tail) == MsgLen(f);
  }

  // ---- Streams of well-formed frames --------------------------------------

  predicate IsFrame(f: seq<Byte>) { |f| >= 8 && MsgLen(f) == |f| }

  /** Exactly the complete frames of `frames` that lie within `p` bytes. */
  function Complete(frames: seq<seq<Byte>>, p: nat): (k: nat)
    ensures k <= |frames|
  {
    if frames == [] || |frames[0]| > p then 0 else 1 + Complete(frames[1..], p - |frames[0]|)
  }

  /** How many of the first `p` bytes follow the last complete frame. */
  function Residue(frames: seq<seq<Byte>>, p: nat): (r: nat)
    ensures r <= p
  {
    if frames == [] || |frames[0]| > p then p else Residue(frames[1..], p - |frames[0]|)
  }

  /** `Complete` is maximal: the frames it counts fit, and the next one does not. */
  lemma {:induction false} CompleteIsMaximal(frames: seq<seq<Byte>>, p: nat)
    ensures |Concat(frames[..Complete(frames, p)])| + Residue(frames, p) == p
    ensures Complete(frames, p) < |frames| ==> Residue(frames, p) < |frames[Complete(frames, p)]|
  {
    if frames != [] && |frames[0]| <= p {
      var k := Complete(frames[1..], p - |frames[0]|);
      CompleteIsMaximal(frames[1..], p - |frames[0]|);
      assert frames[..k + 1][1..] == frames[1..][..k];
    }
  }

  lemma DrainFirst(f: seq<Byte>, tail: seq<Byte>, p: nat)
    requires IsFrame(f) && |f| <= p <= |f| + |tail|
    ensures Drain((f + tail)[..p]) == Drain(tail[..p - |f|]).After([f])
  {
    var more := tail[..p - |f|];
    assert (f + tail)[..p] == f + more;
    SplitConcat(f, more);
    assert MsgLen(f + more) == MsgLen(f);
  }

  lemma DrainPartial(f: seq<Byte>, tail: seq<Byte>, p: nat)
    requires IsFrame(f) && p < |f|
    ensures Drain((f + tail)[..p]) == Result([], if 1 <= p <= 7 then OverRead else Open((f + tail)[0..p]))
  {
  }

  lemma SliceTail(f: seq<Byte>, tail: seq<Byte>, p: nat, q: nat)
    requires |f| <= p <= |f| + |tail| && q <= p - |f|
    ensures (f + tail)[p - q..p] == tail[p - |f| - q..p - |f|]
  {
  }

  /** What the first `p` bytes of a stream of frames amount to: its complete
      frames, and the rest unless that is one to seven bytes. */
  function Expected(frames: seq<seq<Byte>>, p: nat): Result
    requires p <= |Concat(frames)|
  {
    var q := Residue(frames, p);
    Result(frames[..Complete(frames, p)], if 1 <= q <= 7 then OverRead else Open(Concat(frames)[p - q..p]))
  }

  lemma ExpectedFirst(frames: seq<seq<Byte>>, p: nat)
    requires frames != [] && |frames[0]| <= p <= |Concat(frames)|
    ensures Expected(frames, p) == Expected(frames[1..], p - |frames[0]|).After([frames[0]])
  {
    var f, tail := frames[0], Concat(frames[1..]);
    var k, q := Complete(frames[1..], p - |f|), Residue(frames[1..], p - |f|);
    assert Complete(frames, p) == k + 1 && Residue(frames, p) == q;
    TakeCons(frames, k);
    SliceTail(f, tail, p, q);
  }

  /** Draining the first `p` bytes of a concatenation of frames delivers exactly
      its complete frames and keeps exactly the rest; the header is examined too
      early exactly when one to seven bytes of a frame are buffered. */
  lemma {:induction false} DrainFrames(frames: seq<seq<Byte>>, p: nat)
    requires forall f :: f in frames ==> IsFrame(f)
    requires p <= |Concat(frames)|
    ensures Drain(Concat(frames)[..p]) == Expected(frames, p)
  {
    if frames == [] {
      assert Concat(frames)[..p] == [];
    } else {
      var f, tail := frames[0], Concat(frames[1..]);
      assert f in frames;
      if |f| <= p {
        DrainFirst(f, tail, p);
        DrainFrames(frames[1..], p - |f|);
        ExpectedFirst(frames, p);
      } else {
        DrainPartial(f, tail, p);
      }
    }
  }

  /** The header hypothesis on a split: no chunk ends with one to seven bytes of
      the next frame buffered. */
  ghost predicate GoodSplit(frames: seq<seq<Byte>>, chunks: seq<seq<Byte>>) {
    forall i :: 0 < i <= |chunks| ==> !(1 <= Residue(frames, |Concat(chunks[..i])|) <= 7)
  }

  lemma {:induction false} ConcatAppend(chunks: seq<seq<Byte>>, c: seq<Byte>)
    ensures Concat(chunks + [c]) == Concat(chunks) + c
  {
    if chunks == [] {
      assert Concat([c]) == c + Concat([]);
    } else {
      assert (chunks + [c])[1..] == chunks[1..] + [c];
      ConcatAppend(chunks[1..], c);
    }
  }

  lemma {:induction false} ReceiveAppend(buf: seq<Byte>, chunks: seq<seq<Byte>>, c: seq<Byte>)
    ensures var r := Receive(buf, chunks);
            Receive(buf, chunks + [c]) ==
              if r.rest.Open? then Drain(r.rest.buf + c).After(r.frames) else r
    decreases |chunks|
  {
    if chunks == [] {
      var d := Drain(buf + c);
      assert [c][1..] == [] && chunks + [c] == [c];
      assert d.frames + [] == d.frames;
      AfterAfter(d, [], []);
    } else {
      assert (chunks + [c])[1..] == chunks[1..] + [c];
      var r := Drain(buf + chunks[0]);
      if r.rest.Open? {
        ReceiveAppend(r.rest.buf, chunks[1..], c);
        var rs := Receive(r.rest.buf, chunks[1..]);
        if rs.rest.Open? { AfterAfter(Drain(rs.rest.buf + c), r.frames, rs.frames); }
      }
    }
  }

  /** The split is good up to its last chunk, and at its last chunk. */
  lemma GoodSplitAppend(frames: seq<seq<Byte>>, init: seq<seq<Byte>>, c: seq<Byte>)
    ensures GoodSplit(frames, init + [c]) <==>
              GoodSplit(frames, init) && !(1 <= Residue(frames, |Concat(init + [c])|) <= 7)
  {
    var chunks := init + [c];
    assert chunks[..|chunks|] == chunks;
    assert forall i :: 0 < i <= |init| ==> init[..i] == chunks[..i];
  }

  lemma {:induction false} ConcatPrefix(init: seq<seq<Byte>>, c: seq<Byte>, all: seq<Byte>)
    requires Concat(init + [c]) <= all
    ensures Concat(init) <= all && all[..|Concat(init + [c])|] == Concat(init) + c
  {
    ConcatAppend(init, c);
  }

  /** A good split receives what a single drain of all its bytes gives; a bad one
      examines a partial header. */
  lemma {:induction false} SplitDecides(frames: seq<seq<Byte>>, chunks: seq<seq<Byte>>)
    requires forall f :: f in frames ==> IsFrame(f)
    requires Concat(chunks) <= Concat(frames)
    ensures Receive([], chunks).rest.OverRead? <==> !GoodSplit(frames, chunks)
    ensures GoodSplit(frames, chunks) ==> Receive([], chunks) == Drain(Concat(chunks))
    decreases |chunks|
  {
    if chunks != [] {
      var k := |chunks| - 1;
      var init, c := chunks[..k], chunks[k];
      assert chunks == init + [c];
      ConcatPrefix(init, c, Concat(frames));
      ConcatAppend(init, c);
      SplitDecides(frames, init);
      ReceiveAppend([], init, c);
      GoodSplitAppend(frames, init, c);
      if GoodSplit(frames, init) {
        DrainContinues(Concat(init), c);
        DrainFrames(frames, |Concat(init)|);
        DrainFrames(frames, |Concat(chunks)|);
      }
    }
  }

  /** For every stream of frames and every split of a prefix of it: the receiver
      never examines a partial header exactly when the split is good, and then it
      delivers exactly the complete frames in order and keeps exactly the rest. */
  lemma FramesAreReassembled(frames: seq<seq<Byte>>, chunks: seq<seq<Byte>>)
    requires forall f :: f in frames ==> IsFrame(f)
    requires Concat(chunks) <= Concat(frames)
    ensures var r := Receive([], chunks);
            var p := |Concat(chunks)|;
            && (r.rest.OverRead? <==> !GoodSplit(frames, chunks))
            && (GoodSplit(frames, chunks) ==>
                  r == Result(frames[..Complete(frames, p)], Open(Concat(chunks)[p - Residue(frames, p)..])))
  {
    var p := |Concat(chunks)|;
    SplitDecides(frames, chunks);
    assert Concat(frames)[..p] == Concat(chunks);
    DrainFrames(frames, p);
    assert Concat(frames)[p - Residue(frames, p)..p] == Concat(chunks)[p - Residue(frames, p)..];
    if GoodSplit(frames, chunks) {
      if chunks != [] { assert chunks[..|chunks|] == chunks; }
    }
  }

  /** An eight-byte frame that arrives in two halves has its header examined when
      half of it is there. */
  lemma SplitHeaderIsExamined()
    ensures var f: seq<Byte> := [0, 0, 0, 0, 8, 0, 0, 0];
            IsFrame(f) && Receive([], [f[..4], f[4..]]).rest.OverRead?
  {
    var f: seq<Byte> := [0, 0, 0, 0, 8, 0, 0, 0];
    var chunks := [f[..4], f[4..]];
    assert chunks[1..] == [f[4..]] && Concat([f[4..]]) == f[4..] + [];
    assert Concat(chunks) == f[..4] + f[4..];
    assert Concat([f]) == f + [];
    assert chunks[..1] == [f[..4]] && Concat([f[..4]]) == f[..4] + [];
    assert Residue([f], |Concat(chunks[..1])|) == 4;
    FramesAreReassembled([f], chunks);
  }

  // ---- The receive loop ---------------------------------------------------

  /** `OnAfterReceive` calls are recorded in `delivered`. */
  class TcpChannel {
    var stream: MemoryStream
    var delivered: seq<seq<Byte>>
    var connected: bool

    constructor ()
      ensures fresh(stream) && stream.buf == [] && stream.pos == 0 && delivered == [] && connected
    {
      stream := new MemoryStream();
      delivered, connected := [], true;
    }

    ghost predicate Valid()
      reads this, stream
    {
      stream.pos == |stream.buf|
    }

    /** Hands the first `pkLen` bytes over and moves the rest to the front. */
    method DeliverFirst(pkLen: int)
      requires Valid() && 1 <= pkLen <= |stream.buf|
      modifies this`delivered, stream
      ensures Valid() && delivered == old(delivered) + [old(stream.buf)[..pkLen]]
      ensures stream.buf == old(stream.buf)[pkLen..]
    {
      var size := stream.GetSize();
      var nSize := size - pkLen;
      delivered := delivered + [stream.buf[..pkLen]];
      if nSize > 0 {
        stream.ShiftDown(pkLen);
      }
      stream.SetSize(nSize);
    }

    /** One pass of the outer loop: the chunk is buffered, then the inner loop
        cuts frames off until it stops. Needs the header hypothesis for this chunk. */
    method OnRecv(chunk: seq<Byte>)
      requires Valid() && connected && 0 < |chunk| <= RECV_SIZE
      requires |stream.buf| + |chunk| <= INT_MAX
      requires !Drain(stream.buf + chunk).rest.OverRead?
      modifies this, stream
      ensures stream == old(stream)
      ensures var r := Drain(old(stream.buf) + chunk);
              && delivered == old(delivered) + r.frames
              && (connected <==> r.rest.Open?)
              && (connected ==> Valid() && stream.buf == r.rest.buf)
    {
      var _ := stream.Write(chunk);
      ghost var all := Drain(stream.buf);
      ghost var done: seq<seq<Byte>> := [];
      while true
        invariant stream == old(stream) && Valid() && connected
        invariant !Drain(stream.buf).rest.OverRead?
        invariant delivered == old(delivered) + done
        invariant all.frames == done + Drain(stream.buf).frames && all.rest == Drain(stream.buf).rest
        decreases |stream.buf|
      {
        if stream.buf == [] { break; }
        var pkLen := MsgLen(stream.buf);
        if pkLen < 1 {
          connected := false;
          break;
        }
        var size := stream.GetSize();
        if pkLen > size { break; }
        ghost var frame := stream.buf[..pkLen];
        ConcatAssoc(done, [frame], Drain(stream.buf[pkLen..]).frames);
        ConcatAssoc(old(delivered), done, [frame]);
        DeliverFirst(pkLen);
        done := done + [frame];
      }
    }
  }

  /** Once the loop has ended, later chunks change nothing. */
  lemma {:induction false} ReceiveEnds(buf: seq<Byte>, chunks: seq<seq<Byte>>, i: nat)
    requires i <= |chunks| && !Receive(buf, chunks[..i]).rest.Open?
    ensures Receive(buf, chunks) == Receive(buf, chunks[..i])
    decreases |chunks| - i
  {
    if i < |chunks| {
      TakeSnoc(chunks, i);
      ReceiveAppend(buf, chunks[..i], chunks[i]);
      ReceiveEnds(buf, chunks, i + 1);
    } else {
      assert chunks[..i] == chunks;
    }
  }

  /** One more chunk, in a run that never examines a partial header. */
  lemma ReceiveOneMore(chunks: seq<seq<Byte>>, i: nat)
    requires i < |chunks| && !Receive([], chunks).rest.OverRead? && Receive([], chunks[..i]).rest.Open?
    ensures var r := Receive([], chunks[..i]);
            var d := Drain(r.rest.buf + chunks[i]);
            Receive([], chunks[..i + 1]) == d.After(r.frames) && !d.rest.OverRead?
  {
    TakeSnoc(chunks, i);
    ReceiveAppend([], chunks[..i], chunks[i]);
    if Receive([], chunks[..i + 1]).rest.OverRead? { ReceiveEnds([], chunks, i + 1); }
  }

  /** The buffered bytes and the next chunk always fit a 32-bit position. */
  ghost predicate PositionsFit(chunks: seq<seq<Byte>>) {
    forall i :: 0 <= i < |chunks| && Receive([], chunks[..i]).rest.Open? ==>
      |Receive([], chunks[..i]).rest.buf| + |chunks[i]| <= INT_MAX
  }

  /** A whole connection: every chunk in turn until the peer is dropped. The
      outcome depends only on the bytes received. */
  method RunChannel(chunks: seq<seq<Byte>>) returns (ch: TcpChannel)
    requires forall c :: c in chunks ==> 0 < |c| <= RECV_SIZE
    requires PositionsFit(chunks)
    requires !Receive([], chunks).rest.OverRead?
    ensures var r := Drain(Concat(chunks));
            && ch.delivered == r.frames
            && (ch.connected <==> r.rest.Open?)
            && (ch.connected ==> ch.stream.buf == r.rest.buf && ch.stream.pos == |ch.stream.buf|)
  {
    ch := new TcpChannel();
    ChunkingDoesNotMatter([], chunks);
    assert [] + Concat(chunks) == Concat(chunks);
    var i := 0;
    while i < |chunks| && ch.connected
      invariant 0 <= i <= |chunks| && fresh(ch) && fresh(ch.stream)
      invariant ch.connected ==> ch.Valid()
      invariant Receive([], chunks[..i]) == Result(ch.delivered, if ch.connected then Open(ch.stream.buf) else Dropped)
    {
      ReceiveOneMore(chunks, i);
      assert chunks[i] in chunks;
      ch.OnRecv(chunks[i]);
      i := i + 1;
    }
    if ch.connected {
      assert chunks[..i] == chunks;
    } else {
      ReceiveEnds([], chunks, i);
    }
  }

  lemma ConcatOfPrefix(chunks: seq<seq<Byte>>, i: nat)
    requires i <= |chunks|
    ensures Concat(chunks[..i]) <= Concat(chunks)
    decreases i
  {
    if i > 0 {
      ConcatOfPrefix(chunks[1..], i - 1);
      assert chunks[..i][1..] == chunks[1..][..i - 1];
    }
  }

  /** Less than one frame is ever left over. */
  lemma PendingIsShort(frames: seq<seq<Byte>>, p: nat)
    requires p <= |Concat(frames)|
    ensures Residue(frames, p) == 0 || exists f :: f in frames && Residue(frames, p) < |f|
  {
  }

  /** Frames that leave room for one receive below the 32-bit limit never make
      the position overflow. */
  lemma FramesKeepPositionsFit(frames: seq<seq<Byte>>, chunks: seq<seq<Byte>>)
    requires forall f :: f in frames ==> IsFrame(f) && |f| <= 0x7FFF_FFFF - 4096
    requires Concat(chunks) <= Concat(frames) && GoodSplit(frames, chunks)
    requires forall c :: c in chunks ==> |c| <= 4096
    ensures PositionsFit(chunks)
  {
    forall i | 0 <= i < |chunks| && Receive([], chunks[..i]).rest.Open?
      ensures |Receive([], chunks[..i]).rest.buf| + |chunks[i]| <= INT_MAX
    {
      var init := chunks[..i];
      ConcatOfPrefix(chunks, i);
      FramesAreReassembled(frames, init);
      PendingIsShort(frames, |Concat(init)|);
      assert chunks[i] in chunks;
    }
  }

  /** A peer that sends frames, received in any good split: the object has handed
      over exactly the complete frames in order, keeps the peer, and holds exactly
      the rest with its position at the end. */
  method ReceiveFrames(frames: seq<seq<Byte>>, chunks: seq<seq<Byte>>) returns (ch: TcpChannel)
    requires forall f :: f in frames ==> IsFrame(f) && |f| <= 0x7FFF_FFFF - 4096
    requires forall c :: c in chunks ==> 0 < |c| <= 4096
    requires Concat(chunks) <= Concat(frames) && GoodSplit(frames, chunks)
    ensures ch.connected
    ensures var p := |Concat(chunks)|;
            && ch.delivered == frames[..Complete(frames, p)]
            && ch.stream.buf == Concat(chunks)[p - Residue(frames, p)..]
            && ch.stream.pos == |ch.stream.buf|
  {
    FramesAreReassembled(frames, chunks);
    FramesKeepPositionsFit(frames, chunks);
    ChunkingDoesNotMatter([], chunks);
    assert [] + Concat(chunks) == Concat(chunks);
    ch := RunChannel(chunks);
  }
}
