/** The daemon's framing of its socket: a fixed byte order, and disconnects that count as a close. */
module Frame {
  import opened Wrappers
  import opened Wire
  import opened Streams

  const MAX_FRAME_LEN := 16 * 1024 * 1024

  datatype Error = Io(kind: Kind) | FrameTooLarge(declared: nat)

  datatype ReadOutcome = Filled | AtEof

  predicate IsPeerDisconnect(kind: Kind) {
    kind.ConnectionReset? || kind.ConnectionAborted? || kind.BrokenPipe? || kind.UnexpectedEof?
  }

  // --- Reading and writing one frame -----------------------------------------------------

  // How a read ends that gets no further than `data`.
  function ShortRead(data: seq<Byte>, ending: Ending): Result<ReadOutcome, Error> {
    if data == [] && (ending.Eof? || IsPeerDisconnect(ending.kind)) then Ok(AtEof)
    else Err(Io(if ending.Eof? then UnexpectedEof else ending.kind))
  }

  method ReadExactOrEof(r: Source, buf: array<Byte>) returns (outcome: Result<ReadOutcome, Error>)
    modifies r, buf
    ensures |old(r.rest)| >= buf.Length ==>
              outcome == Ok(Filled) && buf[..] == old(r.rest)[..buf.Length] && r.rest == old(r.rest)[buf.Length..]
    ensures |old(r.rest)| < buf.Length ==> outcome == ShortRead(old(r.rest), r.ending) && r.rest == []
  {
    ghost var data := r.rest;
    var read := 0;
    while read < buf.Length
      invariant read <= buf.Length && read <= |data|
      invariant r.rest == data[read..]
      invariant buf[..read] == data[..read]
      decreases |r.rest| + |r.plan|
    {
      var got := r.Read(buf, read);
      match got {
        case Got(n) =>
          if n == 0 {
            if read == 0 {
              return Ok(AtEof);
            }
            return Err(Io(UnexpectedEof));
          }
          ReadOn(data, read, n);
          read := read + n;
        case Interrupted =>
        case Failed(kind) =>
          if read == 0 && IsPeerDisconnect(kind) {
            return Ok(AtEof);
          }
          return Err(Io(kind));
      }
    }
    assert buf[..] == buf[..read];
    return Ok(Filled);
  }

  // The library's read_exact: any end before the buffer is full is an error.
  method ReadExact(r: Source, buf: array<Byte>) returns (failed: Option<Error>)
    modifies r, buf
    ensures |old(r.rest)| >= buf.Length ==>
              failed.None? && buf[..] == old(r.rest)[..buf.Length] && r.rest == old(r.rest)[buf.Length..]
    ensures |old(r.rest)| < buf.Length ==>
              failed == Some(Io(if r.ending.Eof? then UnexpectedEof else r.ending.kind)) && r.rest == []
  {
    ghost var data := r.rest;
    var read := 0;
    while read < buf.Length
      invariant read <= buf.Length && read <= |data|
      invariant r.rest == data[read..]
      invariant buf[..read] == data[..read]
      decreases |r.rest| + |r.plan|
    {
      var got := r.Read(buf, read);
      match got {
        case Got(n) =>
          if n == 0 {
            return Some(Io(UnexpectedEof));
          }
          ReadOn(data, read, n);
          read := read + n;
        case Interrupted =>
        case Failed(kind) =>
          return Some(Io(kind));
      }
    }
    assert buf[..] == buf[..read];
    return None;
  }

  // One frame: None when the peer closed or went away before its first byte.
  function NextFrame(data: seq<Byte>, ending: Ending): (r: (Result<Option<seq<Byte>>, Error>, seq<Byte>))
    ensures r.0.Ok? && r.0.value.Some? ==> |r.1| < |data|
  {
    match CutFrame(Little, MAX_FRAME_LEN, data)
    case Whole(body, rest) => (Ok(Some(body)), rest)
    case Oversized(declared) => (Err(FrameTooLarge(declared)), data[4..])
    case Short =>
      (if ShortRead(data, ending) == Ok(AtEof) then Ok(None)
       else Err(Io(if ending.Eof? then UnexpectedEof else ending.kind)), [])
  }

  method ReadFrame(r: Source) returns (frame: Result<Option<seq<Byte>>, Error>)
    modifies r
    ensures (frame, r.rest) == NextFrame(old(r.rest), r.ending)
  {
    var lenBuf := new Byte[4];
    var outcome := ReadExactOrEof(r, lenBuf);
    if outcome.Err? {
      return Err(outcome.error);
    } else if outcome.value.AtEof? {
      return Ok(None);
    }
    assert lenBuf[..] == old(r.rest)[..4];
    var len := Length(Little, lenBuf[..]);
    if len > MAX_FRAME_LEN {
      return Err(FrameTooLarge(len));
    }
    var body := new Byte[len];
    var failed := ReadExact(r, body);
    if failed.Some? {
      return Err(failed.value);
    }
    assert old(r.rest)[4..][..len] == old(r.rest)[4..4 + len];
    return Ok(Some(body[..]));
  }

  // The cap holds on the writing side too, so what is written can be read.
  method WriteFrame(w: Sink, body: seq<Byte>) returns (failed: Option<Error>)
    modifies w
    ensures |body| > MAX_FRAME_LEN ==>
              failed.Some? && failed.value.FrameTooLarge? && w.written == old(w.written) && w.budget == old(w.budget)
    ensures |body| <= MAX_FRAME_LEN ==>
              && failed == (if Passes(Framed(Little, body), old(w.budget)) then None else Some(Io(w.failure)))
              && w.written == old(w.written) + Taken(Framed(Little, body), old(w.budget).room)
              && w.budget == After(Framed(Little, body), old(w.budget))
  {
    if |body| >= TWO_TO_THE_32 {
      return Some(FrameTooLarge(0xFFFF_FFFF_FFFF_FFFF));
    }
    if |body| > MAX_FRAME_LEN {
      return Some(FrameTooLarge(|body|));
    }
    WrittenInTwo(Prefix(Little, |body|), body, w.budget.room);
    var ok := w.WriteAll(Prefix(Little, |body|));
    if !ok {
      return Some(Io(w.failure));
    }
    ok := w.WriteAll(body);
    if !ok {
      return Some(Io(w.failure));
    }
    ok := w.Flush();
    return if ok then None else Some(Io(w.failure));
  }

  // --- A whole connection -------------------------------------------------------------------

  // The bodies read until the connection closes or fails; None when it closes.
  function Frames(data: seq<Byte>, ending: Ending): (seq<seq<Byte>>, Option<Error>)
    decreases |data|
  {
    var (frame, rest) := NextFrame(data, ending);
    if frame.Err? then ([], Some(frame.error))
    else if frame.value.None? then ([], None)
    else
      var (more, failed) := Frames(rest, ending);
      ([frame.value.value] + more, failed)
  }

  lemma FramesOfFramed(body: seq<Byte>, rest: seq<Byte>, ending: Ending)
    requires |body| <= MAX_FRAME_LEN
    ensures Frames(Framed(Little, body) + rest, ending) == ([body] + Frames(rest, ending).0, Frames(rest, ending).1)
  {
    CutFramed(Little, MAX_FRAME_LEN, body, rest);
  }

  lemma HeadFirst(bodies: seq<seq<Byte>>, more: seq<seq<Byte>>)
    requires bodies != []
    ensures [bodies[0]] + (bodies[1..] + more) == bodies + more
  {
  }

  lemma {:induction false} FramesOfJoined(bodies: seq<seq<Byte>>, tail: seq<Byte>, ending: Ending)
    requires Fits(bodies, MAX_FRAME_LEN)
    ensures Frames(Joined(Little, bodies) + tail, ending) == (bodies + Frames(tail, ending).0, Frames(tail, ending).1)
    decreases |bodies|
  {
    if bodies == [] {
      assert Joined(Little, bodies) + tail == tail;
      assert bodies + Frames(tail, ending).0 == Frames(tail, ending).0;
    } else {
      Regroup(Framed(Little, bodies[0]), Joined(Little, bodies[1..]), tail);
      FramesOfFramed(bodies[0], Joined(Little, bodies[1..]) + tail, ending);
      FramesOfJoined(bodies[1..], tail, ending);
      HeadFirst(bodies, Frames(tail, ending).0);
    }
  }

  // The connection was reset or aborted, the pipe broken, or the stream cut off.
  predicate GoneAway(ending: Ending) {
    || ending.Eof?
    || ending.kind.ConnectionReset? || ending.kind.ConnectionAborted?
    || ending.kind.BrokenPipe? || ending.kind.UnexpectedEof?
  }

  // What one side writes the other reads, in order; a peer that goes away between
  // frames has closed, whether it closed its socket or was reset; one that goes away
  // inside a frame has failed.
  lemma FramesRoundTrip(bodies: seq<seq<Byte>>, body: seq<Byte>, cut: nat, ending: Ending)
    requires Fits(bodies, MAX_FRAME_LEN) && |body| <= MAX_FRAME_LEN && cut < |Framed(Little, body)|
    ensures Frames(Joined(Little, bodies) + Framed(Little, body)[..cut], ending) ==
              (bodies,
               if cut == 0 && GoneAway(ending) then None
               else Some(Io(if ending.Eof? then UnexpectedEof else ending.kind)))
  {
    var tail := Framed(Little, body)[..cut];
    FramesOfJoined(bodies, tail, ending);
    CutBroken(Little, MAX_FRAME_LEN, body, cut);
    assert tail == [] <==> cut == 0;
    assert bodies + [] == bodies;
  }
}
