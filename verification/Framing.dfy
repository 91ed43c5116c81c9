/** The native-messaging host: message framing over stdio and the request loop. */
module Framing {
  import opened Wrappers
  import opened Wire
  import opened Streams

  const MAX_INBOUND_LEN := 1024 * 1024

  datatype FramingError = Io(kind: Kind) | TooLarge(declared: nat) | Truncated

  datatype ReadOutcome = Filled | AtEof | PartialEof

  // Filling n bytes from `data`, whatever the fragmentation, and what is left.
  function Exact(data: seq<Byte>, ending: Ending, n: nat): (Result<ReadOutcome, FramingError>, seq<Byte>) {
    if |data| >= n then (Ok(Filled), data[n..])
    else if ending.Broken? then (Err(Io(ending.kind)), [])
    else (Ok(if data == [] then AtEof else PartialEof), [])
  }

  method ReadExactOrEof(r: Source, buf: array<Byte>) returns (outcome: Result<ReadOutcome, FramingError>)
    modifies r, buf
    ensures (outcome, r.rest) == Exact(old(r.rest), r.ending, buf.Length)
    ensures outcome == Ok(Filled) ==> buf[..] == old(r.rest)[..buf.Length]
  {
    ghost var data := r.rest;
    var read := 0;
    while read < buf.Length
      invariant read <= buf.Length && read <= |data|
      invariant r.rest == data[read..]
      invariant buf[..read] == data[..read]
      decreases |r.rest| + |r.plan|
    {
      var got := r.Read(buf, read);
      match got {
        case Got(n) =>
          if n == 0 {
            return Ok(if read == 0 then AtEof else PartialEof);
          }
          ReadOn(data, read, n);
          read := read + n;
        case Interrupted =>
        case Failed(kind) =>
          return Err(Io(kind));
      }
    }
    assert buf[..] == buf[..read];
    return Ok(Filled);
  }

  // One message: None at a clean end of the stream.
  function NextMessage(order: Order, data: seq<Byte>, ending: Ending)
    : (r: (Result<Option<seq<Byte>>, FramingError>, seq<Byte>))
    ensures r.0.Ok? && r.0.value.Some? ==> |r.1| < |data|
  {
    match CutFrame(order, MAX_INBOUND_LEN, data)
    case Whole(body, rest) => (Ok(Some(body)), rest)
    case Oversized(declared) => (Err(TooLarge(declared)), data[4..])
    case Short =>
      if ending.Broken? then (Err(Io(ending.kind)), [])
      else if data == [] then (Ok(None), [])
      else (Err(Truncated), [])
  }

  // What is read of a body of that length.
  function Body(data: seq<Byte>, ending: Ending, len: nat): (Result<Option<seq<Byte>>, FramingError>, seq<Byte>) {
    if |data| >= len then (Ok(Some(data[..len])), data[len..])
    else (Err(if ending.Broken? then Io(ending.kind) else Truncated), [])
  }

  method ReadBody(r: Source, len: nat) returns (message: Result<Option<seq<Byte>>, FramingError>)
    requires len > 0
    modifies r
    ensures (message, r.rest) == Body(old(r.rest), r.ending, len)
  {
    var body := new Byte[len];
    var outcome := ReadExactOrEof(r, body);
    if outcome.Err? {
      return Err(outcome.error);
    } else if outcome.value.Filled? {
      return Ok(Some(body[..]));
    } else {
      return Err(Truncated);
    }
  }

  method ReadMessage(order: Order, r: Source) returns (message: Result<Option<seq<Byte>>, FramingError>)
    modifies r
    ensures (message, r.rest) == NextMessage(order, old(r.rest), r.ending)
  {
    var lenBuf := new Byte[4];
    var outcome := ReadExactOrEof(r, lenBuf);
    if outcome.Err? {
      return Err(outcome.error);
    } else if outcome.value.AtEof? {
      return Ok(None);
    } else if outcome.value.PartialEof? {
      return Err(Truncated);
    }
    assert lenBuf[..] == old(r.rest)[..4];
    var len := Length(order, lenBuf[..]);
    if len > MAX_INBOUND_LEN {
      return Err(TooLarge(len));
    }
    if len == 0 {
      assert old(r.rest)[4..4] == [];
      return Ok(Some([]));
    }
    assert |r.rest| >= len ==> r.rest[..len] == old(r.rest)[4..4 + len] && r.rest[len..] == old(r.rest)[4 + len..];
    message := ReadBody(r, len);
  }

  method WriteMessage(order: Order, w: Sink, body: seq<Byte>) returns (failed: Option<FramingError>)
    modifies w
    ensures |body| >= TWO_TO_THE_32 ==>
              failed == Some(TooLarge(TWO_TO_THE_32 - 1)) && w.written == old(w.written) && w.budget == old(w.budget)
    ensures |body| < TWO_TO_THE_32 ==>
              && failed == (if Passes(Framed(order, body), old(w.budget)) then None else Some(Io(w.failure)))
              && w.written == old(w.written) + Taken(Framed(order, body), old(w.budget).room)
              && w.budget == After(Framed(order, body), old(w.budget))
  {
    if |body| >= TWO_TO_THE_32 {
      return Some(TooLarge(TWO_TO_THE_32 - 1));
    }
    WrittenInTwo(Prefix(order, |body|), body, w.budget.room);
    var ok := w.WriteAll(Prefix(order, |body|));
    if !ok {
      return Some(Io(w.failure));
    }
    ok := w.WriteAll(body);
    if !ok {
      return Some(Io(w.failure));
    }
    ok := w.Flush();
    return if ok then None else Some(Io(w.failure));
  }
}
