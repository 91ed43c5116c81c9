/** The native host's run loop, and what a browser on the other end can rely on. */
module Host {
  import opened Wrappers
  import opened Wire
  import opened Streams
  import opened Framing

  // What dispatch and serialization make of the i-th body.
  type Answer = (nat, seq<Byte>) -> seq<Byte>

  datatype End = Done | Fatal(error: FramingError)

  // --- The loop ------------------------------------------------------------------------

  // The answers that are due, in order, and how the run ends if all are delivered.
  function Conversation(order: Order, answer: Answer, k: nat, data: seq<Byte>, ending: Ending)
    : (talk: (seq<seq<Byte>>, End))
    ensures Fits(talk.0, TWO_TO_THE_32 - 1)
    decreases |data|
  {
    var (message, rest) := NextMessage(order, data, ending);
    if message.Err? then ([], Fatal(message.error))
    else if message.value.None? then ([], Done)
    else
      var out := answer(k, message.value.value);
      if |out| >= TWO_TO_THE_32 then ([], Fatal(TooLarge(TWO_TO_THE_32 - 1)))
      else
        var (more, end) := Conversation(order, answer, k + 1, rest, ending);
        ([out] + more, end)
  }

  // What a writer takes of the answers' frames before it fails, and whether it never does.
  function Delivered(order: Order, answers: seq<seq<Byte>>, b: Budget): (seq<Byte>, bool)
    requires Fits(answers, TWO_TO_THE_32 - 1)
  {
    if answers == [] then ([], true) else
    var frame := Framed(order, answers[0]);
    if !Passes(frame, b) then (Taken(frame, b.room), false) else
    var (more, ok) := Delivered(order, answers[1..], After(frame, b));
    (frame + more, ok)
  }

  // One round of the loop, and what it wrote; no end while the loop goes on.
  method Round(order: Order, answer: Answer, k: nat, reader: Source, writer: Sink)
    returns (end: Option<End>, ghost piece: seq<Byte>)
    modifies reader, writer
    ensures writer.written == old(writer.written) + piece
    ensures var (answers, ideal) := Conversation(order, answer, k, old(reader.rest), reader.ending);
            var (out, ok) := Delivered(order, answers, old(writer.budget));
            if end.None? then
              var (later, same) := Conversation(order, answer, k + 1, reader.rest, reader.ending);
              var (more, still) := Delivered(order, later, writer.budget);
              |reader.rest| < |old(reader.rest)| && ideal == same && out == piece + more && ok == still
            else
              out == piece && end.value == if ok then ideal else Fatal(Io(writer.failure))
  {
    piece := [];
    var message := ReadMessage(order, reader);
    if message.Err? {
      return Some(Fatal(message.error)), [];
    } else if message.value.None? {
      return Some(Done), [];
    }
    var out := answer(k, message.value.value);
    var failed := WriteMessage(order, writer, out);
    if |out| >= TWO_TO_THE_32 {
      return Some(Fatal(failed.value)), [];
    }
    ghost var later := Conversation(order, answer, k + 1, reader.rest, reader.ending).0;
    assert ([out] + later)[1..] == later;
    piece := Taken(Framed(order, out), old(writer.budget).room);
    if failed.Some? {
      return Some(Fatal(failed.value)), piece;
    }
    return None, piece;
  }

  // What is written is the conversation's frames as far as the writer takes them; a
  // failing writer ends the run with its error.
  method Run(order: Order, answer: Answer, reader: Source, writer: Sink) returns (end: End)
    modifies reader, writer
    ensures var (answers, ideal) := Conversation(order, answer, 0, old(reader.rest), reader.ending);
            var (out, ok) := Delivered(order, answers, old(writer.budget));
            && writer.written == old(writer.written) + out
            && end == if ok then ideal else Fatal(Io(writer.failure))
  {
    ghost var (answers, ideal) := Conversation(order, answer, 0, reader.rest, reader.ending);
    ghost var all := Delivered(order, answers, writer.budget);
    ghost var sent: seq<Byte> := [];
    var k: nat := 0;
    while true
      invariant ideal == Conversation(order, answer, k, reader.rest, reader.ending).1
      invariant all.0 ==
                  sent + Delivered(order, Conversation(order, answer, k, reader.rest, reader.ending).0, writer.budget).0
      invariant all.1 == Delivered(order, Conversation(order, answer, k, reader.rest, reader.ending).0, writer.budget).1
      invariant writer.written == old(writer.written) + sent
      decreases |reader.rest|
    {
      var over, piece := Round(order, answer, k, reader, writer);
      Regroup(old(writer.written), sent, piece);
      if over.Some? {
        return over.value;
      }
      k := k + 1;
      ghost var later := Conversation(order, answer, k, reader.rest, reader.ending).0;
      Regroup(sent, piece, Delivered(order, later, writer.budget).0);
      sent := sent + piece;
    }
  }

  // --- What reaches the other end -----------------------------------------------------------

  // Whatever the writer takes is a prefix of the answers' frames; all of them if it
  // never fails.
  lemma {:induction false} DeliveredIsPrefix(order: Order, answers: seq<seq<Byte>>, b: Budget)
    requires Fits(answers, TWO_TO_THE_32 - 1)
    ensures var (out, ok) := Delivered(order, answers, b);
            out <= Joined(order, answers) && (ok ==> out == Joined(order, answers))
    ensures b == Budget(None, None) ==> Delivered(order, answers, b).1
    decreases |answers|
  {
    if answers != [] {
      DeliveredIsPrefix(order, answers[1..], After(Framed(order, answers[0]), b));
    }
  }

  // The answers whose frames are written, in part at least, before a flush fails.
  function Begun(answers: seq<seq<Byte>>, flushes: Option<nat>): seq<seq<Byte>> {
    if flushes.Some? && flushes.value < |answers| then answers[..flushes.value + 1] else answers
  }

  // What is written of the frames begun, and whether all went well: exactly if there was
  // room for every byte and a flush for every answer.
  ghost predicate WrittenAs(out: seq<Byte>, ok: bool, begun: seq<Byte>, bytes: nat, answers: nat, b: Budget) {
    && out == (if b.room.Some? && b.room.value < |begun| then begun[..b.room.value] else begun)
    && (ok <==> (b.room.Some? ==> bytes <= b.room.value) && (b.flushes.Some? ==> answers <= b.flushes.value))
  }

  lemma PassedOn(
      frame: seq<Byte>, more: seq<Byte>, ok: bool, begun: seq<Byte>, bytes: nat, answers: nat, b: Budget)
    requires Passes(frame, b) && WrittenAs(more, ok, begun, bytes, answers, After(frame, b))
    ensures WrittenAs(frame + more, ok, frame + begun, |frame| + bytes, answers + 1, b)
  {
  }

  lemma NoRoom(frame: seq<Byte>, later: seq<Byte>, bytes: nat, answers: nat, b: Budget)
    requires !HasRoom(frame, b.room)
    ensures WrittenAs(Taken(frame, b.room), false, frame + later, |frame| + bytes, answers, b)
  {
  }

  lemma NotFlushed(frame: seq<Byte>, bytes: nat, answers: nat, b: Budget)
    requires HasRoom(frame, b.room) && b.flushes == Some(0) && answers > 0
    ensures WrittenAs(frame, false, frame, |frame| + bytes, answers, b)
  {
  }

  lemma BegunRest(answers: seq<seq<Byte>>, flushes: Option<nat>)
    requires answers != []
    ensures Begun(answers, flushes) == [answers[0]] + Begun(answers, flushes)[1..]
    ensures flushes == Some(0) ==> Begun(answers, flushes)[1..] == []
    ensures var one := if flushes.Some? && flushes.value > 0 then Some(flushes.value - 1) else None;
            flushes != Some(0) ==> Begun(answers, flushes)[1..] == Begun(answers[1..], one)
  {
  }

  lemma JoinedMore(order: Order, answers: seq<seq<Byte>>)
    requires Fits(answers, TWO_TO_THE_32 - 1) && answers != []
    ensures Joined(order, answers) == Framed(order, answers[0]) + Joined(order, answers[1..])
  {
  }

  // A writer that fails after so many bytes or so many flushes: the frames of the answers
  // begun before the failing flush are written as far as there is room.
  lemma {:induction false} DeliveredExactly(order: Order, answers: seq<seq<Byte>>, b: Budget)
    requires Fits(answers, TWO_TO_THE_32 - 1)
    ensures var (out, ok) := Delivered(order, answers, b);
            WrittenAs(
              out, ok, Joined(order, Begun(answers, b.flushes)), |Joined(order, answers)|, |answers|, b)
    decreases |answers|
  {
    if answers != [] {
      hide WrittenAs, Joined, Begun, Framed;
      var frame, rest, after := Framed(order, answers[0]), answers[1..], After(Framed(order, answers[0]), b);
      var begun, bytes := Begun(answers, b.flushes), |Joined(order, rest)|;
      JoinedMore(order, answers);
      JoinedMore(order, begun);
      BegunRest(answers, b.flushes);
      DeliveredExactly(order, rest, after);
      var (more, ok) := Delivered(order, rest, after);
      if Passes(frame, b) {
        assert after.flushes == if b.flushes.Some? then Some(b.flushes.value - 1) else None;
        PassedOn(frame, more, ok, Joined(order, begun[1..]), bytes, |rest|, b);
      } else if HasRoom(frame, b.room) {
        NothingJoined(order, begun[1..], frame);
        NotFlushed(frame, bytes, |answers|, b);
      } else {
        NoRoom(frame, Joined(order, begun[1..]), bytes, |answers|, b);
      }
    }
  }

  lemma NothingJoined(order: Order, answers: seq<seq<Byte>>, frame: seq<Byte>)
    requires answers == []
    ensures frame + Joined(order, answers) == frame
  {
  }

  // --- What the two ends agree on -----------------------------------------------------------

  ghost predicate Small(answer: Answer) {
    forall k, body :: |answer(k, body)| < TWO_TO_THE_32
  }

  function Answers(answer: Answer, k: nat, bodies: seq<seq<Byte>>): (answers: seq<seq<Byte>>)
    ensures |answers| == |bodies| && forall i | 0 <= i < |bodies| :: answers[i] == answer(k + i, bodies[i])
    decreases |bodies|
  {
    if bodies == [] then [] else [answer(k, bodies[0])] + Answers(answer, k + 1, bodies[1..])
  }

  lemma FrameIsAnswered(order: Order, answer: Answer, k: nat, body: seq<Byte>, rest: seq<Byte>, ending: Ending)
    requires Small(answer) && |body| <= MAX_INBOUND_LEN
    ensures Conversation(order, answer, k, Framed(order, body) + rest, ending) ==
              ([answer(k, body)] + Conversation(order, answer, k + 1, rest, ending).0,
               Conversation(order, answer, k + 1, rest, ending).1)
  {
    CutFramed(order, MAX_INBOUND_LEN, body, rest);
  }

  // An answer too long for a prefix ends the run before a byte of it is written.
  lemma OversizedAnswerEnds(order: Order, answer: Answer, k: nat, body: seq<Byte>, rest: seq<Byte>, ending: Ending)
    requires |body| <= MAX_INBOUND_LEN && |answer(k, body)| > 0xFFFF_FFFF
    ensures Conversation(order, answer, k, Framed(order, body) + rest, ending) == ([], Fatal(TooLarge(0xFFFF_FFFF)))
  {
    CutFramed(order, MAX_INBOUND_LEN, body, rest);
  }

  ghost predicate AnswersFirst(
      order: Order, answer: Answer, talk: (nat, seq<Byte>) -> (seq<seq<Byte>>, End), k: nat, body: seq<Byte>,
      rest: seq<Byte>)
    requires |body| < TWO_TO_THE_32
  {
    talk(k, Framed(order, body) + rest) == ([answer(k, body)] + talk(k + 1, rest).0, talk(k + 1, rest).1)
  }

  lemma HeadFirst(head: seq<Byte>, a: seq<seq<Byte>>, b: seq<seq<Byte>>)
    ensures [head] + (a + b) == ([head] + a) + b
  {
  }

  // One frame after the other, for anything that answers the first frame of a stream.
  lemma {:induction false} OneByOne(
      order: Order, answer: Answer, talk: (nat, seq<Byte>) -> (seq<seq<Byte>>, End), k: nat, bodies: seq<seq<Byte>>,
      tail: seq<Byte>)
    requires Fits(bodies, MAX_INBOUND_LEN)
    requires forall k: nat, body, rest | |body| <= MAX_INBOUND_LEN :: AnswersFirst(order, answer, talk, k, body, rest)
    ensures talk(k, Joined(order, bodies) + tail) ==
              (Answers(answer, k, bodies) + talk(k + |bodies|, tail).0, talk(k + |bodies|, tail).1)
    decreases |bodies|
  {
    var after := talk(k + |bodies|, tail).0;
    if bodies == [] {
      assert Joined(order, bodies) + tail == tail;
      assert Answers(answer, k, bodies) + after == after;
    } else {
      var body, rest := bodies[0], bodies[1..];
      Regroup(Framed(order, body), Joined(order, rest), tail);
      assert AnswersFirst(order, answer, talk, k, body, Joined(order, rest) + tail);
      OneByOne(order, answer, talk, k + 1, rest, tail);
      HeadFirst(answer(k, body), Answers(answer, k + 1, rest), after);
    }
  }

  // Complete frames are answered one by one, in order; then comes what follows them.
  lemma FramesAreAnswered(
      order: Order, answer: Answer, k: nat, bodies: seq<seq<Byte>>, tail: seq<Byte>, ending: Ending)
    requires Small(answer) && Fits(bodies, MAX_INBOUND_LEN)
    ensures Conversation(order, answer, k, Joined(order, bodies) + tail, ending) ==
              (Answers(answer, k, bodies) + Conversation(order, answer, k + |bodies|, tail, ending).0,
               Conversation(order, answer, k + |bodies|, tail, ending).1)
  {
    var talk := (k: nat, data: seq<Byte>) => Conversation(order, answer, k, data, ending);
    forall k: nat, body, rest | |body| <= MAX_INBOUND_LEN ensures AnswersFirst(order, answer, talk, k, body, rest) {
      FrameIsAnswered(order, answer, k, body, rest, ending);
    }
    OneByOne(order, answer, talk, k, bodies, tail);
    assert talk(k + |bodies|, tail) == Conversation(order, answer, k + |bodies|, tail, ending);
    var all := Joined(order, bodies) + tail;
    assert talk(k, all) == Conversation(order, answer, k, all, ending);
  }

  // A stream that ends between frames is answered frame by frame and the run ends well.
  lemma BoundaryEndsWell(order: Order, answer: Answer, bodies: seq<seq<Byte>>)
    requires Small(answer) && Fits(bodies, MAX_INBOUND_LEN)
    ensures Conversation(order, answer, 0, Joined(order, bodies), Eof) == (Answers(answer, 0, bodies), Done)
  {
    FramesAreAnswered(order, answer, 0, bodies, [], Eof);
    assert Joined(order, bodies) + [] == Joined(order, bodies);
    assert Conversation(order, answer, |bodies|, [], Eof) == ([], Done);
    assert Answers(answer, 0, bodies) + [] == Answers(answer, 0, bodies);
  }

  // A stream cut inside a frame, at any byte of it, is reported as truncated, after
  // every earlier frame has been answered.
  lemma CutFrameIsTruncated(order: Order, answer: Answer, bodies: seq<seq<Byte>>, body: seq<Byte>, cut: nat)
    requires Small(answer) && Fits(bodies, MAX_INBOUND_LEN) && |body| <= MAX_INBOUND_LEN
    requires 0 < cut < |Framed(order, body)|
    ensures Conversation(order, answer, 0, Joined(order, bodies) + Framed(order, body)[..cut], Eof) ==
              (Answers(answer, 0, bodies), Fatal(Truncated))
  {
    var tail := Framed(order, body)[..cut];
    FramesAreAnswered(order, answer, 0, bodies, tail, Eof);
    CutBroken(order, MAX_INBOUND_LEN, body, cut);
    assert tail != [];
    assert Answers(answer, 0, bodies) + [] == Answers(answer, 0, bodies);
  }

  // The run ends well only on a boundary: whatever bytes arrived, they were frames.
  lemma {:induction false} DoneOnlyOnBoundary(order: Order, answer: Answer, k: nat, data: seq<Byte>, ending: Ending)
    returns (bodies: seq<seq<Byte>>)
    requires Conversation(order, answer, k, data, ending).1.Done?
    ensures ending.Eof? && Fits(bodies, MAX_INBOUND_LEN) && data == Joined(order, bodies)
    decreases |data|
  {
    var cut := CutFrame(order, MAX_INBOUND_LEN, data);
    if cut.Whole? {
      CutIsFramed(order, MAX_INBOUND_LEN, data);
      var rest := DoneOnlyOnBoundary(order, answer, k + 1, cut.rest, ending);
      bodies := [cut.body] + rest;
      assert bodies[1..] == rest;
    } else {
      bodies := [];
    }
  }

  lemma DoneIffOnBoundary(order: Order, answer: Answer, data: seq<Byte>, ending: Ending)
    requires Small(answer)
    ensures Conversation(order, answer, 0, data, ending).1.Done? <==>
              ending.Eof? && exists bodies :: Fits(bodies, MAX_INBOUND_LEN) && data == Joined(order, bodies)
  {
    if Conversation(order, answer, 0, data, ending).1.Done? {
      var bodies := DoneOnlyOnBoundary(order, answer, 0, data, ending);
    }
    if bodies :| ending.Eof? && Fits(bodies, MAX_INBOUND_LEN) && data == Joined(order, bodies) {
      BoundaryEndsWell(order, answer, bodies);
    }
  }
}
