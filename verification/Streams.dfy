/** Byte streams that deliver their data in arbitrary pieces, and may break. */
module Streams {
  import opened Wrappers
  import opened Wire

  datatype Kind = ConnectionReset | ConnectionAborted | BrokenPipe | UnexpectedEof | OtherKind

  // How the stream goes on once its data is used up.
  datatype Ending = Eof | Broken(kind: Kind)

  // How much the next read delivers at most, or that it is interrupted.
  datatype Fragment = Give(size: nat) | Interrupt

  datatype ReadResult = Got(n: nat) | Interrupted | Failed(kind: Kind)

  class Source {
    var rest: seq<Byte>
    var plan: seq<Fragment>
    const ending: Ending

    constructor (rest: seq<Byte>, plan: seq<Fragment>, ending: Ending)
      ensures this.rest == rest && this.plan == plan && this.ending == ending
    {
      this.rest, this.plan, this.ending := rest, plan, ending;
    }

    // One read into buf[from..]: a piece of the data, of any size the plan likes.
    method Read(buf: array<Byte>, from: nat) returns (r: ReadResult)
      requires from < buf.Length
      modifies this, buf
      ensures r == Interrupted ==> rest == old(rest) && buf[..] == old(buf[..])
      ensures r == Got(0) || r.Failed? ==>
                && rest == old(rest) == [] && buf[..] == old(buf[..])
                && ending == if r.Failed? then Broken(r.kind) else Eof
      ensures r.Got? && r.n > 0 ==> from + r.n <= buf.Length && r.n <= |old(rest)| && rest == old(rest)[r.n..]
      ensures r.Got? && r.n > 0 ==> buf[..from + r.n] == old(buf[..from]) + old(rest)[..r.n]
      ensures r == Interrupted || (r.Got? && r.n > 0) ==> |rest| + |plan| < old(|rest| + |plan|)
    {
      if plan != [] && plan[0].Interrupt? {
        plan := plan[1..];
        return Interrupted;
      }
      if rest == [] {
        return if ending.Eof? then Got(0) else Failed(ending.kind);
      }
      var n := buf.Length - from;
      if n > |rest| {
        n := |rest|;
      }
      if plan != [] {
        if 0 < plan[0].size < n {
          n := plan[0].size;
        }
        plan := plan[1..];
      }
      forall i | 0 <= i < n {
        buf[from + i] := rest[i];
      }
      rest := rest[n..];
      r := Got(n);
    }
  }

  // Reading n bytes more.
  lemma ReadOn(data: seq<Byte>, read: nat, n: nat)
    requires read + n <= |data|
    ensures data[..read] + data[read..][..n] == data[..read + n] && data[read..][n..] == data[read + n..]
  {
  }

  // How many bytes and how many flushes succeed before one fails; None when none does.
  datatype Budget = Budget(room: Option<nat>, flushes: Option<nat>)

  class Sink {
    var written: seq<Byte>
    var budget: Budget
    const failure: Kind

    constructor (budget: Budget, failure: Kind)
      ensures written == [] && this.budget == budget && this.failure == failure
    {
      written, this.budget, this.failure := [], budget, failure;
    }

    method WriteAll(bytes: seq<Byte>) returns (ok: bool)
      modifies this
      ensures ok == HasRoom(bytes, old(budget).room)
      ensures written == old(written) + Taken(bytes, old(budget).room)
      ensures budget == old(budget).(room := Left(bytes, old(budget).room))
    {
      ok := budget.room.None? || |bytes| <= budget.room.value;
      written := written + Taken(bytes, budget.room);
      budget := budget.(room := Left(bytes, budget.room));
    }

    method Flush() returns (ok: bool)
      modifies this
      ensures ok == (old(budget).flushes != Some(0))
      ensures written == old(written)
      ensures budget == if ok then Flushed(old(budget)) else old(budget)
    {
      ok := budget.flushes != Some(0);
      if ok {
        budget := Flushed(budget);
      }
    }
  }

  predicate HasRoom(bytes: seq<Byte>, room: Option<nat>) {
    room.Some? ==> |bytes| <= room.value
  }

  function Taken(bytes: seq<Byte>, room: Option<nat>): seq<Byte> {
    if HasRoom(bytes, room) then bytes else bytes[..room.value]
  }

  function Left(bytes: seq<Byte>, room: Option<nat>): Option<nat> {
    if room.None? then None else if |bytes| <= room.value then Some(room.value - |bytes|) else Some(0)
  }

  function Flushed(b: Budget): Budget {
    if b.flushes.Some? && b.flushes.value > 0 then b.(flushes := Some(b.flushes.value - 1)) else b
  }

  // Writing a whole frame and flushing it.
  predicate Passes(frame: seq<Byte>, b: Budget) {
    HasRoom(frame, b.room) && b.flushes != Some(0)
  }

  function After(frame: seq<Byte>, b: Budget): Budget {
    var wrote := b.(room := Left(frame, b.room));
    if Passes(frame, b) then Flushed(wrote) else wrote
  }

  lemma WrittenInTwo(a: seq<Byte>, b: seq<Byte>, room: Option<nat>)
    ensures HasRoom(a + b, room) <==> HasRoom(a, room) && HasRoom(b, Left(a, room))
    ensures HasRoom(a, room) ==>
              Taken(a + b, room) == a + Taken(b, Left(a, room)) && Left(a + b, room) == Left(b, Left(a, room))
    ensures !HasRoom(a, room) ==> Taken(a + b, room) == Taken(a, room) && Left(a + b, room) == Left(a, room)
  {
  }
}
