/** One chunk's range request as the transport drives it: the response
    arrives as a sequence of fragments, each handed to the write callback in
    arrival order, and the transfer ends when the response is over or when
    the callback reports fewer bytes than it was given. */
module Transfers {
  import opened Common
  import opened ChunkBuffer

  /** One fragment the transport delivers. `grows` is whether the chunk
      buffer's `realloc` succeeds when this fragment is written. */
  datatype Fragment = Fragment(bytes: seq<byte>, grows: bool)

  /** What the transport does with one range request: the fragments it
      delivers, and whether it ends the transfer without a transport error
      once they are delivered. */
  datatype Response = Response(fragments: seq<Fragment>, completes: bool)

  datatype Status = Running | Finished(ok: bool)

  /** An in-flight transfer bound to its own chunk buffer. */
  datatype Transfer = Transfer(mem: MemoryStruct, rest: seq<Fragment>, completes: bool, status: Status)

  predicate Valid(t: Transfer) {
    ChunkBuffer.Valid(t.mem)
  }

  /** A transfer about to start, writing into a freshly allocated buffer. */
  function Start(resp: Response): (t: Transfer)
    ensures Valid(t) && t.status == Running
  {
    Transfer(Fresh(), resp.fragments, resp.completes, Running)
  }

  /** One unit of progress: deliver the next fragment to the write callback,
      or finish. A callback result different from the fragment's length
      ends the transfer as failed (the transport's write error). */
  function Step(t: Transfer): (r: Transfer)
    requires Valid(t)
    ensures Valid(r)
  {
    if t.status.Finished? then t
    else if t.rest == [] then t.(status := Finished(t.completes))
    else
      var f := t.rest[0];
      var w := WriteMemory(t.mem, f.bytes, 1, |f.bytes|, f.grows);
      if w.returned != |f.bytes| then t.(mem := w.mem, status := Finished(false))
      else t.(mem := w.mem, rest := t.rest[1..])
  }

  /** Runs the transfer to its terminal state. */
  function Perform(t: Transfer): (r: Transfer)
    requires Valid(t)
    ensures Valid(r) && r.status.Finished?
    decreases |t.rest|, if t.status.Running? then 1 else 0
  {
    if t.status.Finished? then t else Perform(Step(t))
  }

  /** The number of leading fragments the write callback accepts: the
      position of the first non-empty fragment the buffer cannot grow for. */
  function Accepted(frags: seq<Fragment>): (k: nat)
    ensures k <= |frags|
    ensures forall j :: 0 <= j < k ==> frags[j].grows || frags[j].bytes == []
    ensures k < |frags| ==> !frags[k].grows && frags[k].bytes != []
  {
    if frags == [] || (!frags[0].grows && frags[0].bytes != []) then 0
    else 1 + Accepted(frags[1..])
  }

  function Bytes(frags: seq<Fragment>): (r: seq<seq<byte>>)
    ensures |r| == |frags|
    ensures forall j :: 0 <= j < |frags| ==> r[j] == frags[j].bytes
  {
    seq(|frags|, j requires 0 <= j < |frags| => frags[j].bytes)
  }

  /** Taking a step never changes where the transfer ends up. */
  lemma PerformStep(t: Transfer)
    requires Valid(t)
    ensures Perform(Step(t)) == Perform(t)
  {
  }

  /** A running transfer ends with the accepted fragments appended to its
      buffer, in arrival order, and succeeds exactly when every fragment is
      accepted and the transport completes. */
  lemma {:induction false} PerformRunning(t: Transfer)
    requires Valid(t) && t.status == Running
    ensures var r := Perform(t);
      var k := Accepted(t.rest);
      && Content(r.mem) == Content(t.mem) + Flatten(Bytes(t.rest[..k]))
      && r.status.ok == (k == |t.rest| && t.completes)
    decreases |t.rest|
  {
    var k := Accepted(t.rest);
    if t.rest == [] {
      assert Bytes(t.rest[..k]) == [];
    } else {
      var f := t.rest[0];
      if !f.grows && f.bytes != [] {
        assert k == 0 && Bytes(t.rest[..k]) == [];
      } else {
        var s := Step(t);
        AcceptedStep(t);
        PerformRunning(s);
      }
    }
  }

  /** How one accepted fragment moves from the pending list into the buffer. */
  lemma AcceptedStep(t: Transfer)
    requires Valid(t) && t.status == Running && t.rest != []
    requires t.rest[0].grows || t.rest[0].bytes == []
    ensures var s := Step(t);
      var k := Accepted(t.rest);
      && s.status == Running
      && s.rest == t.rest[1..]
      && Accepted(s.rest) == k - 1
      && Content(t.mem) + Flatten(Bytes(t.rest[..k])) == Content(s.mem) + Flatten(Bytes(s.rest[..k - 1]))
  {
    var f := t.rest[0];
    var k := Accepted(t.rest);
    WriteMemoryAppends(t.mem, f.bytes);
    var s := Step(t);
    assert Content(s.mem) == Content(t.mem) + f.bytes;
    assert Bytes(t.rest[..k]) == [f.bytes] + Bytes(s.rest[..k - 1]);
  }

  /** A whole transfer into a fresh buffer: the buffer holds the accepted
      fragments concatenated, and the transfer succeeds exactly when all
      fragments are accepted and the transport completes. */
  lemma TransferOutcome(resp: Response)
    ensures var r := Perform(Start(resp));
      var k := Accepted(resp.fragments);
      && Content(r.mem) == Flatten(Bytes(resp.fragments[..k]))
      && r.status.ok == (k == |resp.fragments| && resp.completes)
  {
    PerformRunning(Start(resp));
  }

  /** K successful appends f1..fK to a fresh buffer leave f1 + ... + fK in
      it, and `size` is the sum of their lengths. */
  lemma SuccessfulAppends(frags: seq<seq<byte>>)
    ensures var resp := Response(seq(|frags|, j requires 0 <= j < |frags| => Fragment(frags[j], true)), true);
      var r := Perform(Start(resp));
      && r.status.ok
      && Content(r.mem) == Flatten(frags)
      && r.mem.size == TotalLength(frags)
  {
    var resp := Response(seq(|frags|, j requires 0 <= j < |frags| => Fragment(frags[j], true)), true);
    PerformRunning(Start(resp));
    assert Bytes(resp.fragments[..|frags|]) == frags;
    FlattenLength(frags);
  }
}
