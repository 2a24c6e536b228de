/** The pipe barrier (synchronize): each process writes its phase byte into
    its own pipe and reads one byte from the other process's pipe. The two
    pipes are FIFO queues of the bytes written and not yet read. */
module Barrier {
  import opened Settings

  newtype Byte = b: int | 0 <= b < 256

  /** The phase byte of the start barrier, '1'. */
  const StartPhase: Byte := 0x31

  /** parent_pipefds carries the parent's bytes to the child, child_pipefds the
      child's bytes to the parent. */
  datatype PipeState = PipeState(parentPipe: seq<Byte>, childPipe: seq<Byte>)

  /** The pipe a role writes into. */
  function Outbound(st: PipeState, role: Role): seq<Byte>
  {
    if role == Child then st.childPipe else st.parentPipe
  }

  /** The pipe a role reads from. */
  function Inbound(st: PipeState, role: Role): (q: seq<Byte>)
    ensures q == Outbound(st, Other(role))
  {
    if role == Child then st.parentPipe else st.childPipe
  }

  /** write(write_fd, &phase, 1): one byte appended to the role's own pipe. */
  function Send(st: PipeState, role: Role, b: Byte): (r: PipeState)
    ensures Outbound(r, role) == Outbound(st, role) + [b]
    ensures Inbound(r, role) == Inbound(st, role)
  {
    if role == Child then st.(childPipe := st.childPipe + [b])
    else st.(parentPipe := st.parentPipe + [b])
  }

  /** How a call of synchronize ends: it returns a code, or it is still blocked
      in read because nothing has been written to its inbound pipe yet. */
  datatype Outcome = Returned(code: int) | Blocked

  /** read(read_fd, &buf, 1) and the comparison with the phase: a failed read
      returns -1 and consumes nothing; an empty pipe blocks; otherwise the first
      byte is consumed and the call returns 0 iff it is the phase. */
  function Receive(st: PipeState, role: Role, phase: Byte, readFails: bool): (PipeState, Outcome)
  {
    var q := Inbound(st, role);
    if readFails then (st, Returned(-1))
    else if q == [] then (st, Blocked)
    else
      var rest := if role == Child then st.(parentPipe := q[1..]) else st.(childPipe := q[1..]);
      (rest, Returned(if q[0] == phase then 0 else -1))
  }

  /** synchronize: a failed write returns -1 before reading; otherwise the phase
      is written and one byte read back. */
  function SyncSpec(st: PipeState, role: Role, phase: Byte, writeFails: bool, readFails: bool): (PipeState, Outcome)
  {
    if writeFails then (st, Returned(-1))
    else Receive(Send(st, role, phase), role, phase, readFails)
  }

  /** A call that does not fail appends exactly its phase to its own pipe and,
      unless it blocks, consumes exactly the first byte of the other pipe,
      returning 0 iff that byte is the phase. */
  lemma SyncMovesOneByte(st: PipeState, role: Role, phase: Byte)
    ensures var (r, out) := SyncSpec(st, role, phase, false, false);
            && Outbound(r, role) == Outbound(st, role) + [phase]
            && (out == Blocked <==> Inbound(st, role) == [])
            && (out == Blocked ==> Inbound(r, role) == [])
            && (out != Blocked ==>
                  && Inbound(r, role) == Inbound(st, role)[1..]
                  && (out.code == 0 <==> Inbound(st, role)[0] == phase)
                  && (out.code == 0 || out.code == -1))
  {
  }

  /** A failed write or read changes no pipe but the own pipe (by the byte that
      was written) and returns -1. */
  lemma SyncFaults(st: PipeState, role: Role, phase: Byte, writeFails: bool, readFails: bool)
    requires writeFails || readFails
    ensures var (r, out) := SyncSpec(st, role, phase, writeFails, readFails);
            && out == Returned(-1)
            && Inbound(r, role) == Inbound(st, role)
            && Outbound(r, role) == (if writeFails then Outbound(st, role) else Outbound(st, role) + [phase])
  {
  }

  /** The pipes opened by open_pipes, and the synchronize calls made on them. */
  class Pipes {
    var parentPipe: seq<Byte>
    var childPipe: seq<Byte>

    function State(): PipeState
      reads this
    {
      PipeState(parentPipe, childPipe)
    }

    /** open_pipes: two empty pipes. */
    constructor ()
      ensures State() == PipeState([], [])
    {
      parentPipe := [];
      childPipe := [];
    }

    /** The read half of synchronize, also the continuation of a call that was
        blocked in read once the other side has written. */
    method ReadPhase(role: Role, phase: Byte, readFails: bool) returns (out: Outcome)
      modifies this
      ensures (State(), out) == Receive(old(State()), role, phase, readFails)
    {
      if readFails {
        return Returned(-1);
      }
      var q := if role == Child then parentPipe else childPipe;
      if q == [] {
        return Blocked;
      }
      var b := q[0];
      if role == Child {
        parentPipe := q[1..];
      } else {
        childPipe := q[1..];
      }
      if b != phase {
        return Returned(-1);
      }
      return Returned(0);
    }

    /** synchronize(is_child, phase, ...): the role picks the pipe written and
        the pipe read. */
    method Synchronize(role: Role, phase: Byte, writeFails: bool, readFails: bool) returns (out: Outcome)
      modifies this
      ensures (State(), out) == SyncSpec(old(State()), role, phase, writeFails, readFails)
    {
      if writeFails {
        return Returned(-1);
      }
      if role == Child {
        childPipe := childPipe + [phase];
      } else {
        parentPipe := parentPipe + [phase];
      }
      out := ReadPhase(role, phase, readFails);
    }
  }

  /** The barrier as the two processes run it from fresh pipes: whichever role
      calls first writes its phase and blocks; the second call finds that byte
      and returns; the first call then finds the second's byte. Each side
      returns 0 iff the phases agree, and both pipes end empty. */
  lemma Rendezvous(first: Role, p: Byte, q: Byte)
    ensures var (s1, o1) := SyncSpec(PipeState([], []), first, p, false, false);
            var (s2, o2) := SyncSpec(s1, Other(first), q, false, false);
            var (s3, o3) := Receive(s2, first, p, false);
            && o1 == Blocked
            && o2.Returned? && (o2.code == 0 <==> p == q)
            && o3.Returned? && (o3.code == 0 <==> p == q)
            && s3 == PipeState([], [])
  {
    var (s1, o1) := SyncSpec(PipeState([], []), first, p, false, false);
    assert Outbound(s1, first) == [p] && Inbound(s1, first) == [];
    var (s2, o2) := SyncSpec(s1, Other(first), q, false, false);
    assert Outbound(s2, first) == [] && Inbound(s2, first) == [q];
  }
}
