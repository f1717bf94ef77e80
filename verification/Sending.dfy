/**
 One sender between its calls of `can_send` and `consume_send_window`. The first reads the
 connection window under the mutex and the stream window after releasing it; the second charges
 the one and then the other; the frame is handed over at some time after the check. Each of these
 is a step of its own.
 */
module Sending {
  import opened Machine
  import opened FlowControl

  /** `Reading`: the connection window was read as `seen`. `Pending`: the check said yes, and some of the other steps are done. */
  datatype Phase = Idle | Reading(len: nat, seen: Int32) | Pending(len: nat, sent: bool, connPaid: bool, streamPaid: bool)

  /** Bytes that the connection window, as it was read, has admitted. */
  predicate Admitted(p: Phase) {
    p.Reading? && ToInt32(p.len) <= p.seen
  }

  /** The send test, on the connection window as it was read and the stream window as it is. */
  function Verdict(p: Phase, window: Int32): Phase
    requires p.Reading?
  {
    if MaySend(p.seen, window, p.len) then Checked(p.len) else Idle
  }

  function Checked(len: nat): Phase {
    Pending(len, false, false, false)
  }

  function Settled(p: Phase): Phase {
    if p.Pending? && p.sent && p.connPaid && p.streamPaid then Idle else p
  }

  /** Bytes admitted and not yet taken from the connection window. */
  function Owed(p: Phase): int {
    if Admitted(p) || (p.Pending? && !p.connPaid) then p.len else 0
  }

  /** A sender holds at most `bound` bytes, and until it has paid its stream window, that window covers them. */
  ghost predicate Sound(p: Phase, window: int, bound: nat) {
    && window >= 0
    && (Admitted(p) ==> p.len <= bound)
    && (p.Pending? ==>
          && p.len <= bound && (p.streamPaid ==> p.connPaid) && !(p.sent && p.connPaid && p.streamPaid)
          && (!p.streamPaid ==> p.len <= window))
  }

  /** The check keeps it: what it admits, both windows cover. */
  lemma VerdictSound(p: Phase, window: Int32, bound: nat)
    requires p.Reading? && Sound(p, window, bound) && bound <= INT_MAX
    ensures Sound(Verdict(p, window), window, bound) && Owed(Verdict(p, window)) <= Owed(p)
  {
  }
}
