/** What the operating system answers, and what a handler asks the selector to watch for. */
module Io {
  import opened Bytes

  /** fd_interest is a bit mask. */
  datatype Interest = Interest(read: bool, write: bool)

  const OP_NOOP := Interest(false, false)
  const OP_READ := Interest(true, false)
  const OP_WRITE := Interest(false, true)

  /** recv(): some bytes, an orderly close (0), EAGAIN, or another failure. */
  datatype Recv = Data(bs: seq<byte>) | Eof | RecvAgain | RecvFail

  /** send(): how many bytes were taken, EAGAIN, or another failure. One that meets a peer that has closed is EPIPE, and
      raises SIGPIPE first. */
  datatype Send = Sent(n: nat) | SendAgain | SendFail(brokenPipe: bool)

  /** recv() into the given room. With no room it is asked for 0 bytes, and answers 0 or fails. */
  predicate CanRecv(r: Recv, room: int) {
    r.Data? ==> 0 < |r.bs| <= room
  }

  /** send() of the given number of pending bytes. */
  predicate CanSend(s: Send, pending: nat) {
    s.Sent? ==> s.n <= pending
  }

  /** The answer to a send() of that many bytes by a peer willing to take s. */
  function Clamp(s: Send, pending: nat): (r: Send)
    ensures CanSend(r, pending)
  {
    if s.Sent? && s.n > pending then Sent(pending) else s
  }
}
