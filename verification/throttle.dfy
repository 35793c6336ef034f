/** The UART throttle: one timestamp of the last send, compared lazily with
    the clock each time a qualifying prediction asks to be sent. */
module Throttle {
  import opened Targets

  /** Outcome of one throttle check: whether to send, and the timestamp of
      the last send afterwards. */
  datatype Gate = Gate(send: bool, lastSend: int)

  function Check(now: int, lastSend: int): (g: Gate)
    ensures g.send <==> now - lastSend > SendInterval
    ensures g.send ==> g.lastSend == now
    ensures !g.send ==> g.lastSend == lastSend
    ensures g.lastSend >= lastSend
  {
    if now - lastSend > SendInterval then Gate(true, now) else Gate(false, lastSend)
  }

  /** A suppressed check is a no-op: checking again at the same or any
      earlier time is suppressed as well. */
  lemma SuppressedStaysSuppressed(now: int, later: int, lastSend: int)
    requires !Check(later, lastSend).send && now <= later
    ensures Check(now, lastSend) == Gate(false, lastSend)
  {
  }

  /** Right after a send, every check within the window is suppressed. */
  lemma CooldownAfterSend(now: int, lastSend: int, t: int)
    requires Check(now, lastSend).send
    requires now <= t <= now + SendInterval
    ensures !Check(t, Check(now, lastSend).lastSend).send
  {
  }

  /** Calls at t0, t0 + 500 and t0 + 1500: send, suppressed, send. */
  lemma WindowScenario(t0: int, lastSend: int)
    requires t0 - lastSend > SendInterval
    ensures Check(t0, lastSend) == Gate(true, t0)
    ensures Check(t0 + 500, t0) == Gate(false, t0)
    ensures Check(t0 + 1500, t0) == Gate(true, t0 + 1500)
  {
  }
}
