/** How long a timed wait may still sleep. */
module Deadline {

  datatype Timespec = Timespec(sec: int, nsec: int)

  datatype Clock = Failed | Reads(now: Timespec)

  /** The moment a time value denotes, in nanoseconds. */
  function Nanos(t: Timespec): int {
    t.sec * 1_000_000_000 + t.nsec
  }

  /** The reading of a working clock at a moment. */
  function ClockAt(now: nat): Timespec {
    Timespec(now / 1_000_000_000, now % 1_000_000_000)
  }

  /** The check the timed calls make on their deadline. */
  predicate WellFormed(deadline: Timespec) {
    0 <= deadline.nsec < 1_000_000_000
  }

  /** Milliseconds from `now` to the deadline; a clock that cannot be read counts as one millisecond. */
  function MillisUntil(clock: Clock, deadline: Timespec): nat {
    match clock
    case Failed => 1
    case Reads(now) =>
      var left := (deadline.sec - now.sec) * 1_000_000_000 + (deadline.nsec - now.nsec);
      if left <= 0 then 0 else (left + 999_999) / 1_000_000
  }

  /** The result is the time left rounded up to whole milliseconds, and 0 exactly
      when the deadline has come: a wait that still has time never passes 0, the
      kernel's word for no timeout. */
  lemma MillisRoundUp(now: Timespec, deadline: Timespec)
    ensures var (ms, left) := (MillisUntil(Reads(now), deadline), Nanos(deadline) - Nanos(now));
            && (ms == 0 <==> left <= 0)
            && (0 < left ==> (ms - 1) * 1_000_000 < left <= ms * 1_000_000)
  {
    var left := Nanos(deadline) - Nanos(now);
    assert left == (deadline.sec - now.sec) * 1_000_000_000 + (deadline.nsec - now.nsec);
  }

  lemma ClockIsRight(now: nat)
    ensures Nanos(ClockAt(now)) == now && WellFormed(ClockAt(now))
  {
  }
}
