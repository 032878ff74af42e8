/**
 * The focus tracker: a session that counts switches to a distracting app while it is
 * running. The clock is a parameter: `now` is the time in seconds since the epoch.
 */
module Focus {
  import opened Wrappers

  /** `int(x)`: the integer part, truncated toward zero. */
  function Truncate(x: real): (n: int)
    ensures 0.0 <= x ==> n as real <= x < n as real + 1.0
    ensures x < 0.0 ==> n as real - 1.0 < x <= n as real
  {
    if 0.0 <= x then x.Floor else -((-x).Floor)
  }

  /** What `get_stats` reports. */
  datatype Stats = Stats(switches: nat, elapsed: int, tracking: bool)

  class FocusTracker {
    var switches: nat
    var tracking: bool
    var startTime: Option<real>

    /** A new tracker: no switches, not tracking, no start time. */
    constructor()
      ensures switches == 0 && !tracking && startTime.None?
    {
      switches := 0;
      tracking := false;
      startTime := None;
    }

    /** From any state: tracking, counting from zero, started now. */
    method StartTracking(now: real)
      modifies this
      ensures tracking && switches == 0 && startTime == Some(now)
    {
      tracking := true;
      startTime := Some(now);
      switches := 0;
    }

    /** Only the flag changes: the count and the start time are kept. */
    method StopTracking()
      modifies this
      ensures !tracking && switches == old(switches) && startTime == old(startTime)
    {
      tracking := false;
    }

    /** One more switch while tracking; nothing changes otherwise. */
    method RecordSwitch()
      modifies this
      ensures old(tracking) ==> switches == old(switches) + 1
      ensures !old(tracking) ==> switches == old(switches)
      ensures tracking == old(tracking) && startTime == old(startTime)
    {
      if tracking {
        switches := switches + 1;
      }
    }

    /**
     * The count and the flag, with the whole seconds since the start only while tracking with
     * a start time set (a start time of 0 counts as unset); 0 otherwise.
     */
    function GetStats(now: real): (s: Stats)
      reads this
      ensures s.switches == switches && s.tracking == tracking
      ensures !(tracking && startTime.Some? && startTime.value != 0.0) ==> s.elapsed == 0
      ensures tracking && startTime.Some? && startTime.value != 0.0 ==> s.elapsed == Truncate(now - startTime.value)
      ensures tracking && startTime.Some? && startTime.value != 0.0 && startTime.value <= now ==>
        0 <= s.elapsed && s.elapsed as real <= now - startTime.value < s.elapsed as real + 1.0
    {
      var elapsed := if startTime.Some? && startTime.value != 0.0 && tracking then Truncate(now - startTime.value) else 0;
      Stats(switches, elapsed, tracking)
    }
  }

  /**
   * Start, `n` switches, stop, `m` further switches: the count is `n`, and a stats read
   * reports it and that tracking has stopped.
   */
  method Session(start: real, n: nat, m: nat, now: real) returns (s: Stats)
    ensures s.switches == n && !s.tracking && s.elapsed == 0
  {
    var t := new FocusTracker();
    t.StartTracking(start);
    var i := 0;
    while i < n
      invariant 0 <= i <= n
      invariant t.tracking && t.switches == i
    {
      t.RecordSwitch();
      i := i + 1;
    }
    t.StopTracking();
    var j := 0;
    while j < m
      invariant 0 <= j <= m
      invariant !t.tracking && t.switches == n
    {
      t.RecordSwitch();
      j := j + 1;
    }
    s := t.GetStats(now);
  }
}
