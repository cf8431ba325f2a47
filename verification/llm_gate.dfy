/** The gate that says whether a model tier is down, and the probe budget while it is. Times are seconds on the
    monotonic clock. */
module LlmGate {
  import opened Sequences

  const CACHE_TTL: int := 5

  /** The lake timestamps of a tier's newest error and newest heartbeat; None when there is none or the query failed. */
  datatype Reading = Reading(error: Option<int>, heartbeat: Option<int>)

  predicate Down(r: Reading) {
    r.error.Some? && (r.heartbeat.None? || r.error.value > r.heartbeat.value)
  }

  /** A budget of one probe per interval and key; a key without a probe counts as probed at time zero. */
  function LastProbe(probes: map<string, int>, key: string): int { if key in probes then probes[key] else 0 }

  datatype Cached = Cached(at: int, reading: Reading)

  class Gate {
    var cache: Option<Cached>
    var lastProbeAt: map<string, int>

    /** The cached reading is what the lake held when it was cached. */
    ghost predicate Valid(lake: int -> Reading, now: int)
      reads this
    {
      cache.Some? ==> cache.value.at <= now && cache.value.reading == lake(cache.value.at)
    }

    constructor ()
      ensures cache == None && lastProbeAt == map[]
    {
      cache, lastProbeAt := None, map[];
    }

    /** Answers for a state of the lake that is less than five seconds old. */
    method IsDown(lake: int -> Reading, now: int) returns (down: bool)
      requires Valid(lake, now)
      modifies this`cache
      ensures Valid(lake, now)
      ensures exists at :: now - 5 < at <= now && down == Down(lake(at))
      ensures old(cache) == None ==>
        (down <==> lake(now).error.Some?
                   && (lake(now).heartbeat.Some? ==> lake(now).error.value > lake(now).heartbeat.value))
    {
      if cache.Some? && now - cache.value.at < CACHE_TTL {
        return Down(cache.value.reading);
      }
      cache := Some(Cached(now, lake(now)));
      down := Down(lake(now));
    }

    method InvalidateCache()
      modifies this`cache
      ensures cache == None
    {
      cache := None;
    }

    method ClaimProbe(key: string, interval: int, now: int) returns (granted: bool)
      modifies this`lastProbeAt
      ensures granted <==> now - old(LastProbe(lastProbeAt, key)) >= interval
      ensures LastProbe(lastProbeAt, key) == if granted then now else old(LastProbe(lastProbeAt, key))
      ensures forall other :: other != key ==> LastProbe(lastProbeAt, other) == old(LastProbe(lastProbeAt, other))
    {
      var last := LastProbe(lastProbeAt, key);
      if now - last < interval {
        return false;
      }
      lastProbeAt := lastProbeAt[key := now];
      granted := true;
    }
  }
}
