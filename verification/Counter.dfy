/** The shared connection counter (src/counter.rs): one atomic cell, a
    compare-exchange loop for the capped increment, and a saturating
    decrement that reports a separate, later load. */
module Counter {
  import opened Prelude
  import opened Codec

  /** What this thread finds in the cell at its k-th access, as long as it has
      not written itself: other threads leave `env[k]` there just before the
      access, and nothing once `env` is used up. */
  function Met(env: seq<nat>, k: nat, start: nat): nat {
    if env == [] then start else if k < |env| then env[k] else env[|env| - 1]
  }

  class ConnectionCounter {
    var inner: nat

    constructor ()
      ensures inner == 0
    {
      inner := 0;
    }

    /** Other threads may write the cell between two accesses of this one. */
    method Interfere(env: seq<nat>, k: nat)
      modifies this
      ensures inner == if k < |env| then env[k] else old(inner)
    {
      if k < |env| { inner := env[k]; }
    }

    /** The retry loop. Whatever the other threads do, it writes at most once,
        only from a value below the limit to its successor and only when the
        load and the compare-exchange met the same value; it refuses only on
        meeting a value that had reached the limit, and then has written
        nothing. `accesses` counts its atomic operations. */
    method Increment(max: Option<nat>, env: seq<nat>) returns (r: Result<nat, WsError>, accesses: nat)
      modifies this
      ensures r.Ok? ==> inner == r.value
      ensures max.None? ==> r == Ok(Met(env, 0, old(inner)) + 1)
      ensures max.Some? && r.Ok? ==>
                accesses >= 2 && 1 <= r.value <= max.value
                && Met(env, accesses - 2, old(inner)) == Met(env, accesses - 1, old(inner)) == r.value - 1
      ensures max.Some? && r.Err? ==>
                r.error == TooManyConnections && accesses >= 1
                && inner == Met(env, accesses - 1, old(inner)) >= max.value
      ensures accesses <= |env| + 2
    {
      match max {
        case None =>
          Interfere(env, 0);
          inner := inner + 1;
          return Ok(inner), 1;
        case Some(limit) =>
          accesses := 0;
          while true
            invariant accesses <= |env|
            invariant inner == if accesses == 0 then old(inner) else env[accesses - 1]
            decreases |env| - accesses
          {
            Interfere(env, accesses);
            accesses := accesses + 1;
            var current := inner;
            if current >= limit {
              return Err(TooManyConnections), accesses;
            }
            Interfere(env, accesses);
            accesses := accesses + 1;
            if inner == current {
              inner := current + 1;
              return Ok(current + 1), accesses;
            }
          }
      }
    }

    /** A saturating update, then a separate load that other threads may
        precede: the result is the count after the decrement only when they
        leave it alone in between. */
    method Decrement(env: seq<nat>) returns (r: nat)
      modifies this
      ensures var met := Met(env, 0, old(inner));
              var left := if met == 0 then 0 else met - 1;
              r == inner == if |env| > 1 then env[1] else left
    {
      Interfere(env, 0);
      if inner != 0 { inner := inner - 1; }
      Interfere(env, 1);
      r := inner;
    }
  }
}
