/** The limiter object: a bucket map updated in place on every call. */
module RateLimiting {
  import opened RateLimit
  import opened RateLimitTheorems

  class RateLimiter {
    const cfg: Config
    var state: Buckets
    ghost var log: seq<Call>  // every call answered so far

    ghost predicate Valid()
      reads this
    {
      Monotone(log) && state == Run(cfg, true, log)
    }

    constructor (rate: real, burst: real, idle: real)
      ensures Valid() && cfg == Config(rate, burst, idle) && log == []
    {
      cfg := Config(rate, burst, idle);
      state := map[];
      log := [];
    }

    /** Answers one call at time `now`; with sound parameters the answer is the one the full log gives. */
    method Allow(ip: Ip, now: real) returns (ok: bool)
      requires Valid() && (log != [] ==> Last(log).at <= now)
      modifies this
      ensures Valid() && log == old(log) + [Call(ip, now)]
      ensures ok == Admits(cfg, old(state), Call(ip, now))
      ensures Sound(cfg, true) ==> (ok <==> WindowOpen(cfg, log, LogAnswers(cfg, old(log))))
    {
      hide Gain, Monotone, LogAnswers, WindowOpen, Sound, Run, Reap;
      ghost var before, c := state, Call(ip, now);
      if ip !in state {
        state := state[ip := Bucket(cfg.burst, now)];
      }
      var tokens := ClampFloat(Refilled(cfg, state[ip], now), 0.0, cfg.burst);
      assert tokens == Level(cfg, before, ip, now);
      ok := tokens >= 1.0;
      state := state[ip := Bucket(if ok then tokens - 1.0 else tokens, now)];
      assert state == Charge(cfg, before, c);
      if ok && |state| > GC_THRESHOLD {
        ReapIdle(now);
      }
      log := log + [c];
      Recorded(cfg, old(log), c);
    }

    /** The reaping loop: entries are visited in any order and deleted while iterating. */
    method ReapIdle(now: real)
      modifies this`state
      ensures state == Reap(cfg, old(state), now)
    {
      var todo := state.Keys;
      while todo != {}
        invariant todo <= state.Keys <= old(state).Keys
        invariant forall k | k in state :: state[k] == old(state)[k] && (k in todo || !Expired(cfg, state[k], now))
        invariant forall k | k in old(state) && k !in state :: Expired(cfg, old(state)[k], now)
        decreases todo
      {
        var k :| k in todo;
        if now - state[k].last > cfg.idle {
          state := state - {k};
        }
        todo := todo - {k};
      }
    }
  }

  /** Appending a call to the log appends its answer to both limiters. */
  lemma Recorded(cfg: Config, log: seq<Call>, c: Call)
    requires Monotone(log) && (log != [] ==> Last(log).at <= c.at)
    ensures Monotone(log + [c]) && Run(cfg, true, log + [c]) == After(cfg, true, Run(cfg, true, log), c)
    ensures Sound(cfg, true) ==>
              (Admits(cfg, Run(cfg, true, log), c) <==> WindowOpen(cfg, log + [c], LogAnswers(cfg, log)))
  {
    hide Gain, Level, Budget, After;
    var calls := log + [c];
    assert Front(calls) == log;
    if Sound(cfg, true) {
      BucketRefinesLog(cfg, true, calls, c.at);
      assert Last(Answers(cfg, true, calls)) == Last(LogAnswers(cfg, calls));
    }
  }
}
