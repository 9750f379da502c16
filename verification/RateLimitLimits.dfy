/** The parameters for which the guarantees hold, and no others: runs that break them otherwise. */
module RateLimitLimits {
  import opened RateLimit
  import opened RateLimitTheorems

  const X: Ip := "x"

  /** Only `X` has called so far, and it has `tokens` left at time `t`. */
  ghost predicate Alone(cfg: Config, calls: seq<Call>, tokens: real, t: real) {
    && Monotone(calls) && calls != [] && Last(calls).at == t
    && forall gc :: Run(cfg, gc, calls) == map[X := Bucket(tokens, t)]
  }

  lemma MonotoneSnoc(calls: seq<Call>, c: Call)
    requires Monotone(calls) && (calls != [] ==> Last(calls).at <= c.at)
    ensures Monotone(calls + [c])
  {
  }

  /** Time to earn the rest of a token. */
  lemma WaitFor(cfg: Config, missing: real) returns (dt: real)
    requires Positive(cfg) && missing >= 0.0
    ensures dt >= 0.0 && Gain(cfg, dt) == missing
  {
    dt := missing / cfg.rate;
  }

  lemma OwnLevel(cfg: Config, m: Buckets, c: Call, t: real)
    requires Positive(cfg) && c.ip in m && m[c.ip].last == t && t <= c.at && 0.0 <= m[c.ip].tokens <= cfg.burst
    ensures Level(cfg, m, c.ip, c.at) ==
            var left := m[c.ip].tokens + Gain(cfg, c.at - t); if left <= cfg.burst then left else cfg.burst
  {
    hide Gain;
    GainZero(cfg);
    GainScales(cfg, 0.0, c.at - t);
  }

  lemma CallAlone(cfg: Config, calls: seq<Call>, tokens: real, t: real, dt: real)
    requires Positive(cfg) && Alone(cfg, calls, tokens, t) && dt >= 0.0 && 0.0 <= tokens <= cfg.burst
    requires 1.0 <= tokens + Gain(cfg, dt) <= cfg.burst
    ensures Alone(cfg, calls + [Call(X, t + dt)], tokens + Gain(cfg, dt) - 1.0, t + dt)
  {
    hide Gain, Level;
    var c := Call(X, t + dt);
    MonotoneSnoc(calls, c);
    assert t + dt - t == dt;
    forall gc ensures Run(cfg, gc, calls + [c]) == map[X := Bucket(tokens + Gain(cfg, dt) - 1.0, t + dt)] {
      var m := Run(cfg, gc, calls);
      AnswersSnoc(cfg, gc, calls, c);
      OwnLevel(cfg, m, c, t);
      assert Charge(cfg, m, c) == map[X := Bucket(tokens + Gain(cfg, dt) - 1.0, t + dt)];
    }
  }

  /** A caller can empty its bucket to exactly nothing. */
  lemma DrainFrom(cfg: Config, calls: seq<Call>, tokens: real, t: real) returns (calls': seq<Call>, t': real)
    requires Positive(cfg) && Alone(cfg, calls, tokens, t) && 0.0 <= tokens <= cfg.burst
    ensures Alone(cfg, calls', 0.0, t')
    decreases tokens.Floor
  {
    hide Alone, Gain;
    var dt := 0.0;
    GainZero(cfg);
    if tokens < 1.0 {
      dt := WaitFor(cfg, 1.0 - tokens);
    }
    CallAlone(cfg, calls, tokens, t, dt);
    if tokens < 1.0 {
      return calls + [Call(X, t + dt)], t + dt;
    }
    calls', t' := DrainFrom(cfg, calls + [Call(X, t + dt)], tokens - 1.0, t + dt);
  }

  lemma Drain(cfg: Config) returns (calls: seq<Call>, t: real)
    requires Positive(cfg)
    ensures Alone(cfg, calls, 0.0, t)
  {
    var first := [Call(X, 0.0)];
    assert Front(first) == [];
    EmptyLevel(cfg, X, 0.0);
    assert Alone(cfg, first, cfg.burst - 1.0, 0.0);
    calls, t := DrainFrom(cfg, first, cfg.burst - 1.0, 0.0);
  }

  // ---------------------------------------------------------------- Retry-After

  /** Call `k` comes at least a second after the denied call `i` of its ip, with none of that ip admitted in between. */
  predicate Waited(cfg: Config, calls: seq<Call>, i: nat, k: nat) {
    && Monotone(calls) && i < k < |calls| && calls[k].ip == calls[i].ip && calls[k].at >= calls[i].at + 1.0
    && forall j | i <= j < k && calls[j].ip == calls[i].ip :: !Answers(cfg, true, calls)[j]
  }

  ghost predicate RetryHonoured(cfg: Config) {
    forall calls: seq<Call>, i: nat, k: nat | Waited(cfg, calls, i, k) :: Answers(cfg, true, calls)[k]
  }

  /** Theorem: one second is the right thing to tell a denied caller exactly when at least one token drips per
      second, however short the idle period. */
  lemma RetryAfterExactly(cfg: Config)
    requires Positive(cfg)
    ensures RetryHonoured(cfg) <==> cfg.rate >= 1.0
  {
    if cfg.rate >= 1.0 {
      forall calls: seq<Call>, i: nat, k: nat | Waited(cfg, calls, i, k) ensures Answers(cfg, true, calls)[k] {
        RetryAfterOneSecond(cfg, true, calls, i, k);
      }
    } else {
      RetryTooEarly(cfg);
    }
  }

  lemma RetryTooEarly(cfg: Config)
    requires Positive(cfg) && cfg.rate < 1.0
    ensures !RetryHonoured(cfg)
  {
    hide Gain, Level, RetryHonoured;
    var calls, t := Drain(cfg);
    var c1, c2 := Call(X, t), Call(X, t + 1.0);
    GainZero(cfg);
    GainOfOne(cfg);
    var m := Run(cfg, true, calls);
    OwnLevel(cfg, m, c1, t);
    assert c1.at - t == 0.0 && c2.at - t == 1.0;
    AnswersSnoc(cfg, true, calls, c1);
    var m1 := Run(cfg, true, calls + [c1]);
    assert m1[X] == Bucket(0.0, t);
    OwnLevel(cfg, m1, c2, t);
    AnswersSnoc(cfg, true, calls + [c1], c2);
    MonotoneSnoc(calls, c1);
    MonotoneSnoc(calls + [c1], c2);
    TwoDenied(cfg, calls + [c1] + [c2]);
  }

  lemma TwoDenied(cfg: Config, calls: seq<Call>)
    requires Monotone(calls) && |calls| >= 2
    requires var c1, c2 := calls[|calls| - 2], calls[|calls| - 1]; c1.ip == c2.ip && c2.at >= c1.at + 1.0
    requires !Answers(cfg, true, calls)[|calls| - 2] && !Answers(cfg, true, calls)[|calls| - 1]
    ensures !RetryHonoured(cfg)
  {
    var i: nat, k: nat := |calls| - 2, |calls| - 1;
    assert Waited(cfg, calls, i, k);
  }

  // ---------------------------------------------------------------- reaping

  /** The reaping limiter answers every run as one that never reaps. */
  ghost predicate GcNeverSeen(cfg: Config) {
    forall calls: seq<Call> | Monotone(calls) :: Answers(cfg, true, calls) == Answers(cfg, false, calls)
  }

  /** The caller's own entry is never reaped by its own call. */
  lemma OwnAfter(cfg: Config, gc: bool, m: Buckets, c: Call, t: real)
    requires Positive(cfg)
    ensures Level(cfg, After(cfg, gc, m, c), c.ip, t) == Recharged(cfg, m, c, t)
  {
    hide Gain;
    ChargeOwn(cfg, m, c, t);
    var charged := Charge(cfg, m, c);
    assert !Expired(cfg, charged[c.ip], c.at);
    assert After(cfg, gc, m, c)[c.ip] == charged[c.ip];
  }

  /** The poorer machine has no token: as soon as the richer one has, a call tells them apart. */
  lemma TellNow(cfg: Config, gc: bool, calls: seq<Call>, gc': bool, calls': seq<Call>, t: real) returns (c: Call)
    requires Positive(cfg) && Monotone(calls) && Monotone(calls')
    requires (calls != [] ==> Last(calls).at <= t) && (calls' != [] ==> Last(calls').at <= t)
    requires Level(cfg, Run(cfg, gc, calls), X, t) > Level(cfg, Run(cfg, gc', calls'), X, t)
    requires Level(cfg, Run(cfg, gc', calls'), X, t) < 1.0
    ensures Monotone(calls + [c]) && Monotone(calls' + [c])
    ensures Admits(cfg, Run(cfg, gc, calls), c) && !Admits(cfg, Run(cfg, gc', calls'), c)
  {
    hide Level, Gain, Run, Monotone;
    var m, m' := Run(cfg, gc, calls), Run(cfg, gc', calls');
    var v := Level(cfg, m, X, t);
    RunSettled(cfg, gc, calls, t);
    RunSettled(cfg, gc', calls', t);
    var dt := 0.0;
    GainZero(cfg);
    if v < 1.0 {
      dt := WaitFor(cfg, 1.0 - v);
    }
    c := Call(X, t + dt);
    assert t + dt - t == dt;
    MonotoneSnoc(calls, c);
    MonotoneSnoc(calls', c);
    RefillsCompose(cfg, m, X, t, t);
    RefillsCompose(cfg, m, X, t, t + dt);
    RefillsCompose(cfg, m', X, t, t + dt);
  }

  /** Whenever one machine has more tokens for a caller than the other, calls of that caller bring it to light. */
  lemma Distinguish(cfg: Config, gc: bool, calls: seq<Call>, gc': bool, calls': seq<Call>, t: real)
    returns (s: seq<Call>, c: Call)
    requires Positive(cfg) && Monotone(calls) && Monotone(calls')
    requires (calls != [] ==> Last(calls).at <= t) && (calls' != [] ==> Last(calls').at <= t)
    requires Level(cfg, Run(cfg, gc, calls), X, t) > Level(cfg, Run(cfg, gc', calls'), X, t)
    ensures Monotone(calls + s + [c]) && Monotone(calls' + s + [c])
    ensures Admits(cfg, Run(cfg, gc, calls + s), c) && !Admits(cfg, Run(cfg, gc', calls' + s), c)
    decreases Level(cfg, Run(cfg, gc, calls), X, t).Floor
  {
    hide Level, Gain, Run, Monotone, Admits;
    if Level(cfg, Run(cfg, gc', calls'), X, t) >= 1.0 {
      var first := Call(X, t);
      MonotoneSnoc(calls, first);
      MonotoneSnoc(calls', first);
      OneCallEach(cfg, gc, calls, t);
      OneCallEach(cfg, gc', calls', t);
      s, c := Distinguish(cfg, gc, calls + [first], gc', calls' + [first], t);
      s := [first] + s;
      assert calls + s == calls + [first] + s[1..] && calls' + s == calls' + [first] + s[1..];
    } else {
      s := [];
      c := TellNow(cfg, gc, calls, gc', calls', t);
      assert calls + s == calls && calls' + s == calls';
    }
  }

  /** A caller with a token to spare loses one by calling. */
  lemma OneCallEach(cfg: Config, gc: bool, calls: seq<Call>, t: real)
    requires Positive(cfg) && Monotone(calls) && (calls != [] ==> Last(calls).at <= t)
    requires Level(cfg, Run(cfg, gc, calls), X, t) >= 1.0
    ensures Level(cfg, Run(cfg, gc, calls + [Call(X, t)]), X, t) == Level(cfg, Run(cfg, gc, calls), X, t) - 1.0
  {
    hide Level, After, Gain, Run;
    var m, c := Run(cfg, gc, calls), Call(X, t);
    RunSettled(cfg, gc, calls, t);
    RefillsCompose(cfg, m, X, t, t);
    AnswersSnoc(cfg, gc, calls, c);
    OwnAfter(cfg, gc, m, c, t);
    GainZero(cfg);
    assert t - c.at == 0.0;
  }

  /** The i-th of many other callers. */
  function Other(i: nat): Ip {
    seq(i + 2, _ => 'y')
  }

  /** Calls of the other callers from the n-th on, as many as make the map large enough to be reaped. */
  function CrowdFrom(n: nat, t: real): seq<Call>
    decreases GC_THRESHOLD - n
  {
    if n >= GC_THRESHOLD then [] else [Call(Other(n), t)] + CrowdFrom(n + 1, t)
  }

  /** `n` other callers called no later than `t` after `X` was left with bucket `b`; nothing was reaped. */
  ghost predicate Crowd(cfg: Config, calls: seq<Call>, b: Bucket, t: real, n: nat) {
    && Monotone(calls) && calls != [] && Last(calls).at <= t
    && Run(cfg, true, calls) == Run(cfg, false, calls)
    && var m := Run(cfg, true, calls);
       && |m| == n + 1 && X in m && m[X] == b
       && forall i: nat | n <= i :: Other(i) !in m
  }

  lemma OneMoreCaller(cfg: Config, calls: seq<Call>, b: Bucket, t: real, n: nat)
    requires Positive(cfg) && Crowd(cfg, calls, b, t, n) && n < GC_THRESHOLD
    ensures var calls' := calls + [Call(Other(n), t)];
            && Monotone(calls') && Last(calls').at == t
            && (n + 1 < GC_THRESHOLD ==> Crowd(cfg, calls', b, t, n + 1))
            && (n + 1 == GC_THRESHOLD ==> Reaped(cfg, calls', b, t))
  {
    hide Level, Gain, Run;
    var c := Call(Other(n), t);
    var m := Run(cfg, true, calls);
    assert |Other(n)| == n + 2 && |X| == 1;
    MonotoneSnoc(calls, c);
    AnswersSnoc(cfg, true, calls, c);
    AnswersSnoc(cfg, false, calls, c);
    NewcomerAdmitted(cfg, m, c);
    var charged := Charge(cfg, m, c);
    assert charged.Keys == m.Keys + {c.ip} && |charged| == |charged.Keys| && |m| == |m.Keys|;
    assert |charged| == n + 2;
    forall i: nat | n + 1 <= i ensures Other(i) !in charged {
      assert |Other(i)| == i + 2;
    }
  }

  /** At time `t` the map was reaped for the first time; the limiter that never reaps still has the bucket of `X`. */
  ghost predicate Reaped(cfg: Config, calls: seq<Call>, b: Bucket, t: real) {
    var m, m' := Run(cfg, true, calls), Run(cfg, false, calls);
    && Monotone(calls) && calls != [] && Last(calls).at == t
    && X in m' && m'[X] == b && (X in m <==> !Expired(cfg, b, t)) && (X in m ==> m[X] == b)
  }

  lemma Fill(cfg: Config, calls: seq<Call>, b: Bucket, t: real, n: nat)
    requires Positive(cfg) && Crowd(cfg, calls, b, t, n) && n < GC_THRESHOLD
    ensures Reaped(cfg, calls + CrowdFrom(n, t), b, t)
    decreases GC_THRESHOLD - n
  {
    hide Crowd, Reaped;
    var c := Call(Other(n), t);
    OneMoreCaller(cfg, calls, b, t, n);
    assert calls + CrowdFrom(n, t) == calls + [c] + CrowdFrom(n + 1, t);
    if n + 1 < GC_THRESHOLD {
      Fill(cfg, calls + [c], b, t, n + 1);
    } else {
      assert calls + [c] + [] == calls + [c];
    }
  }

  /** All of them. */
  function Others(t: real): seq<Call> {
    CrowdFrom(0, t)
  }

  lemma FillAll(cfg: Config, calls: seq<Call>, tokens: real, t0: real, t: real)
    requires Positive(cfg) && Alone(cfg, calls, tokens, t0) && t0 <= t
    ensures Reaped(cfg, calls + Others(t), Bucket(tokens, t0), t)
  {
    hide Alone, Crowd, Reaped, CrowdFrom;
    NoCrowdYet(cfg, calls, tokens, t0, t);
    Fill(cfg, calls, Bucket(tokens, t0), t, 0);
  }

  /** Only `X` has called so far. */
  lemma NoCrowdYet(cfg: Config, calls: seq<Call>, tokens: real, t0: real, t: real)
    requires Alone(cfg, calls, tokens, t0) && t0 <= t
    ensures Crowd(cfg, calls, Bucket(tokens, t0), t, 0)
  {
    assert forall i: nat :: |Other(i)| == i + 2 && |X| == 1;
  }

  /** An entry can be reaped before its bucket is full. */
  predicate ShortIdle(cfg: Config) {
    cfg.idle * cfg.rate < cfg.burst
  }

  /** A moment after which an entry is reaped although its bucket is not yet full; the excess over the idle
      period is too short to earn a token. */
  lemma TooSoon(cfg: Config) returns (extra: real)
    requires Positive(cfg) && ShortIdle(cfg)
    ensures extra > 0.0 && Gain(cfg, cfg.idle + extra) < cfg.burst && 0.0 <= Gain(cfg, extra) < 1.0
  {
    hide Gain, ShortIdle;
    var full := WaitFor(cfg, cfg.burst);
    var one := WaitFor(cfg, 1.0);
    IdleBelow(cfg, full);
    extra := if full - cfg.idle < one then (full - cfg.idle) / 2.0 else one / 2.0;
    GainZero(cfg);
    if one <= 0.0 {
      GainScales(cfg, one, 0.0);
    }
    GainGrows(cfg, cfg.idle + extra, full);
    GainGrows(cfg, extra, one);
    GainScales(cfg, 0.0, extra);
  }

  /** The idle period is shorter than the time in which the whole bucket drips. */
  lemma IdleBelow(cfg: Config, full: real)
    requires Positive(cfg) && ShortIdle(cfg) && Gain(cfg, full) == cfg.burst
    ensures cfg.idle < full
  {
    assert Gain(cfg, cfg.idle) < Gain(cfg, full);
    hide Gain, ShortIdle;
    if full <= cfg.idle {
      GainScales(cfg, full, cfg.idle);
    }
  }

  lemma GainGrows(cfg: Config, dt: real, dt': real)
    requires Positive(cfg)
    ensures dt < dt' ==> Gain(cfg, dt) < Gain(cfg, dt')
  {
    if dt < dt' {
      assert (dt' - dt) * cfg.rate > 0.0;
    }
  }

  lemma LastDiffers(a: seq<bool>, b: seq<bool>)
    ensures a + [true] != b + [false]
  {
    assert (a + [true])[|a|] && !(b + [false])[|b|];
  }

  /** A bucket that has not been touched for `dt`, too short a time to fill it. */
  lemma NotFull(cfg: Config, m: Buckets, tokens: real, t0: real, dt: real)
    requires Positive(cfg) && dt >= 0.0 && 0.0 <= tokens <= cfg.burst && tokens + Gain(cfg, dt) < cfg.burst
    requires X in m && m[X] == Bucket(tokens, t0)
    ensures Level(cfg, m, X, t0 + dt) < cfg.burst
  {
    hide Gain;
    assert t0 + dt - t0 == dt;
    OwnLevel(cfg, m, Call(X, t0 + dt), t0);
  }

  /** The reaping limiter forgets `X` although its bucket is not full. */
  lemma ForgottenEarly(cfg: Config) returns (calls: seq<Call>, t: real)
    requires Positive(cfg) && ShortIdle(cfg)
    ensures Monotone(calls) && calls != [] && Last(calls).at == t
    ensures Level(cfg, Run(cfg, true, calls), X, t) > Level(cfg, Run(cfg, false, calls), X, t)
  {
    hide Gain, Level, Run, Alone, Others, Monotone, Positive, Reaped, ShortIdle, Last;
    var extra := TooSoon(cfg);
    var drained, t0 := Drain(cfg);
    t := t0 + (cfg.idle + extra);
    IdlePositive(cfg);
    FillAll(cfg, drained, 0.0, t0, t);
    calls := drained + Others(t);
    ReapedEnds(cfg, calls, Bucket(0.0, t0), t);
    ReapedOrNot(cfg, calls, 0.0, t0, cfg.idle + extra);
    NotReaped(cfg, calls, 0.0, t0, cfg.idle + extra);
  }

  lemma IdlePositive(cfg: Config)
    requires Positive(cfg)
    ensures cfg.idle >= 0.0 && cfg.burst >= 1.0
  {
  }

  lemma GcSeen(cfg: Config)
    requires Positive(cfg) && ShortIdle(cfg)
    ensures !GcNeverSeen(cfg)
  {
    var calls, t := ForgottenEarly(cfg);
    hide Level, Run, Answers, Admits, Monotone, Positive, ShortIdle;
    var s, c := Distinguish(cfg, true, calls, false, calls, t);
    AnswersSnoc(cfg, true, calls + s, c);
    AnswersSnoc(cfg, false, calls + s, c);
    LastDiffers(Answers(cfg, true, calls + s), Answers(cfg, false, calls + s));
    assert Monotone(calls + s + [c]);
  }

  lemma AbsentLevel(cfg: Config, m: Buckets, t: real)
    requires Positive(cfg) && X !in m
    ensures Level(cfg, m, X, t) == cfg.burst
  {
    hide Gain;
    GainZero(cfg);
  }

  /** Theorem: reaping goes unnoticed in every run exactly when an idle period is long enough to fill a bucket. */
  lemma GcNeverSeenExactly(cfg: Config)
    requires Positive(cfg)
    ensures GcNeverSeen(cfg) <==> cfg.idle * cfg.rate >= cfg.burst
  {
    if cfg.idle * cfg.rate >= cfg.burst {
      forall calls: seq<Call> | Monotone(calls) ensures Answers(cfg, true, calls) == Answers(cfg, false, calls) {
        GcInvisible(cfg, calls, if calls == [] then 0.0 else Last(calls).at);
      }
    } else {
      GcSeen(cfg);
    }
  }

  /** Theorem: so the two numbers per ip answer like the full log on every run under the same condition, and no
      other. */
  lemma RefinesLogExactly(cfg: Config)
    requires Positive(cfg)
    ensures (forall calls: seq<Call> | Monotone(calls) :: Answers(cfg, true, calls) == LogAnswers(cfg, calls)) <==>
            cfg.idle * cfg.rate >= cfg.burst
  {
    hide Answers, LogAnswers;
    forall calls: seq<Call> | Monotone(calls) ensures Answers(cfg, false, calls) == LogAnswers(cfg, calls) {
      BucketRefinesLog(cfg, false, calls, if calls == [] then 0.0 else Last(calls).at);
    }
    GcNeverSeenExactly(cfg);
  }

  // ---------------------------------------------------------------- dropping denied calls

  /** Dropping denied calls changes no other answer, in any run. */
  ghost predicate DenialsNeutral(cfg: Config) {
    forall calls: seq<Call>, keep: seq<bool> |
      Monotone(calls) && DropsOnlyDenied(Answers(cfg, true, calls), keep) ::
      Answers(cfg, true, Kept(calls, keep)) == Kept(Answers(cfg, true, calls), keep)
  }

  /** `rest` is the run without some of its denied calls. */
  ghost predicate Dropped(cfg: Config, calls: seq<Call>, keep: seq<bool>, rest: seq<Call>) {
    DropsOnlyDenied(Answers(cfg, true, calls), keep) && Kept(calls, keep) == rest
  }

  lemma DroppedSnoc(cfg: Config, calls: seq<Call>, keep: seq<bool>, rest: seq<Call>, c: Call, kept: bool)
    requires Dropped(cfg, calls, keep, rest) && (kept || !Admits(cfg, Run(cfg, true, calls), c))
    ensures Dropped(cfg, calls + [c], keep + [kept], if kept then rest + [c] else rest)
    ensures Kept(Answers(cfg, true, calls + [c]), keep + [kept]) ==
            Kept(Answers(cfg, true, calls), keep) + if kept then [Admits(cfg, Run(cfg, true, calls), c)] else []
  {
    hide Admits, Run, Answers, Kept;
    var ok, ans := Admits(cfg, Run(cfg, true, calls), c), Answers(cfg, true, calls);
    AnswersSnoc(cfg, true, calls, c);
    assert Front(keep + [kept]) == keep;
    KeptSnoc(calls, c, keep + [kept]);
    KeptSnoc(ans, ok, keep + [kept]);
    forall i | 0 <= i < |keep| + 1 ensures (keep + [kept])[i] || !(ans + [ok])[i] {
      if i < |keep| {
        assert keep[i] || !ans[i];
      }
    }
  }

  lemma {:induction false} DroppedConcat(cfg: Config, calls: seq<Call>, keep: seq<bool>, rest: seq<Call>, s: seq<Call>)
    returns (keep': seq<bool>)
    requires Dropped(cfg, calls, keep, rest)
    ensures Dropped(cfg, calls + s, keep', rest + s)
  {
    hide Dropped;
    if s == [] {
      assert calls + s == calls && rest + s == rest;
      return keep;
    }
    keep' := DroppedConcat(cfg, calls, keep, rest, Front(s));
    DroppedSnoc(cfg, calls + Front(s), keep', rest + Front(s), Last(s), true);
    assert calls + s == calls + Front(s) + [Last(s)] && rest + s == rest + Front(s) + [Last(s)];
    keep' := keep' + [true];
  }

  /** `X` calls again too early for a token: only the time of its last call changes. */
  lemma CallDenied(cfg: Config, calls: seq<Call>, t: real, dt: real)
    requires Positive(cfg) && Alone(cfg, calls, 0.0, t) && dt >= 0.0 && 0.0 <= Gain(cfg, dt) < 1.0
    ensures !Admits(cfg, Run(cfg, true, calls), Call(X, t + dt))
    ensures Alone(cfg, calls + [Call(X, t + dt)], Gain(cfg, dt), t + dt)
  {
    hide Gain, Level;
    var c := Call(X, t + dt);
    MonotoneSnoc(calls, c);
    assert t + dt - t == dt;
    forall gc ensures Run(cfg, gc, calls + [c]) == map[X := Bucket(Gain(cfg, dt), t + dt)] {
      var m := Run(cfg, gc, calls);
      AnswersSnoc(cfg, gc, calls, c);
      OwnLevel(cfg, m, c, t);
      assert Charge(cfg, m, c) == map[X := Bucket(Gain(cfg, dt), t + dt)];
    }
    OwnLevel(cfg, Run(cfg, true, calls), c, t);
  }

  /** A bucket idle for too long is gone, and one that is not is still there. */
  lemma ReapedOrNot(cfg: Config, calls: seq<Call>, tokens: real, t0: real, dt: real)
    requires Positive(cfg) && Reaped(cfg, calls, Bucket(tokens, t0), t0 + dt) && dt >= 0.0 && 0.0 <= tokens <= cfg.burst
    ensures dt > cfg.idle ==> Level(cfg, Run(cfg, true, calls), X, t0 + dt) == cfg.burst
    ensures dt <= cfg.idle && tokens + Gain(cfg, dt) < cfg.burst ==>
              Level(cfg, Run(cfg, true, calls), X, t0 + dt) < cfg.burst
  {
    hide Gain, Level, Run;
    var m := Run(cfg, true, calls);
    if dt > cfg.idle {
      AbsentLevel(cfg, m, t0 + dt);
    } else if tokens + Gain(cfg, dt) < cfg.burst {
      NotFull(cfg, m, tokens, t0, dt);
    }
  }

  /** The limiter that never reaps still has it. */
  lemma NotReaped(cfg: Config, calls: seq<Call>, tokens: real, t0: real, dt: real)
    requires Positive(cfg) && Reaped(cfg, calls, Bucket(tokens, t0), t0 + dt) && dt >= 0.0 && 0.0 <= tokens <= cfg.burst
    requires tokens + Gain(cfg, dt) < cfg.burst
    ensures Level(cfg, Run(cfg, false, calls), X, t0 + dt) < cfg.burst
  {
    hide Gain, Level, Run;
    NotFull(cfg, Run(cfg, false, calls), tokens, t0, dt);
  }

  /** The full run, with a denied call of `X` in it, and the same run without that call. */
  lemma TwoRuns(cfg: Config, drained: seq<Call>, denied: Call, others: seq<Call>) returns (keep: seq<bool>)
    requires !Admits(cfg, Run(cfg, true, drained), denied)
    ensures Dropped(cfg, drained + [denied] + others, keep, drained + others)
  {
    hide Run, Answers, Dropped, Admits;
    NothingDropped(cfg);
    keep := DroppedConcat(cfg, [], [], [], drained);
    assert [] + drained == drained;
    DroppedSnoc(cfg, drained, keep, drained, denied, false);
    keep := DroppedConcat(cfg, drained + [denied], keep + [false], drained, others);
  }

  /** A denied call keeps its entry from being reaped; without it the caller is forgotten and starts anew. */
  lemma SavedByDenial(cfg: Config) returns (calls: seq<Call>, keep: seq<bool>, rest: seq<Call>, t: real)
    requires Positive(cfg) && ShortIdle(cfg)
    ensures Dropped(cfg, calls, keep, rest) && Monotone(calls) && Monotone(rest)
    ensures calls != [] && rest != [] && Last(calls).at == t == Last(rest).at
    ensures Level(cfg, Run(cfg, true, rest), X, t) > Level(cfg, Run(cfg, true, calls), X, t)
  {
    hide Gain, Level, Run, Alone, Others, Dropped, Admits, Monotone, Positive, Reaped, ShortIdle, Last;
    var extra := TooSoon(cfg);
    var drained, t0 := Drain(cfg);
    var t1, tokens := t0 + extra, Gain(cfg, extra);
    CallDenied(cfg, drained, t0, extra);
    t := t1 + cfg.idle;
    keep := TwoRuns(cfg, drained, Call(X, t1), Others(t));
    calls, rest := drained + [Call(X, t1)] + Others(t), drained + Others(t);
    IdlePositive(cfg);
    FillAll(cfg, drained, 0.0, t0, t);
    FillAll(cfg, drained + [Call(X, t1)], tokens, t1, t);
    ReapedEnds(cfg, rest, Bucket(0.0, t0), t);
    ReapedEnds(cfg, calls, Bucket(tokens, t1), t);
    GainAdds(cfg, extra, cfg.idle);
    assert extra + cfg.idle == cfg.idle + extra && t == t0 + (cfg.idle + extra);
    ReapedOrNot(cfg, rest, 0.0, t0, cfg.idle + extra);
    ReapedOrNot(cfg, calls, tokens, t1, cfg.idle);
  }

  lemma ReapedEnds(cfg: Config, calls: seq<Call>, b: Bucket, t: real)
    requires Reaped(cfg, calls, b, t)
    ensures Monotone(calls) && calls != [] && Last(calls).at == t
  {
  }

  lemma DenialMatters(cfg: Config)
    requires Positive(cfg) && ShortIdle(cfg)
    ensures !DenialsNeutral(cfg)
  {
    var calls, keep, rest, t := SavedByDenial(cfg);
    hide Level, Run, Answers, Dropped, Admits, Monotone, Positive, ShortIdle;
    var s, c := Distinguish(cfg, true, rest, true, calls, t);
    keep := DroppedConcat(cfg, calls, keep, rest, s);
    DroppedSnoc(cfg, calls + s, keep, rest + s, c, true);
    AnswersSnoc(cfg, true, rest + s, c);
    LastDiffers(Answers(cfg, true, rest + s), Kept(Answers(cfg, true, calls + s), keep));
    NotNeutral(cfg, calls + s + [c], keep + [true], rest + s + [c]);
  }

  lemma NothingDropped(cfg: Config)
    ensures Dropped(cfg, [], [], [])
  {
  }

  lemma NotNeutral(cfg: Config, calls: seq<Call>, keep: seq<bool>, rest: seq<Call>)
    requires Monotone(calls) && Dropped(cfg, calls, keep, rest)
    requires Answers(cfg, true, rest) != Kept(Answers(cfg, true, calls), keep)
    ensures !DenialsNeutral(cfg)
  {
  }

  /** Theorem: denied calls leave no trace in any run exactly when an idle period is long enough to fill a bucket;
      otherwise a denied call can save its caller's entry from being reaped. */
  lemma DenialsNeutralExactly(cfg: Config)
    requires Positive(cfg)
    ensures DenialsNeutral(cfg) <==> cfg.idle * cfg.rate >= cfg.burst
  {
    hide Answers, Kept, Agree;
    if cfg.idle * cfg.rate >= cfg.burst {
      forall calls: seq<Call>, keep: seq<bool> | Monotone(calls) && DropsOnlyDenied(Answers(cfg, true, calls), keep)
        ensures Answers(cfg, true, Kept(calls, keep)) == Kept(Answers(cfg, true, calls), keep)
      {
        DeniedCallsNeutral(cfg, true, calls, keep, if calls == [] then 0.0 else Last(calls).at);
      }
    } else {
      assert ShortIdle(cfg);
      DenialMatters(cfg);
    }
  }
}
