/** What the token bucket guarantees over whole runs. */
module RateLimitTheorems {
  import opened RateLimit

  // ---------------------------------------------------------------- GC is invisible

  /** No later caller can tell the two maps apart. */
  ghost predicate SameLevels(cfg: Config, m: Buckets, m': Buckets, now: real) {
    forall ip, t | now <= t :: Level(cfg, m, ip, t) == Level(cfg, m', ip, t)
  }

  lemma SameLevelsAfter(cfg: Config, gc: bool, gc': bool, m: Buckets, m': Buckets, c: Call)
    requires Sound(cfg, gc) && Sound(cfg, gc') && Settled(cfg, m, c.at) && Settled(cfg, m', c.at)
             && SameLevels(cfg, m, m', c.at)
    ensures Admits(cfg, m, c) == Admits(cfg, m', c)
    ensures SameLevels(cfg, After(cfg, gc, m, c), After(cfg, gc', m', c), c.at)
  {
    hide Gain;
    forall ip, t | c.at <= t
      ensures Level(cfg, After(cfg, gc, m, c), ip, t) == Level(cfg, After(cfg, gc', m', c), ip, t)
    {
      LevelAfter(cfg, gc, m, c, ip, t);
      LevelAfter(cfg, gc', m', c, ip, t);
    }
  }

  /** Theorem: the reaping limiter gives the same answer to every call of every run as one that
      never deletes an entry. */
  lemma {:induction false} GcInvisible(cfg: Config, calls: seq<Call>, now: real)
    requires Sound(cfg, true) && Monotone(calls) && (calls != [] ==> Last(calls).at <= now)
    ensures Answers(cfg, true, calls) == Answers(cfg, false, calls)
    ensures SameLevels(cfg, Run(cfg, true, calls), Run(cfg, false, calls), now)
  {
    hide Gain;
    if calls != [] {
      var c := Last(calls);
      GcInvisible(cfg, Front(calls), c.at);
      RunSettled(cfg, true, Front(calls), c.at);
      RunSettled(cfg, false, Front(calls), c.at);
      SameLevelsAfter(cfg, true, false, Run(cfg, true, Front(calls)), Run(cfg, false, Front(calls)), c);
    }
  }

  lemma ShippedLimitersAreSound()
    ensures Sound(PUBLIC_LOGIN, true) && Sound(PUBLIC_WRITE, true)
  {
  }

  // ---------------------------------------------------------------- denied calls are neutral

  lemma AnswersSnoc(cfg: Config, gc: bool, calls: seq<Call>, c: Call)
    ensures Answers(cfg, gc, calls + [c]) == Answers(cfg, gc, calls) + [Admits(cfg, Run(cfg, gc, calls), c)]
    ensures Run(cfg, gc, calls + [c]) == After(cfg, gc, Run(cfg, gc, calls), c)
  {
    assert Front(calls + [c]) == calls;
  }

  lemma KeptSnoc<T>(s: seq<T>, x: T, keep: seq<bool>)
    requires |keep| == |s| + 1
    ensures Kept(s + [x], keep) == if Last(keep) then Kept(s, Front(keep)) + [x] else Kept(s, Front(keep))
  {
    assert Front(s + [x]) == s;
  }

  /** What the induction carries: the same answers, and maps nobody can tell apart. */
  ghost predicate Agree(cfg: Config, gc: bool, calls: seq<Call>, calls': seq<Call>, now: real) {
    && Settled(cfg, Run(cfg, gc, calls), now) && Settled(cfg, Run(cfg, gc, calls'), now)
    && SameLevels(cfg, Run(cfg, gc, calls), Run(cfg, gc, calls'), now)
  }

  lemma AgreeKept(cfg: Config, gc: bool, calls: seq<Call>, calls': seq<Call>, c: Call, now: real)
    requires Sound(cfg, gc) && Agree(cfg, gc, calls, calls', c.at) && c.at <= now
    ensures Agree(cfg, gc, calls + [c], calls' + [c], now)
    ensures Admits(cfg, Run(cfg, gc, calls), c) == Admits(cfg, Run(cfg, gc, calls'), c)
  {
    hide Gain, Level, After, Admits, Run;
    var m, m' := Run(cfg, gc, calls), Run(cfg, gc, calls');
    AnswersSnoc(cfg, gc, calls, c);
    AnswersSnoc(cfg, gc, calls', c);
    SameLevelsAfter(cfg, gc, gc, m, m', c);
    LevelAfter(cfg, gc, m, c, c.ip, c.at);
    LevelAfter(cfg, gc, m', c, c.ip, c.at);
  }

  lemma AgreeDropped(cfg: Config, gc: bool, calls: seq<Call>, calls': seq<Call>, c: Call, now: real)
    requires Sound(cfg, gc) && Agree(cfg, gc, calls, calls', c.at) && c.at <= now
    requires !Admits(cfg, Run(cfg, gc, calls), c)
    ensures Agree(cfg, gc, calls + [c], calls', now)
  {
    hide Gain, Level, After, Admits, Run;
    var m := Run(cfg, gc, calls);
    AnswersSnoc(cfg, gc, calls, c);
    DeniedKeepsLevels(cfg, gc, m, c);
    LevelAfter(cfg, gc, m, c, c.ip, c.at);
  }

  /** One more call, kept or (if it was denied) dropped. */
  lemma OneMoreCall(cfg: Config, gc: bool, calls: seq<Call>, c: Call, keep: seq<bool>, now: real)
    requires Sound(cfg, gc) && |keep| == |calls| + 1 && c.at <= now
    requires Last(keep) || !Admits(cfg, Run(cfg, gc, calls), c)
    requires Answers(cfg, gc, Kept(calls, Front(keep))) == Kept(Answers(cfg, gc, calls), Front(keep))
    requires Agree(cfg, gc, calls, Kept(calls, Front(keep)), c.at)
    ensures Answers(cfg, gc, Kept(calls + [c], keep)) == Kept(Answers(cfg, gc, calls + [c]), keep)
    ensures Agree(cfg, gc, calls + [c], Kept(calls + [c], keep), now)
  {
    hide Gain, Level, After, Admits, Answers, Run, Kept, Agree, Sound;
    var kept := Kept(calls, Front(keep));
    AnswersSnoc(cfg, gc, calls, c);
    KeptSnoc(calls, c, keep);
    KeptSnoc(Answers(cfg, gc, calls), Admits(cfg, Run(cfg, gc, calls), c), keep);
    if Last(keep) {
      AnswersSnoc(cfg, gc, kept, c);
      AgreeKept(cfg, gc, calls, kept, c, now);
    } else {
      AgreeDropped(cfg, gc, calls, kept, c, now);
    }
  }

  /** Nothing that is dropped was admitted. */
  predicate DropsOnlyDenied(ans: seq<bool>, keep: seq<bool>) {
    |keep| == |ans| && forall i | 0 <= i < |keep| :: keep[i] || !ans[i]
  }

  lemma DropsInFront(ans: seq<bool>, ok: bool, keep: seq<bool>)
    requires DropsOnlyDenied(ans + [ok], keep)
    ensures DropsOnlyDenied(ans, Front(keep)) && (Last(keep) || !ok)
  {
    assert keep[|ans|] || !(ans + [ok])[|ans|];
    forall i | 0 <= i < |ans| ensures Front(keep)[i] || !ans[i] {
      assert keep[i] || !(ans + [ok])[i];
    }
  }

  /** Theorem: dropping any set of denied calls from a run changes no other answer. */
  lemma {:induction false} DeniedCallsNeutral(cfg: Config, gc: bool, calls: seq<Call>, keep: seq<bool>, now: real)
    requires Sound(cfg, gc) && Monotone(calls) && (calls != [] ==> Last(calls).at <= now)
    requires DropsOnlyDenied(Answers(cfg, gc, calls), keep)
    ensures Answers(cfg, gc, Kept(calls, keep)) == Kept(Answers(cfg, gc, calls), keep)
    ensures Agree(cfg, gc, calls, Kept(calls, keep), now)
  {
    if calls != [] {
      hide Gain, Level, After, Admits, Answers, Run, Kept, Agree, Sound, DropsOnlyDenied, Monotone;
      var c, before := Last(calls), Front(calls);
      assert calls == before + [c];
      AnswersSnoc(cfg, gc, before, c);
      DropsInFront(Answers(cfg, gc, before), Admits(cfg, Run(cfg, gc, before), c), keep);
      MonotoneFront(calls);
      DeniedCallsNeutral(cfg, gc, before, Front(keep), c.at);
      OneMoreCall(cfg, gc, before, c, keep, now);
    }
  }

  lemma MonotoneFront(calls: seq<Call>)
    requires Monotone(calls) && calls != []
    ensures Monotone(Front(calls)) && (Front(calls) != [] ==> Last(Front(calls)).at <= Last(calls).at)
  {
  }

  lemma DeniedKeepsLevels(cfg: Config, gc: bool, m: Buckets, c: Call)
    requires Sound(cfg, gc) && Settled(cfg, m, c.at) && !Admits(cfg, m, c)
    ensures SameLevels(cfg, After(cfg, gc, m, c), m, c.at)
  {
    hide Gain;
    forall ip, t | c.at <= t ensures Level(cfg, After(cfg, gc, m, c), ip, t) == Level(cfg, m, ip, t) {
      LevelAfter(cfg, gc, m, c, ip, t);
      if ip == c.ip {
        DeniedRecharge(cfg, m, c, t);
      }
    }
  }

  lemma DeniedRecharge(cfg: Config, m: Buckets, c: Call, t: real)
    requires Positive(cfg) && Settled(cfg, m, c.at) && !Admits(cfg, m, c) && c.at <= t
    ensures Recharged(cfg, m, c, t) == Level(cfg, m, c.ip, t)
  {
    hide Gain;
    RefillsCompose(cfg, m, c.ip, c.at, t);
  }

  // ---------------------------------------------------------------- Retry-After: 1

  /** Whatever the parameters, forgetting an entry never takes tokens away. */
  lemma ReapRaises(cfg: Config, m: Buckets, now: real, ip: Ip, t: real)
    requires Positive(cfg)
    ensures Level(cfg, Reap(cfg, m, now), ip, t) >= Level(cfg, m, ip, t)
  {
    hide Gain;
    GainZero(cfg);
    assert ip in Reap(cfg, m, now) ==> Reap(cfg, m, now)[ip] == m[ip];
  }

  /** Only an admitted call of the ip itself lowers its level. */
  lemma StepRaises(cfg: Config, gc: bool, m: Buckets, c: Call, ip: Ip, t: real)
    requires Positive(cfg) && Settled(cfg, m, c.at) && c.at <= t && (c.ip == ip ==> !Admits(cfg, m, c))
    ensures Level(cfg, After(cfg, gc, m, c), ip, t) >= Level(cfg, m, ip, t)
  {
    hide Gain, Level, Admits, Reap, Charge;
    ReapRaises(cfg, Charge(cfg, m, c), c.at, ip, t);
    if c.ip == ip {
      ChargeOwn(cfg, m, c, t);
      DeniedRecharge(cfg, m, c, t);
    } else {
      ChargeOther(cfg, m, c, ip, t);
    }
  }

  lemma {:induction false} NoAdmissionNoSpending(cfg: Config, gc: bool, calls: seq<Call>, ip: Ip, from: nat, t: real)
    requires Positive(cfg) && Monotone(calls) && from <= |calls| && (calls != [] ==> Last(calls).at <= t)
    requires forall j | from <= j < |calls| && calls[j].ip == ip :: !Answers(cfg, gc, calls)[j]
    ensures Level(cfg, Run(cfg, gc, calls), ip, t) >= Level(cfg, Run(cfg, gc, calls[..from]), ip, t)
  {
    hide Gain, Level, Admits;
    if from == |calls| {
      assert calls[..from] == calls;
    } else {
      var c, before := Last(calls), Front(calls);
      assert before[..from] == calls[..from];
      NoAdmissionNoSpending(cfg, gc, before, ip, from, t);
      RunSettled(cfg, gc, before, c.at);
      if c.ip == ip {
        assert !Answers(cfg, gc, calls)[|calls| - 1];
      }
      StepRaises(cfg, gc, Run(cfg, gc, before), c, ip, t);
    }
  }

  lemma {:induction false} AnswerAt(cfg: Config, gc: bool, calls: seq<Call>, i: nat)
    requires i < |calls|
    ensures Answers(cfg, gc, calls)[i] == Admits(cfg, Run(cfg, gc, calls[..i]), calls[i])
    ensures Answers(cfg, gc, calls)[..i] == Answers(cfg, gc, calls[..i])
  {
    hide Gain;
    if i == |calls| - 1 {
      assert calls[..i] == Front(calls);
    } else {
      AnswerAt(cfg, gc, Front(calls), i);
      assert Front(calls)[..i] == calls[..i];
      assert Answers(cfg, gc, calls)[..i] == Answers(cfg, gc, Front(calls))[..i];
    }
  }

  /** Theorem: a denied caller that waits a second, with no admitted call of its ip in between,
      is admitted. This is what the header promises. */
  lemma RetryAfterOneSecond(cfg: Config, gc: bool, calls: seq<Call>, i: nat, k: nat)
    requires Positive(cfg) && cfg.rate >= 1.0 && Monotone(calls)
    requires i < k < |calls| && calls[k].ip == calls[i].ip && calls[k].at >= calls[i].at + 1.0
    requires forall j | i <= j < k && calls[j].ip == calls[i].ip :: !Answers(cfg, gc, calls)[j]
    ensures Answers(cfg, gc, calls)[k]
  {
    hide Gain, Level;
    var c, upto := calls[k], calls[..k];
    AnswerAt(cfg, gc, calls, k);
    NoAdmissionNoSpending(cfg, gc, upto, c.ip, i, c.at);
    assert upto[..i] == calls[..i];
    RunSettled(cfg, gc, calls[..i], calls[i].at);
    OneSecondEarnsAToken(cfg, Run(cfg, gc, calls[..i]), c.ip, calls[i].at, c.at);
  }

  lemma GainOfOne(cfg: Config)
    ensures Gain(cfg, 1.0) == cfg.rate
  {
  }

  lemma OneSecondEarnsAToken(cfg: Config, m: Buckets, ip: Ip, now: real, t: real)
    requires Positive(cfg) && cfg.rate >= 1.0 && Settled(cfg, m, now) && now + 1.0 <= t
    ensures Level(cfg, m, ip, t) >= 1.0
  {
    hide Gain;
    RefillsCompose(cfg, m, ip, now, t);
    GainScales(cfg, 1.0, t - now);
    GainOfOne(cfg);
  }

  // ---------------------------------------------------------------- two numbers refine the whole log

  /** The level of `ip` is the tightest budget over the windows that start at its earlier calls. */
  ghost predicate LevelIsTightest(cfg: Config, m: Buckets, calls: seq<Call>, ans: seq<bool>, ip: Ip, t: real)
    requires |ans| <= |calls|
  {
    var level := Level(cfg, m, ip, t);
    && (forall j | 0 <= j < |ans| && calls[j].ip == ip :: level <= Budget(cfg, calls, ans, ip, j, t))
    && (level == cfg.burst
        || exists j | 0 <= j < |ans| && calls[j].ip == ip :: level == Budget(cfg, calls, ans, ip, j, t))
  }

  lemma {:induction false} SpentGrows(calls: seq<Call>, ans: seq<bool>, ip: Ip, from: nat, more: bool)
    requires |ans| < |calls|
    ensures Spent(calls, ans + [more], ip, from) ==
            Spent(calls, ans, ip, from) + if from <= |ans| && more && calls[|ans|].ip == ip then 1 else 0
  {
    hide Gain;
    assert Front(ans + [more]) == ans;
  }

  /** Later calls do not change what was spent before them. */
  lemma {:induction false} SpentPrefix(calls: seq<Call>, calls': seq<Call>, ans: seq<bool>, ip: Ip, from: nat)
    requires |ans| <= |calls| && calls <= calls'
    ensures Spent(calls, ans, ip, from) == Spent(calls', ans, ip, from)
  {
    hide Gain;
    if |ans| > from {
      SpentPrefix(calls, calls', Front(ans), ip, from);
    }
  }

  lemma TightestDecides(cfg: Config, m: Buckets, calls: seq<Call>, ans: seq<bool>)
    requires Positive(cfg) && |ans| < |calls|
    requires LevelIsTightest(cfg, m, calls, ans, calls[|ans|].ip, calls[|ans|].at)
    requires Level(cfg, m, calls[|ans|].ip, calls[|ans|].at) <= cfg.burst
    ensures Admits(cfg, m, calls[|ans|]) <==> WindowOpen(cfg, calls, ans)
  {
    hide Gain;
    var c := calls[|ans|];
    assert Spent(calls, ans, c.ip, |ans|) == 0;
    GainZero(cfg);
    assert Budget(cfg, calls, ans, c.ip, |ans|, c.at) == cfg.burst;
  }

  lemma TightestAfterOther(cfg: Config, gc: bool, m: Buckets, calls: seq<Call>, ans: seq<bool>, ok: bool, ip: Ip,
      t: real)
    requires Sound(cfg, gc) && |ans| < |calls| && calls[|ans|].at <= t && ip != calls[|ans|].ip
    requires Settled(cfg, m, calls[|ans|].at) && LevelIsTightest(cfg, m, calls, ans, ip, t)
    ensures LevelIsTightest(cfg, After(cfg, gc, m, calls[|ans|]), calls, ans + [ok], ip, t)
  {
    hide Gain;
    LevelAfter(cfg, gc, m, calls[|ans|], ip, t);
    forall j: nat | j < |ans|
      ensures Budget(cfg, calls, ans + [ok], ip, j, t) == Budget(cfg, calls, ans, ip, j, t)
    {
      SpentGrows(calls, ans, ip, j, ok);
    }
  }

  /** How one more call of the ip moves every window budget. */
  lemma BudgetAfterOwn(cfg: Config, calls: seq<Call>, ans: seq<bool>, ok: bool, j: nat, t: real)
    requires |ans| < |calls| && j <= |ans|
    ensures var c := calls[|ans|];
            Budget(cfg, calls, ans + [ok], c.ip, j, t) ==
            (if j == |ans| then cfg.burst else Budget(cfg, calls, ans, c.ip, j, c.at))
            - (if ok then 1.0 else 0.0) + Gain(cfg, t - c.at)
  {
    hide Gain;
    var c := calls[|ans|];
    SpentGrows(calls, ans, c.ip, j, ok);
    GainAdds(cfg, c.at - calls[j].at, t - c.at);
    GainZero(cfg);
    assert (c.at - calls[j].at) + (t - c.at) == t - calls[j].at;
  }

  lemma TightestAfterOwn(cfg: Config, gc: bool, m: Buckets, calls: seq<Call>, ans: seq<bool>, t: real)
    requires Sound(cfg, gc) && |ans| < |calls| && calls[|ans|].at <= t && Settled(cfg, m, calls[|ans|].at)
    requires LevelIsTightest(cfg, m, calls, ans, calls[|ans|].ip, calls[|ans|].at)
    ensures var c := calls[|ans|];
            LevelIsTightest(cfg, After(cfg, gc, m, c), calls, ans + [Admits(cfg, m, c)], c.ip, t)
  {
    hide Gain;
    var c := calls[|ans|];
    var ok := Admits(cfg, m, c);
    var level, level' := Level(cfg, m, c.ip, c.at), Level(cfg, After(cfg, gc, m, c), c.ip, t);
    RechargedIsCapped(cfg, gc, m, c, t);
    forall j: nat | j <= |ans| && calls[j].ip == c.ip
      ensures level' <= Budget(cfg, calls, ans + [ok], c.ip, j, t)
    {
      BudgetAfterOwn(cfg, calls, ans, ok, j, t);
    }
    var j: nat :| j <= |ans| && calls[j].ip == c.ip
                  && level == if j == |ans| then cfg.burst else Budget(cfg, calls, ans, c.ip, j, c.at);
    BudgetAfterOwn(cfg, calls, ans, ok, j, t);
  }

  /** The lower clamp never acts: the level after a call is the smaller of a full bucket and what is left plus the
      gain. */
  lemma RechargedIsCapped(cfg: Config, gc: bool, m: Buckets, c: Call, t: real)
    requires Sound(cfg, gc) && Settled(cfg, m, c.at) && c.at <= t
    ensures Level(cfg, m, c.ip, c.at) <= cfg.burst
    ensures var left := Level(cfg, m, c.ip, c.at) - (if Admits(cfg, m, c) then 1.0 else 0.0) + Gain(cfg, t - c.at);
            Level(cfg, After(cfg, gc, m, c), c.ip, t) == if left <= cfg.burst then left else cfg.burst
  {
    hide Gain;
    LevelAfter(cfg, gc, m, c, c.ip, t);
    RefillsCompose(cfg, m, c.ip, c.at, c.at);
    GainZero(cfg);
    GainScales(cfg, 0.0, t - c.at);
  }

  /** Theorem: two numbers per ip answer exactly as the full request log does, and the level of
      every ip is the tightest window budget its log leaves. */
  lemma {:induction false} BucketRefinesLog(cfg: Config, gc: bool, calls: seq<Call>, now: real)
    requires Sound(cfg, gc) && Monotone(calls) && (calls != [] ==> Last(calls).at <= now)
    ensures Answers(cfg, gc, calls) == LogAnswers(cfg, calls)
    ensures forall ip, t | now <= t ::
              LevelIsTightest(cfg, Run(cfg, gc, calls), calls, LogAnswers(cfg, calls), ip, t)
  {
    hide Gain, Level, After, Spent, Budget;
    if calls == [] {
      forall ip, t | now <= t ensures LevelIsTightest(cfg, map[], calls, [], ip, t) {
        EmptyLevel(cfg, ip, t);
      }
    } else {
      var c, before := Last(calls), Front(calls);
      var m, ans := Run(cfg, gc, before), LogAnswers(cfg, before);
      BucketRefinesLog(cfg, gc, before, c.at);
      RunSettled(cfg, gc, before, c.at);
      forall ip, t | c.at <= t ensures LevelIsTightest(cfg, m, calls, ans, ip, t) {
        TightestOfPrefix(cfg, m, before, calls, ans, ip, t);
      }
      RefillsCompose(cfg, m, c.ip, c.at, c.at);
      TightestDecides(cfg, m, calls, ans);
      forall ip, t | now <= t
        ensures LevelIsTightest(cfg, After(cfg, gc, m, c), calls, ans + [Admits(cfg, m, c)], ip, t)
      {
        if ip == c.ip {
          TightestAfterOwn(cfg, gc, m, calls, ans, t);
        } else {
          TightestAfterOther(cfg, gc, m, calls, ans, Admits(cfg, m, c), ip, t);
        }
      }
    }
  }

  lemma EmptyLevel(cfg: Config, ip: Ip, t: real)
    requires Positive(cfg)
    ensures Level(cfg, map[], ip, t) == cfg.burst
  {
    hide Gain;
    GainZero(cfg);
  }

  lemma TightestOfPrefix(cfg: Config, m: Buckets, calls: seq<Call>, calls': seq<Call>, ans: seq<bool>, ip: Ip, t: real)
    requires |ans| <= |calls| && calls <= calls' && LevelIsTightest(cfg, m, calls, ans, ip, t)
    ensures LevelIsTightest(cfg, m, calls', ans, ip, t)
  {
    hide Gain, Level;
    forall j: nat | j < |ans| ensures Budget(cfg, calls, ans, ip, j, t) == Budget(cfg, calls', ans, ip, j, t) {
      SpentPrefix(calls, calls', ans, ip, j);
    }
  }

  // ---------------------------------------------------------------- no window is over budget

  /** Theorem: from any call to any later one, an ip gets at most `burst` plus the drip of the time between. */
  lemma WindowBound(cfg: Config, gc: bool, calls: seq<Call>, ip: Ip, i: nat)
    requires Sound(cfg, gc) && Monotone(calls) && i < |calls|
    ensures Spent(calls, Answers(cfg, gc, calls), ip, i) as real
            <= cfg.burst + cfg.rate * (Last(calls).at - calls[i].at)
  {
    hide Spent, Answers, LogAnswers;
    BucketRefinesLog(cfg, gc, calls, Last(calls).at);
    LogWindowBound(cfg, calls, ip, i);
  }

  lemma {:induction false} LogWindowBound(cfg: Config, calls: seq<Call>, ip: Ip, i: nat)
    requires Positive(cfg) && Monotone(calls) && i < |calls|
    ensures Spent(calls, LogAnswers(cfg, calls), ip, i) as real <= cfg.burst + Gain(cfg, Last(calls).at - calls[i].at)
  {
    hide Gain, Spent;
    var c, before := Last(calls), Front(calls);
    var ans := LogAnswers(cfg, before);
    var ok := WindowOpen(cfg, calls, ans);
    assert LogAnswers(cfg, calls) == ans + [ok];
    hide LogAnswers;
    SpentGrows(calls, ans, ip, i, ok);
    if ok && c.ip == ip {
      AdmittedWithinBudget(cfg, calls, ans, i);
    } else if i < |before| {
      LogWindowBound(cfg, before, ip, i);
      SpentPrefix(before, calls, ans, ip, i);
      GainScales(cfg, Last(before).at - calls[i].at, c.at - calls[i].at);
    } else {
      NothingSpent(calls, ans, ip);
      GainZero(cfg);
    }
  }

  lemma NothingSpent(calls: seq<Call>, ans: seq<bool>, ip: Ip)
    requires |ans| <= |calls|
    ensures Spent(calls, ans, ip, |ans|) == 0
  {
  }

  lemma AdmittedWithinBudget(cfg: Config, calls: seq<Call>, ans: seq<bool>, i: nat)
    requires Positive(cfg) && Monotone(calls) && i <= |ans| == |calls| - 1 && WindowOpen(cfg, calls, ans)
    ensures Spent(calls, ans, Last(calls).ip, i) as real + 1.0 <= cfg.burst + Gain(cfg, Last(calls).at - calls[i].at)
  {
    hide Gain, Spent;
    var c := Last(calls);
    var j := FirstCall(calls, c.ip, i);
    SpentSkips(calls, ans, c.ip, i, j);
    assert Budget(cfg, calls, ans, c.ip, j, c.at) >= 1.0;
    GainScales(cfg, c.at - calls[j].at, c.at - calls[i].at);
  }

  /** The first call of `ip` at index `from` or later; the last call is one. */
  function FirstCall(calls: seq<Call>, ip: Ip, from: nat): (j: nat)
    requires from < |calls| && Last(calls).ip == ip
    ensures from <= j < |calls| && calls[j].ip == ip
    ensures forall k | from <= k < j :: calls[k].ip != ip
    decreases |calls| - from
  {
    if calls[from].ip == ip then from else FirstCall(calls, ip, from + 1)
  }

  lemma {:induction false} SpentSkips(calls: seq<Call>, ans: seq<bool>, ip: Ip, i: nat, j: nat)
    requires |ans| <= |calls| && i <= j <= |calls| && forall k | i <= k < j :: calls[k].ip != ip
    ensures Spent(calls, ans, ip, i) == Spent(calls, ans, ip, j)
  {
    if |ans| > i {
      SpentSkips(calls, Front(ans), ip, i, j);
    }
  }

  // ---------------------------------------------------------------- the map stays bounded

  /** Callers of the run up to call `m` that were heard from within `idle` before it. */
  function Recent(cfg: Config, calls: seq<Call>, m: nat): set<Ip>
    requires m < |calls|
  {
    set k | 0 <= k <= m && calls[m].at - calls[k].at <= cfg.idle :: calls[k].ip
  }

  predicate Inserts(cfg: Config, calls: seq<Call>, m: nat)
    requires m < |calls|
  {
    calls[m].ip !in Run(cfg, true, calls[..m])
  }

  /** Every entry was last touched by some call of its ip. */
  lemma {:induction false} EntriesComeFromCalls(cfg: Config, calls: seq<Call>, ip: Ip)
    requires ip in Run(cfg, true, calls)
    ensures exists k :: 0 <= k < |calls| && calls[k].ip == ip && calls[k].at == Run(cfg, true, calls)[ip].last
  {
    hide Gain, Level;
    if Last(calls).ip == ip {
      assert calls[|calls| - 1].at == Run(cfg, true, calls)[ip].last;
    } else {
      EntriesComeFromCalls(cfg, Front(calls), ip);
    }
  }

  /** The bound at an insertion: either the map is small or it was just reaped. */
  lemma InsertionBound(cfg: Config, calls: seq<Call>)
    requires cfg.burst >= 1.0 && calls != [] && Inserts(cfg, calls, |calls| - 1)
    ensures |Run(cfg, true, calls)| <= GC_THRESHOLD || |Run(cfg, true, calls)| <= |Recent(cfg, calls, |calls| - 1)|
  {
    hide Gain, Level, Run;
    var c, m := Last(calls), Run(cfg, true, Front(calls));
    assert Front(calls) == calls[..|calls| - 1] && Front(calls) + [c] == calls;
    AnswersSnoc(cfg, true, Front(calls), c);
    NewcomerAdmitted(cfg, m, c);
    if |Run(cfg, true, calls)| > GC_THRESHOLD {
      forall ip | ip in Run(cfg, true, calls) ensures ip in Recent(cfg, calls, |calls| - 1) {
        EntriesComeFromCalls(cfg, calls, ip);
      }
      SmallerSet(Run(cfg, true, calls).Keys, Recent(cfg, calls, |calls| - 1));
    }
  }

  /** A call that inserts nothing adds no entry. */
  lemma NoInsertionNoGrowth(cfg: Config, calls: seq<Call>, c: Call)
    requires c.ip in Run(cfg, true, calls)
    ensures |Run(cfg, true, calls + [c])| <= |Run(cfg, true, calls)|
  {
    hide Gain, Level, Run;
    AnswersSnoc(cfg, true, calls, c);
    SmallerMap(Run(cfg, true, calls + [c]), Run(cfg, true, calls));
  }

  /** Theorem: what a call does to the map, entry by entry. Its own entry is stamped with the time of the call;
      another is left alone, or removed if the call was admitted with more than 1024 entries there and it was last
      heard from longer ago than the idle period. */
  lemma EntriesAfter(cfg: Config, m: Buckets, c: Call, ip: Ip)
    requires cfg.idle >= 0.0
    ensures var m' := After(cfg, true, m, c);
            && c.ip in m' && m'[c.ip].last == c.at
            && (ip != c.ip ==>
                  if ip in m' then ip in m && m'[ip] == m[ip]
                  else ip in m ==> Admits(cfg, m, c) && |m.Keys + {c.ip}| > 1024 && c.at - m[ip].last > cfg.idle)
            && (Admits(cfg, m, c) && |m.Keys + {c.ip}| > 1024 && ip in m' ==> c.at - m'[ip].last <= cfg.idle)
  {
    hide Level;
    var charged := Charge(cfg, m, c);
    assert charged.Keys == m.Keys + {c.ip} && |charged| == |charged.Keys|;
  }

  /** Theorem: after any call the map is no larger than the reaping threshold or the number of
      callers that were active within `idle` before the latest insertion, whichever is larger. */
  lemma {:induction false} MapBounded(cfg: Config, calls: seq<Call>, m: nat)
    requires cfg.burst >= 1.0 && m < |calls| && Inserts(cfg, calls, m)
    requires forall k | m < k < |calls| :: !Inserts(cfg, calls, k)
    ensures |Run(cfg, true, calls)| <= 1024 || |Run(cfg, true, calls)| <= |Recent(cfg, calls, m)|
  {
    hide Run;
    var c, before := Last(calls), Front(calls);
    if m < |before| {
      forall k | m <= k < |before| ensures Inserts(cfg, before, k) == Inserts(cfg, calls, k) {
        assert before[..k] == calls[..k];
      }
      MapBounded(cfg, before, m);
      assert Recent(cfg, before, m) == Recent(cfg, calls, m);
      assert !Inserts(cfg, calls, |before|) && before == calls[..|before|] && before + [c] == calls;
      NoInsertionNoGrowth(cfg, before, c);
    } else {
      InsertionBound(cfg, calls);
    }
  }

  lemma NewcomerAdmitted(cfg: Config, m: Buckets, c: Call)
    requires cfg.burst >= 1.0 && c.ip !in m
    ensures Admits(cfg, m, c)
  {
    GainZero(cfg);
  }

  lemma SmallerSet<T>(a: set<T>, b: set<T>)
    requires a <= b
    ensures |a| <= |b|
  {
    assert b == a + (b - a);
  }

  lemma SmallerMap(m: Buckets, m': Buckets)
    requires m.Keys <= m'.Keys
    ensures |m| <= |m'|
  {
    SmallerSet(m.Keys, m'.Keys);
    assert |m| == |m.Keys| && |m'| == |m'.Keys|;
  }
}
