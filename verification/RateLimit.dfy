/** The per-IP token bucket of the public routes, seen as a state machine over calls.

    The bucket map is compared with a reference limiter that remembers every call it
    ever answered and no token count. Everything goes through `Level`, the number of tokens a
    caller would find after the lazy refill: two maps with the same levels answer alike.
 */
module RateLimit {
  type Ip = string

  datatype Config = Config(rate: real, burst: real, idle: real)
  datatype Bucket = Bucket(tokens: real, last: real)
  datatype Call = Call(ip: Ip, at: real)
  type Buckets = map<Ip, Bucket>

  const GC_THRESHOLD := 1024

  // ---------------------------------------------------------------- the machine

  function ClampFloat(v: real, lo: real, hi: real): real {
    if v < lo then lo else if v > hi then hi else v
  }

  /** Tokens dripped into a bucket during `dt` seconds. */
  function Gain(cfg: Config, dt: real): real {
    dt * cfg.rate
  }

  function Refilled(cfg: Config, b: Bucket, now: real): real {
    b.tokens + Gain(cfg, now - b.last)
  }

  /** Tokens of `ip` at time `now`, after the refill and before the call is charged. */
  function Level(cfg: Config, m: Buckets, ip: Ip, now: real): real {
    ClampFloat(Refilled(cfg, if ip in m then m[ip] else Bucket(cfg.burst, now), now), 0.0, cfg.burst)
  }

  predicate Admits(cfg: Config, m: Buckets, c: Call) {
    Level(cfg, m, c.ip, c.at) >= 1.0
  }

  predicate Expired(cfg: Config, b: Bucket, now: real) {
    now - b.last > cfg.idle
  }

  function Reap(cfg: Config, m: Buckets, now: real): Buckets {
    map ip | ip in m && !Expired(cfg, m[ip], now) :: m[ip]
  }

  /** The map right after the call was charged, before any reaping. */
  function Charge(cfg: Config, m: Buckets, c: Call): Buckets {
    var level := Level(cfg, m, c.ip, c.at);
    m[c.ip := Bucket(if level < 1.0 then level else level - 1.0, c.at)]
  }

  /** One call: only an admitted call reaches the reaping check. `gc` off is a limiter that never deletes. */
  function After(cfg: Config, gc: bool, m: Buckets, c: Call): Buckets {
    var charged := Charge(cfg, m, c);
    if gc && Admits(cfg, m, c) && |charged| > GC_THRESHOLD then Reap(cfg, charged, c.at) else charged
  }

  function Run(cfg: Config, gc: bool, calls: seq<Call>): Buckets {
    if calls == [] then map[] else After(cfg, gc, Run(cfg, gc, Front(calls)), Last(calls))
  }

  /** The answers of the limiter to a whole run, oldest first. */
  function Answers(cfg: Config, gc: bool, calls: seq<Call>): (ans: seq<bool>)
    ensures |ans| == |calls|
  {
    if calls == [] then [] else
      Answers(cfg, gc, Front(calls)) + [Admits(cfg, Run(cfg, gc, Front(calls)), Last(calls))]
  }

  // ---------------------------------------------------------------- the reference: a full request log

  /** Admitted calls of `ip` among the answered calls with index at least `from`. */
  function Spent(calls: seq<Call>, ans: seq<bool>, ip: Ip, from: nat): nat
    requires |ans| <= |calls|
  {
    if |ans| <= from then 0 else
      Spent(calls, Front(ans), ip, from) + if Last(ans) && calls[|ans| - 1].ip == ip then 1 else 0
  }

  /** What the window that starts at call `j` still leaves `ip` to spend at time `t`. */
  function Budget(cfg: Config, calls: seq<Call>, ans: seq<bool>, ip: Ip, j: nat, t: real): real
    requires |ans| <= |calls| && j < |calls|
  {
    cfg.burst + Gain(cfg, t - calls[j].at) - Spent(calls, ans, ip, j) as real
  }

  /** Call number |ans| fits: every window ending at it and starting at a call of its ip has a token left. */
  predicate WindowOpen(cfg: Config, calls: seq<Call>, ans: seq<bool>)
    requires |ans| < |calls|
  {
    var c := calls[|ans|];
    forall j | 0 <= j <= |ans| && calls[j].ip == c.ip ::
      Budget(cfg, calls, ans, c.ip, j, c.at) >= 1.0
  }

  /** The limiter that keeps the whole log and recounts every window on every call. */
  function LogAnswers(cfg: Config, calls: seq<Call>): (ans: seq<bool>)
    ensures |ans| == |calls|
  {
    if calls == [] then [] else
      var before := LogAnswers(cfg, Front(calls));
      before + [WindowOpen(cfg, calls, before)]
  }

  // ---------------------------------------------------------------- assumptions

  /** Sensible parameters. */
  predicate Positive(cfg: Config) {
    cfg.rate > 0.0 && cfg.burst >= 1.0 && cfg.idle >= 0.0
  }

  /** An idle period refills any bucket. Both limiters of the router satisfy this; one that never reaps need not. */
  predicate Sound(cfg: Config, gc: bool) {
    Positive(cfg) && (gc ==> cfg.idle * cfg.rate >= cfg.burst)
  }

  /** The clock never runs backwards. */
  predicate Monotone(calls: seq<Call>) {
    forall i, j | 0 <= i <= j < |calls| :: calls[i].at <= calls[j].at
  }

  const PUBLIC_LOGIN := Config(5.0, 10.0, 300.0)
  const PUBLIC_WRITE := Config(20.0, 40.0, 300.0)

  // ---------------------------------------------------------------- sequences

  function Front<T>(s: seq<T>): seq<T>
    requires s != []
  {
    s[..|s| - 1]
  }

  function Last<T>(s: seq<T>): T
    requires s != []
  {
    s[|s| - 1]
  }

  /** The elements of `s` whose mark is set. */
  function Kept<T>(s: seq<T>, keep: seq<bool>): (r: seq<T>)
    requires |keep| == |s|
    ensures |r| <= |s|
  {
    if s == [] then [] else
      Kept(Front(s), Front(keep)) + if Last(keep) then [Last(s)] else []
  }

  // ---------------------------------------------------------------- levels

  /** Every bucket is within bounds and was last touched no later than `now`. */
  ghost predicate Settled(cfg: Config, m: Buckets, now: real) {
    forall ip | ip in m :: m[ip].last <= now && 0.0 <= m[ip].tokens <= cfg.burst
  }

  lemma GainScales(cfg: Config, dt: real, dt': real)
    requires Positive(cfg) && dt <= dt'
    ensures Gain(cfg, dt) <= Gain(cfg, dt')
  {
  }

  lemma GainAdds(cfg: Config, dt: real, dt': real)
    ensures Gain(cfg, dt) + Gain(cfg, dt') == Gain(cfg, dt + dt')
  {
  }

  lemma GainZero(cfg: Config)
    ensures Gain(cfg, 0.0) == 0.0
  {
  }

  lemma GainOfIdle(cfg: Config, dt: real)
    requires Sound(cfg, true) && dt >= cfg.idle
    ensures Gain(cfg, dt) >= cfg.burst
  {
    GainScales(cfg, cfg.idle, dt);
  }

  /** Refilling in two instalments with no token taken in between is refilling once. */
  lemma RefillsCompose(cfg: Config, m: Buckets, ip: Ip, now: real, t: real)
    requires Positive(cfg) && Settled(cfg, m, now) && now <= t
    ensures 0.0 <= Level(cfg, m, ip, now) <= cfg.burst
    ensures Level(cfg, m, ip, t) == ClampFloat(Level(cfg, m, ip, now) + Gain(cfg, t - now), 0.0, cfg.burst)
  {
    hide Gain;
    GainZero(cfg);
    GainScales(cfg, 0.0, t - now);
    if ip in m {
      var b := m[ip];
      GainScales(cfg, 0.0, now - b.last);
      GainAdds(cfg, now - b.last, t - now);
      assert (now - b.last) + (t - now) == t - b.last;
    } else {
      assert Level(cfg, m, ip, now) == cfg.burst == Level(cfg, m, ip, t);
    }
  }

  /** A bucket that was idle for longer than `idle` is full again: forgetting it changes no level. */
  lemma ReapKeepsLevels(cfg: Config, m: Buckets, now: real, ip: Ip, t: real)
    requires Sound(cfg, true) && Settled(cfg, m, now) && now <= t
    ensures Level(cfg, Reap(cfg, m, now), ip, t) == Level(cfg, m, ip, t)
  {
    hide Gain;
    GainZero(cfg);
    if ip in m && Expired(cfg, m[ip], now) {
      GainOfIdle(cfg, t - m[ip].last);
      assert ip !in Reap(cfg, m, now);
    }
  }

  lemma ChargeOther(cfg: Config, m: Buckets, c: Call, ip: Ip, t: real)
    requires ip != c.ip
    ensures Level(cfg, Charge(cfg, m, c), ip, t) == Level(cfg, m, ip, t)
  {
    hide Gain;
    var charged := Charge(cfg, m, c);
    assert ip in charged <==> ip in m;
    assert ip in m ==> charged[ip] == m[ip];
  }

  lemma ChargeOwn(cfg: Config, m: Buckets, c: Call, t: real)
    ensures Level(cfg, Charge(cfg, m, c), c.ip, t) == Recharged(cfg, m, c, t)
  {
    hide Gain;
    var level := Level(cfg, m, c.ip, c.at);
    assert Charge(cfg, m, c)[c.ip] == Bucket(if level < 1.0 then level else level - 1.0, c.at);
  }

  lemma ChargeSettled(cfg: Config, m: Buckets, c: Call)
    requires Positive(cfg) && Settled(cfg, m, c.at)
    ensures Settled(cfg, Charge(cfg, m, c), c.at)
  {
    hide Gain;
    RefillsCompose(cfg, m, c.ip, c.at, c.at);
  }

  /** What the caller of `c` has left at a later time `t`. */
  function Recharged(cfg: Config, m: Buckets, c: Call, t: real): real {
    ClampFloat(Level(cfg, m, c.ip, c.at) - (if Admits(cfg, m, c) then 1.0 else 0.0) + Gain(cfg, t - c.at),
               0.0, cfg.burst)
  }

  /** The one fact about a call that matters: the caller's level drops by the token it was
      given and then refills at the configured rate; nobody else's level moves, reaping or not. */
  lemma LevelAfter(cfg: Config, gc: bool, m: Buckets, c: Call, ip: Ip, t: real)
    requires Sound(cfg, gc) && Settled(cfg, m, c.at) && c.at <= t
    ensures Settled(cfg, After(cfg, gc, m, c), c.at)
    ensures Level(cfg, After(cfg, gc, m, c), ip, t) ==
            if ip != c.ip then Level(cfg, m, ip, t) else Recharged(cfg, m, c, t)
  {
    hide Gain;
    ChargeSettled(cfg, m, c);
    if gc {
      ReapKeepsLevels(cfg, Charge(cfg, m, c), c.at, ip, t);
    }
    if ip == c.ip {
      ChargeOwn(cfg, m, c, t);
    } else {
      ChargeOther(cfg, m, c, ip, t);
    }
  }

  lemma {:induction false} RunSettled(cfg: Config, gc: bool, calls: seq<Call>, now: real)
    requires Positive(cfg) && Monotone(calls) && (calls != [] ==> Last(calls).at <= now)
    ensures Settled(cfg, Run(cfg, gc, calls), now)
  {
    hide Gain;
    if calls != [] {
      var c := Last(calls);
      RunSettled(cfg, gc, Front(calls), c.at);
      ChargeSettled(cfg, Run(cfg, gc, Front(calls)), c);
    }
  }
}
