/**
 The spec watcher: a last-good cache, a lossy single-slot signal and capped
 exponential backoff.
 */
module Watcher {
  import opened Net
  import opened Spec
  import opened Validate
  import opened ControlPlane

  /** One pull of the Git source: the commit it found and the file's content. */
  datatype Pull = Pull(commit: string, data: string)

  /** Why the cache is not up to date. */
  datatype PullError = NotYetLoaded | PullFailed | ParseFailed

  /** Everything outside the watcher: the library functions and the YAML decoder. */
  datatype Outside = Outside(lib: Lib, decode: string -> Option<Document>)

  /** The document in a file, if it decodes and, defaults applied, is well formed. */
  ghost function ParsedSpec(o: Outside, data: string): (r: Option<Document>) {
    var decoded := o.decode(data);
    if decoded.Some? && WellFormed(o.lib, ApplyDefaults(decoded.value)) then Some(ApplyDefaults(decoded.value))
    else None
  }

  method Parse(o: Outside, data: string) returns (r: Option<Document>)
    ensures r == ParsedSpec(o, data)
    ensures r.Some? ==> WellFormed(o.lib, r.value) && o.decode(data).Some?
    ensures r.Some? ==>
              var d, wg := o.decode(data).value, o.decode(data).value.spec.wireguard;
              && r.value.spec.(wireguard := wg) == d.spec && r.value.name == d.name
              && r.value.spec.wireguard.mtu == (if wg.mtu == 0 then 1420 else wg.mtu)
              && r.value.spec.wireguard.hubListenPort == (if wg.hubListenPort == 0 then 51820 else wg.hubListenPort)
              && r.value.spec.wireguard.persistentKeepalive ==
                 (if wg.persistentKeepalive == 0 then 25 * 1_000_000_000 else wg.persistentKeepalive)
  {
    var decoded := o.decode(data);
    if decoded.None? {
      return None;
    }
    var d := ApplyDefaults(decoded.value);
    var errs := Validate.Validate(o.lib, d);
    return if errs == [] then Some(d) else None;
  }

  function CommitOf(state: Option<Snapshot>): (r: string) {
    if state.Some? then state.value.commit else ""
  }

  /** The watcher as one goroutine at a time sees it; `signal` is the full slot of the updates channel. */
  class Watcher {
    const outside: Outside
    var state: Option<Snapshot>
    var last: Option<PullError>
    var signal: bool

    ghost predicate Valid()
      reads this
    {
      && (state.Some? ==> WellFormed(outside.lib, state.value.doc))
      && (state.None? ==> last.Some?)
    }

    constructor (o: Outside)
      ensures outside == o && Valid() && state == None && !signal
    {
      outside, state, last, signal := o, None, Some(NotYetLoaded), false;
    }

    /** The watcher's part of the shared state, no step in progress. */
    ghost function View(): (s: Shared)
      reads this
    {
      Shared(state, signal, false, false, "")
    }

    /** `Current`: the cache, or the last error while there is none. */
    method Current() returns (r: Result<Snapshot, PullError>)
      requires Valid()
      ensures r.Ok? <==> state.Some?
      ensures r.Ok? ==> r.value == state.value && WellFormed(outside.lib, r.value.doc)
      ensures r.Err? ==> Some(r.error) == last
    {
      if state.Some? {
        return Ok(state.value);
      }
      return Err(last.value);
    }

    /** `pullOnce`; a failure of any kind keeps the last good document. */
    method PullOnce(pulled: Option<Pull>) returns (ok: bool)
      requires Valid()
      modifies this
      ensures Valid()
      ensures ok <==> pulled.Some? && ParsedSpec(outside, pulled.value.data).Some?
      ensures !ok ==> state == old(state) && signal == old(signal) && last.Some?
      ensures ok ==> state == Some(Snapshot(ParsedSpec(outside, pulled.value.data).value, pulled.value.commit))
      ensures ok ==> last == None && signal == (old(signal) || CommitOf(old(state)) != pulled.value.commit)
      ensures ok ==> WritesThenSends(outside, old(View()), pulled.value, View())
    {
      if pulled.None? {
        last := Some(PullFailed);
        return false;
      }
      var doc := Parse(outside, pulled.value.data);
      if doc.None? {
        last := Some(ParseFailed);
        return false;
      }
      var prev := CommitOf(state);
      state := Some(Snapshot(doc.value, pulled.value.commit));
      last := None;
      ghost var mid := Shared(state, signal, prev != pulled.value.commit, false, "");
      if prev != pulled.value.commit {
        signal := true;
      }
      assert Step(outside, old(View()), Write(pulled.value), mid);
      return true;
    }
  }

  // ---------- interleavings with one consumer ----------

  /**
   The shared state between atomic steps.  `pending`: the puller wrote a new commit and has yet to
   signal.  `owed`: the consumer received and has yet to read.  `lastRead`: the commit it read last.
   */
  datatype Shared = Shared(state: Option<Snapshot>, signal: bool, pending: bool, owed: bool, lastRead: string)

  const START := Shared(None, false, false, false, "")

  datatype Move = Write(pull: Pull) | Fail | Send | Receive | Read

  ghost predicate Step(o: Outside, s: Shared, m: Move, t: Shared) {
    match m
    case Write(pull) =>
      var doc := ParsedSpec(o, pull.data);
      && !s.pending && doc.Some?
      && t == s.(state := Some(Snapshot(doc.value, pull.commit)), pending := CommitOf(s.state) != pull.commit)
    case Fail => !s.pending && t == s
    case Send => s.pending && t == s.(pending := false, signal := true)
    case Receive => s.signal && t == s.(signal := false, owed := true)
    case Read => t == s.(owed := false, lastRead := CommitOf(s.state))
  }

  ghost predicate Run(o: Outside, states: seq<Shared>, moves: seq<Move>) {
    && |states| == |moves| + 1 && states[0] == START
    && forall i | 0 <= i < |moves| :: Step(o, states[i], moves[i], states[i + 1])
  }

  /** A successful pull is the write step and, if it left a signal to send, the send step. */
  ghost predicate WritesThenSends(o: Outside, s: Shared, pull: Pull, t: Shared) {
    exists mid :: Step(o, s, Write(pull), mid) && if mid.pending then Step(o, mid, Send, t) else t == mid
  }

  /** Something will make the consumer read again. */
  predicate WakeUpDue(s: Shared) {
    s.signal || s.pending || s.owed
  }

  /**
   No lost update: in every interleaving, if the cached commit is not the one last read then a signal
   is queued, about to be sent, or received with the read still owed.
   */
  lemma {:induction false} NoLostUpdate(o: Outside, states: seq<Shared>, moves: seq<Move>, i: nat)
    requires Run(o, states, moves) && i < |states|
    ensures CommitOf(states[i].state) != states[i].lastRead ==> WakeUpDue(states[i])
  {
    if i > 0 {
      NoLostUpdate(o, states, moves, i - 1);
      assert Step(o, states[i - 1], moves[i - 1], states[i]);
    }
  }

  /** So a consumer that waits for its first document cannot sleep through it, commits being non-empty. */
  lemma FirstSpecNotMissed(o: Outside, states: seq<Shared>, moves: seq<Move>, i: nat)
    requires Run(o, states, moves) && i < |states|
    requires forall j | 0 <= j < |moves| :: moves[j].Write? ==> moves[j].pull.commit != ""
    requires states[i].state.Some? && states[i].lastRead == "" && !states[i].owed
    ensures states[i].signal || states[i].pending
  {
    NoLostUpdate(o, states, moves, i);
    CachedPullExists(o, states, moves, i);
  }

  /** The first document is announced exactly when its commit is not empty, and Git commits never are. */
  lemma FirstWriteAnnounced(o: Outside, s: Shared, pull: Pull, t: Shared)
    requires s.state.None? && !s.signal && Step(o, s, Write(pull), t)
    ensures (t.signal || t.pending) <==> pull.commit != ""
  {
  }

  /** The cached document is the validated content of a pull that found the cached commit. */
  lemma {:induction false} CachedPullExists(o: Outside, states: seq<Shared>, moves: seq<Move>, i: nat)
    requires Run(o, states, moves) && i < |states| && states[i].state.Some?
    ensures exists j | 0 <= j < i :: moves[j].Write? && moves[j].pull.commit == states[i].state.value.commit &&
              ParsedSpec(o, moves[j].pull.data) == Some(states[i].state.value.doc)
  {
    assert Step(o, states[i - 1], moves[i - 1], states[i]);
    if states[i - 1].state == states[i].state {
      CachedPullExists(o, states, moves, i - 1);
    } else {
      assert moves[i - 1].Write?;
    }
  }

  /**
   Watcher run safety: a cached document is well formed and comes, commit and content together, from
   one pull of the run; and once there is one there always is.
   */
  lemma {:induction false} CacheSafety(o: Outside, states: seq<Shared>, moves: seq<Move>, i: nat, k: nat)
    requires Run(o, states, moves) && i <= k < |states| && states[i].state.Some?
    ensures states[k].state.Some? && WellFormed(o.lib, states[k].state.value.doc)
    ensures exists j | 0 <= j < k :: moves[j].Write? && moves[j].pull.commit == states[k].state.value.commit &&
              ParsedSpec(o, moves[j].pull.data) == Some(states[k].state.value.doc)
  {
    if i < k {
      CacheSafety(o, states, moves, i, k - 1);
      assert Step(o, states[k - 1], moves[k - 1], states[k]);
    }
    CachedPullExists(o, states, moves, k);
  }

  // ---------- backoff ----------

  const TWO62 := 0x4000_0000_0000_0000
  const TWO63 := 0x8000_0000_0000_0000
  const TWO64 := 0x1_0000_0000_0000_0000

  /** Go's time.Duration: an int64 of nanoseconds. */
  type Duration = x: int | -TWO63 <= x < TWO63

  /** Doubling with two's-complement wrap-around. */
  function Twice(x: Duration): (r: Duration) {
    if 2 * x >= TWO63 then 2 * x - TWO64
    else if 2 * x < -TWO63 then 2 * x + TWO64
    else 2 * x
  }

  function NextBackoff(backoff: Duration, max: Duration): (r: Duration) {
    if Twice(backoff) > max then max else Twice(backoff)
  }

  /** The backoff in force after `k` failures in a row. */
  function Backoff(min: Duration, max: Duration, k: nat): (r: Duration) {
    if k == 0 then min else NextBackoff(Backoff(min, max, k - 1), max)
  }

  /** `x` doubled `n` times. */
  function Doubled(x: int, n: nat): (r: int) {
    if n == 0 then x else 2 * Doubled(x, n - 1)
  }

  function Min(x: int, y: int): (r: int) {
    if x <= y then x else y
  }

  /** How many pulls in a row failed just before pull `i`. */
  function Failures(results: seq<bool>, i: nat): (r: nat)
    requires i <= |results|
  {
    if i == 0 || results[i - 1] then 0 else Failures(results, i - 1) + 1
  }

  /** The delay after pull `i`. */
  function Delay(interval: Duration, min: Duration, max: Duration, results: seq<bool>, i: nat): (r: Duration)
    requires i < |results|
  {
    if results[i] then interval else Backoff(min, max, Failures(results, i))
  }

  method LoopBody(interval: Duration, min: Duration, max: Duration, ok: bool, before: Duration)
    returns (delay: Duration, backoff: Duration)
    ensures delay == if ok then interval else before
    ensures backoff == if ok then min else NextBackoff(before, max)
  {
    if ok {
      backoff := min;
      delay := interval;
    } else {
      delay := before;
      backoff := Twice(before);
      if backoff > max {
        backoff := max;
      }
    }
  }

  lemma {:induction false} DoubledGrows(x: int, n: nat)
    requires x > 0
    ensures Doubled(x, n) >= x && Doubled(x, n) > n
  {
    if n > 0 {
      DoubledGrows(x, n - 1);
    }
  }

  /** Within range, the delay before retry k + 1 is min(MinBackoff * 2^k, MaxBackoff), and doubling it never wraps. */
  lemma {:induction false} BackoffFormula(min: Duration, max: Duration, k: nat)
    requires 0 < min <= max < TWO62
    ensures Backoff(min, max, k) == Min(Doubled(min, k), max)
    ensures -TWO63 <= 2 * Backoff(min, max, k) < TWO63
  {
    DoubledGrows(min, k);
    if k > 0 {
      DoubledGrows(min, k - 1);
      BackoffFormula(min, max, k - 1);
    }
  }

  /** Pull `i` is the `k`-th failure in a row. */
  ghost predicate Streak(results: seq<bool>, i: int, k: int) {
    && 0 < k <= i + 1 <= |results|
    && (forall j | i - k < j <= i :: !results[j])
    && (i - k >= 0 ==> results[i - k])
  }

  lemma {:induction false} StreakFailures(results: seq<bool>, i: int, k: int)
    requires Streak(results, i, k)
    ensures Failures(results, i) == k - 1
  {
    if k > 1 {
      assert !results[i - 1];
      StreakFailures(results, i - 1, k - 1);
    }
  }

  lemma StreakDelay(interval: Duration, min: Duration, max: Duration, results: seq<bool>, i: int, k: int)
    requires 0 < min <= max < TWO62 && Streak(results, i, k)
    ensures Delay(interval, min, max, results, i) == Min(Doubled(min, k - 1), max)
  {
    assert !results[i];
    StreakFailures(results, i, k);
    BackoffFormula(min, max, k - 1);
  }

  /**
   The `Run` loop: the delay before each next pull, given how the pulls go.  After a success it is the
   interval, after the k-th failure in a row min(MinBackoff * 2^(k-1), MaxBackoff).
   */
  method RunLoop(interval: Duration, min: Duration, max: Duration, results: seq<bool>) returns (delays: seq<Duration>)
    ensures |delays| == |results|
    ensures forall i | 0 <= i < |results| :: delays[i] == Delay(interval, min, max, results, i)
    ensures forall i | 0 <= i < |results| :: results[i] ==> delays[i] == interval
    ensures 0 < min <= max < TWO62 ==>
              forall i, k | Streak(results, i, k) :: delays[i] == Min(Doubled(min, k - 1), max)
  {
    delays := [];
    var backoff := min;
    for i := 0 to |results|
      invariant |delays| == i
      invariant forall k | 0 <= k < i :: delays[k] == Delay(interval, min, max, results, k)
      invariant backoff == Backoff(min, max, Failures(results, i))
    {
      var delay;
      delay, backoff := LoopBody(interval, min, max, results[i], backoff);
      assert delay == Delay(interval, min, max, results, i);
      delays := delays + [delay];
    }
    if 0 < min <= max < TWO62 {
      forall i, k | Streak(results, i, k)
        ensures delays[i] == Min(Doubled(min, k - 1), max)
      {
        StreakDelay(interval, min, max, results, i, k);
      }
    }
  }

  /** Below 2^62, doubling is exact. */
  lemma {:induction false} BackoffClimbs(min: Duration, max: Duration, k: nat)
    requires 0 < min <= max && TWO62 <= max && Doubled(min, k) < TWO62
    ensures Backoff(min, max, k) == Doubled(min, k)
  {
    if k > 0 {
      DoubledGrows(min, k - 1);
      BackoffClimbs(min, max, k - 1);
    }
  }

  lemma {:induction false} DoubledTimes(m: nat, n: nat)
    ensures Doubled(1, m + n) == Doubled(1, m) * Doubled(1, n)
  {
    if n > 0 {
      DoubledTimes(m, n - 1);
    }
  }

  lemma {:induction false} DoubledOrder(x: int, y: int, n: nat)
    requires x <= y
    ensures Doubled(x, n) <= Doubled(y, n)
  {
    if n > 0 {
      DoubledOrder(x, y, n - 1);
    }
  }

  lemma SixtyTwoDoublings()
    ensures Doubled(1, 62) == TWO62
  {
    assert Doubled(1, 1) == 2;
    DoubledTimes(1, 1);
    DoubledTimes(2, 2);
    DoubledTimes(4, 4);
    DoubledTimes(8, 8);
    DoubledTimes(16, 14);
    DoubledTimes(8, 6);
    DoubledTimes(4, 2);
    DoubledTimes(16, 16);
    DoubledTimes(32, 30);
  }

  /** The first doubling to reach 2^62. */
  lemma FirstLarge(min: Duration) returns (k: nat)
    requires 0 < min
    ensures k <= 62 && TWO62 <= Doubled(min, k) && (k > 0 ==> Doubled(min, k - 1) < TWO62)
  {
    SixtyTwoDoublings();
    DoubledOrder(1, min, 62);
    k := 62;
    while k > 0 && TWO62 <= Doubled(min, k - 1)
      invariant k <= 62 && TWO62 <= Doubled(min, k)
    {
      k := k - 1;
    }
  }

  /** Outside that range a streak of at most 63 failures breaks the formula. */
  lemma BackoffBreaks(min: Duration, max: Duration) returns (k: nat)
    requires 0 < min && 0 < max && !(min <= max < TWO62)
    ensures k <= 63 && Backoff(min, max, k) != Min(Doubled(min, k), max)
  {
    if min > max {
      return 0;
    }
    var large := FirstLarge(min);
    if large > 0 {
      BackoffClimbs(min, max, large - 1);
      assert Backoff(min, max, large) == Min(Doubled(min, large), max);
    }
    assert Twice(Backoff(min, max, large)) < 0;
    k := large + 1;
    DoubledGrows(min, k);
  }

  /** The formula holds for every streak exactly when MinBackoff <= MaxBackoff < 2^62. */
  lemma BackoffExact(min: Duration, max: Duration)
    requires 0 < min && 0 < max
    ensures (forall k: nat :: Backoff(min, max, k) == Min(Doubled(min, k), max)) <==> min <= max < TWO62
  {
    if min <= max < TWO62 {
      forall k: nat
        ensures Backoff(min, max, k) == Min(Doubled(min, k), max)
      {
        BackoffFormula(min, max, k);
      }
    } else {
      var k := BackoffBreaks(min, max);
    }
  }

  /** `k + 1` pulls that all fail. */
  lemma AllFail(k: nat) returns (results: seq<bool>)
    ensures |results| == k + 1 && Streak(results, k, k + 1)
  {
    results := seq(k + 1, _ => false);
  }

  /** So the delays of the loop are the promised ones, whatever happens, exactly in that range. */
  lemma DelaysExact(interval: Duration, min: Duration, max: Duration)
    requires 0 < min && 0 < max
    ensures (forall results, i, k | Streak(results, i, k) ::
               Delay(interval, min, max, results, i) == Min(Doubled(min, k - 1), max)) <==> min <= max < TWO62
  {
    if min <= max < TWO62 {
      forall results, i, k | Streak(results, i, k)
        ensures Delay(interval, min, max, results, i) == Min(Doubled(min, k - 1), max)
      {
        StreakDelay(interval, min, max, results, i, k);
      }
    } else {
      var k := BackoffBreaks(min, max);
      var results := AllFail(k);
      StreakFailures(results, k, k + 1);
      assert !results[k];
    }
  }
}
