/** The broker's sliding-window rate limiter. */
module McpRateLimit {
  import opened Base

  const WINDOW: nat := 60 * SECOND
  const READ_LIMIT: nat := 60
  const WRITE_LIMIT: nat := 10

  function DropOld(queue: seq<Instant>, now: Instant): seq<Instant> {
    if queue != [] && now - queue[0] >= WINDOW then DropOld(queue[1..], now) else queue
  }

  /** One request against one queue: the queue afterwards and whether it was let through. */
  function Authorize(queue: seq<Instant>, limit: nat, now: Instant): (seq<Instant>, bool) {
    var kept := DropOld(queue, now);
    if |kept| >= limit then (kept, false) else (kept + [now], true)
  }

  datatype RateState = RateState(readTimes: seq<Instant>, writeTimes: seq<Instant>)

  class McpRuntime {
    var rateLimits: map<string, RateState>

    function QueueOf(client: string, write: bool): seq<Instant>
      reads this
    {
      if client !in rateLimits then []
      else if write then rateLimits[client].writeTimes else rateLimits[client].readTimes
    }

    /** A request touches its own client's queue of its own kind and nothing else. */
    method AuthorizeRate(client: string, write: bool, now: Instant) returns (allowed: Result<()>)
      modifies this
      ensures var (queue, ok) := Authorize(old(QueueOf(client, write)), if write then WRITE_LIMIT else READ_LIMIT, now);
              allowed.Ok? == ok && QueueOf(client, write) == queue
      ensures allowed.Err? ==> allowed.error == Unavailable
      ensures QueueOf(client, !write) == old(QueueOf(client, !write))
      ensures forall other, kind :: other != client ==> QueueOf(other, kind) == old(QueueOf(other, kind))
    {
      var state := if client in rateLimits then rateLimits[client] else RateState([], []);
      var queue := if write then state.writeTimes else state.readTimes;
      ghost var before := queue;
      while queue != [] && now - queue[0] >= WINDOW
        invariant DropOld(queue, now) == DropOld(before, now)
        decreases |queue|
      {
        queue := queue[1..];
      }
      var limit := if write then WRITE_LIMIT else READ_LIMIT;
      if |queue| >= limit {
        rateLimits := rateLimits[client := if write then state.(writeTimes := queue) else state.(readTimes := queue)];
        return Err(Unavailable);
      }
      queue := queue + [now];
      rateLimits := rateLimits[client := if write then state.(writeTimes := queue) else state.(readTimes := queue)];
      return Ok(());
    }
  }

  // ---- runs -------------------------------------------------------------------

  /** The limiter on a series of requests since its last reset: its queue, and every instant
      at which it let a request through. */
  function LimiterRun(times: seq<Instant>, limit: nat): (seq<Instant>, seq<Instant>) {
    if times == [] then ([], [])
    else
      var (queue, history) := LimiterRun(times[..|times| - 1], limit);
      var now := times[|times| - 1];
      var (after, ok) := Authorize(queue, limit, now);
      (after, if ok then history + [now] else history)
  }

  /** How many of the accepted requests are less than `window` old. */
  function Within(history: seq<Instant>, now: Instant, window: int): nat {
    if history == [] then 0
    else Within(history[..|history| - 1], now, window) + (if now - history[|history| - 1] < window then 1 else 0)
  }

  /** How many of them are less than a minute old. */
  function Recent(history: seq<Instant>, now: Instant): nat {
    Within(history, now, WINDOW)
  }

  /** The simple rule: let a request through when fewer than `limit` recent ones were. */
  function RuleRun(times: seq<Instant>, limit: nat): seq<Instant> {
    if times == [] then []
    else
      var history := RuleRun(times[..|times| - 1], limit);
      var now := times[|times| - 1];
      if Recent(history, now) < limit then history + [now] else history
  }

  predicate Ordered(times: seq<Instant>) {
    forall i, j :: 0 <= i <= j < |times| ==> times[i] <= times[j]
  }

  /** What the queue has forgotten is a prefix of the history and at least a minute old. */
  predicate Forgets(queue: seq<Instant>, history: seq<Instant>, now: Instant) {
    && |queue| <= |history| && queue == history[|history| - |queue|..]
    && forall i :: 0 <= i < |history| - |queue| ==> now - history[i] >= WINDOW
  }

  lemma {:induction false} DropOldForgets(queue: seq<Instant>, history: seq<Instant>, now: Instant)
    requires Forgets(queue, history, now) && Ordered(history)
    ensures Forgets(DropOld(queue, now), history, now)
    ensures forall i :: 0 <= i < |DropOld(queue, now)| ==> now - DropOld(queue, now)[i] < WINDOW
    decreases |queue|
  {
    if queue != [] && now - queue[0] >= WINDOW {
      DropOldForgets(queue[1..], history, now);
    } else {
      forall i | 0 <= i < |queue| ensures now - queue[i] < WINDOW {
        assert queue[0] == history[|history| - |queue|] && queue[i] == history[|history| - |queue| + i];
      }
    }
  }

  lemma {:induction false} RecentIsTheKeptSuffix(history: seq<Instant>, k: nat, now: Instant)
    requires k <= |history|
    requires forall i :: 0 <= i < k ==> now - history[i] >= WINDOW
    requires forall i :: k <= i < |history| ==> now - history[i] < WINDOW
    ensures Recent(history, now) == |history| - k
  {
    if history != [] {
      RecentIsTheKeptSuffix(history[..|history| - 1], if k < |history| then k else k - 1, now);
    }
  }

  lemma OneRequestFollowsTheRule(queue: seq<Instant>, history: seq<Instant>, limit: nat, now: Instant)
    requires Forgets(queue, history, now) && Ordered(history)
    ensures Authorize(queue, limit, now).1 == (Recent(history, now) < limit)
    ensures var (after, ok) := Authorize(queue, limit, now);
            Forgets(after, if ok then history + [now] else history, now)
  {
    DropOldForgets(queue, history, now);
    var kept := DropOld(queue, now);
    forall i | |history| - |kept| <= i < |history| ensures now - history[i] < WINDOW {
      assert history[i] == kept[i - (|history| - |kept|)];
    }
    RecentIsTheKeptSuffix(history, |history| - |kept|, now);
  }

  predicate UpTo(history: seq<Instant>, bound: Instant) {
    forall i :: 0 <= i < |history| ==> history[i] <= bound
  }

  lemma OrderedAppend(history: seq<Instant>, now: Instant)
    requires Ordered(history) && UpTo(history, now)
    ensures Ordered(history + [now]) && UpTo(history + [now], now)
  {
  }

  lemma {:induction false} RuleKeepsOrder(times: seq<Instant>, limit: nat, now: Instant)
    requires Ordered(times) && UpTo(times, now)
    ensures Ordered(RuleRun(times, limit)) && UpTo(RuleRun(times, limit), now)
  {
    if times != [] {
      var last := times[|times| - 1];
      RuleKeepsOrder(times[..|times| - 1], limit, last);
      OrderedAppend(RuleRun(times[..|times| - 1], limit), last);
    }
  }

  /** The queue decides as the simple rule does, for any series of requests in time order. */
  lemma {:induction false} LimiterFollowsTheRule(times: seq<Instant>, limit: nat)
    requires Ordered(times)
    ensures LimiterRun(times, limit).1 == RuleRun(times, limit)
    ensures if times == [] then LimiterRun(times, limit).0 == []
            else Forgets(LimiterRun(times, limit).0, LimiterRun(times, limit).1, times[|times| - 1])
  {
    if times != [] {
      var before := times[..|times| - 1];
      var now := times[|times| - 1];
      LimiterFollowsTheRule(before, limit);
      RuleKeepsOrder(before, limit, times[|times| - 1]);
      assert Forgets(LimiterRun(before, limit).0, RuleRun(before, limit), now);
      OneRequestFollowsTheRule(LimiterRun(before, limit).0, RuleRun(before, limit), limit, now);
    }
  }

  lemma {:induction false} RecentCountsTheTail(history: seq<Instant>, k: nat, now: Instant)
    requires Ordered(history) && k < |history| && now - history[k] < WINDOW
    ensures Recent(history, now) >= |history| - k
  {
    if k < |history| - 1 {
      RecentCountsTheTail(history[..|history| - 1], k, now);
    }
  }

  /** No minute between two resets holds more than `limit` accepted requests. */
  lemma {:induction false} NoWindowExceedsTheLimit(times: seq<Instant>, limit: nat, i: nat, j: nat)
    requires Ordered(times)
    requires i <= j < |LimiterRun(times, limit).1|
    requires LimiterRun(times, limit).1[j] - LimiterRun(times, limit).1[i] < WINDOW
    ensures j - i + 1 <= limit
  {
    LimiterFollowsTheRule(times, limit);
    var before := times[..|times| - 1];
    LimiterFollowsTheRule(before, limit);
    RuleKeepsOrder(before, limit, times[|times| - 1]);
    var history := RuleRun(before, limit);
    if j < |history| {
      NoWindowExceedsTheLimit(before, limit, i, j);
    } else if i < j {
      RecentCountsTheTail(history, i, times[|times| - 1]);
    }
  }

  predicate AllRecent(queue: seq<Instant>, now: Instant) {
    forall i :: 0 <= i < |queue| ==> now - queue[i] < WINDOW
  }

  lemma FreshQueueCounts(queue: seq<Instant>, history: seq<Instant>, now: Instant)
    requires Forgets(queue, history, now) && AllRecent(queue, now)
    ensures |queue| == Recent(history, now)
  {
    forall i | |history| - |queue| <= i < |history| ensures now - history[i] < WINDOW {
      assert history[i] == queue[i - (|history| - |queue|)];
    }
    RecentIsTheKeptSuffix(history, |history| - |queue|, now);
  }

  lemma {:induction false} DropOldLeavesRecent(queue: seq<Instant>, now: Instant)
    requires Ordered(queue)
    ensures AllRecent(DropOld(queue, now), now)
  {
    if queue != [] && now - queue[0] >= WINDOW {
      DropOldLeavesRecent(queue[1..], now);
    }
  }

  lemma ForgottenLeavesOrder(queue: seq<Instant>, history: seq<Instant>, now: Instant)
    requires Forgets(queue, history, now) && Ordered(history)
    ensures Ordered(queue)
  {
    forall i, j | 0 <= i <= j < |queue| ensures queue[i] <= queue[j] {
      var k := |history| - |queue|;
      assert queue[i] == history[k + i] && queue[j] == history[k + j];
    }
  }

  lemma RunForgets(times: seq<Instant>, limit: nat)
    requires Ordered(times) && times != []
    ensures var (queue, history) := LimiterRun(times, limit);
            Forgets(queue, history, times[|times| - 1]) && Ordered(history)
  {
    LimiterFollowsTheRule(times, limit);
    RuleKeepsOrder(times, limit, times[|times| - 1]);
  }

  /** After a request at `m` the queue holds exactly the accepted requests of the minute before `m`. */
  lemma QueueIsTheLastMinute(times: seq<Instant>, limit: nat)
    requires Ordered(times) && times != []
    ensures var (queue, history) := LimiterRun(times, limit);
            |queue| == Recent(history, times[|times| - 1]) && AllRecent(queue, times[|times| - 1])
  {
    var before, m := times[..|times| - 1], times[|times| - 1];
    var (queue, history) := LimiterRun(before, limit);
    if before != [] {
      RunForgets(before, limit);
      ForgottenLeavesOrder(queue, history, before[|before| - 1]);
    }
    DropOldLeavesRecent(queue, m);
    RunForgets(times, limit);
    FreshQueueCounts(LimiterRun(times, limit).0, LimiterRun(times, limit).1, m);
  }

  /** Exactly what happens to a request whose clock reading `now` is behind the latest one, `m`: it is
      judged by the minute before `m` and not by its own.  So it is let through against the rule if
      and only if its own minute is full and the minute before `m` is not. */
  lemma LateReadingsAreJudgedByTheLatestMinute(times: seq<Instant>, limit: nat, now: Instant)
    requires Ordered(times) && times != [] && now <= times[|times| - 1]
    ensures var (queue, history) := LimiterRun(times, limit);
            var m := times[|times| - 1];
            && (Authorize(queue, limit, now).1 <==> Recent(history, m) < limit)
            && (Authorize(queue, limit, now).1 && Recent(history, now) >= limit
                <==> Recent(history, m) < limit <= Recent(history, now))
  {
    QueueIsTheLastMinute(times, limit);
  }

  /** No reading is further behind an earlier one than `skew`. */
  predicate Skewed(times: seq<Instant>, skew: nat) {
    forall i, j :: 0 <= i <= j < |times| ==> times[j] >= times[i] - skew
  }

  function Latest(times: seq<Instant>): Instant
    requires times != []
  {
    var last := times[|times| - 1];
    if |times| == 1 || last >= Latest(times[..|times| - 1]) then last else Latest(times[..|times| - 1])
  }

  lemma {:induction false} LatestIsTheMaximum(times: seq<Instant>, skew: nat)
    requires times != [] && Skewed(times, skew)
    ensures forall i :: 0 <= i < |times| ==> times[i] <= Latest(times)
    ensures times[|times| - 1] >= Latest(times) - skew
    ensures |times| > 1 ==> Latest(times[..|times| - 1]) <= Latest(times)
  {
    if |times| > 1 {
      LatestIsReached(times[..|times| - 1]);
      LatestIsTheMaximum(times[..|times| - 1], skew);
    }
  }

  lemma {:induction false} LatestIsReached(times: seq<Instant>)
    requires times != []
    ensures Latest(times) in times
  {
    if |times| > 1 {
      LatestIsReached(times[..|times| - 1]);
    }
  }

  lemma {:induction false} OldOnesDoNotCount(history: seq<Instant>, k: nat, now: Instant, window: int)
    requires k <= |history| && forall i :: 0 <= i < k ==> now - history[i] >= window
    ensures Within(history, now, window) <= |history| - k
  {
    if history != [] {
      OldOnesDoNotCount(history[..|history| - 1], if k < |history| then k else k - 1, now, window);
    }
  }

  lemma {:induction false} DropOldDropsOld(queue: seq<Instant>, history: seq<Instant>, late: Instant, now: Instant)
    requires Forgets(queue, history, late) && now <= late
    ensures Forgets(DropOld(queue, now), history, late)
    decreases |queue|
  {
    if queue != [] && now - queue[0] >= WINDOW {
      DropOldDropsOld(queue[1..], history, late, now);
    }
  }

  /** Whatever the order of the readings, the queue has forgotten only what is a minute older than the
      latest of them. */
  lemma {:induction false} ForgottenIsOld(times: seq<Instant>, limit: nat, skew: nat)
    requires times != [] && Skewed(times, skew)
    ensures Forgets(LimiterRun(times, limit).0, LimiterRun(times, limit).1, Latest(times))
    ensures times[|times| - 1] >= Latest(times) - skew
  {
    var before, now := times[..|times| - 1], times[|times| - 1];
    var (queue, history) := LimiterRun(before, limit);
    LatestIsTheMaximum(times, skew);
    if before != [] {
      ForgottenIsOld(before, limit, skew);
    }
    assert Forgets(queue, history, Latest(times));
    DropOldDropsOld(queue, history, Latest(times), now);
  }

  /** If readings are out of order by `skew` at most, a request that is let through finds fewer than
      `limit` accepted ones in the minute less `skew` before it. */
  lemma {:induction false} SkewShortensTheWindow(times: seq<Instant>, limit: nat, skew: nat, j: nat)
    requires Skewed(times, skew) && j < |LimiterRun(times, limit).1|
    ensures var history := LimiterRun(times, limit).1;
            Within(history[..j], history[j], WINDOW - skew) < limit
  {
    var before, now := times[..|times| - 1], times[|times| - 1];
    var (queue, history) := LimiterRun(before, limit);
    if j < |history| {
      SkewShortensTheWindow(before, limit, skew, j);
      assert (history + [now])[..j] == history[..j];
    } else {
      LatestIsTheMaximum(times, skew);
      if before != [] {
        ForgottenIsOld(before, limit, skew);
      }
      assert Forgets(queue, history, Latest(times));
      DropOldDropsOld(queue, history, Latest(times), now);
      OldOnesDoNotCount(history, |history| - |DropOld(queue, now)|, now, WINDOW - skew);
      assert (history + [now])[..j] == history;
    }
  }

  /** It happens, for the clock is read before the lock is taken: a request that read 59 s may follow
      one that read 60 s.  After ten writes at 0 s it is let through as well, the eleventh within a
      minute. */
  lemma OutOfOrderClocksExceedTheLimit(start: Instant, ten: seq<Instant>)
    requires |ten| == WRITE_LIMIT && forall i :: 0 <= i < |ten| ==> ten[i] == start
    ensures var (first, ok) := Authorize(ten, WRITE_LIMIT, start + WINDOW);
            var (second, also) := Authorize(first, WRITE_LIMIT, start + WINDOW - SECOND);
            ok && also && Recent(ten, start + WINDOW - SECOND) == WRITE_LIMIT
  {
    AllOld(ten, start + WINDOW);
    RecentIsTheKeptSuffix(ten, 0, start + WINDOW - SECOND);
  }

  lemma {:induction false} AllOld(queue: seq<Instant>, now: Instant)
    requires forall i :: 0 <= i < |queue| ==> now - queue[i] >= WINDOW
    ensures DropOld(queue, now) == []
  {
    if queue != [] {
      AllOld(queue[1..], now);
    }
  }
}
