/** The retry loop of Relay: try a channel a number of times, exclude it, take another. */
module RelayRetry {
  import opened Options

  type Channel = int

  /** What shouldRetry looks at in an upstream error. */
  datatype ApiError = ApiError(code: int, isChannelError: bool, skipRetry: bool, alwaysSkipCode: bool, retryStatus: bool)

  /** One attempt: the channel used, how it ended, and the context flags it left behind. */
  datatype Attempt = Attempt(channel: Channel, error: Option<ApiError>, committed: bool, affinitySkip: bool, specificChannel: bool)

  datatype Result = Succeeded | NoChannel | BodyFailed | UpstreamFailed(error: ApiError)

  function RelayAttemptsPerChannel(retryTimes: int): int { if retryTimes <= 0 then 1 else retryTimes }

  /** shouldRetry(c, err, retryTimes), in the order of its tests. */
  predicate ShouldRetry(a: Attempt, retryTimes: int) {
    if a.error.None? then false
    else
      var e := a.error.value;
      if a.committed then false
      else if a.affinitySkip then false
      else if e.isChannelError then true
      else if e.skipRetry then false
      else if retryTimes <= 0 then false
      else if a.specificChannel then false
      else if 200 <= e.code < 300 then false
      else if e.code < 100 || e.code > 599 then true
      else if e.alwaysSkipCode then false
      else e.retryStatus
  }

  // ----- the shape of a trace

  ghost function Repeated(c: Channel, n: nat): seq<Channel> { seq(n, _ => c) }

  /** Each channel of the order n times in a row. */
  ghost function Blocks(order: seq<Channel>, n: nat): seq<Channel> {
    if order == [] then [] else Blocks(order[..|order| - 1], n) + Repeated(order[|order| - 1], n)
  }

  ghost predicate Distinct(order: seq<Channel>) { forall i, j | 0 <= i < j < |order| :: order[i] != order[j] }

  ghost function Channels(log: seq<Attempt>): (cs: seq<Channel>)
    ensures |cs| == |log|
  {
    seq(|log|, i requires 0 <= i < |log| => log[i].channel)
  }

  /** Whole blocks for the channels given up, then the channel being tried. */
  ghost predicate TraceShape(cs: seq<Channel>, gone: seq<Channel>, current: Option<Channel>, tries: nat, n: nat) {
    && Distinct(gone) && (current.Some? ==> current.value !in gone)
    && cs == Blocks(gone, n) + (if current.Some? then Repeated(current.value, tries) else [])
  }

  lemma {:induction false} BlocksLength(order: seq<Channel>, n: nat)
    ensures |Blocks(order, n)| == |order| * n
    decreases |order|
  {
    if order != [] {
      var k := |order| - 1;
      BlocksLength(order[..k], n);
      assert |order| * n == k * n + n;
    }
  }

  lemma {:induction false} BlocksMembers(order: seq<Channel>, n: nat, i: nat)
    requires n > 0 && i < |Blocks(order, n)|
    ensures Blocks(order, n)[i] in order
    decreases |order|
  {
    if order != [] {
      var k := |order| - 1;
      var front := Blocks(order[..k], n);
      if i < |front| { BlocksMembers(order[..k], n, i); }
    }
  }

  /** In a trace of that shape no channel is come back to. */
  lemma {:induction false} NoRevisit(order: seq<Channel>, n: nat, i: nat, j: nat, k: nat)
    requires n > 0 && Distinct(order) && i <= j <= k < |Blocks(order, n)| && Blocks(order, n)[i] == Blocks(order, n)[k]
    ensures Blocks(order, n)[j] == Blocks(order, n)[i]
    decreases |order|
  {
    var last := |order| - 1;
    var front := Blocks(order[..last], n);
    if k < |front| {
      NoRevisit(order[..last], n, i, j, k);
    } else if i < |front| {
      BlocksMembers(order[..last], n, i);
      assert false;
    }
  }

  /** The same for a trace that ends in the middle of a block. */
  lemma TraceNoRevisit(cs: seq<Channel>, gone: seq<Channel>, current: Option<Channel>, tries: nat, n: nat, i: nat, j: nat, k: nat)
    requires n > 0 && TraceShape(cs, gone, current, tries, n) && i <= j <= k < |cs| && cs[i] == cs[k]
    ensures cs[j] == cs[i]
  {
    var front := Blocks(gone, n);
    if k < |front| {
      NoRevisit(gone, n, i, j, k);
    } else if i < |front| {
      BlocksMembers(gone, n, i);
      assert false;
    }
  }

  /** Distinct elements of a finite set are no more than the set. */
  lemma {:induction false} DistinctBound(order: seq<Channel>, cs: set<Channel>)
    requires Distinct(order) && forall i | 0 <= i < |order| :: order[i] in cs
    ensures |order| <= |cs|
    decreases |order|
  {
    if order != [] {
      var k := |order| - 1;
      DistinctBound(order[..k], cs - {order[k]});
    }
  }

  lemma OneMore(cs: seq<Channel>, gone: seq<Channel>, c: Channel, tries: nat, n: nat)
    requires TraceShape(cs, gone, Some(c), tries, n)
    ensures TraceShape(cs + [c], gone, Some(c), tries + 1, n)
  {
    assert Repeated(c, tries + 1) == Repeated(c, tries) + [c];
    assert Blocks(gone, n) + Repeated(c, tries) + [c] == Blocks(gone, n) + (Repeated(c, tries) + [c]);
  }

  lemma GiveUp(cs: seq<Channel>, gone: seq<Channel>, c: Channel, n: nat)
    requires TraceShape(cs, gone, Some(c), n, n)
    ensures TraceShape(cs, gone + [c], None, 0, n)
  {
    assert (gone + [c])[..|gone|] == gone;
    assert Blocks(gone + [c], n) == Blocks(gone, n) + Repeated(c, n);
    assert cs + [] == cs;
  }

  lemma ChannelsSnoc(log: seq<Attempt>, a: Attempt)
    ensures Channels(log + [a]) == Channels(log) + [a.channel]
  {
  }

  lemma AttemptBound(cs: seq<Channel>, gone: seq<Channel>, current: Option<Channel>, tries: nat, n: nat, all: set<Channel>)
    requires TraceShape(cs, gone, current, tries, n) && tries <= n
    requires (forall i | 0 <= i < |gone| :: gone[i] in all) && (current.Some? ==> current.value in all)
    ensures |cs| <= n * |all|
  {
    BlocksLength(gone, n);
    if current.Some? {
      DistinctBound(gone + [current.value], all);
      assert (|gone| + 1) * n == |gone| * n + n;
      Grow(|gone| + 1, |all|, n);
    } else {
      DistinctBound(gone, all);
      Grow(|gone|, |all|, n);
    }
  }

  lemma Grow(a: nat, b: nat, n: nat)
    requires a <= b
    ensures a * n <= n * b
  {
    assert n * b == a * n + (b - a) * n;
  }

  // ----- the loop

  /** What the loop meets, counted by attempts already begun: whether the body can be
      fetched, how an attempt on a channel ends, and what selection returns. */
  datatype Environment = Environment(fetches: nat -> bool, attempt: (nat, Channel) -> Attempt, select: (nat, set<Channel>) -> Option<Channel>)

  /** Selection returns a candidate that is not excluded, or none. */
  ghost predicate Honours(env: Environment, candidates: set<Channel>) {
    forall k, excluded :: var c := env.select(k, excluded); c.Some? ==> c.value in candidates && c.value !in excluded
  }

  ghost function Members(order: seq<Channel>): set<Channel> { set i | 0 <= i < |order| :: order[i] }

  function WithCurrent(gone: seq<Channel>, current: Option<Channel>): seq<Channel> {
    gone + if current.Some? then [current.value] else []
  }

  /** The channel already selected by the distributor comes first; the first attempt sets
      the channel metadata, so every later choice is selection's, with all channels given up
      before it excluded. */
  ghost predicate ChosenInTurn(order: seq<Channel>, first: Channel, n: nat, env: Environment) {
    && (order != [] ==> order[0] == first)
    && forall j | 0 < j < |order| :: Some(order[j]) == env.select(j * n, Members(order[..j]))
  }

  ghost predicate Happened(log: seq<Attempt>, used: seq<Channel>, env: Environment) {
    |log| <= |used| && forall i | 0 <= i < |log| :: env.fetches(i) && log[i] == env.attempt(i, used[i]).(channel := used[i])
  }

  /** The loop of Relay. */
  method Relay(first: Channel, candidates: set<Channel>, retryTimes: int, env: Environment)
      returns (r: Result, used: seq<Channel>, log: seq<Attempt>, ghost gone: seq<Channel>, ghost current: Option<Channel>)
    requires Honours(env, candidates)
    ensures |used| <= RelayAttemptsPerChannel(retryTimes) * |candidates + {first}|
    // the trace: whole blocks, then the channel being tried, each in its turn
    ensures exists tries: nat :: tries <= RelayAttemptsPerChannel(retryTimes) &&
              TraceShape(used, gone, current, tries, RelayAttemptsPerChannel(retryTimes))
    ensures used != [] && ChosenInTurn(WithCurrent(gone, current), first, RelayAttemptsPerChannel(retryTimes), env)
    // every channel used was tried, but for the last when the body could not be fetched
    ensures |used| == |log| + (if r.BodyFailed? then 1 else 0) && Channels(log) == used[..|log|] && Happened(log, used, env)
    // an attempt is followed by another only if it failed, nothing was committed, and retry was right
    ensures forall i | 0 <= i < |log| - 1 :: log[i].error.Some? && !log[i].committed && ShouldRetry(log[i], 1)
    // and the loop ends only on a body that cannot be fetched, a success, an error that is not
    // to be retried, or, after whole blocks, when selection has nothing left
    ensures match r
            case BodyFailed => !env.fetches(|log|)
            case Succeeded => log != [] && log[|log| - 1].error.None?
            case UpstreamFailed(e) =>
              && log != [] && log[|log| - 1].error == Some(e)
              && (!ShouldRetry(log[|log| - 1], 1) ||
                  (current.None? && |used| == RelayAttemptsPerChannel(retryTimes) * |gone| && env.select(|used|, Members(gone)).None?))
            case NoChannel => false
  {
    hide TraceShape, ShouldRetry, Channels, Honours, ChosenInTurn, Happened, Members, WithCurrent, RelayAttemptsPerChannel, Tracks, Retryable;
    AttemptsConfigured(retryTimes);
    var n := RelayAttemptsPerChannel(retryTimes);
    ghost var all := candidates + {first};
    used, log, gone, current := [], [], [], None;
    TracksStart(first, all, n, env);
    var excluded: set<Channel> := {};
    var currentChannel: Option<Channel> := None;
    var channelAttempts: nat := 0;
    var newAPIError: Option<ApiError> := None;
    while true
      invariant current == currentChannel && (if currentChannel.Some? then 1 <= channelAttempts < n else channelAttempts == 0)
      invariant Tracks(used, log, gone, current, channelAttempts, first, all, n, env) && |log| == |used|
      invariant excluded == Members(gone) && excluded <= all && Retryable(log)
      invariant currentChannel.None? ==> (log == [] <==> gone == [])
      invariant log == [] ==> currentChannel.None? && excluded == {}
      invariant newAPIError == if log == [] then None else log[|log| - 1].error
      decreases |all - excluded|, n - channelAttempts
    {
      if currentChannel.None? {
        var picked := Select(log != [], first, candidates, excluded, |used|, env);
        if picked.None? {
          TracksMeaning(used, log, gone, None, channelAttempts, first, all, n, env);
          RetryableMeaning(log);
          return if newAPIError.Some? then UpstreamFailed(newAPIError.value) else NoChannel, used, log, gone, None;
        }
        TracksTaken(used, log, gone, picked.value, first, all, n, env);
        currentChannel := picked;
        channelAttempts := 0;
        current := picked;
      }
      var channel := currentChannel.value;
      channelAttempts := channelAttempts + 1;
      TracksUsed(used, log, gone, channel, channelAttempts - 1, first, all, n, env);
      used := used + [channel];
      RetryableMeaning(log);
      if !env.fetches(|log|) {
        TracksMeaning(used, log, gone, current, channelAttempts, first, all, n, env);
        return BodyFailed, used, log, gone, current;
      }
      var attempt := env.attempt(|log|, channel).(channel := channel);
      TracksTried(used, log, gone, current, channelAttempts, attempt, first, all, n, env);
      log := log + [attempt];
      newAPIError := attempt.error;
      if newAPIError.None? {
        TracksMeaning(used, log, gone, current, channelAttempts, first, all, n, env);
        return Succeeded, used, log, gone, current;
      }
      if !ShouldRetry(attempt, 1) {
        TracksMeaning(used, log, gone, current, channelAttempts, first, all, n, env);
        return UpstreamFailed(newAPIError.value), used, log, gone, current;
      }
      RetryableMore(log[..|log| - 1], attempt);
      if channelAttempts < n { continue; }
      TracksGiven(used, log, gone, channel, first, all, n, env);
      Shrink(all, excluded, channel);
      excluded := excluded + {channel};
      gone := gone + [channel];
      current := None;
      currentChannel := None;
      channelAttempts := 0;
    }
  }

  // ----- what the loop keeps

  /** The channels used so far, the attempts made, and whose turn it is. */
  ghost predicate Tracks(used: seq<Channel>, log: seq<Attempt>, gone: seq<Channel>, current: Option<Channel>, tries: nat,
                         first: Channel, all: set<Channel>, n: nat, env: Environment) {
    && tries <= n && (current.None? ==> tries == 0) && TraceShape(used, gone, current, tries, n)
    && ChosenInTurn(WithCurrent(gone, current), first, n, env)
    && |log| <= |used| && Channels(log) == used[..|log|] && Happened(log, used, env)
    && (forall i | 0 <= i < |gone| :: gone[i] in all) && (current.Some? ==> current.value in all)
  }

  /** Every attempt so far failed in a way that is to be retried. */
  ghost predicate Retryable(log: seq<Attempt>) { forall i | 0 <= i < |log| :: ShouldRetry(log[i], 1) }

  lemma RetryableMeaning(log: seq<Attempt>)
    requires Retryable(log)
    ensures forall i | 0 <= i < |log| :: log[i].error.Some? && !log[i].committed && ShouldRetry(log[i], 1)
  {
  }

  lemma RetryableMore(log: seq<Attempt>, a: Attempt)
    requires Retryable(log) && ShouldRetry(a, 1)
    ensures Retryable(log + [a])
  {
    hide ShouldRetry;
  }

  lemma TracksStart(first: Channel, all: set<Channel>, n: nat, env: Environment)
    ensures Tracks([], [], [], None, 0, first, all, n, env) && Members([]) == {} && Retryable([])
  {
    NoTrace(n, first, env);
  }

  lemma TracksMeaning(used: seq<Channel>, log: seq<Attempt>, gone: seq<Channel>, current: Option<Channel>, tries: nat,
                      first: Channel, all: set<Channel>, n: nat, env: Environment)
    requires Tracks(used, log, gone, current, tries, first, all, n, env)
    ensures |used| <= n * |all| && tries <= n && TraceShape(used, gone, current, tries, n)
    ensures ChosenInTurn(WithCurrent(gone, current), first, n, env)
    ensures Channels(log) == used[..|log|] && Happened(log, used, env)
    ensures current.None? ==> |used| == n * |gone|
  {
    hide TraceShape, Channels, ChosenInTurn, Happened, WithCurrent;
    AttemptBound(used, gone, current, tries, n, all);
    if current.None? { BlockCount(used, gone, n); }
  }

  lemma TracksTaken(used: seq<Channel>, log: seq<Attempt>, gone: seq<Channel>, c: Channel, first: Channel, all: set<Channel>, n: nat, env: Environment)
    requires Tracks(used, log, gone, None, 0, first, all, n, env) && c !in Members(gone) && c in all
    requires if gone == [] then c == first else env.select(|used|, Members(gone)) == Some(c)
    ensures Tracks(used, log, gone, Some(c), 0, first, all, n, env)
  {
    hide Channels, ChosenInTurn, Happened, WithCurrent, Members;
    NotGiven(gone, c);
    hide TraceShape;
    BlockCount(used, gone, n);
    TakeUp(used, gone, c, 0, n);
    TakenInTurn(gone, c, |used|, first, n, env);
  }

  lemma NotGiven(gone: seq<Channel>, c: Channel)
    ensures c in Members(gone) <==> c in gone
  {
  }

  lemma TracksUsed(used: seq<Channel>, log: seq<Attempt>, gone: seq<Channel>, c: Channel, tries: nat, first: Channel, all: set<Channel>, n: nat, env: Environment)
    requires Tracks(used, log, gone, Some(c), tries, first, all, n, env) && tries < n
    ensures Tracks(used + [c], log, gone, Some(c), tries + 1, first, all, n, env)
  {
    hide Channels, ChosenInTurn, Happened, WithCurrent, TraceShape;
    OneMore(used, gone, c, tries, n);
    UsedMore(log, used, c, env);
    assert (used + [c])[..|log|] == used[..|log|];
  }

  lemma TracksTried(used: seq<Channel>, log: seq<Attempt>, gone: seq<Channel>, current: Option<Channel>, tries: nat, a: Attempt,
                    first: Channel, all: set<Channel>, n: nat, env: Environment)
    requires Tracks(used, log, gone, current, tries, first, all, n, env) && |log| < |used|
    requires env.fetches(|log|) && a == env.attempt(|log|, used[|log|]).(channel := used[|log|])
    ensures Tracks(used, log + [a], gone, current, tries, first, all, n, env)
  {
    hide Channels, ChosenInTurn, Happened, WithCurrent, TraceShape;
    HappenedMore(log, used, a, env);
    ChannelsSnoc(log, a);
    assert used[..|log| + 1] == used[..|log|] + [used[|log|]];
  }

  lemma TracksGiven(used: seq<Channel>, log: seq<Attempt>, gone: seq<Channel>, c: Channel, first: Channel, all: set<Channel>, n: nat, env: Environment)
    requires Tracks(used, log, gone, Some(c), n, first, all, n, env)
    ensures Tracks(used, log, gone + [c], None, 0, first, all, n, env)
    ensures Members(gone + [c]) == Members(gone) + {c} && c in all && c !in Members(gone)
  {
    NotGiven(gone, c);
    hide Channels, ChosenInTurn, Happened, WithCurrent, Members;
    GiveUp(used, gone, c, n);
    GivenUp(gone, c);
  }

  /** Between channels, whole blocks have been used. */
  lemma BlockCount(used: seq<Channel>, gone: seq<Channel>, n: nat)
    requires TraceShape(used, gone, None, 0, n)
    ensures |used| == n * |gone| == |gone| * n
  {
    BlocksLength(gone, n);
  }

  lemma TakenInTurn(gone: seq<Channel>, c: Channel, begun: nat, first: Channel, n: nat, env: Environment)
    requires ChosenInTurn(WithCurrent(gone, None), first, n, env) && begun == |gone| * n
    requires if gone == [] then c == first else env.select(begun, Members(gone)) == Some(c)
    ensures ChosenInTurn(WithCurrent(gone, Some(c)), first, n, env)
  {
    hide Members;
    var order := gone + [c];
    assert gone + [] == gone && order[..|gone|] == gone;
    forall j | 0 < j < |order| ensures Some(order[j]) == env.select(j * n, Members(order[..j])) {
      if j < |gone| {
        assert order[..j] == gone[..j] && order[j] == gone[j];
      } else {
        assert j == |gone|;
      }
    }
  }

  lemma GivenUp(gone: seq<Channel>, c: Channel)
    ensures Members(gone + [c]) == Members(gone) + {c} && WithCurrent(gone + [c], None) == WithCurrent(gone, Some(c))
  {
    var order := gone + [c];
    assert forall i | 0 <= i < |order| :: order[i] == if i < |gone| then gone[i] else c;
    assert order[|gone|] == c;
    assert order + [] == order;
    forall x | x in Members(gone) ensures x in Members(order) {
      var i :| 0 <= i < |gone| && gone[i] == x;
      assert order[i] == x;
    }
  }

  lemma UsedMore(log: seq<Attempt>, used: seq<Channel>, c: Channel, env: Environment)
    requires Happened(log, used, env)
    ensures Happened(log, used + [c], env)
  {
  }

  lemma HappenedMore(log: seq<Attempt>, used: seq<Channel>, a: Attempt, env: Environment)
    requires Happened(log, used, env) && |log| < |used| && env.fetches(|log|) && a == env.attempt(|log|, used[|log|]).(channel := used[|log|])
    ensures Happened(log + [a], used, env)
  {
  }

  lemma Shrink(all: set<Channel>, excluded: set<Channel>, c: Channel)
    requires c in all && c !in excluded
    ensures |all - (excluded + {c})| < |all - excluded|
  {
    assert all - (excluded + {c}) == (all - excluded) - {c};
  }

  lemma NoTrace(n: nat, first: Channel, env: Environment)
    ensures TraceShape([], [], None, 0, n) && Channels([]) == [] && Happened([], [], env) && Members([]) == {}
    ensures ChosenInTurn(WithCurrent([], None), first, n, env)
  {
  }

  lemma TakeUp(cs: seq<Channel>, gone: seq<Channel>, c: Channel, tries: nat, n: nat)
    requires TraceShape(cs, gone, None, tries, n) && c !in gone
    ensures TraceShape(cs, gone, Some(c), 0, n)
  {
    assert Repeated(c, 0) == [];
  }

  /** Once the stream is committed, no retry. */
  lemma CommittedStops(a: Attempt)
    requires ShouldRetry(a, 1)
    ensures a.error.Some? && !a.committed && !a.affinitySkip
  {
  }

  /** getChannel: the distributor's choice while no metadata is set, then selection. */
  method Select(meta: bool, first: Channel, ghost candidates: set<Channel>, excluded: set<Channel>, begun: nat, env: Environment) returns (r: Option<Channel>)
    requires Honours(env, candidates)
    ensures r == if meta then env.select(begun, excluded) else Some(first)
    ensures meta && r.Some? ==> r.value in candidates && r.value !in excluded
  {
    return if meta then env.select(begun, excluded) else Some(first);
  }

  // ----- which errors are retried

  /** At least one attempt, and as many as configured. */
  lemma AttemptsConfigured(retryTimes: int)
    ensures var n := RelayAttemptsPerChannel(retryTimes); n >= 1 && n >= retryTimes && (n == 1 || n == retryTimes)
  {
  }

  /** A retry is right exactly for an error after which nothing was committed and the client
      is not bound to the channel: one of the channel itself, or else one that may be retried
      at all, on a request free to take any channel, by its status: outside the range of
      statuses, or a retryable one other than success. */
  lemma RetryExactly(a: Attempt, retryTimes: int)
    ensures ShouldRetry(a, retryTimes) <==>
            && a.error.Some? && !a.committed && !a.affinitySkip
            && (var e := a.error.value;
                || e.isChannelError
                || (&& !e.skipRetry && !a.specificChannel && retryTimes >= 1
                    && (!(100 <= e.code < 600) || (!(200 <= e.code < 300) && !e.alwaysSkipCode && e.retryStatus))))
  {
  }
}
