/** The long-poll watch loop: the state a watch stream keeps between polls,
    the five ways a poll can end, the exponential backoff after failures,
    and the stream itself as a fold of one pure step over the outcomes of
    successive polls. Sleeping is recorded as an event instead of waited
    for, and the random jitter is a parameter. */
module Watch {
  import opened Wrappers
  import opened Model
  import opened Errors
  import opened ServicePaths

  const DELAY_ON_SUCCESS_MS := 1000
  /** The fixed delay before re-polling after a 304 or a client timeout. */
  const DELAY_ON_RETRY_MS := 1000
  const MAX_FAILED_COUNT := 5
  const JITTER_RATE := 0.2
  const NOT_MODIFIED: u16 := 304
  const U64_LIMIT := 0x1_0000_0000_0000_0000

  // ---------------------------------------------------------------------
  // What a stream watches

  /** A stream watches one file through a query, or every file of a
      repository that matches a path pattern. */
  datatype Target = FileTarget(query: Query) | RepoTarget(pathPattern: string)

  /** The path each long-poll request of a stream asks for. A file watch
      passes no revision in the path; the revision goes in a header. */
  function WatchPath(project: string, repo: string, target: Target): (r: string)
    ensures target.FileTarget? ==>
      IsUrl(r, ContentUrl(project, repo, target.query),
            EncodedAll(JSONPATH, JsonPathExpressions(target.query)))
    ensures target.RepoTarget? ==>
      r == RepoPath(project, repo) + "/contents" + NormalizePathPattern(target.pathPattern)
  {
    match target
    case FileTarget(q) => ContentWatchPath(project, repo, q)
    case RepoTarget(pattern) => RepoWatchPath(project, repo, pattern)
  }

  // ---------------------------------------------------------------------
  // Backoff

  function Pow2(n: nat): (p: nat)
    ensures p >= 1
  {
    if n == 0 then 1 else 2 * Pow2(n - 1)
  }

  /** `(2 << n) * 1000` milliseconds. */
  function BaseDelayMs(n: nat): nat {
    2 * Pow2(n) * 1000
  }

  lemma BaseDelayValues()
    ensures BaseDelayMs(0) == 2000
    ensures BaseDelayMs(1) == 4000
    ensures BaseDelayMs(MAX_FAILED_COUNT) == 64000
  {
  }

  lemma {:induction false} BaseDelayGrows(m: nat, n: nat)
    requires m <= n
    ensures BaseDelayMs(m) <= BaseDelayMs(n)
    ensures m < n ==> 2 * BaseDelayMs(m) <= BaseDelayMs(n)
    decreases n - m
  {
    if m < n {
      BaseDelayGrows(m, n - 1);
    }
  }

  lemma {:induction false} Pow2Add(a: nat, b: nat)
    ensures Pow2(a + b) == Pow2(a) * Pow2(b)
    decreases a
  {
    if a > 0 {
      Pow2Add(a - 1, b);
    }
  }

  lemma Pow2Of52()
    ensures Pow2(52) == 0x10_0000_0000_0000
  {
    assert Pow2(4) == 16;
    assert Pow2(8) == 0x100 by { Pow2Add(4, 4); }
    assert Pow2(16) == 0x1_0000 by { Pow2Add(8, 8); }
    assert Pow2(32) == 0x1_0000_0000 by { Pow2Add(16, 16); }
    assert Pow2(48) == 0x1_0000_0000_0000 by { Pow2Add(32, 16); }
    Pow2Add(48, 4);
  }

  /** The random part of the delay, `f32() * JITTER_RATE * base` truncated
      toward zero, for a draw `f32()` in [0, 1), computed exactly. */
  function JitterMs(base: nat, draw: real): (j: nat)
    requires 0.0 <= draw < 1.0
    ensures base > 0 ==> j * 5 < base
    ensures base == 0 ==> j == 0
  {
    var x := Scaled(draw, base);
    ScaledDraw(draw, base);
    FloorBelowFifth(x, base);
    x.Floor
  }

  /** The draw times a fifth of `base`, before truncation. */
  function Scaled(draw: real, base: nat): real {
    draw * (JITTER_RATE * base as real)
  }

  /** A draw from [0, 1) times a fifth of `base` is below that fifth. */
  lemma ScaledDraw(draw: real, base: nat)
    requires 0.0 <= draw < 1.0
    ensures 0.0 <= Scaled(draw, base)
    ensures base > 0 ==> 5.0 * Scaled(draw, base) < base as real
    ensures base == 0 ==> Scaled(draw, base) == 0.0
  {
    var c := JITTER_RATE * base as real;
    assert 5.0 * c == base as real;
    assert 0.0 <= draw * c;
    if base > 0 {
      assert draw * c < c;
    }
  }

  /** Truncating a non-negative amount below a fifth of `base` keeps it
      below that fifth. */
  lemma FloorBelowFifth(x: real, base: nat)
    requires 0.0 <= x
    requires base > 0 ==> 5.0 * x < base as real
    requires base == 0 ==> x == 0.0
    ensures 0 <= x.Floor
    ensures base > 0 ==> x.Floor * 5 < base
    ensures base == 0 ==> x.Floor == 0
  {
    var f := x.Floor;
    assert f as real <= x < f as real + 1.0;
    assert (f * 5) as real == 5.0 * f as real;
  }

  /** `delay_time_for`: the base delay for `n` failures plus up to a fifth
      of it again as jitter. `n` is at most 52, where the largest delay
      still fits in 64 bits; the loop never passes more than 5. */
  function DelayTimeFor(n: nat, draw: real): (ms: nat)
    requires n <= 52 && 0.0 <= draw < 1.0
    ensures BaseDelayMs(n) <= ms
    ensures (ms - BaseDelayMs(n)) * 5 < BaseDelayMs(n)
    ensures ms < U64_LIMIT
  {
    var base := BaseDelayMs(n);
    assert base <= BaseDelayMs(52) by {
      BaseDelayGrows(n, 52);
    }
    Pow2Of52();
    base + JitterMs(base, draw)
  }

  // ---------------------------------------------------------------------
  // One poll

  /** What a sent long-poll request comes back with: a transport error, or a
      status with what reading the body as a watch result gave. Checking
      the status of a non-304 response and decoding its JSON body are not
      part of this model and arrive as `body`. */
  datatype Exchange =
    | SendFailed(error: Error)
    | Received(status: u16, body: Result<WatchResult, Error>)

  /** `request_watch`: a 304 is "no change", anything else either carries
      a watch result or fails. */
  function RequestWatch(x: Exchange): (r: Result<Option<WatchResult>, Error>)
    ensures r == Success(None) <==> x.Received? && x.status == NOT_MODIFIED
    ensures x.SendFailed? ==> r == Failure(x.error)
    ensures r.Success? && r.value.Some? ==>
      x.Received? && x.status != NOT_MODIFIED && x.body == Success(r.value.value)
    ensures r.Failure? ==> x.SendFailed? || x.body == Failure(r.error)
  {
    match x
    case SendFailed(e) => Failure(e)
    case Received(status, body) =>
      if status == NOT_MODIFIED then Success(None)
      else if body.Success? then Success(Some(body.value))
      else Failure(body.error)
  }

  /** One turn of the loop: either the request could not be built, or it
      was sent and `request_watch` answered. */
  datatype Attempt = BuildError | Sent(reply: Result<Option<WatchResult>, Error>)

  datatype Outcome =
    | Changed(result: WatchResult)
    | NotModified
    | TimedOut
    | Failed(error: Error)
    | BuildFailed

  function Classify(a: Attempt): (o: Outcome)
    ensures o.BuildFailed? <==> a.BuildError?
    ensures o.Changed? <==> a.Sent? && a.reply.Success? && a.reply.value.Some?
    ensures o.Changed? ==> a.reply == Success(Some(o.result))
    ensures o.NotModified? <==> a == Sent(Success(None))
    ensures o.TimedOut? <==> a == Sent(Failure(HttpClient(true)))
    ensures o.Failed? <==> a.Sent? && a.reply.Failure? && a.reply.error != HttpClient(true)
    ensures o.Failed? ==> a.reply == Failure(o.error)
  {
    match a
    case BuildError => BuildFailed
    case Sent(Success(Some(r))) => Changed(r)
    case Sent(Success(None)) => NotModified
    case Sent(Failure(e)) => if e == HttpClient(true) then TimedOut else Failed(e)
  }

  /** A 304 reply is never mistaken for a change or a failure. */
  lemma NotModifiedReplyIsUnchanged(body: Result<WatchResult, Error>)
    ensures Classify(Sent(RequestWatch(Received(NOT_MODIFIED, body)))) == NotModified
  {
  }

  /** Every other sent request is a change, a timeout or a failure. */
  lemma OtherReplies(x: Exchange)
    requires !(x.Received? && x.status == NOT_MODIFIED)
    ensures Classify(Sent(RequestWatch(x))).Changed?
         || Classify(Sent(RequestWatch(x))).TimedOut?
         || Classify(Sent(RequestWatch(x))).Failed?
  {
  }

  // ---------------------------------------------------------------------
  // The state machine

  datatype WatchState = WatchState(
    lastKnownRevision: Option<Revision>,
    failedCount: nat,
    successDelayMs: Option<nat>)

  /** The failure count stays within the cap, and the only delay ever
      left pending is the one after a success. */
  predicate Valid(s: WatchState) {
    s.failedCount <= MAX_FAILED_COUNT
    && (s.successDelayMs.Some? ==> s.successDelayMs.value == DELAY_ON_SUCCESS_MS)
  }

  /** A new stream knows no revision, has seen no failure and has no
      delay pending. */
  const INIT_STATE := WatchState(None, 0, None)

  datatype Transition =
    | Emit(result: WatchResult, next: WatchState)
    | Retry(next: WatchState, delayMs: nat)
    | Stop

  /** The failure count after one more failure: one more, up to the cap. */
  function Bumped(n: nat): (m: nat)
    requires n <= MAX_FAILED_COUNT
    ensures m <= MAX_FAILED_COUNT
    ensures n < MAX_FAILED_COUNT ==> m == n + 1
    ensures n == MAX_FAILED_COUNT ==> m == n
  {
    if n < MAX_FAILED_COUNT then n + 1 else n
  }

  /** What the loop does with one outcome. */
  function Step(s: WatchState, o: Outcome, draw: real): (t: Transition)
    requires Valid(s) && 0.0 <= draw < 1.0
    ensures t.Emit? <==> o.Changed?
    ensures t.Stop? <==> o.BuildFailed?
    ensures !t.Stop? ==> Valid(t.next)
    ensures o.Changed? ==>
      t.result == o.result
      && t.next == WatchState(Some(o.result.WatchedRevision()), 0, Some(DELAY_ON_SUCCESS_MS))
    ensures t.Retry? ==>
      t.next.lastKnownRevision == s.lastKnownRevision && t.next.successDelayMs == s.successDelayMs
    ensures o.NotModified? ==> t.next.failedCount == 0 && t.delayMs == DELAY_ON_RETRY_MS
    ensures o.TimedOut? ==> t.next == s && t.delayMs == DELAY_ON_RETRY_MS
    ensures o.Failed? ==>
      t.next.failedCount == Bumped(s.failedCount)
      && BaseDelayMs(t.next.failedCount) <= t.delayMs
      && (t.delayMs - BaseDelayMs(t.next.failedCount)) * 5 < BaseDelayMs(t.next.failedCount)
  {
    match o
    case Changed(r) =>
      Emit(r, WatchState(Some(r.WatchedRevision()), 0, Some(DELAY_ON_SUCCESS_MS)))
    case NotModified => Retry(s.(failedCount := 0), DELAY_ON_RETRY_MS)
    case TimedOut => Retry(s, DELAY_ON_RETRY_MS)
    case Failed(_) =>
      var n := Bumped(s.failedCount);
      Retry(s.(failedCount := n), DelayTimeFor(n, draw))
    case BuildFailed => Stop
  }

  /** Once the count is at the cap, more failures keep the base at 64 s. */
  lemma FailuresAtCapStayAtCap(s: WatchState, e: Error, draw: real)
    requires Valid(s) && s.failedCount == MAX_FAILED_COUNT && 0.0 <= draw < 1.0
    ensures Step(s, Failed(e), draw).next.failedCount == MAX_FAILED_COUNT
    ensures 64000 <= Step(s, Failed(e), draw).delayMs < 64000 + 12800
  {
    BaseDelayValues();
  }

  // ---------------------------------------------------------------------
  // The stream

  datatype Event = Slept(ms: nat) | Polled(baseline: Option<Revision>) | Emitted(result: WatchResult)

  datatype Status = Live(state: WatchState) | Ended

  datatype Trace = Trace(events: seq<Event>, status: Status)

  predicate DrawsInRange(draws: seq<real>) {
    forall i :: 0 <= i < |draws| ==> 0.0 <= draws[i] < 1.0
  }

  /** The sleep a pull starts with when a delay is pending. */
  function PendingSleep(s: WatchState): seq<Event> {
    if s.successDelayMs.Some? then [Slept(s.successDelayMs.value)] else []
  }

  /** The stream over a finite sequence of poll outcomes, with one jitter
      draw per outcome. A pending post-success delay is slept before the
      next request is built; a request that cannot be built ends the stream
      and the outcomes after it are never reached. */
  function Run(s: WatchState, outcomes: seq<Outcome>, draws: seq<real>): (t: Trace)
    requires Valid(s) && |draws| == |outcomes| && DrawsInRange(draws)
    ensures t.status.Live? ==> Valid(t.status.state)
    decreases |outcomes|
  {
    if |outcomes| == 0 then Trace([], Live(s))
    else
      var s0 := s.(successDelayMs := None);
      var polled := PendingSleep(s) + [Polled(s0.lastKnownRevision)];
      match Step(s0, outcomes[0], draws[0])
      case Stop => Trace(PendingSleep(s), Ended)
      case Emit(r, s1) =>
        var rest := Run(s1, outcomes[1..], draws[1..]);
        Trace(polled + [Emitted(r)] + rest.events, rest.status)
      case Retry(s1, d) =>
        var rest := Run(s1, outcomes[1..], draws[1..]);
        Trace(polled + [Slept(d)] + rest.events, rest.status)
  }

  // ---------------------------------------------------------------------
  // What the stream yields

  function Items(events: seq<Event>): seq<WatchResult>
    decreases |events|
  {
    if |events| == 0 then []
    else (if events[0].Emitted? then [events[0].result] else []) + Items(events[1..])
  }

  /** The results of the changed outcomes the stream gets to: those before
      the first build failure, in order. */
  function ChangedResults(outcomes: seq<Outcome>): seq<WatchResult>
    decreases |outcomes|
  {
    if |outcomes| == 0 || outcomes[0].BuildFailed? then []
    else (if outcomes[0].Changed? then [outcomes[0].result] else []) + ChangedResults(outcomes[1..])
  }

  lemma {:induction false} ItemsConcat(a: seq<Event>, b: seq<Event>)
    ensures Items(a + b) == Items(a) + Items(b)
    decreases |a|
  {
    if |a| == 0 {
      assert a + b == b;
    } else {
      assert (a + b)[0] == a[0];
      assert (a + b)[1..] == a[1..] + b;
      ItemsConcat(a[1..], b);
    }
  }

  /** One turn yields its result if it emitted one, and nothing else. */
  lemma TurnItems(s: WatchState, x: Event)
    ensures Items(PendingSleep(s) + [Polled(s.lastKnownRevision)] + [x])
         == if x.Emitted? then [x.result] else []
  {
    var polled := PendingSleep(s) + [Polled(s.lastKnownRevision)];
    assert Items(PendingSleep(s)) == [];
    ItemsConcat(PendingSleep(s), [Polled(s.lastKnownRevision)]);
    ItemsConcat(polled, [x]);
  }

  /** The stream yields exactly the changed results, in order, until a
      request cannot be built. */
  lemma {:induction false} RunYieldsChangedResults(s: WatchState, outcomes: seq<Outcome>, draws: seq<real>)
    requires Valid(s) && |draws| == |outcomes| && DrawsInRange(draws)
    ensures Items(Run(s, outcomes, draws).events) == ChangedResults(outcomes)
    decreases |outcomes|
  {
    if |outcomes| > 0 && !outcomes[0].BuildFailed? {
      var t := Step(s.(successDelayMs := None), outcomes[0], draws[0]);
      var x := if t.Emit? then Emitted(t.result) else Slept(t.delayMs);
      var turn := PendingSleep(s) + [Polled(s.lastKnownRevision), x];
      var rest := Run(t.next, outcomes[1..], draws[1..]);
      RunTurn(s, outcomes, draws);
      RunYieldsChangedResults(t.next, outcomes[1..], draws[1..]);
      assert turn == PendingSleep(s) + [Polled(s.lastKnownRevision)] + [x];
      TurnItems(s, x);
      ItemsConcat(turn, rest.events);
    }
  }

  /** The stream ends exactly when some request cannot be built; otherwise
      it is still live after the last outcome. */
  lemma {:induction false} RunEndsOnBuildFailure(s: WatchState, outcomes: seq<Outcome>, draws: seq<real>)
    requires Valid(s) && |draws| == |outcomes| && DrawsInRange(draws)
    ensures Run(s, outcomes, draws).status == Ended
        <==> exists i :: 0 <= i < |outcomes| && outcomes[i].BuildFailed?
    decreases |outcomes|
  {
    if |outcomes| > 0 && !outcomes[0].BuildFailed? {
      var s1 := Step(s.(successDelayMs := None), outcomes[0], draws[0]).next;
      RunEndsOnBuildFailure(s1, outcomes[1..], draws[1..]);
      if exists i :: 0 <= i < |outcomes| && outcomes[i].BuildFailed? {
        var i :| 0 <= i < |outcomes| && outcomes[i].BuildFailed?;
        assert outcomes[1..][i - 1].BuildFailed?;
      }
      if exists i :: 0 <= i < |outcomes[1..]| && outcomes[1..][i].BuildFailed? {
        var i :| 0 <= i < |outcomes[1..]| && outcomes[1..][i].BuildFailed?;
        assert outcomes[i + 1].BuildFailed?;
      }
    }
  }

  /** The number of requests among the events. */
  function PollCount(events: seq<Event>): nat
    decreases |events|
  {
    if |events| == 0 then 0
    else (if events[0].Polled? then 1 else 0) + PollCount(events[1..])
  }

  lemma {:induction false} PollCountConcat(a: seq<Event>, b: seq<Event>)
    ensures PollCount(a + b) == PollCount(a) + PollCount(b)
    decreases |a|
  {
    if |a| == 0 {
      assert a + b == b;
    } else {
      assert (a + b)[0] == a[0];
      assert (a + b)[1..] == a[1..] + b;
      PollCountConcat(a[1..], b);
    }
  }

  /** One turn that gets past building its request polls exactly once. */
  lemma TurnPollCount(s: WatchState, x: Event)
    requires !x.Polled?
    ensures PollCount(PendingSleep(s) + [Polled(s.lastKnownRevision), x]) == 1
  {
    assert PollCount(PendingSleep(s)) == 0;
    assert PollCount([Polled(s.lastKnownRevision), x]) == 1 by {
      assert [Polled(s.lastKnownRevision), x][1..] == [x];
      assert [x][1..] == [];
      assert PollCount([x]) == 0;
    }
    PollCountConcat(PendingSleep(s), [Polled(s.lastKnownRevision), x]);
  }

  /** No retry after a request that cannot be built: the outcomes after the
      first build failure are never reached, so the stream is the one over
      the outcomes up to it, and it made exactly one request per earlier
      outcome. */
  lemma {:induction false} RunStopsAtBuildFailure(s: WatchState, outcomes: seq<Outcome>, draws: seq<real>, k: nat)
    requires Valid(s) && |draws| == |outcomes| && DrawsInRange(draws)
    requires k < |outcomes| && outcomes[k].BuildFailed?
    requires forall i :: 0 <= i < k ==> !outcomes[i].BuildFailed?
    ensures Run(s, outcomes, draws) == Run(s, outcomes[..k + 1], draws[..k + 1])
    ensures Run(s, outcomes, draws).status == Ended
    ensures PollCount(Run(s, outcomes, draws).events) == k
    decreases k
  {
    var os := outcomes[..k + 1];
    var ds := draws[..k + 1];
    assert os[0] == outcomes[0] && ds[0] == draws[0];
    if k == 0 {
      assert PollCount(PendingSleep(s)) == 0;
    } else {
      var t := Step(s.(successDelayMs := None), outcomes[0], draws[0]);
      var x := if t.Emit? then Emitted(t.result) else Slept(t.delayMs);
      var turn := PendingSleep(s) + [Polled(s.lastKnownRevision), x];
      assert os[1..] == outcomes[1..][..k];
      assert ds[1..] == draws[1..][..k];
      assert forall i :: 0 <= i < k - 1 ==> outcomes[1..][i] == outcomes[i + 1];
      RunStopsAtBuildFailure(t.next, outcomes[1..], draws[1..], k - 1);
      var rest := Run(t.next, outcomes[1..], draws[1..]);
      RunTurn(s, outcomes, draws);
      RunTurn(s, os, ds);
      TurnPollCount(s, x);
      PollCountConcat(turn, rest.events);
    }
  }

  // ---------------------------------------------------------------------
  // Each poll asks from the last revision seen

  /** The revision of the last emitted result, or `known` if none. */
  function LastRevision(known: Option<Revision>, events: seq<Event>): Option<Revision>
    decreases |events|
  {
    if |events| == 0 then known
    else
      var known' := if events[0].Emitted? then Some(events[0].result.WatchedRevision()) else known;
      LastRevision(known', events[1..])
  }

  lemma {:induction false} LastRevisionConcat(known: Option<Revision>, a: seq<Event>, b: seq<Event>)
    ensures LastRevision(known, a + b) == LastRevision(LastRevision(known, a), b)
    decreases |a|
  {
    if |a| == 0 {
      assert a + b == b;
    } else {
      assert (a + b)[0] == a[0];
      assert (a + b)[1..] == a[1..] + b;
      var known' := if a[0].Emitted? then Some(a[0].result.WatchedRevision()) else known;
      LastRevisionConcat(known', a[1..], b);
    }
  }

  predicate PollsFromLastRevision(known: Option<Revision>, events: seq<Event>) {
    forall i :: 0 <= i < |events| && events[i].Polled? ==>
      events[i].baseline == LastRevision(known, events[..i])
  }

  lemma PollsConcat(known: Option<Revision>, a: seq<Event>, b: seq<Event>)
    requires PollsFromLastRevision(known, a)
    requires PollsFromLastRevision(LastRevision(known, a), b)
    ensures PollsFromLastRevision(known, a + b)
  {
    forall i | 0 <= i < |a + b| && (a + b)[i].Polled?
      ensures (a + b)[i].baseline == LastRevision(known, (a + b)[..i])
    {
      if i < |a| {
        assert (a + b)[..i] == a[..i];
      } else {
        assert (a + b)[..i] == a + b[..i - |a|];
        LastRevisionConcat(known, a, b[..i - |a|]);
      }
    }
  }

  /** The events of one turn of the loop, before the rest of the stream. */
  lemma TurnFacts(s: WatchState, x: Event)
    requires x.Slept? || x.Emitted?
    ensures PollsFromLastRevision(s.lastKnownRevision,
              PendingSleep(s) + [Polled(s.lastKnownRevision)] + [x])
    ensures LastRevision(s.lastKnownRevision, PendingSleep(s) + [Polled(s.lastKnownRevision)] + [x])
         == if x.Emitted? then Some(x.result.WatchedRevision()) else s.lastKnownRevision
  {
    var known := s.lastKnownRevision;
    var turn := PendingSleep(s) + [Polled(known)] + [x];
    assert LastRevision(known, PendingSleep(s)) == known;
    LastRevisionConcat(known, PendingSleep(s), [Polled(known)]);
    LastRevisionConcat(known, PendingSleep(s) + [Polled(known)], [x]);
    forall i | 0 <= i < |turn| && turn[i].Polled?
      ensures turn[i].baseline == LastRevision(known, turn[..i])
    {
      assert i == |PendingSleep(s)|;
      assert turn[..i] == PendingSleep(s);
    }
  }

  /** Every request carries the revision of the last result the stream
      emitted, or the starting one before the first; a live stream keeps
      that revision for its next request. */
  lemma {:induction false} RunPollsFromLastRevision(s: WatchState, outcomes: seq<Outcome>, draws: seq<real>)
    requires Valid(s) && |draws| == |outcomes| && DrawsInRange(draws)
    ensures PollsFromLastRevision(s.lastKnownRevision, Run(s, outcomes, draws).events)
    ensures Run(s, outcomes, draws).status.Live? ==>
      Run(s, outcomes, draws).status.state.lastKnownRevision
        == LastRevision(s.lastKnownRevision, Run(s, outcomes, draws).events)
    decreases |outcomes|
  {
    var known := s.lastKnownRevision;
    if |outcomes| > 0 {
      var s0 := s.(successDelayMs := None);
      match Step(s0, outcomes[0], draws[0])
      case Stop =>
        assert PendingSleep(s) == [] || PendingSleep(s) == [Slept(DELAY_ON_SUCCESS_MS)];
      case Emit(r, s1) =>
        var rest := Run(s1, outcomes[1..], draws[1..]);
        RunPollsFromLastRevision(s1, outcomes[1..], draws[1..]);
        TurnFacts(s, Emitted(r));
        PollsConcat(known, PendingSleep(s) + [Polled(known)] + [Emitted(r)], rest.events);
        LastRevisionConcat(known, PendingSleep(s) + [Polled(known)] + [Emitted(r)], rest.events);
      case Retry(s1, d) =>
        var rest := Run(s1, outcomes[1..], draws[1..]);
        RunPollsFromLastRevision(s1, outcomes[1..], draws[1..]);
        TurnFacts(s, Slept(d));
        PollsConcat(known, PendingSleep(s) + [Polled(known)] + [Slept(d)], rest.events);
        LastRevisionConcat(known, PendingSleep(s) + [Polled(known)] + [Slept(d)], rest.events);
    }
  }

  // ---------------------------------------------------------------------
  // Pacing

  /** What may follow an event: every request comes after a sleep (except
      the very first), an emitted result is followed by the one-second
      post-success sleep, and no two sleeps are adjacent, so the pending
      delay is slept exactly once. */
  predicate Follows(x: Event, y: Event) {
    (y.Polled? ==> x.Slept?)
    && (x.Emitted? ==> y == Slept(DELAY_ON_SUCCESS_MS))
    && (x.Slept? ==> !y.Slept?)
  }

  predicate Paced(events: seq<Event>) {
    forall i :: 0 < i < |events| ==> Follows(events[i - 1], events[i])
  }

  lemma PacedConcat(a: seq<Event>, b: seq<Event>)
    requires Paced(a) && Paced(b)
    requires |a| > 0 && |b| > 0 ==> Follows(a[|a| - 1], b[0])
    ensures Paced(a + b)
  {
    forall i | 0 < i < |a + b|
      ensures Follows((a + b)[i - 1], (a + b)[i])
    {
      if i < |a| {
      } else if i == |a| {
      } else {
        assert (a + b)[i - 1] == b[i - 1 - |a|];
      }
    }
  }

  /** The first event of a stream: the pending sleep if there is one,
      otherwise the first request. */
  lemma RunStarts(s: WatchState, outcomes: seq<Outcome>, draws: seq<real>)
    requires Valid(s) && |draws| == |outcomes| && DrawsInRange(draws)
    ensures |Run(s, outcomes, draws).events| > 0 ==>
      Run(s, outcomes, draws).events[0]
        == if s.successDelayMs.Some? then Slept(s.successDelayMs.value) else Polled(s.lastKnownRevision)
  {
  }

  /** A fresh stream's first request asks from no known revision. */
  lemma FreshStreamStartsWithPoll(outcomes: seq<Outcome>, draws: seq<real>)
    requires |draws| == |outcomes| && DrawsInRange(draws)
    ensures |Run(INIT_STATE, outcomes, draws).events| > 0 ==>
      Run(INIT_STATE, outcomes, draws).events[0] == Polled(None)
  {
    RunStarts(INIT_STATE, outcomes, draws);
  }

  lemma {:induction false} RunIsPaced(s: WatchState, outcomes: seq<Outcome>, draws: seq<real>)
    requires Valid(s) && |draws| == |outcomes| && DrawsInRange(draws)
    ensures Paced(Run(s, outcomes, draws).events)
    ensures Run(s, outcomes, draws).status.Live? && |Run(s, outcomes, draws).events| > 0 ==>
      (Run(s, outcomes, draws).status.state.successDelayMs.Some? <==>
         Run(s, outcomes, draws).events[|Run(s, outcomes, draws).events| - 1].Emitted?)
    decreases |outcomes|
  {
    if |outcomes| > 0 {
      var s0 := s.(successDelayMs := None);
      var polled := PendingSleep(s) + [Polled(s0.lastKnownRevision)];
      assert Paced(polled);
      match Step(s0, outcomes[0], draws[0])
      case Stop =>
      case Emit(r, s1) =>
        var rest := Run(s1, outcomes[1..], draws[1..]);
        RunIsPaced(s1, outcomes[1..], draws[1..]);
        RunStarts(s1, outcomes[1..], draws[1..]);
        PacedConcat(polled, [Emitted(r)]);
        PacedConcat(polled + [Emitted(r)], rest.events);
      case Retry(s1, d) =>
        var rest := Run(s1, outcomes[1..], draws[1..]);
        RunIsPaced(s1, outcomes[1..], draws[1..]);
        RunStarts(s1, outcomes[1..], draws[1..]);
        PacedConcat(polled, [Slept(d)]);
        PacedConcat(polled + [Slept(d)], rest.events);
    }
  }

  // ---------------------------------------------------------------------
  // Delays

  /** Every sleep lasts at least a second and less than the capped backoff
      of 64 s plus its largest jitter. */
  predicate SleepsBounded(events: seq<Event>) {
    forall i :: 0 <= i < |events| && events[i].Slept? ==>
      DELAY_ON_RETRY_MS <= events[i].ms < 64000 + 12800
  }

  lemma StepDelayBounded(s: WatchState, o: Outcome, draw: real)
    requires Valid(s) && 0.0 <= draw < 1.0
    ensures Step(s, o, draw).Retry? ==> DELAY_ON_RETRY_MS <= Step(s, o, draw).delayMs < 64000 + 12800
  {
    if o.Failed? {
      var n := Step(s, o, draw).next.failedCount;
      BaseDelayGrows(1, n);
      BaseDelayGrows(n, MAX_FAILED_COUNT);
      BaseDelayValues();
    }
  }

  lemma {:induction false} RunSleepsBounded(s: WatchState, outcomes: seq<Outcome>, draws: seq<real>)
    requires Valid(s) && |draws| == |outcomes| && DrawsInRange(draws)
    ensures SleepsBounded(Run(s, outcomes, draws).events)
    decreases |outcomes|
  {
    if |outcomes| > 0 {
      var s0 := s.(successDelayMs := None);
      var polled := PendingSleep(s) + [Polled(s0.lastKnownRevision)];
      StepDelayBounded(s0, outcomes[0], draws[0]);
      match Step(s0, outcomes[0], draws[0])
      case Stop =>
      case Emit(r, s1) =>
        RunSleepsBounded(s1, outcomes[1..], draws[1..]);
        SleepsBoundedConcat(polled + [Emitted(r)], Run(s1, outcomes[1..], draws[1..]).events);
      case Retry(s1, d) =>
        RunSleepsBounded(s1, outcomes[1..], draws[1..]);
        SleepsBoundedConcat(polled + [Slept(d)], Run(s1, outcomes[1..], draws[1..]).events);
    }
  }

  lemma SleepsBoundedConcat(a: seq<Event>, b: seq<Event>)
    requires SleepsBounded(a) && SleepsBounded(b)
    ensures SleepsBounded(a + b)
  {
    forall i | 0 <= i < |a + b| && (a + b)[i].Slept?
      ensures DELAY_ON_RETRY_MS <= (a + b)[i].ms < 64000 + 12800
    {
      if i >= |a| {
        assert (a + b)[i] == b[i - |a|];
      }
    }
  }

  // ---------------------------------------------------------------------
  // The failure counter

  function Min(a: int, b: int): int {
    if a <= b then a else b
  }

  /** A run of failures counts up by one per failure, to the cap. */
  lemma {:induction false} ConsecutiveFailures(s: WatchState, outcomes: seq<Outcome>, draws: seq<real>)
    requires Valid(s) && |draws| == |outcomes| && DrawsInRange(draws)
    requires forall i :: 0 <= i < |outcomes| ==> outcomes[i].Failed?
    ensures Run(s, outcomes, draws).status.Live?
    ensures Run(s, outcomes, draws).status.state.failedCount
         == Min(s.failedCount + |outcomes|, MAX_FAILED_COUNT)
    decreases |outcomes|
  {
    if |outcomes| > 0 {
      var s1 := Step(s.(successDelayMs := None), outcomes[0], draws[0]).next;
      ConsecutiveFailures(s1, outcomes[1..], draws[1..]);
    }
  }

  /** Changes and 304s leave the counter at zero, whatever came before. */
  lemma {:induction false} SuccessesKeepCounterAtZero(s: WatchState, outcomes: seq<Outcome>, draws: seq<real>)
    requires Valid(s) && |draws| == |outcomes| && DrawsInRange(draws)
    requires forall i :: 0 <= i < |outcomes| ==> outcomes[i].Changed? || outcomes[i].NotModified?
    requires |outcomes| > 0 || s.failedCount == 0
    ensures Run(s, outcomes, draws).status.Live?
    ensures Run(s, outcomes, draws).status.state.failedCount == 0
    decreases |outcomes|
  {
    if |outcomes| > 0 {
      var s1 := Step(s.(successDelayMs := None), outcomes[0], draws[0]).next;
      SuccessesKeepCounterAtZero(s1, outcomes[1..], draws[1..]);
    }
  }

  // ---------------------------------------------------------------------
  // Scenarios

  /** One turn of the stream: the pending sleep, a request, then the
      result or the delay, then the rest of the stream. */
  lemma RunTurn(s: WatchState, outcomes: seq<Outcome>, draws: seq<real>)
    requires Valid(s) && |draws| == |outcomes| && DrawsInRange(draws)
    requires |outcomes| > 0 && !outcomes[0].BuildFailed?
    ensures var t := Step(s.(successDelayMs := None), outcomes[0], draws[0]);
      var rest := Run(t.next, outcomes[1..], draws[1..]);
      Run(s, outcomes, draws)
        == Trace(PendingSleep(s)
                 + [Polled(s.lastKnownRevision), if t.Emit? then Emitted(t.result) else Slept(t.delayMs)]
                 + rest.events, rest.status)
  {
    var s0 := s.(successDelayMs := None);
    var t := Step(s0, outcomes[0], draws[0]);
    var polled := PendingSleep(s) + [Polled(s0.lastKnownRevision)];
    var x := if t.Emit? then Emitted(t.result) else Slept(t.delayMs);
    assert polled + [x] == PendingSleep(s) + [Polled(s.lastKnownRevision), x];
  }

  /** A 304 and then a change at revision 3, as in the file-watch unit
      test: one result, the two requests a second apart, and the stream
      waits from revision 3 after its post-success sleep. */
  lemma UnchangedThenChanged(r: WatchResult, draws: seq<real>)
    requires r.WatchedRevision() == Revision(3)
    requires |draws| == 2 && DrawsInRange(draws)
    ensures Run(INIT_STATE, [NotModified, Changed(r)], draws)
         == Trace([Polled(None), Slept(1000), Polled(None), Emitted(r)],
                  Live(WatchState(Some(Revision(3)), 0, Some(DELAY_ON_SUCCESS_MS))))
  {
    var os := [NotModified, Changed(r)];
    var last := WatchState(Some(Revision(3)), 0, Some(DELAY_ON_SUCCESS_MS));
    assert os[1..][1..] == [] && draws[1..][1..] == [];
    RunTurn(INIT_STATE, os[1..], draws[1..]);
    assert Run(INIT_STATE, os[1..], draws[1..]) == Trace([Polled(None), Emitted(r)], Live(last));
    RunTurn(INIT_STATE, os, draws);
    assert Run(INIT_STATE, os, draws)
        == Trace([Polled(None), Slept(1000)] + [Polled(None), Emitted(r)], Live(last));
  }

  /** A turn that fails: the request, then the backoff sleep. */
  lemma FailedTurn(s: WatchState, outcomes: seq<Outcome>, draws: seq<real>)
    requires Valid(s) && s.successDelayMs.None? && |draws| == |outcomes| && DrawsInRange(draws)
    requires |outcomes| > 0 && outcomes[0].Failed?
    ensures var t := Step(s, outcomes[0], draws[0]);
      var rest := Run(t.next, outcomes[1..], draws[1..]);
      t.next == s.(failedCount := Bumped(s.failedCount))
      && Run(s, outcomes, draws) == Trace([Polled(s.lastKnownRevision), Slept(t.delayMs)] + rest.events, rest.status)
  {
    var t := Step(s, outcomes[0], draws[0]);
    var rest := Run(t.next, outcomes[1..], draws[1..]);
    assert s.(successDelayMs := None) == s;
    assert PendingSleep(s) == [];
    RunTurn(s, outcomes, draws);
    assert [] + [Polled(s.lastKnownRevision), Slept(t.delayMs)] == [Polled(s.lastKnownRevision), Slept(t.delayMs)];
  }

  /** A change at revision 5 followed by one failure, from a state with one
      failure or more behind it. */
  lemma ChangeThenFailure(s: WatchState, r: WatchResult, draws: seq<real>)
    requires Valid(s) && s.successDelayMs.None?
    requires r.WatchedRevision() == Revision(5)
    requires |draws| == 2 && DrawsInRange(draws)
    ensures var t := Run(s, [Changed(r), Failed(Connection)], draws);
      && |t.events| == 5
      && t.events[..2] == [Polled(s.lastKnownRevision), Emitted(r)]
      && t.events[2] == Slept(DELAY_ON_SUCCESS_MS)
      && t.events[3] == Polled(Some(Revision(5)))
      && t.events[4].Slept? && 4000 <= t.events[4].ms < 4800
      && t.status.Live? && t.status.state.failedCount == 1
  {
    var os := [Changed(r), Failed(Connection)];
    var s1 := WatchState(Some(Revision(5)), 0, Some(DELAY_ON_SUCCESS_MS));
    var t2 := Step(s1.(successDelayMs := None), os[1], draws[1]);
    assert t2.next.failedCount == 1;
    BaseDelayValues();
    assert os[1..][1..] == [] && draws[1..][1..] == [];
    RunTurn(s1, os[1..], draws[1..]);
    var e2 := [Slept(DELAY_ON_SUCCESS_MS), Polled(Some(Revision(5))), Slept(t2.delayMs)];
    assert Run(s1, os[1..], draws[1..]) == Trace(e2, Live(t2.next));
    RunTurn(s, os, draws);
    assert Run(s, os, draws) == Trace([Polled(s.lastKnownRevision), Emitted(r)] + e2, Live(t2.next));
  }

  /** Three connection failures back off from 4 s upwards; after a change
      at revision 5 a single failure backs off from 4 s again, because the
      success reset the counter. */
  lemma FailuresThenChangeThenFailure(r: WatchResult, draws: seq<real>)
    requires r.WatchedRevision() == Revision(5)
    requires |draws| == 5 && DrawsInRange(draws)
    ensures var t := Run(INIT_STATE, [Failed(Connection), Failed(Connection), Failed(Connection),
                                      Changed(r), Failed(Connection)], draws);
      && |t.events| == 11
      && t.events[7] == Emitted(r)
      && t.events[8] == Slept(DELAY_ON_SUCCESS_MS)
      && t.events[9] == Polled(Some(Revision(5)))
      && t.events[10].Slept? && 4000 <= t.events[10].ms < 4800
      && t.status.Live? && t.status.state.failedCount == 1
  {
    var os := [Failed(Connection), Failed(Connection), Failed(Connection), Changed(r), Failed(Connection)];
    assert os[3..] == [Changed(r), Failed(Connection)];
    ThreeFailures(os, draws);
    ChangeThenFailure(WatchState(None, 3, None), r, draws[3..]);
    var t := Run(INIT_STATE, os, draws);
    assert t.events[7] == t.events[6..][1] && t.events[8] == t.events[6..][2];
    assert t.events[9] == t.events[6..][3] && t.events[10] == t.events[6..][4];
  }

  /** Three failures from the start: three requests, each followed by its
      backoff, and the count at 3. */
  lemma ThreeFailures(os: seq<Outcome>, draws: seq<real>)
    requires |draws| == |os| >= 3 && DrawsInRange(draws)
    requires os[0].Failed? && os[1].Failed? && os[2].Failed?
    ensures var rest := Run(WatchState(None, 3, None), os[3..], draws[3..]);
      var t := Run(INIT_STATE, os, draws);
      && t.status == rest.status
      && |t.events| == 6 + |rest.events|
      && t.events[..6] == [Polled(None), Slept(DelayTimeFor(1, draws[0])),
                           Polled(None), Slept(DelayTimeFor(2, draws[1])),
                           Polled(None), Slept(DelayTimeFor(3, draws[2]))]
      && t.events[6..] == rest.events
  {
    var s1 := WatchState(None, 1, None);
    var s2 := WatchState(None, 2, None);
    var s3 := WatchState(None, 3, None);
    assert os[1..][1..] == os[2..] && draws[1..][1..] == draws[2..];
    assert os[2..][1..] == os[3..] && draws[2..][1..] == draws[3..];
    var tail := Run(s3, os[3..], draws[3..]);
    var u2 := Run(s2, os[2..], draws[2..]);
    var u1 := Run(s1, os[1..], draws[1..]);
    var t := Run(INIT_STATE, os, draws);
    FailedTurn(s2, os[2..], draws[2..]);
    assert u2.events[2..] == tail.events;
    FailedTurn(s1, os[1..], draws[1..]);
    DropTurn(u1.events, u2.events, tail.events, 2);
    FailedTurn(INIT_STATE, os, draws);
    DropTurn(t.events, u1.events, tail.events, 4);
  }

  /** Dropping a two-event turn from the front of a trace. */
  lemma DropTurn(whole: seq<Event>, rest: seq<Event>, tail: seq<Event>, k: nat)
    requires |whole| >= 2 && whole[2..] == rest
    requires k <= |rest| && rest[k..] == tail
    ensures whole[k + 2..] == tail
  {
    assert whole[k + 2..] == rest[k..];
  }

  /** A request that cannot be built ends a fresh stream with nothing
      emitted and nothing slept. */
  lemma BuildFailureEndsFreshStream(outcomes: seq<Outcome>, draws: seq<real>)
    requires |outcomes| > 0 && outcomes[0].BuildFailed?
    requires |draws| == |outcomes| && DrawsInRange(draws)
    ensures Run(INIT_STATE, outcomes, draws) == Trace([], Ended)
  {
  }
}
