/** The sliding-window rate limiter with its per-client garbage collection. */
module RateLimit {
  import opened Objects

  const WINDOW: int := 1_000_000_000       // one second
  const IDLE: int := 300 * 1_000_000_000   // five minutes

  // ---- one window ----

  /** The timestamps after `cutoff`. */
  function Recent(ts: seq<int>, cutoff: int): seq<int> {
    if ts == [] then []
    else
      var init, t := ts[..|ts| - 1], ts[|ts| - 1];
      if t > cutoff then Recent(init, cutoff) + [t] else Recent(init, cutoff)
  }

  predicate Full(n: nat, rate: real) {
    n as real >= rate
  }

  function AllowResult(ts: seq<int>, rate: real, now: int): (seq<int>, bool) {
    var kept := Recent(ts, now - WINDOW);
    if Full(|kept|, rate) then (kept, false) else (kept + [now], true)
  }

  /** The decisions on a sequence of requests, from a given list of timestamps. */
  function Decisions(ts: seq<int>, rate: real, times: seq<int>): seq<bool>
    decreases |times|
  {
    if times == [] then []
    else
      var (ts', ok) := AllowResult(ts, rate, times[0]);
      [ok] + Decisions(ts', rate, times[1..])
  }

  /** The times of the accepted requests, given the decisions. */
  function Accepted(times: seq<int>, oks: seq<bool>): seq<int>
    requires |oks| == |times|
  {
    if times == [] then []
    else
      var n := |times| - 1;
      Accepted(times[..n], oks[..n]) + (if oks[n] then [times[n]] else [])
  }

  ghost predicate NonDecreasing(from: int, times: seq<int>)
    decreases |times|
  {
    times == [] || (from <= times[0] && NonDecreasing(times[0], times[1..]))
  }

  lemma {:induction false} RecentTwice(ts: seq<int>, c: int, d: int)
    requires c <= d
    ensures Recent(Recent(ts, c), d) == Recent(ts, d)
  {
    if ts != [] {
      var init := ts[..|ts| - 1];
      RecentTwice(init, c, d);
      RecentAppend(Recent(init, c), ts[|ts| - 1], d);
    }
  }

  lemma RecentAppend(ts: seq<int>, t: int, c: int)
    ensures Recent(ts + [t], c) == Recent(ts, c) + (if t > c then [t] else [])
  {
    assert (ts + [t])[..|ts|] == ts;
  }

  lemma {:induction false} RecentNone(ts: seq<int>, c: int)
    requires forall t :: t in ts ==> t <= c
    ensures Recent(ts, c) == []
  {
    if ts != [] {
      var init := ts[..|ts| - 1];
      forall t | t in init ensures t <= c {
        assert t in ts;
      }
      RecentNone(init, c);
      assert ts[|ts| - 1] in ts;
    }
  }

  lemma {:induction false} RecentMembers(ts: seq<int>, c: int)
    ensures forall t :: t in Recent(ts, c) ==> t in ts && t > c
  {
    if ts != [] {
      RecentMembers(ts[..|ts| - 1], c);
      assert ts == ts[..|ts| - 1] + [ts[|ts| - 1]];
    }
  }

  /** Two lists that no request at or after `now` can tell apart. */
  ghost predicate Alike(a: seq<int>, b: seq<int>, now: int) {
    Recent(a, now - WINDOW) == Recent(b, now - WINDOW)
  }

  lemma AlikeLater(a: seq<int>, b: seq<int>, now: int, later: int)
    requires Alike(a, b, now) && now <= later
    ensures Alike(a, b, later)
  {
    RecentTwice(a, now - WINDOW, later - WINDOW);
    RecentTwice(b, now - WINDOW, later - WINDOW);
  }

  /** Alike lists decide alike, and stay alike. */
  lemma AlikeStep(a: seq<int>, b: seq<int>, rate: real, last: int, now: int)
    requires Alike(a, b, last) && last <= now
    ensures var (a', x) := AllowResult(a, rate, now); var (b', y) := AllowResult(b, rate, now);
      x == y && Alike(a', b', now) && a' == b'
  {
    AlikeLater(a, b, last, now);
  }

  // ---- agreement with a limiter that keeps every acceptance ----

  /** The timestamps in (s, s + WINDOW]. */
  function Span(ts: seq<int>, s: int): seq<int> {
    if ts == [] then []
    else
      var init, t := ts[..|ts| - 1], ts[|ts| - 1];
      if s < t <= s + WINDOW then Span(init, s) + [t] else Span(init, s)
  }

  /** A request is accepted exactly when fewer than `rate` requests were accepted in the window that ends with it;
      nothing of the history that matters is lost by pruning. */
  lemma DecisionsMatchFullHistory(rate: real, times: seq<int>, start: int, i: nat)
    requires NonDecreasing(start, times) && i < |times|
    ensures var oks := Decisions([], rate, times);
      |oks| == |times| &&
      (oks[i] <==> |Span(Accepted(times[..i], oks[..i]), times[i] - WINDOW)| as real < rate)
  {
    DecisionsLength([], rate, times);
    FullHistory([], [], [], rate, times, start, i);
    var oks := Decisions([], rate, times);
    assert [] + times[..i] == times[..i] && [] + oks[..i] == oks[..i];
    var h := Accepted(times[..i], oks[..i]);
    AcceptedBefore(times, oks, start, i);
    SpanOfPast(h, times[i]);
  }

  lemma {:induction false} SpanOfPast(h: seq<int>, now: int)
    requires forall t :: t in h ==> t <= now
    ensures Span(h, now - WINDOW) == Recent(h, now - WINDOW)
  {
    if h != [] {
      var init := h[..|h| - 1];
      forall t | t in init ensures t <= now {
        assert t in h;
      }
      assert h[|h| - 1] in h;
      SpanOfPast(init, now);
    }
  }

  lemma {:induction false} AcceptedBefore(times: seq<int>, oks: seq<bool>, start: int, i: nat)
    requires NonDecreasing(start, times) && |oks| == |times| && i < |times|
    ensures forall t :: t in Accepted(times[..i], oks[..i]) ==> t <= times[i]
  {
    if i > 0 {
      AcceptedBefore(times, oks, start, i - 1);
      InOrder(start, times, i);
      AcceptedNext(times, oks, i - 1);
    }
  }

  lemma {:induction false} InOrder(start: int, times: seq<int>, i: nat)
    requires NonDecreasing(start, times) && 0 < i < |times|
    ensures times[i - 1] <= times[i]
    decreases |times|
  {
    if i > 1 {
      InOrder(times[0], times[1..], i - 1);
    }
  }

  lemma {:induction false} DecisionsLength(ts: seq<int>, rate: real, times: seq<int>)
    ensures |Decisions(ts, rate, times)| == |times|
    decreases |times|
  {
    if times != [] {
      DecisionsLength(AllowResult(ts, rate, times[0]).0, rate, times[1..]);
    }
  }

  lemma AcceptedAppend(times: seq<int>, oks: seq<bool>, t: int, ok: bool)
    requires |oks| == |times|
    ensures Accepted(times + [t], oks + [ok]) == Accepted(times, oks) + (if ok then [t] else [])
  {
    assert (times + [t])[..|times|] == times && (oks + [ok])[..|times|] == oks;
  }

  lemma AlikeAccept(ts: seq<int>, h: seq<int>, rate: real, now: int)
    requires Alike(ts, h, now)
    ensures var (ts', ok) := AllowResult(ts, rate, now);
      Alike(ts', h + (if ok then [now] else []), now) && (ok <==> !Full(|Recent(h, now - WINDOW)|, rate))
  {
    RecentTwice(ts, now - WINDOW, now - WINDOW);
    RecentAppend(Recent(ts, now - WINDOW), now, now - WINDOW);
    RecentAppend(h, now, now - WINDOW);
    assert h + [] == h;
  }

  /** Decision `i` of a run that follows a past with the given decisions. */
  ghost predicate DecidedByHistory(past: seq<int>, done: seq<bool>, rate: real, times: seq<int>, oks: seq<bool>, i: nat)
    requires |done| == |past| && |oks| == |times| && i < |times|
  {
    oks[i] <==> !Full(|Recent(Accepted(past + times[..i], done + oks[..i]), times[i] - WINDOW)|, rate)
  }

  lemma {:induction false} FullHistory(ts: seq<int>, past: seq<int>, done: seq<bool>, rate: real, times: seq<int>, last: int, i: nat)
    requires |done| == |past| && NonDecreasing(last, times) && i < |times|
    requires Alike(ts, Accepted(past, done), last)
    ensures |Decisions(ts, rate, times)| == |times|
    ensures DecidedByHistory(past, done, rate, times, Decisions(ts, rate, times), i)
    decreases |times|
  {
    DecisionsLength(ts, rate, times);
    var oks, now := Decisions(ts, rate, times), times[0];
    var (ts', ok) := AllowResult(ts, rate, now);
    AlikeLater(ts, Accepted(past, done), last, now);
    AlikeAccept(ts, Accepted(past, done), rate, now);
    if i == 0 {
      assert past + times[..0] == past && done + oks[..0] == done;
    } else {
      AcceptedAppend(past, done, now, ok);
      FullHistory(ts', past + [now], done + [ok], rate, times[1..], now, i - 1);
      assert oks[1..] == Decisions(ts', rate, times[1..]);
      DecidedLater(past, done, rate, times, oks, i);
    }
  }

  lemma DecidedLater(past: seq<int>, done: seq<bool>, rate: real, times: seq<int>, oks: seq<bool>, i: nat)
    requires |done| == |past| && |oks| == |times| && 0 < i < |times|
    requires DecidedByHistory(past + [times[0]], done + [oks[0]], rate, times[1..], oks[1..], i - 1)
    ensures DecidedByHistory(past, done, rate, times, oks, i)
  {
    Shift(past, times, i);
    Shift(done, oks, i);
  }

  lemma Shift<T>(done: seq<T>, todo: seq<T>, i: nat)
    requires 0 < i < |todo|
    ensures done + todo[..i] == done + [todo[0]] + todo[1..][..i - 1]
    ensures todo[i] == todo[1..][i - 1]
  {
  }

  // ---- the rate bound ----

  function Ceil(r: real): int {
    -((-r).Floor)
  }

  /** Sliding a window back over past timestamps, up to the latest, cannot hold fewer. */
  lemma {:induction false} SpanShifts(ts: seq<int>, s: int, c: int)
    requires c <= s && forall t :: t in ts ==> t <= c + WINDOW
    ensures |Span(ts, s)| <= |Span(ts, c)|
  {
    if ts != [] {
      var init := ts[..|ts| - 1];
      forall t | t in init ensures t <= c + WINDOW {
        assert t in ts;
      }
      assert ts[|ts| - 1] in ts;
      SpanShifts(init, s, c);
    }
  }

  /** No interval of one window's length ever holds more than ceil(rate) accepted requests. */
  lemma RateBound(rate: real, times: seq<int>, start: int, s: int)
    requires NonDecreasing(start, times)
    ensures var oks := Decisions([], rate, times);
      |oks| == |times| && |Span(Accepted(times, oks), s)| <= (if rate <= 0.0 then 0 else Ceil(rate))
  {
    DecisionsLength([], rate, times);
    var oks := Decisions([], rate, times);
    assert times[..|times|] == times && oks[..|times|] == oks;
    PrefixBound(rate, times, start, s, |times|);
  }

  function Bound(rate: real): int {
    if rate <= 0.0 then 0 else Ceil(rate)
  }

  lemma {:induction false} PrefixBound(rate: real, times: seq<int>, start: int, s: int, n: nat)
    requires NonDecreasing(start, times) && n <= |times|
    ensures var oks := Decisions([], rate, times);
      |oks| == |times| && |Span(Accepted(times[..n], oks[..n]), s)| <= Bound(rate)
  {
    DecisionsLength([], rate, times);
    if n > 0 {
      var oks, i := Decisions([], rate, times), n - 1;
      PrefixBound(rate, times, start, s, i);
      DecisionsMatchFullHistory(rate, times, start, i);
      AcceptedBefore(times, oks, start, i);
      NextBound(rate, times, oks, s, i);
    }
  }

  lemma NextBound(rate: real, times: seq<int>, oks: seq<bool>, s: int, i: nat)
    requires |oks| == |times| && i < |times|
    requires oks[i] ==> |Span(Accepted(times[..i], oks[..i]), times[i] - WINDOW)| as real < rate
    requires forall t :: t in Accepted(times[..i], oks[..i]) ==> t <= times[i]
    requires |Span(Accepted(times[..i], oks[..i]), s)| <= Bound(rate)
    ensures |Span(Accepted(times[..i + 1], oks[..i + 1]), s)| <= Bound(rate)
  {
    OneMore(Accepted(times[..i], oks[..i]), times[i], oks[i], s, rate);
    AcceptedNext(times, oks, i);
  }

  lemma AcceptedNext(times: seq<int>, oks: seq<bool>, i: nat)
    requires |oks| == |times| && i < |times|
    ensures Accepted(times[..i + 1], oks[..i + 1]) == Accepted(times[..i], oks[..i]) + (if oks[i] then [times[i]] else [])
  {
    AcceptedAppend(times[..i], oks[..i], times[i], oks[i]);
    assert times[..i + 1] == times[..i] + [times[i]] && oks[..i + 1] == oks[..i] + [oks[i]];
  }

  /** One more decision keeps the bound. */
  lemma OneMore(h: seq<int>, t: int, ok: bool, s: int, rate: real)
    requires |Span(h, s)| <= Bound(rate) && (ok ==> |Span(h, t - WINDOW)| as real < rate)
    requires forall x :: x in h ==> x <= t
    ensures |Span(h + (if ok then [t] else []), s)| <= Bound(rate)
  {
    if ok {
      assert (h + [t])[..|h|] == h;
      if s < t <= s + WINDOW {
        SpanShifts(h, s, t - WINDOW);
        CeilBound(|Span(h, s)|, |Span(h, t - WINDOW)|, rate);
      }
    } else {
      assert h + [] == h;
    }
  }

  lemma CeilBound(k: nat, n: nat, rate: real)
    requires k <= n && n as real < rate
    ensures rate > 0.0 && k + 1 <= Ceil(rate)
  {
    var f := (-rate).Floor;
    assert f as real <= -rate;
    assert (-f) as real >= rate > n as real;
    assert -f > n;
  }

  /** At one request per second the window is one second long, to the nanosecond. */
  lemma OneASecond(t: int)
    ensures Decisions([], 1.0, [t, t + 999_999_999, t + 1_000_000_000]) == [true, false, true]
  {
    assert AllowResult([], 1.0, t) == ([t], true) by {
      assert [] + [t] == [t];
    }
    assert [t][..0] == [];
    assert Recent([], t) == [];
    assert Recent([t], t - 1) == [t] && Recent([t], t) == [];
    assert AllowResult([t], 1.0, t + 999_999_999) == ([t], false);
    assert AllowResult([t], 1.0, t + 1_000_000_000) == ([t + 1_000_000_000], true) by {
      assert [] + [t + 1_000_000_000] == [t + 1_000_000_000];
    }
    var times := [t, t + 999_999_999, t + 1_000_000_000];
    assert times[1..] == [times[1], times[2]] && [times[1], times[2]][1..] == [times[2]] && [times[2]][1..] == [];
    assert Decisions([t], 1.0, [times[2]]) == [true];
    assert Decisions([t], 1.0, [times[1], times[2]]) == [false, true];
  }

  // ---- one limiter per key, garbage collected ----

  datatype DomainState = DomainState(rate: real, limiters: map<string, seq<int>>, lastSeen: map<string, int>)

  /** The clock is read twice: for the time the key was last seen, and by the limiter. */
  function ExecuteResult(st: DomainState, key: string, seenAt: int, allowAt: int): (DomainState, bool) {
    var ts := if key in st.limiters then st.limiters[key] else [];
    var (ts', ok) := AllowResult(ts, st.rate, allowAt);
    (st.(limiters := st.limiters[key := ts'], lastSeen := st.lastSeen[key := seenAt]), ok)
  }

  /** One tick of the collector: keys not seen for five minutes are forgotten. */
  function CollectResult(st: DomainState, now: int): DomainState {
    var idle := set k | k in st.lastSeen && st.lastSeen[k] < now - IDLE;
    st.(limiters := st.limiters - idle, lastSeen := st.lastSeen - idle)
  }

  /** The collector reads the clock at `now`, before it takes the lock at `lockedAt`. */
  datatype Event = Request(key: string, seenAt: int, allowAt: int) | Collect(now: int, lockedAt: int)

  function Apply(st: DomainState, e: Event): DomainState {
    match e
    case Request(key, seenAt, allowAt) => ExecuteResult(st, key, seenAt, allowAt).0
    case Collect(now, _) => CollectResult(st, now)
  }

  /** The decisions on the requests of one key, in a run of all keys and the collector. */
  function DecisionsFor(st: DomainState, events: seq<Event>, key: string): seq<bool>
    decreases |events|
  {
    if events == [] then []
    else
      (if events[0].Request? && events[0].key == key
       then [ExecuteResult(st, key, events[0].seenAt, events[0].allowAt).1] else [])
      + DecisionsFor(Apply(st, events[0]), events[1..], key)
  }

  /** The times at which a key's requests reach its limiter. */
  function TimesOf(events: seq<Event>, key: string): seq<int>
    decreases |events|
  {
    if events == [] then []
    else (if events[0].Request? && events[0].key == key then [events[0].allowAt] else []) + TimesOf(events[1..], key)
  }

  /** The locked sections follow one another in time. */
  ghost predicate ClockOk(last: int, events: seq<Event>)
    decreases |events|
  {
    events == [] ||
    match events[0]
    case Request(_, seenAt, allowAt) => last <= seenAt <= allowAt && ClockOk(allowAt, events[1..])
    case Collect(now, lockedAt) => now <= lockedAt && last <= lockedAt && ClockOk(lockedAt, events[1..])
  }

  /** No request spends more than `gap` between its two readings of the clock. */
  ghost predicate GapAtMost(gap: int, events: seq<Event>) {
    forall e :: e in events && e.Request? ==> e.allowAt - e.seenAt <= gap
  }

  /** The longest such gap with which collection cannot be noticed. */
  const SAFE_GAP := IDLE - WINDOW + 1

  /** The state of a key cannot be told from one limiter that has seen all its requests and was never collected. */
  ghost predicate Faithful(st: DomainState, key: string, ts: seq<int>, now: int) {
    && st.limiters.Keys == st.lastSeen.Keys
    && (key in st.limiters ==> Alike(st.limiters[key], ts, now) && forall t :: t in ts ==> t <= st.lastSeen[key] + SAFE_GAP)
    && (key !in st.limiters ==> Alike([], ts, now))
  }

  lemma CollectFaithful(st: DomainState, key: string, ts: seq<int>, last: int, now: int, lockedAt: int)
    requires Faithful(st, key, ts, last) && last <= lockedAt && now <= lockedAt
    ensures Faithful(CollectResult(st, now), key, ts, lockedAt)
  {
    var held := if key in st.limiters then st.limiters[key] else [];
    AlikeLater(held, ts, last, lockedAt);
    if key in st.limiters && key !in CollectResult(st, now).limiters {
      assert st.lastSeen[key] < now - IDLE;
      RecentNone(ts, lockedAt - WINDOW);
    }
  }

  lemma AllowTimes(ts: seq<int>, rate: real, now: int)
    requires forall t :: t in ts ==> t <= now
    ensures forall t :: t in AllowResult(ts, rate, now).0 ==> t <= now
  {
    RecentMembers(ts, now - WINDOW);
  }

  lemma OwnRequestFaithful(st: DomainState, key: string, ts: seq<int>, last: int, seenAt: int, allowAt: int)
    requires Faithful(st, key, ts, last) && last <= seenAt <= allowAt <= seenAt + SAFE_GAP
    requires forall t :: t in ts ==> t <= last
    ensures var (st', ok) := ExecuteResult(st, key, seenAt, allowAt);
      var (ts', ok') := AllowResult(ts, st.rate, allowAt);
      ok == ok' && Faithful(st', key, ts', allowAt) && forall t :: t in ts' ==> t <= allowAt
  {
    var held := if key in st.limiters then st.limiters[key] else [];
    AlikeStep(held, ts, st.rate, last, allowAt);
    AllowTimes(ts, st.rate, allowAt);
    var ts' := AllowResult(ts, st.rate, allowAt).0;
    assert ExecuteResult(st, key, seenAt, allowAt).0 == st.(limiters := st.limiters[key := ts'], lastSeen := st.lastSeen[key := seenAt]);
  }

  lemma OtherRequestFaithful(st: DomainState, key: string, ts: seq<int>, last: int, k: string, seenAt: int, allowAt: int)
    requires Faithful(st, key, ts, last) && last <= seenAt <= allowAt && k != key
    ensures Faithful(ExecuteResult(st, k, seenAt, allowAt).0, key, ts, allowAt)
  {
    AlikeLater(if key in st.limiters then st.limiters[key] else [], ts, last, allowAt);
  }

  lemma {:induction false} IsolatedFrom(st: DomainState, events: seq<Event>, key: string, ts: seq<int>, last: int)
    requires Faithful(st, key, ts, last) && ClockOk(last, events) && forall t :: t in ts ==> t <= last
    requires GapAtMost(SAFE_GAP, events)
    ensures DecisionsFor(st, events, key) == Decisions(ts, st.rate, TimesOf(events, key))
    decreases |events|
  {
    if events != [] {
      var e, rest := events[0], events[1..];
      assert e in events && forall x :: x in rest ==> x in events;
      match e
      case Collect(now, lockedAt) =>
        CollectFaithful(st, key, ts, last, now, lockedAt);
        IsolatedFrom(Apply(st, e), rest, key, ts, lockedAt);
        assert TimesOf(events, key) == TimesOf(rest, key);
        assert DecisionsFor(st, events, key) == DecisionsFor(Apply(st, e), rest, key);
      case Request(k, seenAt, allowAt) =>
        if k == key {
          OwnRequestFaithful(st, key, ts, last, seenAt, allowAt);
          var ts' := AllowResult(ts, st.rate, allowAt).0;
          IsolatedFrom(Apply(st, e), rest, key, ts', allowAt);
          assert TimesOf(events, key) == [allowAt] + TimesOf(rest, key);
          assert ([allowAt] + TimesOf(rest, key))[1..] == TimesOf(rest, key);
        } else {
          OtherRequestFaithful(st, key, ts, last, k, seenAt, allowAt);
          IsolatedFrom(Apply(st, e), rest, key, ts, allowAt);
          assert TimesOf(events, key) == TimesOf(rest, key);
          assert DecisionsFor(st, events, key) == DecisionsFor(Apply(st, e), rest, key);
        }
    }
  }

  /** Collection is invisible and keys do not interfere: in any run in which no request takes five minutes less
      a second between its two readings of the clock, the decisions for a key are those of a single limiter run
      on that key's requests alone. */
  lemma CollectionIsInvisible(rate: real, events: seq<Event>, key: string, start: int)
    requires ClockOk(start, events) && GapAtMost(SAFE_GAP, events)
    ensures DecisionsFor(DomainState(rate, map[], map[]), events, key) == Decisions([], rate, TimesOf(events, key))
  {
    IsolatedFrom(DomainState(rate, map[], map[]), events, key, [], start);
  }

  /** In every run with at most this gap, collection is invisible. */
  ghost predicate InvisibleUpTo(gap: int) {
    forall rate, events, key, start :: ClockOk(start, events) && GapAtMost(gap, events) ==>
      DecisionsFor(DomainState(rate, map[], map[]), events, key) == Decisions([], rate, TimesOf(events, key))
  }

  /** A request that dawdles longer is forgotten while its acceptance still counts. */
  function Dawdling(key: string): seq<Event> {
    [Request(key, 0, SAFE_GAP + 1), Collect(IDLE + 1, IDLE + 1), Request(key, IDLE + 1, IDLE + 1)]
  }

  lemma DawdlingIsTimely(key: string)
    ensures ClockOk(0, Dawdling(key)) && GapAtMost(SAFE_GAP + 1, Dawdling(key))
  {
    var events := Dawdling(key);
    assert events[1..][1..] == [events[2]] && events[1..] == [events[1], events[2]];
    assert ClockOk(IDLE + 1, [events[2]]);
    assert ClockOk(SAFE_GAP + 1, [events[1], events[2]]);
  }

  lemma OneAccepted(rate: real, now: int)
    requires rate == 1.0
    ensures AllowResult([], rate, now) == ([now], true) && Decisions([], rate, [now]) == [true]
  {
    assert [] + [now] == [now] && [now][1..] == [];
  }

  lemma DawdlingIsNoticed(key: string)
    ensures DecisionsFor(DomainState(1.0, map[], map[]), Dawdling(key), key) == [true, true]
    ensures Decisions([], 1.0, TimesOf(Dawdling(key), key)) == [true, false]
  {
    var g, events := SAFE_GAP + 1, Dawdling(key);
    assert events[1..] == [events[1], events[2]] && [events[1], events[2]][1..] == [events[2]] && [events[2]][1..] == [];
    OneAccepted(1.0, g);
    OneAccepted(1.0, IDLE + 1);
    var st1 := DomainState(1.0, map[key := [g]], map[key := 0]);
    var st2 := DomainState(1.0, map[], map[]);
    assert Apply(st2, events[0]) == st1 && Apply(st1, events[1]) == st2;
    assert DecisionsFor(st2, [events[2]], key) == [true];
    assert DecisionsFor(st1, [events[1], events[2]], key) == [true];
    assert TimesOf([events[1], events[2]], key) == TimesOf([events[2]], key) == [IDLE + 1];
    SecondRejected(g);
    assert TimesOf(events, key) == [g, IDLE + 1];
  }

  lemma SecondRejected(g: int)
    requires g == SAFE_GAP + 1
    ensures Decisions([], 1.0, [g, IDLE + 1]) == [true, false]
  {
    OneAccepted(1.0, g);
    assert [g, IDLE + 1][1..] == [IDLE + 1] && [IDLE + 1][1..] == [];
    assert [g][..0] == [] && Recent([g], IDLE + 1 - WINDOW) == [g];
    assert AllowResult([g], 1.0, IDLE + 1) == ([g], false);
    assert Decisions([g], 1.0, [IDLE + 1]) == [false];
  }

  /** Collection is invisible in all runs exactly up to that gap. */
  lemma CollectionInvisibleExactly(gap: int)
    ensures InvisibleUpTo(gap) <==> gap <= SAFE_GAP
  {
    if gap <= SAFE_GAP {
      forall rate, events, key, start | ClockOk(start, events) && GapAtMost(gap, events)
        ensures DecisionsFor(DomainState(rate, map[], map[]), events, key) == Decisions([], rate, TimesOf(events, key))
      {
        CollectionIsInvisible(rate, events, key, start);
      }
    } else {
      DawdlingIsTimely("");
      DawdlingIsNoticed("");
      assert GapAtMost(gap, Dawdling(""));
      assert [true, true][1] != [true, false][1];
    }
  }

  // ---- the table of domains ----

  /** A request names its domain's current configuration, but only the first one of a domain is ever used. */
  datatype Config = Config(byIp: bool, rate: real)

  datatype Domain = Domain(config: Config, state: DomainState)

  datatype PluginEvent =
    | Arrive(domain: string, config: Config, client: string, seenAt: int, allowAt: int)
    | Tick(domain: string, now: int, lockedAt: int)

  function KeyFor(config: Config, client: string): string {
    if config.byIp then client else "domain"
  }

  /** LoadOrStore. */
  function DomainOf(plugin: map<string, Domain>, d: string, config: Config): Domain {
    if d in plugin then plugin[d] else Domain(config, DomainState(config.rate, map[], map[]))
  }

  function PluginStep(plugin: map<string, Domain>, e: PluginEvent): map<string, Domain> {
    match e
    case Arrive(d, config, client, seenAt, allowAt) =>
      var dom := DomainOf(plugin, d, config);
      plugin[d := dom.(state := ExecuteResult(dom.state, KeyFor(dom.config, client), seenAt, allowAt).0)]
    case Tick(d, now, _) => if d in plugin then plugin[d := plugin[d].(state := CollectResult(plugin[d].state, now))] else plugin
  }

  /** The decisions on the requests of one key of one domain. */
  function PluginDecisions(plugin: map<string, Domain>, events: seq<PluginEvent>, d: string, key: string): seq<bool>
    decreases |events|
  {
    if events == [] then []
    else
      var e := events[0];
      (if e.Arrive? && e.domain == d && KeyFor(DomainOf(plugin, d, e.config).config, e.client) == key
       then [ExecuteResult(DomainOf(plugin, d, e.config).state, key, e.seenAt, e.allowAt).1] else [])
      + PluginDecisions(PluginStep(plugin, e), events[1..], d, key)
  }

  /** The configuration a domain is given by the first request for it. */
  function FirstConfig(events: seq<PluginEvent>, d: string, none: Config): Config
    decreases |events|
  {
    if events == [] then none
    else if events[0].Arrive? && events[0].domain == d then events[0].config
    else FirstConfig(events[1..], d, none)
  }

  /** What one domain sees of a run. */
  function Seen(events: seq<PluginEvent>, d: string, config: Config): seq<Event>
    decreases |events|
  {
    if events == [] then []
    else
      var e, rest := events[0], Seen(events[1..], d, config);
      if e.domain != d then rest
      else
        match e
        case Arrive(_, _, client, seenAt, allowAt) => [Request(KeyFor(config, client), seenAt, allowAt)] + rest
        case Tick(_, now, lockedAt) => [Collect(now, lockedAt)] + rest
  }

  /** A domain that is in the table runs on its own. */
  lemma {:induction false} KnownDomain(plugin: map<string, Domain>, events: seq<PluginEvent>, d: string, key: string)
    requires d in plugin
    ensures PluginDecisions(plugin, events, d, key) == DecisionsFor(plugin[d].state, Seen(events, d, plugin[d].config), key)
    decreases |events|
  {
    if events != [] {
      var e, next := events[0], PluginStep(plugin, events[0]);
      KnownDomain(next, events[1..], d, key);
      var seen, rest := Seen(events, d, plugin[d].config), Seen(events[1..], d, plugin[d].config);
      if e.domain == d {
        assert seen[1..] == rest;
        assert next[d].state == Apply(plugin[d].state, seen[0]);
      } else {
        assert PluginDecisions(plugin, events, d, key) == PluginDecisions(next, events[1..], d, key);
      }
    }
  }

  lemma {:induction false} NewDomain(plugin: map<string, Domain>, events: seq<PluginEvent>, d: string, key: string, none: Config)
    requires d !in plugin
    ensures var config := FirstConfig(events, d, none);
      PluginDecisions(plugin, events, d, key) == DecisionsFor(DomainState(config.rate, map[], map[]), Seen(events, d, config), key)
    decreases |events|
  {
    if events != [] {
      var e, config := events[0], FirstConfig(events, d, none);
      var empty := Domain(config, DomainState(config.rate, map[], map[]));
      if e.Arrive? && e.domain == d {
        KnownDomain(plugin[d := empty], events, d, key);
        FirstArrival(plugin, events, d, key);
      } else {
        NewDomain(PluginStep(plugin, e), events[1..], d, key, none);
        var rest := Seen(events[1..], d, config);
        assert PluginDecisions(plugin, events, d, key) == PluginDecisions(PluginStep(plugin, e), events[1..], d, key);
        if e.domain == d {
          EmptyTick(DomainState(config.rate, map[], map[]), e.now, e.lockedAt, rest, key);
        }
      }
    }
  }

  /** Whether the table already holds the domain's empty state or the first request puts it there is the same. */
  lemma FirstArrival(plugin: map<string, Domain>, events: seq<PluginEvent>, d: string, key: string)
    requires d !in plugin && events != [] && events[0].Arrive? && events[0].domain == d
    ensures var config := events[0].config;
      PluginDecisions(plugin, events, d, key) ==
      PluginDecisions(plugin[d := Domain(config, DomainState(config.rate, map[], map[]))], events, d, key)
  {
    var config := events[0].config;
    var full := plugin[d := Domain(config, DomainState(config.rate, map[], map[]))];
    assert DomainOf(full, d, config) == DomainOf(plugin, d, config);
    assert PluginStep(full, events[0]) == PluginStep(plugin, events[0]);
  }

  lemma EmptyTick(st: DomainState, now: int, lockedAt: int, rest: seq<Event>, key: string)
    requires st.limiters == map[] && st.lastSeen == map[]
    ensures DecisionsFor(st, [Collect(now, lockedAt)] + rest, key) == DecisionsFor(st, rest, key)
  {
    assert CollectResult(st, now) == st;
    assert ([Collect(now, lockedAt)] + rest)[1..] == rest;
  }

  /** Neither other domains, nor other keys, nor collection, nor later configurations change a decision: in any
      run, a key of a domain is treated as by one limiter, at the rate of the domain's first request, that sees
      that key's requests alone. Only the domain's own events need to follow one another in time. */
  lemma KeysAndDomainsAreIsolated(events: seq<PluginEvent>, d: string, key: string, start: int, none: Config)
    requires var seen := Seen(events, d, FirstConfig(events, d, none)); ClockOk(start, seen) && GapAtMost(SAFE_GAP, seen)
    ensures var config := FirstConfig(events, d, none);
      PluginDecisions(map[], events, d, key) == Decisions([], config.rate, TimesOf(Seen(events, d, config), key))
  {
    var config := FirstConfig(events, d, none);
    NewDomain(map[], events, d, key, none);
    CollectionIsInvisible(config.rate, Seen(events, d, config), key, start);
  }

  // ---- which clients share a limiter ----

  /** The decision on a request, as the plugin makes it. */
  function DecisionOn(plugin: map<string, Domain>, e: PluginEvent): bool
    requires e.Arrive?
  {
    var dom := DomainOf(plugin, e.domain, e.config);
    ExecuteResult(dom.state, KeyFor(dom.config, e.client), e.seenAt, e.allowAt).1
  }

  /** The requests of one client in a domain, or of all its clients. */
  predicate IsOf(e: PluginEvent, d: string, client: Option<string>) {
    e.Arrive? && e.domain == d && (client == None || client == Some(e.client))
  }

  function DecisionsOf(plugin: map<string, Domain>, events: seq<PluginEvent>, d: string, client: Option<string>): seq<bool>
    decreases |events|
  {
    if events == [] then []
    else
      (if IsOf(events[0], d, client) then [DecisionOn(plugin, events[0])] else [])
      + DecisionsOf(PluginStep(plugin, events[0]), events[1..], d, client)
  }

  /** When their requests reach the limiter. */
  function ArrivalsOf(events: seq<PluginEvent>, d: string, client: Option<string>): seq<int>
    decreases |events|
  {
    if events == [] then []
    else (if IsOf(events[0], d, client) then [events[0].allowAt] else []) + ArrivalsOf(events[1..], d, client)
  }

  /** The domain's locked sections follow one another in time, and no request dawdles. */
  ghost predicate InTime(last: int, events: seq<PluginEvent>, d: string)
    decreases |events|
  {
    events == [] ||
    if events[0].domain != d then InTime(last, events[1..], d)
    else
      match events[0]
      case Arrive(_, _, _, seenAt, allowAt) => last <= seenAt <= allowAt <= seenAt + SAFE_GAP && InTime(allowAt, events[1..], d)
      case Tick(_, now, lockedAt) => now <= lockedAt && last <= lockedAt && InTime(lockedAt, events[1..], d)
  }

  lemma {:induction false} SeenInTime(last: int, events: seq<PluginEvent>, d: string, config: Config)
    requires InTime(last, events, d)
    ensures ClockOk(last, Seen(events, d, config)) && GapAtMost(SAFE_GAP, Seen(events, d, config))
    decreases |events|
  {
    if events != [] {
      var e, seen, rest := events[0], Seen(events, d, config), Seen(events[1..], d, config);
      var later := if e.domain != d then last else if e.Arrive? then e.allowAt else e.lockedAt;
      SeenInTime(later, events[1..], d, config);
      if e.domain == d {
        assert seen == [seen[0]] + rest;
        assert forall x :: x in seen ==> x == seen[0] || x in rest;
      }
    }
  }

  /** The requests that are counted under a key are those of the clients in question. */
  ghost predicate SameRequests(config: Config, key: string, client: Option<string>) {
    forall c :: KeyFor(config, c) == key <==> client == None || client == Some(c)
  }

  lemma {:induction false} ArrivalsAreTimes(events: seq<PluginEvent>, d: string, config: Config, key: string, client: Option<string>)
    requires SameRequests(config, key, client)
    ensures ArrivalsOf(events, d, client) == TimesOf(Seen(events, d, config), key)
    decreases |events|
  {
    if events != [] {
      var e, seen, rest := events[0], Seen(events, d, config), Seen(events[1..], d, config);
      ArrivalsAreTimes(events[1..], d, config, key, client);
      if e.domain == d {
        assert seen[1..] == rest;
        if e.Arrive? {
          assert KeyFor(config, e.client) == key <==> IsOf(e, d, client);
        }
      }
    }
  }

  lemma {:induction false} KnownDecisions(plugin: map<string, Domain>, events: seq<PluginEvent>, d: string, key: string, client: Option<string>)
    requires d in plugin && SameRequests(plugin[d].config, key, client)
    ensures DecisionsOf(plugin, events, d, client) == PluginDecisions(plugin, events, d, key)
    decreases |events|
  {
    if events != [] {
      KnownDecisions(PluginStep(plugin, events[0]), events[1..], d, key, client);
    }
  }

  lemma {:induction false} FirstDecisions(plugin: map<string, Domain>, events: seq<PluginEvent>, d: string, key: string, client: Option<string>, none: Config)
    requires d !in plugin && SameRequests(FirstConfig(events, d, none), key, client)
    ensures DecisionsOf(plugin, events, d, client) == PluginDecisions(plugin, events, d, key)
    decreases |events|
  {
    if events != [] {
      var e := events[0];
      if e.Arrive? && e.domain == d {
        KnownDecisions(PluginStep(plugin, e), events[1..], d, key, client);
      } else {
        FirstDecisions(PluginStep(plugin, e), events[1..], d, key, client, none);
      }
    }
  }

  lemma SharedLimiter(events: seq<PluginEvent>, d: string, key: string, client: Option<string>, start: int, none: Config)
    requires InTime(start, events, d) && SameRequests(FirstConfig(events, d, none), key, client)
    ensures DecisionsOf(map[], events, d, client) == Decisions([], FirstConfig(events, d, none).rate, ArrivalsOf(events, d, client))
  {
    var config := FirstConfig(events, d, none);
    SeenInTime(start, events, d, config);
    FirstDecisions(map[], events, d, key, client, none);
    ArrivalsAreTimes(events, d, config, key, client);
    KeysAndDomainsAreIsolated(events, d, key, start, none);
  }

  /** In any run, a client of a domain whose first request asked for ip mode is treated as by one limiter that sees
      exactly that client's requests; in domain mode, all requests of the domain are treated as by one limiter, whoever
      they come from. The rate is that of the domain's first request. */
  lemma ModesDecideSharing(events: seq<PluginEvent>, d: string, client: string, start: int, none: Config)
    requires InTime(start, events, d)
    ensures var config := FirstConfig(events, d, none);
      && (config.byIp ==> DecisionsOf(map[], events, d, Some(client)) == Decisions([], config.rate, ArrivalsOf(events, d, Some(client))))
      && (!config.byIp ==> DecisionsOf(map[], events, d, None) == Decisions([], config.rate, ArrivalsOf(events, d, None)))
  {
    var config := FirstConfig(events, d, none);
    if config.byIp {
      SharedLimiter(events, d, client, Some(client), start, none);
    } else {
      SharedLimiter(events, d, "domain", None, start, none);
    }
  }

  // ---- which limiters are held ----

  function After(st: DomainState, events: seq<Event>): DomainState {
    if events == [] then st else Apply(After(st, events[..|events| - 1]), events[|events| - 1])
  }

  /** Not a request of the key, nor a collection that finds its last request older than five minutes. */
  predicate Leaves(e: Event, key: string, seenAt: int) {
    match e
    case Request(k, _, _) => k != key
    case Collect(now, _) => now - 300_000_000_000 <= seenAt
  }

  /** Request i of the key is its last, and no collection since has found it idle for more than five minutes. */
  ghost predicate SeenLately(events: seq<Event>, key: string, i: nat) {
    && i < |events| && events[i].Request? && events[i].key == key
    && forall j :: i < j < |events| ==> Leaves(events[j], key, events[i].seenAt)
  }

  lemma {:induction false} HeldAt(rate: real, events: seq<Event>, key: string, i: nat)
    ensures var st := After(DomainState(rate, map[], map[]), events);
      && st.limiters.Keys == st.lastSeen.Keys
      && (SeenLately(events, key, i) ==> key in st.lastSeen && st.lastSeen[key] == events[i].seenAt)
    decreases |events|
  {
    if events != [] {
      var init := events[..|events| - 1];
      HeldAt(rate, init, key, i);
      if SeenLately(events, key, i) && i < |events| - 1 {
        SeenLatelyBefore(events, key, i);
      }
    }
  }

  lemma SeenLatelyBefore(events: seq<Event>, key: string, i: nat)
    requires SeenLately(events, key, i) && i < |events| - 1
    ensures SeenLately(events[..|events| - 1], key, i) && Leaves(events[|events| - 1], key, events[i].seenAt)
  {
    var init := events[..|events| - 1];
    assert forall j :: i <= j < |init| ==> init[j] == events[j];
  }

  lemma {:induction false} HeldIsSeen(rate: real, events: seq<Event>, key: string) returns (i: nat)
    requires key in After(DomainState(rate, map[], map[]), events).limiters
    ensures SeenLately(events, key, i)
    decreases |events|
  {
    var n := |events| - 1;
    var init, e := events[..n], events[n];
    if e.Request? && e.key == key {
      i := n;
    } else {
      HeldAt(rate, init, key, 0);
      i := HeldIsSeen(rate, init, key);
      HeldAt(rate, init, key, i);
      assert init[i] == events[i];
      assert forall j :: i < j < n ==> init[j] == events[j];
    }
  }

  /** After any run of a domain a key has a limiter exactly when it has been seen and no later collection found its
      last request older than five minutes. */
  lemma HeldExactly(rate: real, events: seq<Event>, key: string)
    ensures key in After(DomainState(rate, map[], map[]), events).limiters <==> exists i: nat :: SeenLately(events, key, i)
  {
    if key in After(DomainState(rate, map[], map[]), events).limiters {
      var i := HeldIsSeen(rate, events, key);
    }
    if i: nat :| SeenLately(events, key, i) {
      HeldAt(rate, events, key, i);
    }
  }

  // ---- the objects ----

  class SlidingWindow {
    const ratePerSec: real
    var timestamps: seq<int>

    constructor (rps: real)
      ensures ratePerSec == rps && timestamps == []
    {
      ratePerSec := rps;
      timestamps := [];
    }

    method Allow(now: int) returns (ok: bool)
      modifies this
      ensures (timestamps, ok) == AllowResult(old(timestamps), ratePerSec, now)
    {
      var cutoff := now - WINDOW;
      var kept: seq<int> := [];
      for i := 0 to |timestamps|
        invariant kept == Recent(timestamps[..i], cutoff)
      {
        assert timestamps[..i + 1][..i] == timestamps[..i];
        if timestamps[i] > cutoff {
          kept := kept + [timestamps[i]];
        }
      }
      assert timestamps[..|timestamps|] == timestamps;
      timestamps := kept;
      if |timestamps| as real >= ratePerSec {
        return false;
      }
      timestamps := timestamps + [now];
      ok := true;
    }
  }

  /** perDomainState with the sliding-window algorithm. */
  class PerDomainState {
    const byIp: bool
    const ratePerSec: real
    var limiters: map<string, SlidingWindow>
    var lastSeen: map<string, int>

    constructor (byIp: bool, ratePerSec: real)
      ensures Valid() && State() == DomainState(ratePerSec, map[], map[]) && limiters == map[]
      ensures this.byIp == byIp && this.ratePerSec == ratePerSec
    {
      this.byIp, this.ratePerSec := byIp, ratePerSec;
      limiters, lastSeen := map[], map[];
    }

    ghost predicate Valid()
      reads this
    {
      limiters.Keys == lastSeen.Keys && Apart()
    }

    /** Each key has a limiter of its own. */
    ghost predicate Apart()
      reads this
    {
      && (forall k :: k in limiters ==> limiters[k].ratePerSec == ratePerSec)
      && (forall k, l :: k in limiters && l in limiters && k != l ==> limiters[k] != limiters[l])
    }

    ghost function State(): DomainState
      reads this, limiters.Values
    {
      DomainState(ratePerSec, map k | k in limiters :: limiters[k].timestamps, lastSeen)
    }

    function LimiterKey(client: string): string {
      if byIp then client else "domain"
    }

    /** The limiter of a key, created on first use. */
    method LimiterFor(key: string) returns (l: SlidingWindow)
      requires Apart()
      modifies this`limiters
      ensures Apart() && key in limiters && limiters == old(limiters)[key := l] && limiters[key] == l
      ensures if key in old(limiters) then l == old(limiters)[key] else fresh(l)
      ensures l.timestamps == if key in old(limiters) then old(State()).limiters[key] else []
      ensures State() == old(State()).(limiters := old(State()).limiters[key := l.timestamps])
    {
      if key !in limiters {
        l := new SlidingWindow(ratePerSec);
        limiters := limiters[key := l];
      } else {
        l := limiters[key];
      }
    }

    /** The locked section of Execute, once the limiter is known. */
    method Count(key: string, l: SlidingWindow, seenAt: int, allowAt: int) returns (allowed: bool)
      requires Apart() && key in limiters && limiters[key] == l
      modifies this`lastSeen, l
      ensures Apart() && lastSeen == old(lastSeen)[key := seenAt]
      ensures (l.timestamps, allowed) == AllowResult(old(l.timestamps), ratePerSec, allowAt)
      ensures State() == old(State()).(limiters := old(State()).limiters[key := l.timestamps], lastSeen := lastSeen)
    {
      lastSeen := lastSeen[key := seenAt];
      allowed := l.Allow(allowAt);
    }

    /** The locked section of Execute. */
    method Execute(client: string, seenAt: int, allowAt: int) returns (allowed: bool)
      requires Valid()
      modifies this, limiters.Values
      ensures Valid() && fresh(limiters.Values - old(limiters.Values))
      ensures (State(), allowed) == ExecuteResult(old(State()), LimiterKey(client), seenAt, allowAt)
    {
      var key := LimiterKey(client);
      ghost var before := State();
      var l := LimiterFor(key);
      ghost var ts := l.timestamps;
      allowed := Count(key, l, seenAt, allowAt);
      assert before.limiters[key := ts][key := l.timestamps] == before.limiters[key := l.timestamps];
    }

    /** The body of the collector's loop. */
    method Collect(now: int)
      requires Valid()
      modifies this
      ensures Valid() && limiters.Values <= old(limiters.Values)
      ensures State() == CollectResult(old(State()), now)
    {
      ghost var before := State();
      ghost var gone := Forget(now - IDLE);
      assert State().limiters == before.limiters - gone;
    }

    method Forget(cutoff: int) returns (ghost gone: set<string>)
      requires limiters.Keys == lastSeen.Keys
      modifies this
      ensures gone == set k | k in old(lastSeen) && old(lastSeen)[k] < cutoff
      ensures limiters == old(limiters) - gone && lastSeen == old(lastSeen) - gone
    {
      ghost var limiters0, lastSeen0 := limiters, lastSeen;
      var todo := lastSeen.Keys;
      gone := {};
      assert limiters0 - {} == limiters0 && lastSeen0 - {} == lastSeen0;
      while todo != {}
        invariant todo <= lastSeen.Keys
        invariant limiters == limiters0 - gone && lastSeen == lastSeen0 - gone
        invariant forall k :: k in gone <==> k in lastSeen0 && k !in todo && lastSeen0[k] < cutoff
        decreases |todo|
      {
        var k :| k in todo;
        if lastSeen[k] < cutoff {
          assert (limiters0 - gone) - {k} == limiters0 - (gone + {k});
          assert (lastSeen0 - gone) - {k} == lastSeen0 - (gone + {k});
          limiters := limiters - {k};
          lastSeen := lastSeen - {k};
          gone := gone + {k};
        }
        todo := todo - {k};
      }
    }
  }

  /** The plugin: one instance for all domains. */
  class Plugin {
    var domains: map<string, PerDomainState>

    constructor ()
      ensures Valid() && domains == map[] && Table() == map[]
    {
      domains := map[];
    }

    /** No two domains share a state or a limiter. */
    ghost predicate Valid()
      reads this, domains.Values
    {
      && (forall d :: d in domains ==> domains[d].Valid())
      && (forall d, e :: d in domains && e in domains && d != e ==>
            domains[d] != domains[e] && domains[d].limiters.Values !! domains[e].limiters.Values)
    }

    ghost function Limiters(): set<SlidingWindow>
      reads this, domains.Values
    {
      set d, k | d in domains && k in domains[d].limiters :: domains[d].limiters[k]
    }

    ghost function Table(): map<string, Domain>
      reads this, domains.Values, Limiters()
    {
      map d | d in domains :: Domain(Config(domains[d].byIp, domains[d].ratePerSec), domains[d].State())
    }

    /** LoadOrStore. */
    method StateOf(domain: string, config: Config) returns (s: PerDomainState)
      requires Valid()
      modifies this
      ensures Valid() && domains == old(domains)[domain := s]
      ensures if domain in old(domains) then s == old(domains)[domain] else fresh(s) && s.limiters == map[]
      ensures Table() == old(Table())[domain := DomainOf(old(Table()), domain, config)]
    {
      if domain !in domains {
        s := new PerDomainState(config.byIp, config.rate);
        assert Valid() && Table() == old(Table());
        Enter(domain, s);
      } else {
        s := domains[domain];
        assert domains == domains[domain := s];
      }
    }

    method Enter(domain: string, s: PerDomainState)
      requires Valid() && domain !in domains && s !in domains.Values && s.Valid() && s.limiters == map[]
      modifies this
      ensures Valid() && domains == old(domains)[domain := s]
      ensures Table() == old(Table())[domain := Domain(Config(s.byIp, s.ratePerSec), s.State())]
    {
      assert s.limiters.Values == {};
      domains := domains[domain := s];
      assert forall d :: d in domains && d != domain ==> domains[d] != s;
      assert Valid();
    }

    method Execute(domain: string, config: Config, client: string, seenAt: int, allowAt: int) returns (allowed: bool)
      requires Valid()
      modifies this, domains.Values, Limiters()
      ensures Valid()
      ensures Table() == PluginStep(old(Table()), Arrive(domain, config, client, seenAt, allowAt))
      ensures var dom := DomainOf(old(Table()), domain, config);
        allowed == ExecuteResult(dom.state, KeyFor(dom.config, client), seenAt, allowAt).1
      ensures allowed == DecisionOn(old(Table()), Arrive(domain, config, client, seenAt, allowAt))
    {
      ghost var table := Table();
      var s := StateOf(domain, config);
      ghost var dom := DomainOf(table, domain, config);
      assert Table()[domain] == dom;
      assert s.limiters.Values <= old(Limiters());
      allowed := Serve(domain, s, client, seenAt, allowAt);
      UpdateTwice(table, domain, dom, Table()[domain]);
    }

    static lemma UpdateTwice(table: map<string, Domain>, domain: string, a: Domain, b: Domain)
      ensures table[domain := a][domain := b] == table[domain := b]
    {
    }

    /** A request in a domain that has its state: nothing of the other domains changes. */
    method Serve(ghost domain: string, s: PerDomainState, client: string, seenAt: int, allowAt: int) returns (allowed: bool)
      requires Valid() && domain in domains && domains[domain] == s
      modifies s, s.limiters.Values
      ensures Valid() && domains == old(domains)
      ensures var dom := old(Table()[domain]);
        var (state, ok) := ExecuteResult(dom.state, KeyFor(dom.config, client), seenAt, allowAt);
        allowed == ok && Table() == old(Table())[domain := dom.(state := state)]
    {
      allowed := s.Execute(client, seenAt, allowAt);
      OthersValid(domain);
      OthersTable(domain);
    }

    /** What a call on one domain's state leaves of the others. */
    twostate lemma OthersValid(domain: string)
      requires old(Valid()) && domain in domains && domains == old(domains) && domains[domain].Valid()
      requires unchanged(domains.Values - {domains[domain]})
      requires forall l :: l in domains[domain].limiters.Values ==> l in old(domains[domain].limiters.Values) || fresh(l)
      ensures Valid()
    {
    }

    twostate lemma OthersTable(domain: string)
      requires old(Valid()) && domain in domains && domains == old(domains)
      requires unchanged(domains.Values - {domains[domain]})
      requires unchanged(old(Limiters() - domains[domain].limiters.Values))
      requires domains[domain].byIp == old(domains[domain].byIp) && domains[domain].ratePerSec == old(domains[domain].ratePerSec)
      ensures Table() == old(Table())[domain := Domain(Config(domains[domain].byIp, domains[domain].ratePerSec), domains[domain].State())]
    {
    }

    /** One tick of a domain's collector. */
    method Collect(domain: string, now: int)
      requires Valid() && domain in domains
      modifies domains[domain]
      ensures Valid() && domains == old(domains)
      ensures forall lockedAt :: Table() == PluginStep(old(Table()), Tick(domain, now, lockedAt))
    {
      domains[domain].Collect(now);
      OthersValid(domain);
      OthersTable(domain);
    }
  }
}
