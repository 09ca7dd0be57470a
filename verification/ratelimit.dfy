/**
 * The per-IP fixed-window rate limiter shared by both deployments. The
 * process-wide store and the time of the last sweep are threaded through
 * explicitly; `now` stands for `Date.now()` in milliseconds.
 */
module RateLimit {
  import opened Wrappers

  const WindowMs: int := 10 * 60 * 1000
  const MaxRequests: int := 5
  /** A sweep runs only when strictly more than six windows have passed since the last one. */
  const SweepIntervalMs: int := WindowMs * 6

  datatype Entry = Entry(count: int, resetAt: int)

  datatype Limiter = Limiter(store: map<string, Entry>, lastCleanup: int)

  /** The module-level state at process start: an empty store, `lastCleanup = 0`. */
  const Initial: Limiter := Limiter(map[], 0)

  /** `Math.ceil(n / d)` for integers. */
  function CeilDiv(n: int, d: int): (q: int)
    requires d > 0
    ensures (q - 1) * d < n <= q * d
  {
    if n % d == 0 then n / d else n / d + 1
  }

  predicate SweepDue(l: Limiter, now: int)
  {
    now - l.lastCleanup > SweepIntervalMs
  }

  /** The entries still inside their window at `now`. */
  function Live(store: map<string, Entry>, now: int): map<string, Entry>
  {
    map k | k in store && store[k].resetAt > now :: store[k]
  }

  /**
   * The lazy sweep at the head of `checkRateLimit`: when due, every entry
   * whose window has ended is dropped, live entries are kept as they are,
   * and the sweep time becomes `now`; otherwise nothing changes.
   */
  function Sweep(l: Limiter, now: int): (r: Limiter)
    ensures !SweepDue(l, now) ==> r == l
    ensures SweepDue(l, now) ==> r.lastCleanup == now
    ensures SweepDue(l, now) ==> forall k :: k in r.store <==> k in l.store && l.store[k].resetAt > now
    ensures forall k :: k in r.store ==> k in l.store && r.store[k] == l.store[k]
  {
    if SweepDue(l, now) then Limiter(Live(l.store, now), now) else l
  }

  /**
   * The deletion loop itself, run over the keys of the store one at a time;
   * it leaves exactly the live entries.
   */
  method SweepStore(store: map<string, Entry>, now: int) returns (kept: map<string, Entry>)
    ensures forall k :: k in kept <==> k in store && store[k].resetAt > now
    ensures forall k :: k in kept ==> kept[k] == store[k]
    ensures kept == Live(store, now)
  {
    kept := store;
    var pending := store.Keys;
    while pending != {}
      invariant pending <= store.Keys
      invariant forall k :: k in kept <==> k in store && (k in pending || store[k].resetAt > now)
      invariant forall k :: k in kept ==> kept[k] == store[k]
      decreases |pending|
    {
      var key :| key in pending;
      if store[key].resetAt <= now {
        kept := kept - {key};
      }
      pending := pending - {key};
    }
  }

  /** A request from `ip` at `now` starts a new window: no entry, or its window has ended. */
  predicate StartsWindow(l: Limiter, ip: string, now: int)
  {
    ip !in l.store || l.store[ip].resetAt <= now
  }

  /** The store after the check, and `retryAfter` (seconds) when the request is refused. */
  datatype Checked = Checked(limiter: Limiter, retryAfter: Option<int>)

  /**
   * `checkRateLimit(ip)`. A request opening a window resets the entry to
   * count 1 and is allowed. Otherwise the count goes up by one, also when
   * the request is refused; the request is refused once the count exceeds
   * the maximum, with a positive retry delay: the seconds left in the
   * window, rounded up. Other keys lose at most expired entries, and only
   * when a sweep is due.
   */
  function CheckRateLimit(l: Limiter, ip: string, now: int): (c: Checked)
    ensures c.limiter.lastCleanup == Sweep(l, now).lastCleanup
    ensures forall k :: k != ip ==>
      (k in c.limiter.store <==> k in l.store && (SweepDue(l, now) ==> l.store[k].resetAt > now))
    ensures forall k :: k != ip && k in c.limiter.store ==> c.limiter.store[k] == l.store[k]
    ensures ip in c.limiter.store
    ensures StartsWindow(l, ip, now) ==>
      c.limiter.store[ip] == Entry(1, now + WindowMs) && c.retryAfter.None?
    ensures !StartsWindow(l, ip, now) ==>
      c.limiter.store[ip] == Entry(l.store[ip].count + 1, l.store[ip].resetAt)
    ensures !StartsWindow(l, ip, now) ==>
      (c.retryAfter.Some? <==> l.store[ip].count + 1 > MaxRequests)
    ensures c.retryAfter.Some? ==>
      !StartsWindow(l, ip, now) && c.retryAfter.value >= 1
      && c.retryAfter.value == CeilDiv(l.store[ip].resetAt - now, 1000)
  {
    var swept := Sweep(l, now);
    if ip !in swept.store || swept.store[ip].resetAt <= now then
      Checked(swept.(store := swept.store[ip := Entry(1, now + WindowMs)]), None)
    else
      var e := swept.store[ip];
      var count := e.count + 1;
      var next := swept.(store := swept.store[ip := Entry(count, e.resetAt)]);
      if count > MaxRequests then Checked(next, Some(CeilDiv(e.resetAt - now, 1000)))
      else Checked(next, None)
  }

  /**
   * The store is consistent with a clock that never runs backwards: every
   * count is positive and no window ends more than one window after `now`.
   */
  ghost predicate Consistent(l: Limiter, now: int)
  {
    forall k :: k in l.store ==> l.store[k].count >= 1 && l.store[k].resetAt <= now + WindowMs
  }

  /**
   * On a consistent store the check keeps the store consistent, and every
   * refusal asks the client to wait between 1 and 600 seconds. Since it is
   * never 0, the handler's truthiness test always sees a refusal.
   */
  lemma CheckKeepsConsistent(l: Limiter, ip: string, now: int, later: int)
    requires Consistent(l, now)
    requires now <= later
    ensures Consistent(CheckRateLimit(l, ip, now).limiter, later)
    ensures CheckRateLimit(l, ip, now).retryAfter.Some? ==>
      1 <= CheckRateLimit(l, ip, now).retryAfter.value <= WindowMs / 1000
  {
    var c := CheckRateLimit(l, ip, now);
    if c.retryAfter.Some? {
      var d := l.store[ip].resetAt - now;
      assert 0 < d <= WindowMs;
      var q := c.retryAfter.value;
      assert (q - 1) * 1000 < d;
    }
  }

  /** The process starts consistent with any clock reading. */
  lemma InitialConsistent(now: int)
    ensures Consistent(Initial, now)
  {
  }

  /** A run of requests from one `ip`: the final store and each request's verdict. */
  function Run(l: Limiter, ip: string, times: seq<int>): (r: (Limiter, seq<Option<int>>))
    ensures |r.1| == |times|
    decreases |times|
  {
    if |times| == 0 then (l, [])
    else
      var c := CheckRateLimit(l, ip, times[0]);
      var rest := Run(c.limiter, ip, times[1..]);
      (rest.0, [c.retryAfter] + rest.1)
  }

  /**
   * Inside one window (every request before `resetAt`) each request adds one
   * to the count, and the request that takes it past the maximum and every
   * one after are refused with the rounded-up seconds left.
   */
  lemma {:induction false} RunInsideWindow(l: Limiter, ip: string, times: seq<int>, count: int, resetAt: int)
    requires ip in l.store && l.store[ip] == Entry(count, resetAt)
    requires forall i :: 0 <= i < |times| ==> times[i] < resetAt
    ensures ip in Run(l, ip, times).0.store
    ensures Run(l, ip, times).0.store[ip] == Entry(count + |times|, resetAt)
    ensures forall i :: 0 <= i < |times| ==>
      (Run(l, ip, times).1[i].Some? <==> count + i + 1 > MaxRequests)
    ensures forall i :: 0 <= i < |times| && Run(l, ip, times).1[i].Some? ==>
      Run(l, ip, times).1[i].value == CeilDiv(resetAt - times[i], 1000)
    decreases |times|
  {
    if |times| > 0 {
      var c := CheckRateLimit(l, ip, times[0]);
      assert !StartsWindow(l, ip, times[0]);
      assert c.limiter.store[ip] == Entry(count + 1, resetAt);
      RunInsideWindow(c.limiter, ip, times[1..], count + 1, resetAt);
      var r := Run(l, ip, times);
      var rest := Run(c.limiter, ip, times[1..]);
      assert r.1 == [c.retryAfter] + rest.1;
      forall i | 1 <= i < |times|
        ensures (r.1[i].Some? <==> count + i + 1 > MaxRequests)
        ensures r.1[i].Some? ==> r.1[i].value == CeilDiv(resetAt - times[i], 1000)
      {
        assert r.1[i] == rest.1[i - 1];
        assert times[1..][i - 1] == times[i];
      }
    }
  }

  /**
   * The k-th request from an `ip` whose window has ended (or never started),
   * when all k arrive within one window of the first, leaves the count at k.
   * Requests 1 to 5 are allowed; the 6th and later are refused with a retry
   * delay between 1 and 600 seconds.
   */
  lemma KthRequestInWindow(l: Limiter, ip: string, times: seq<int>)
    requires |times| >= 1
    requires StartsWindow(l, ip, times[0])
    requires forall i :: 0 <= i < |times| ==> times[0] <= times[i] < times[0] + WindowMs
    ensures ip in Run(l, ip, times).0.store
    ensures Run(l, ip, times).0.store[ip] == Entry(|times|, times[0] + WindowMs)
    ensures forall i :: 0 <= i < |times| ==>
      (Run(l, ip, times).1[i].Some? <==> i >= MaxRequests)
    ensures forall i :: 0 <= i < |times| && Run(l, ip, times).1[i].Some? ==>
      1 <= Run(l, ip, times).1[i].value <= WindowMs / 1000
  {
    var c := CheckRateLimit(l, ip, times[0]);
    var resetAt := times[0] + WindowMs;
    assert c.limiter.store[ip] == Entry(1, resetAt);
    var tail := times[1..];
    forall i | 0 <= i < |tail| ensures tail[i] < resetAt {
      assert tail[i] == times[i + 1];
    }
    RunInsideWindow(c.limiter, ip, tail, 1, resetAt);
    var r := Run(l, ip, times);
    var rest := Run(c.limiter, ip, tail);
    assert r.1 == [c.retryAfter] + rest.1;
    forall i | 0 <= i < |times|
      ensures (r.1[i].Some? <==> i >= MaxRequests)
      ensures r.1[i].Some? ==> 1 <= r.1[i].value <= WindowMs / 1000
    {
      if i > 0 {
        assert r.1[i] == rest.1[i - 1];
        assert tail[i - 1] == times[i];
        if r.1[i].Some? {
          var d := resetAt - times[i];
          assert 0 < d <= WindowMs;
          var q := r.1[i].value;
          assert q == CeilDiv(d, 1000);
          assert (q - 1) * 1000 < d;
        }
      }
    }
  }
}
