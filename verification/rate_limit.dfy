/** The in-memory sliding-window rate limiter: per key, the instants of the
    requests it let through; a request is let through when fewer than the
    limit fall inside the window that ends now. Instants are seconds. */
module RateLimit {
  import opened Common

  datatype Category = Chat | Transform | Search | Ingest | DefaultCategory

  /** At most `requests` requests per `window` seconds. */
  datatype LimitConfig = LimitConfig(requests: int, window: int)

  /** The limits of each category. */
  function LimitFor(c: Category): (cfg: LimitConfig)
    ensures cfg.window == 60 && cfg.requests > 0
  {
    match c
    case Chat => LimitConfig(10, 60)
    case Transform => LimitConfig(30, 60)
    case Search => LimitConfig(60, 60)
    case Ingest => LimitConfig(20, 60)
    case DefaultCategory => LimitConfig(100, 60)
  }

  /** The path prefixes with a category, in the order they are tried. */
  const EndpointCategories: seq<(string, Category)> := [
    ("/api/v1/chat", Chat),
    ("/api/v1/transform", Transform),
    ("/api/v1/search", Search),
    ("/api/v1/sources/ingest", Ingest),
    ("/api/v1/notebooks", DefaultCategory)
  ]

  /** The category of the first prefix in `table` that `path` starts with. */
  function FirstPrefix(path: string, table: seq<(string, Category)>): (r: Option<Category>)
    ensures r.None? <==> forall k :: 0 <= k < |table| ==> !StartsWith(path, table[k].0)
    ensures r.Some? ==> exists k :: 0 <= k < |table| && StartsWith(path, table[k].0) && table[k].1 == r.value
                          && forall j :: 0 <= j < k ==> !StartsWith(path, table[j].0)
    decreases |table|
  {
    if |table| == 0 then None
    else if StartsWith(path, table[0].0) then Some(table[0].1)
    else
      var r := FirstPrefix(path, table[1..]);
      assert forall k :: 1 <= k < |table| ==> table[k] == table[1..][k - 1];
      r
  }

  /** `get_endpoint_category`: the category of the first matching prefix,
      the default category when none matches. */
  function EndpointCategory(path: string): (c: Category)
    ensures (forall k :: 0 <= k < |EndpointCategories| ==> !StartsWith(path, EndpointCategories[k].0)) ==> c == DefaultCategory
  {
    FirstPrefix(path, EndpointCategories).GetOr(DefaultCategory)
  }

  /** No path starts with two prefixes of the table: they differ at the
      ninth or the tenth character. */
  lemma PrefixesExclusive(path: string, j: nat, k: nat)
    requires j < k < |EndpointCategories|
    requires StartsWith(path, EndpointCategories[j].0)
    ensures !StartsWith(path, EndpointCategories[k].0)
  {
    var a, b := EndpointCategories[j].0, EndpointCategories[k].0;
    assert a[8] != b[8] || a[9] != b[9];
    assert path[8] == a[8] && path[9] == a[9];
  }

  /** A path that starts with a prefix of the table gets that prefix's
      category: no earlier prefix can match it. */
  lemma CategoryOfPrefix(path: string, k: nat)
    requires k < |EndpointCategories| && StartsWith(path, EndpointCategories[k].0)
    ensures EndpointCategory(path) == EndpointCategories[k].1
  {
    var t := EndpointCategories;
    var r := FirstPrefix(path, t);
    var m :| 0 <= m < |t| && StartsWith(path, t[m].0) && t[m].1 == r.value
             && forall j :: 0 <= j < m ==> !StartsWith(path, t[j].0);
    if m < k {
      PrefixesExclusive(path, m, k);
    }
  }

  /** A path in a named category starts with that category's prefix: the
      named categories appear once each in the table. */
  lemma PrefixOfCategory(path: string, k: nat)
    requires k < 4 && EndpointCategory(path) == EndpointCategories[k].1
    ensures StartsWith(path, EndpointCategories[k].0)
  {
    var t := EndpointCategories;
    var r := FirstPrefix(path, t);
    assert r.Some?;
    var m :| 0 <= m < |t| && StartsWith(path, t[m].0) && t[m].1 == r.value;
    CategoriesOnce(m, k);
  }

  /** Each category appears once in the table. */
  lemma CategoriesOnce(j: nat, k: nat)
    requires j < |EndpointCategories| && k < |EndpointCategories|
    ensures EndpointCategories[j].1 == EndpointCategories[k].1 ==> j == k
  {
  }

  /** The prefixes never overlap, so the order of the table does not matter:
      a path gets a named category exactly when it starts with that
      category's prefix. */
  lemma EndpointCategoryByPrefix(path: string, k: nat)
    requires k < 4
    ensures EndpointCategory(path) == EndpointCategories[k].1 <==> StartsWith(path, EndpointCategories[k].0)
  {
    if StartsWith(path, EndpointCategories[k].0) {
      CategoryOfPrefix(path, k);
    }
    if EndpointCategory(path) == EndpointCategories[k].1 {
      PrefixOfCategory(path, k);
    }
  }

  /** What a check reports back. */
  datatype RateInfo = RateInfo(limit: int, remaining: nat, reset: int, window: int)

  /** The requests of a key's list that fall inside the window starting at
      `windowStart` (strictly after it). */
  function Prune(ts: seq<real>, windowStart: real): (r: seq<real>)
    ensures forall t :: t in r <==> t in ts && t > windowStart
    ensures |r| <= |ts|
    decreases |ts|
  {
    if |ts| == 0 then []
    else
      var init, last := ts[..|ts| - 1], ts[|ts| - 1];
      assert ts == init + [last];
      if last > windowStart then Prune(init, windowStart) + [last] else Prune(init, windowStart)
  }

  /** Python's `int()` on a float: truncation toward zero. */
  function TruncateToInt(x: real): (n: int)
    ensures x >= 0.0 ==> n as real <= x < n as real + 1.0
    ensures x < 0.0 ==> n as real - 1.0 < x <= n as real
  {
    if x >= 0.0 then x.Floor else -((-x).Floor)
  }

  /** The verdict on one request against one key's list: whether it is let
      through, what is reported, and the list kept afterwards. */
  datatype Verdict = Verdict(allowed: bool, info: RateInfo, kept: seq<real>)

  /** One key's part of `_check_local`: drop the instants at or before the
      window start, count the rest, and record `now` when the count is below
      the limit. */
  function CheckList(ts: seq<real>, cfg: LimitConfig, now: real): (v: Verdict)
    ensures v.allowed <==> |Prune(ts, now - cfg.window as real)| < cfg.requests
    ensures v.info.remaining == if cfg.requests > |Prune(ts, now - cfg.window as real)|
                                then cfg.requests - |Prune(ts, now - cfg.window as real)| else 0
    ensures v.info.limit == cfg.requests && v.info.window == cfg.window
    ensures v.kept == Prune(ts, now - cfg.window as real) + (if v.allowed then [now] else [])
  {
    var inWindow := Prune(ts, now - cfg.window as real);
    var count := |inWindow|;
    var remaining := if cfg.requests - count > 0 then cfg.requests - count else 0;
    var info := RateInfo(cfg.requests, remaining, TruncateToInt(now + cfg.window as real), cfg.window);
    if count < cfg.requests then Verdict(true, info, inWindow + [now])
    else Verdict(false, info, inWindow)
  }

  /** The limiter's memory: the recorded instants of each key. */
  type LocalCache = map<string, seq<real>>

  /** `_check_local`: a key seen for the first time starts with an empty list. */
  function CheckLocal(cache: LocalCache, key: string, cfg: LimitConfig, now: real): (r: (Verdict, LocalCache))
    ensures r.1.Keys == cache.Keys + {key}
    ensures r.1[key] == r.0.kept
    ensures forall k :: k in cache && k != key ==> r.1[k] == cache[k]
    ensures r.0 == CheckList(if key in cache then cache[key] else [], cfg, now)
  {
    var v := CheckList(if key in cache then cache[key] else [], cfg, now);
    (v, cache[key := v.kept])
  }

  /** `reset`: forget a key. */
  function Reset(cache: LocalCache, key: string): (r: LocalCache)
    ensures key !in r
    ensures forall k :: k != key ==> (k in r <==> k in cache) && (k in r ==> r[k] == cache[k])
  {
    cache - {key}
  }

  /** After a reset the next request of the key is let through whenever the
      limit is positive, whatever was recorded before. */
  lemma ResetAdmits(cache: LocalCache, key: string, cfg: LimitConfig, now: real)
    requires cfg.requests > 0
    ensures CheckLocal(Reset(cache, key), key, cfg, now).0.allowed
    ensures CheckLocal(Reset(cache, key), key, cfg, now).1[key] == [now]
  {
    assert Prune([], now - cfg.window as real) == [];
  }

  /** A list no longer than the limit stays no longer than the limit: pruning
      never grows it, and `now` is added only below the limit. */
  lemma CheckListBounded(ts: seq<real>, cfg: LimitConfig, now: real)
    requires |ts| <= if cfg.requests > 0 then cfg.requests else 0
    ensures |CheckList(ts, cfg, now).kept| <= if cfg.requests > 0 then cfg.requests else 0
  {
  }

  /** Every key of a cache holds at most `bound` instants. */
  ghost predicate CacheBounded(cache: LocalCache, bound: nat) {
    forall k :: k in cache ==> |cache[k]| <= bound
  }

  /** With one limit per cache, no key ever holds more instants than the limit. */
  lemma CheckLocalBounded(cache: LocalCache, key: string, cfg: LimitConfig, now: real)
    requires CacheBounded(cache, if cfg.requests > 0 then cfg.requests else 0)
    ensures CacheBounded(CheckLocal(cache, key, cfg, now).1, if cfg.requests > 0 then cfg.requests else 0)
  {
    CheckListBounded(if key in cache then cache[key] else [], cfg, now);
  }

  /** Pruning at a later window start after an earlier one prunes at the
      later one. */
  lemma {:induction false} PruneTwice(ts: seq<real>, a: real, b: real)
    requires a <= b
    ensures Prune(Prune(ts, a), b) == Prune(ts, b)
    decreases |ts|
  {
    if |ts| > 0 {
      var init, last := ts[..|ts| - 1], ts[|ts| - 1];
      PruneTwice(init, a, b);
      if last > a {
        assert Prune(ts, a) == Prune(init, a) + [last];
        var p := Prune(ts, a);
        assert p[..|p| - 1] == Prune(init, a);
      }
    }
  }

  /** Pruning distributes over appending one instant. */
  lemma PruneAppend(ts: seq<real>, x: real, windowStart: real)
    ensures Prune(ts + [x], windowStart) == Prune(ts, windowStart) + (if x > windowStart then [x] else [])
  {
    var s := ts + [x];
    assert s[..|s| - 1] == ts;
  }

  /** Running one key through a series of requests at the instants `nows`,
      from an empty list: the list kept at the end, and the instants of the
      requests let through. */
  function Replay(cfg: LimitConfig, nows: seq<real>): (r: (seq<real>, seq<real>))
    decreases |nows|
  {
    if |nows| == 0 then ([], [])
    else ReplayOnce(cfg, Replay(cfg, nows[..|nows| - 1]), nows[|nows| - 1])
  }

  /** One request of a replay: the check against the kept list, and the
      instant added to the admitted ones when let through. */
  function ReplayOnce(cfg: LimitConfig, before: (seq<real>, seq<real>), now: real): (seq<real>, seq<real>) {
    var v := CheckList(before.0, cfg, now);
    (v.kept, before.1 + (if v.allowed then [now] else []))
  }

  /** The kept list is the admitted instants after the window start. */
  ghost predicate Agrees(r: (seq<real>, seq<real>), windowStart: real) {
    r.0 == Prune(r.1, windowStart)
  }

  /** The instants never go back. */
  ghost predicate NonDecreasing(nows: seq<real>) {
    forall j, k :: 0 <= j < k < |nows| ==> nows[j] <= nows[k]
  }

  /** One request more in a replay: the verdict on the last request is
      taken against the list kept before it. */
  lemma ReplayStep(cfg: LimitConfig, nows: seq<real>)
    requires |nows| > 0
    ensures var before := Replay(cfg, nows[..|nows| - 1]);
            var v := CheckList(before.0, cfg, nows[|nows| - 1]);
            && Replay(cfg, nows).0 == v.kept
            && Replay(cfg, nows).1 == before.1 + (if v.allowed then [nows[|nows| - 1]] else [])
  {
  }

  /** The earlier requests of a series in time order are in time order. */
  lemma NonDecreasingInit(nows: seq<real>)
    requires |nows| > 0 && NonDecreasing(nows)
    ensures NonDecreasing(nows[..|nows| - 1])
    ensures |nows| > 1 ==> nows[..|nows| - 1][|nows| - 2] <= nows[|nows| - 1]
  {
  }

  /** The kept list is exactly the admitted instants inside the window of the
      latest request. */
  lemma ReplayKeepsWindow(cfg: LimitConfig, nows: seq<real>)
    requires cfg.window > 0 && |nows| > 0 && NonDecreasing(nows)
    ensures Agrees(Replay(cfg, nows), nows[|nows| - 1] - cfg.window as real)
  {
    KeepsWindowUpTo(cfg, nows, |nows|);
    assert nows[..|nows|] == nows;
  }

  /** The same for every non-empty prefix of the series. */
  lemma {:induction false} KeepsWindowUpTo(cfg: LimitConfig, nows: seq<real>, k: nat)
    requires cfg.window > 0 && 0 < k <= |nows| && NonDecreasing(nows)
    ensures Agrees(Replay(cfg, nows[..k]), nows[k - 1] - cfg.window as real)
    decreases k
  {
    var before := Replay(cfg, nows[..k - 1]);
    assert nows[..k][..k - 1] == nows[..k - 1];
    if k > 1 {
      KeepsWindowUpTo(cfg, nows, k - 1);
      WindowCarries(cfg, before, nows[k - 1], false, nows[k - 2] - cfg.window as real);
    } else {
      WindowCarries(cfg, before, nows[k - 1], true, 0.0);
    }
  }

  /** The step of the induction: the window agreement at the previous
      request (or the empty start) carries over to the next request. */
  lemma WindowCarries(cfg: LimitConfig, before: (seq<real>, seq<real>), now: real, first: bool, prevStart: real)
    requires cfg.window > 0
    requires first ==> before == ([], [])
    requires !first ==> Agrees(before, prevStart) && prevStart <= now - cfg.window as real
    ensures Agrees(ReplayOnce(cfg, before, now), now - cfg.window as real)
  {
    if first {
      assert Prune([], now - cfg.window as real) == [];
    } else {
      PrunedAgain(before.0, before.1, prevStart, now - cfg.window as real);
    }
    WindowStep(cfg, before, now);
  }

  /** The kept list and the admitted instants agreeing inside the window of a
      request, they agree exactly once the request is checked. */
  lemma WindowStep(cfg: LimitConfig, before: (seq<real>, seq<real>), now: real)
    requires cfg.window > 0
    requires Prune(before.0, now - cfg.window as real) == Prune(before.1, now - cfg.window as real)
    ensures Agrees(ReplayOnce(cfg, before, now), now - cfg.window as real)
  {
    WindowAfterCheck(cfg, before.0, before.1, now);
  }

  /** The check on a list that agrees with the admitted instants inside the
      new window keeps exactly the admitted instants, the new one included,
      inside it. */
  lemma WindowAfterCheck(cfg: LimitConfig, kept: seq<real>, admitted: seq<real>, now: real)
    requires cfg.window > 0
    requires Prune(kept, now - cfg.window as real) == Prune(admitted, now - cfg.window as real)
    ensures var v := CheckList(kept, cfg, now);
            v.kept == Prune(admitted + (if v.allowed then [now] else []), now - cfg.window as real)
  {
    var v := CheckList(kept, cfg, now);
    KeptAfter(kept, admitted, now, now - cfg.window as real, v.allowed, v.kept, admitted + (if v.allowed then [now] else []));
  }

  /** A request inside its own window, appended to both lists when let through,
      keeps the kept list equal to the admitted ones pruned at the window start. */
  lemma KeptAfter(kept: seq<real>, admitted: seq<real>, now: real, windowStart: real, allowed: bool,
                  kept': seq<real>, admitted': seq<real>)
    requires Prune(kept, windowStart) == Prune(admitted, windowStart) && windowStart < now
    requires kept' == Prune(kept, windowStart) + (if allowed then [now] else [])
    requires admitted' == admitted + (if allowed then [now] else [])
    ensures kept' == Prune(admitted', windowStart)
  {
    if allowed {
      PruneAppend(admitted, now, windowStart);
    } else {
      assert admitted + [] == admitted;
    }
  }

  lemma PrunedAgain(kept: seq<real>, admitted: seq<real>, a: real, b: real)
    requires a <= b && kept == Prune(admitted, a)
    ensures Prune(kept, b) == Prune(admitted, b)
  {
    PruneTwice(admitted, a, b);
  }

  /** The sliding-window guarantee: over any series of requests in time order,
      the requests let through inside the window that ends at the latest one
      never number more than the limit. */
  lemma {:induction false} ReplayWithinLimit(cfg: LimitConfig, nows: seq<real>)
    requires cfg.window > 0 && |nows| > 0 && NonDecreasing(nows)
    ensures |Prune(Replay(cfg, nows).1, nows[|nows| - 1] - cfg.window as real)| <= if cfg.requests > 0 then cfg.requests else 0
    decreases |nows|
  {
    var init := nows[..|nows| - 1];
    var now := nows[|nows| - 1];
    var ws := now - cfg.window as real;
    var before := Replay(cfg, init);
    var v := CheckList(before.0, cfg, now);
    var bound := if cfg.requests > 0 then cfg.requests else 0;
    ReplayStep(cfg, nows);
    ReplayKeepsWindow(cfg, nows);
    NonDecreasingInit(nows);
    // Before the request, the instants inside the new window are no more than the bound.
    if |init| == 0 {
      assert before == ([], []);
    } else {
      ReplayKeepsWindow(cfg, init);
      ReplayWithinLimit(cfg, init);
      var prevWs := init[|init| - 1] - cfg.window as real;
      PruneTwice(before.1, prevWs, ws);
      assert |Prune(before.0, ws)| <= |before.0|;
    }
    assert |Prune(before.0, ws)| <= bound;
  }
}
