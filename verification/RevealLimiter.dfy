/**
  The limit on copying sign-ins from a customer's page: so many requests a key
  in a minute. What is kept of the past is pruned as it goes; the limiter still
  decides as the full history would.
 */
module RevealLimiter {
  const WINDOW := 60_000_000_000 // a minute, in nanoseconds
  const MANY_KEYS := 4096

  type Hits = map<string, seq<int>>

  datatype Request = Request(key: string, limit: int, at: int)

  /** The times less than a window before `now`. */
  function Recent(ts: seq<int>, now: int): seq<int> {
    if ts == [] then []
    else Recent(ts[..|ts| - 1], now) + (if now - ts[|ts| - 1] < WINDOW then [ts[|ts| - 1]] else [])
  }

  function HitsOf(h: Hits, key: string): seq<int> {
    if key in h then h[key] else []
  }

  predicate Unused(ts: seq<int>, now: int) {
    ts == [] || now - ts[|ts| - 1] >= WINDOW
  }

  /** What one request does to what is kept, and whether it is allowed. */
  function Allow(h: Hits, r: Request): (Hits, bool) {
    var recent := Recent(HitsOf(h, r.key), r.at);
    if |recent| >= r.limit then (h[r.key := recent], false)
    else
      var h' := h[r.key := recent + [r.at]];
      (if |h'| > MANY_KEYS then map k | k in h' && !Unused(h'[k], r.at) :: h'[k] else h', true)
  }

  function Kept(rs: seq<Request>): Hits {
    if rs == [] then map[] else Allow(Kept(rs[..|rs| - 1]), rs[|rs| - 1]).0
  }

  /** What the limiter answers to the last of a run of requests. */
  function Answer(rs: seq<Request>): bool
    requires rs != []
  {
    Allow(Kept(rs[..|rs| - 1]), rs[|rs| - 1]).1
  }

  // ---- the same decisions, from the full history ----

  /** Every time a key was granted a request, ever. */
  function Grants(rs: seq<Request>, key: string): seq<int>
    decreases |rs|, 1
  {
    if rs == [] then []
    else
      var before := Grants(rs[..|rs| - 1], key);
      if rs[|rs| - 1].key == key && Granted(rs) then before + [rs[|rs| - 1].at] else before
  }

  /** Whether the last request is within its limit, by the whole history: fewer than `limit` grants to
      its key in the minute before it. */
  function Granted(rs: seq<Request>): bool
    requires rs != []
    decreases |rs|, 0
  {
    var r := rs[|rs| - 1];
    |Recent(Grants(rs[..|rs| - 1], r.key), r.at)| < r.limit
  }

  /** The clock does not go back. */
  predicate Ordered(rs: seq<Request>) {
    forall i, j :: 0 <= i < j < |rs| ==> rs[i].at <= rs[j].at
  }

  predicate Ascending(ts: seq<int>) {
    forall i, j :: 0 <= i < j < |ts| ==> ts[i] <= ts[j]
  }

  predicate NoneAfter(ts: seq<int>, now: int) {
    forall i :: 0 <= i < |ts| ==> ts[i] <= now
  }

  lemma {:induction false} RecentTwice(ts: seq<int>, now: int, later: int)
    requires now <= later
    ensures Recent(Recent(ts, now), later) == Recent(ts, later)
  {
    if ts != [] {
      var init, t := ts[..|ts| - 1], ts[|ts| - 1];
      RecentTwice(init, now, later);
      if now - t < WINDOW {
        var kept := Recent(init, now) + [t];
        assert kept[..|kept| - 1] == Recent(init, now);
      } else {
        assert Recent(init, now) + [] == Recent(init, now);
      }
    }
  }

  lemma RecentOneMore(ts: seq<int>, t: int, now: int)
    ensures Recent(ts + [t], now) == Recent(ts, now) + (if now - t < WINDOW then [t] else [])
  {
    assert (ts + [t])[..|ts|] == ts;
  }

  lemma AscendingInit(ts: seq<int>, now: int, last: int)
    requires ts != [] && Ascending(ts) && NoneAfter(ts, last)
    ensures Ascending(ts[..|ts| - 1]) && NoneAfter(ts[..|ts| - 1], ts[|ts| - 1]) && ts[|ts| - 1] <= last
    ensures Unused(ts, now) ==> Unused(ts[..|ts| - 1], now)
  {
  }

  lemma AscendingNext(ts: seq<int>, t: int, last: int)
    requires Ascending(ts) && NoneAfter(ts, t) && t <= last
    ensures Ascending(ts + [t]) && NoneAfter(ts + [t], last) && NoneAfter(ts, last)
  {
  }

  lemma {:induction false} RecentWithin(ts: seq<int>, now: int, last: int)
    requires Ascending(ts) && NoneAfter(ts, last)
    ensures Ascending(Recent(ts, now)) && NoneAfter(Recent(ts, now), last)
    ensures Unused(ts, now) ==> Recent(ts, now) == []
  {
    if ts != [] {
      hide Ascending, NoneAfter;
      var init, t := ts[..|ts| - 1], ts[|ts| - 1];
      AscendingInit(ts, now, last);
      RecentWithin(init, now, t);
      AscendingNext(Recent(init, now), t, last);
    }
  }

  /** What is kept and the whole history have the same recent times, now and from now on. */
  ghost predicate Agree(kept: seq<int>, all: seq<int>, now: int) {
    Ascending(kept) && NoneAfter(kept, now) && forall later :: later >= now ==> Recent(kept, later) == Recent(all, later)
  }

  lemma AgreeLater(kept: seq<int>, all: seq<int>, now: int, later: int)
    requires Agree(kept, all, now) && now <= later
    ensures Agree(kept, all, later)
  {
  }

  lemma AgreePruned(kept: seq<int>, all: seq<int>, now: int)
    requires Agree(kept, all, now)
    ensures Agree(Recent(kept, now), all, now)
  {
    RecentWithin(kept, now, now);
    forall later | later >= now ensures Recent(Recent(kept, now), later) == Recent(all, later) {
      RecentTwice(kept, now, later);
    }
  }

  lemma AgreeGranted(kept: seq<int>, all: seq<int>, now: int)
    requires Agree(kept, all, now)
    ensures Agree(kept + [now], all + [now], now)
  {
    forall later | later >= now ensures Recent(kept + [now], later) == Recent(all + [now], later) {
      RecentOneMore(kept, now, later);
      RecentOneMore(all, now, later);
    }
  }

  /** Forgetting a key nobody used for a minute forgets nothing that is still recent. */
  lemma AgreeForgotten(kept: seq<int>, all: seq<int>, now: int)
    requires Agree(kept, all, now) && Unused(kept, now)
    ensures Agree([], all, now)
  {
    forall later | later >= now ensures Recent([], later) == Recent(all, later) {
      RecentWithin(kept, later, now);
    }
  }

  lemma AllowOwnAgrees(h: Hits, r: Request, all: seq<int>)
    requires Agree(HitsOf(h, r.key), all, r.at)
    ensures var granted := |Recent(all, r.at)| < r.limit;
            && Allow(h, r).1 == granted
            && Agree(HitsOf(Allow(h, r).0, r.key), if granted then all + [r.at] else all, r.at)
  {
    var ts := HitsOf(h, r.key);
    AgreePruned(ts, all, r.at);
    AgreeGranted(Recent(ts, r.at), all, r.at);
    if Unused(Recent(ts, r.at) + [r.at], r.at) {
      AgreeForgotten(Recent(ts, r.at) + [r.at], all + [r.at], r.at);
    }
  }

  lemma AllowOtherAgrees(h: Hits, r: Request, key: string, all: seq<int>)
    requires Agree(HitsOf(h, key), all, r.at) && key != r.key
    ensures Agree(HitsOf(Allow(h, r).0, key), all, r.at)
  {
    if Unused(HitsOf(h, key), r.at) {
      AgreeForgotten(HitsOf(h, key), all, r.at);
    }
  }

  lemma {:induction false} KeptAgrees(rs: seq<Request>, key: string, now: int)
    requires Ordered(rs) && (rs != [] ==> rs[|rs| - 1].at <= now)
    ensures Agree(HitsOf(Kept(rs), key), Grants(rs, key), now)
  {
    if rs != [] {
      var init, r := rs[..|rs| - 1], rs[|rs| - 1];
      KeptAgrees(init, key, r.at);
      if key == r.key {
        AllowOwnAgrees(Kept(init), r, Grants(init, key));
      } else {
        AllowOtherAgrees(Kept(init), r, key, Grants(init, key));
      }
      assert Granted(rs) == (|Recent(Grants(init, r.key), r.at)| < r.limit);
      assert Grants(rs, key) == if r.key == key && Granted(rs) then Grants(init, key) + [r.at] else Grants(init, key);
      AgreeLater(HitsOf(Kept(rs), key), Grants(rs, key), r.at, now);
    }
  }

  /** With a clock that does not go back, every answer is the one the full history gives: neither the
      pruning of a key's times nor the forgetting of unused keys ever changes one. */
  lemma AnswersAsFullHistory(rs: seq<Request>)
    requires rs != [] && Ordered(rs)
    ensures Answer(rs) == Granted(rs)
  {
    var init, r := rs[..|rs| - 1], rs[|rs| - 1];
    KeptAgrees(init, r.key, r.at);
    AllowOwnAgrees(Kept(init), r, Grants(init, r.key));
  }

  // ---- no minute holds more than the limit ----

  /** The times in the minute that ends at `end`: after `end - WINDOW`, and not after `end`. */
  function InMinute(ts: seq<int>, end: int): seq<int> {
    if ts == [] then []
    else
      var t := ts[|ts| - 1];
      InMinute(ts[..|ts| - 1], end) + (if end - WINDOW < t <= end then [t] else [])
  }

  lemma {:induction false} MinuteIsRecent(ts: seq<int>, end: int, at: int)
    requires end - WINDOW < at <= end && NoneAfter(ts, at)
    ensures |InMinute(ts, end)| <= |Recent(ts, at)|
  {
    if ts != [] {
      MinuteIsRecent(ts[..|ts| - 1], end, at);
    }
  }

  lemma {:induction false} GrantsBefore(rs: seq<Request>, key: string, now: int)
    requires forall i :: 0 <= i < |rs| ==> rs[i].at <= now
    ensures NoneAfter(Grants(rs, key), now)
  {
    if rs != [] {
      GrantsBefore(rs[..|rs| - 1], key, now);
    }
  }

  /** However the requests fall, no minute, wherever it starts, holds more grants to a key than its limit. */
  lemma {:induction false} NoMinuteOverLimit(rs: seq<Request>, key: string, limit: nat, end: int)
    requires Ordered(rs) && forall i :: 0 <= i < |rs| && rs[i].key == key ==> rs[i].limit == limit
    ensures |InMinute(Grants(rs, key), end)| <= limit
  {
    if rs != [] {
      var init, r := rs[..|rs| - 1], rs[|rs| - 1];
      NoMinuteOverLimit(init, key, limit, end);
      if r.key == key && Granted(rs) {
        var before := Grants(init, key);
        assert (before + [r.at])[..|before|] == before;
        if end - WINDOW < r.at <= end {
          GrantsBefore(init, key, r.at);
          MinuteIsRecent(before, end, r.at);
        }
      }
    }
  }

  // ---- the limiter as it runs ----

  /** Filter a slice over itself: what is written never overtakes what is still to be read. */
  method CompactRecent(back: array<int>, now: int) returns (n: nat)
    modifies back
    ensures n <= back.Length && back[..n] == Recent(old(back[..]), now)
  {
    n := 0;
    ghost var was := back[..];
    for i := 0 to back.Length
      invariant n <= i && back[..n] == Recent(was[..i], now)
      invariant forall k :: i <= k < back.Length ==> back[k] == was[k]
    {
      var t := back[i];
      assert was[..i + 1][..i] == was[..i] && was[..i + 1][i] == t;
      if now - t < WINDOW {
        ghost var kept := back[..n];
        back[n] := t;
        n := n + 1;
        assert back[..n] == kept + [t];
      }
    }
    assert was[..back.Length] == was;
  }

  class Reveals {
    var hits: Hits

    constructor ()
      ensures hits == Kept([])
    {
      hits := map[];
    }

    method AllowNow(r: Request) returns (ok: bool)
      modifies this
      ensures (hits, ok) == Allow(old(hits), r)
    {
      var ts := HitsOf(hits, r.key);
      var back := new int[|ts|](i requires 0 <= i < |ts| => ts[i]);
      assert back[..] == ts;
      var n := CompactRecent(back, r.at);
      if n >= r.limit {
        hits := hits[r.key := back[..n]];
        return false;
      }
      hits := hits[r.key := back[..n] + [r.at]];
      if |hits| > MANY_KEYS {
        ForgetUnused(r.at);
      }
      return true;
    }

    method ForgetUnused(now: int)
      modifies this
      ensures hits == map k | k in old(hits) && !Unused(old(hits)[k], now) :: old(hits)[k]
    {
      var todo := hits.Keys;
      while todo != {}
        invariant todo <= old(hits).Keys
        invariant forall k :: k in hits <==> k in old(hits) && (k in todo || !Unused(old(hits)[k], now))
        invariant forall k :: k in hits ==> hits[k] == old(hits)[k]
        decreases todo
      {
        var k :| k in todo;
        if Unused(hits[k], now) {
          hits := hits - {k};
        }
        todo := todo - {k};
      }
    }
  }
}
