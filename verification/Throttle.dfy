/**
  Slowing down guessing at a password: a wait that doubles with each failure
  past the free ones, computed in 64-bit arithmetic, over records that are
  forgotten when they have been quiet.
 */
module Throttle {
  import opened Prelude

  const FREE_ATTEMPTS := 5
  const BASE_LOCKOUT := 30_000_000_000       // 30 seconds, in nanoseconds
  const MAX_LOCKOUT := 900_000_000_000       // 15 minutes
  const FORGET_AFTER := 3_600_000_000_000    // an hour
  const MANY_RECORDS := 1024
  const TWO64 := 0x1_0000_0000_0000_0000
  const TWO63 := 0x8000_0000_0000_0000

  function Pow2(k: nat): (p: nat)
    ensures p >= 1
  {
    if k == 0 then 1 else 2 * Pow2(k - 1)
  }

  /** What 64 bits keep of a number, as a signed one. */
  function Signed64(n: nat): int {
    var m := n % TWO64;
    if m < TWO63 then m else m - TWO64
  }

  /** A 64-bit shift left; shifting by 64 or more leaves nothing. */
  function Shift64(n: nat, k: nat): int {
    Signed64(n * Pow2(k))
  }

  /** The wait a failure past the free ones earns. */
  function Wait(failures: nat): int
    requires failures > FREE_ATTEMPTS
  {
    var wait := Shift64(BASE_LOCKOUT, failures - FREE_ATTEMPTS - 1);
    if wait > MAX_LOCKOUT || wait <= 0 then MAX_LOCKOUT else wait
  }

  // ---- the wait, although the shift wraps ----

  lemma {:induction false} Pow2Adds(a: nat, b: nat)
    ensures Pow2(a + b) == Pow2(a) * Pow2(b)
  {
    if b > 0 {
      Pow2Adds(a, b - 1);
    }
  }

  lemma {:induction false} Pow2Grows(a: nat, b: nat)
    requires a <= b
    ensures Pow2(a) <= Pow2(b)
  {
    if a < b {
      Pow2Grows(a, b - 1);
    }
  }

  /** What 64 bits keep of a multiple of 2^40 is a multiple of 2^40. */
  lemma KeepsFactor(x: nat) returns (r: nat)
    ensures (x * 0x100_0000_0000) % TWO64 == r * 0x100_0000_0000
  {
    var d := x / 0x100_0000;
    r := x % 0x100_0000;
    assert x == d * 0x100_0000 + r;
    assert x * 0x100_0000_0000 == d * 0x1_0000_0000_0000_0000 + r * 0x100_0000_0000;
  }

  /** What a shift by 30 or more leaves is a multiple of 2^40, which is more than the longest wait:
      thirty seconds is itself a multiple of 2^10. */
  lemma WideShiftIsCapped(k: nat)
    requires k >= 30
    ensures Shift64(BASE_LOCKOUT, k) <= 0 || Shift64(BASE_LOCKOUT, k) > MAX_LOCKOUT
  {
    assert Pow2(10) == 1024 && Pow2(30) == 0x4000_0000 by { Pow2Ten(); }
    Pow2Adds(30, k - 30);
    var x := 29296875 * Pow2(k - 30);
    assert BASE_LOCKOUT * Pow2(k) == x * 0x100_0000_0000 by {
      assert BASE_LOCKOUT == 29296875 * 1024;
      assert 29296875 * 1024 * (0x4000_0000 * Pow2(k - 30)) == 29296875 * Pow2(k - 30) * (1024 * 0x4000_0000);
    }
    var r := KeepsFactor(x);
  }

  lemma Pow2Ten()
    ensures Pow2(5) == 32 && Pow2(10) == 1024 && Pow2(20) == 0x10_0000 && Pow2(30) == 0x4000_0000
  {
    assert Pow2(5) == 32;
    Pow2Adds(5, 5);
    Pow2Adds(10, 10);
    Pow2Adds(20, 10);
  }

  /** Short shifts do not wrap into anything short: by hand from 2^5, where the true wait passes the
      longest, to 2^29. */
  lemma NarrowShiftIsCapped(k: nat)
    requires 5 <= k < 30
    ensures Shift64(BASE_LOCKOUT, k) <= 0 || Shift64(BASE_LOCKOUT, k) > MAX_LOCKOUT
  {
    Pow2Ten();
    if k <= 28 {
      Pow2Grows(5, k);
      Pow2Grows(k, 28);
      Pow2Adds(28, 2);
      assert Pow2(28) == 0x1000_0000;
      assert BASE_LOCKOUT * Pow2(k) <= BASE_LOCKOUT * 0x1000_0000 < TWO63;
      assert BASE_LOCKOUT * Pow2(k) >= BASE_LOCKOUT * 32 > MAX_LOCKOUT;
    } else {
      Pow2Adds(29, 1);
      assert Pow2(29) == 0x2000_0000;
      assert BASE_LOCKOUT * 0x2000_0000 - TWO64 < 0;
    }
  }

  /** For every count of failures past the free ones, the wait is what it would be in unbounded numbers:
      thirty seconds doubled for each, and fifteen minutes at most. */
  lemma WaitIsExact(failures: nat)
    requires failures > FREE_ATTEMPTS
    ensures Wait(failures) == Min(BASE_LOCKOUT * Pow2(failures - 6), MAX_LOCKOUT)
    ensures 0 < Wait(failures) <= MAX_LOCKOUT
  {
    var k := failures - 6;
    Pow2Ten();
    if k < 5 {
      Pow2Grows(k, 5);
      Pow2Adds(k, 5 - k);
      assert k < 5 ==> Pow2(k) <= 16 by { Pow2Grows(k, 4); }
      assert BASE_LOCKOUT * Pow2(k) <= BASE_LOCKOUT * 16 < TWO63;
      assert BASE_LOCKOUT * Pow2(k) >= BASE_LOCKOUT;
    } else {
      if k < 30 { NarrowShiftIsCapped(k); } else { WideShiftIsCapped(k); }
      Pow2Grows(5, k);
      assert BASE_LOCKOUT * Pow2(k) >= BASE_LOCKOUT * 32;
    }
  }

  lemma WaitGrows(f: nat, g: nat)
    requires FREE_ATTEMPTS < f <= g
    ensures Wait(f) <= Wait(g)
  {
    WaitIsExact(f);
    WaitIsExact(g);
    Pow2Grows(f - 6, g - 6);
  }

  // ---- the records ----

  /** One key's recent history; no wait set yet is `None`. */
  datatype Rec = Rec(failures: nat, last: int, until: Option<int>)

  type Records = map<string, Rec>

  datatype Event =
    | Fail(key: string, at: int)
    | Ask(key: string, at: int) // retryAfter
    | Succeed(key: string)

  predicate Quiet(r: Rec, now: int) {
    now - r.last > FORGET_AFTER
  }

  /** The record a failure leaves, and the wait it earned. */
  function Failed(r: Option<Rec>, now: int): (Rec, int) {
    var was := if r.None? || Quiet(r.value, now) then Rec(0, now, None) else r.value;
    var f := was.failures + 1;
    if f <= FREE_ATTEMPTS then (Rec(f, now, was.until), 0)
    else (Rec(f, now, Some(now + Wait(f))), Wait(f))
  }

  /** How long a key with this record must wait. */
  function Remaining(r: Option<Rec>, now: int): int {
    if r.None? || Quiet(r.value, now) then 0
    else if r.value.until.Some? && now < r.value.until.value then r.value.until.value - now
    else 0
  }

  function Of(rs: Records, key: string): Option<Rec> {
    if key in rs then Some(rs[key]) else None
  }

  /** Drop the quiet records, once there are many. */
  function Sweep(rs: Records, now: int): Records {
    if |rs| < MANY_RECORDS then rs else map k | k in rs && !Quiet(rs[k], now) :: rs[k]
  }

  /** One call: the records after it, and what it answers. */
  function Step(rs: Records, e: Event): (Records, int) {
    match e
    case Fail(key, at) =>
      var (r, wait) := Failed(Of(rs, key), at);
      var rs' := rs[key := r];
      (if r.failures <= FREE_ATTEMPTS then rs' else Sweep(rs', at), wait)
    case Ask(key, at) =>
      (if key in rs && Quiet(rs[key], at) then rs - {key} else rs, Remaining(Of(rs, key), at))
    case Succeed(key) => (rs - {key}, 0)
  }

  function Held(es: seq<Event>): Records {
    if es == [] then map[] else Step(Held(es[..|es| - 1]), es[|es| - 1]).0
  }

  function Answer(es: seq<Event>): int
    requires es != []
  {
    Step(Held(es[..|es| - 1]), es[|es| - 1]).1
  }

  // ---- the same answers when nothing is ever forgotten ----

  /** A key's record if only a success removed it. */
  function History(es: seq<Event>, key: string): Option<Rec> {
    if es == [] then None
    else
      var before := History(es[..|es| - 1], key);
      match es[|es| - 1]
      case Fail(k, at) => if k == key then Some(Failed(before, at).0) else before
      case Ask(_, _) => before
      case Succeed(k) => if k == key then None else before
  }

  function AnswerFromHistory(es: seq<Event>): int
    requires es != []
  {
    var before := es[..|es| - 1];
    match es[|es| - 1]
    case Fail(key, at) => Failed(History(before, key), at).1
    case Ask(key, at) => Remaining(History(before, key), at)
    case Succeed(_) => 0
  }

  /** Every call so far was made at `now` or before, and the clock did not go back between calls. */
  predicate Until(es: seq<Event>, now: int)
    decreases |es|
  {
    es == [] || (if es[|es| - 1].Succeed? then Until(es[..|es| - 1], now)
                 else es[|es| - 1].at <= now && Until(es[..|es| - 1], es[|es| - 1].at))
  }

  lemma {:induction false} UntilLater(es: seq<Event>, now: int, later: int)
    requires Until(es, now) && now <= later
    ensures Until(es, later)
    decreases |es|
  {
    if es != [] && es[|es| - 1].Succeed? {
      UntilLater(es[..|es| - 1], now, later);
    }
  }

  /** A record is the history's, or it is gone and the history's is quiet for good. */
  predicate Matches(held: Option<Rec>, whole: Option<Rec>, now: int) {
    held == whole || (held.None? && Quiet(whole.value, now))
  }

  lemma {:induction false} HeldMatches(es: seq<Event>, key: string, now: int)
    requires Until(es, now)
    ensures Matches(Of(Held(es), key), History(es, key), now)
    decreases |es|
  {
    if es != [] {
      var init, e := es[..|es| - 1], es[|es| - 1];
      match e
      case Fail(k, at) => HeldMatches(init, key, at);
      case Ask(k, at) => HeldMatches(init, key, at);
      case Succeed(k) => HeldMatches(init, key, now);
    }
  }

  /** With a clock that does not go back, every answer is the one a throttle that never forgets would
      give: dropping quiet records, one at a time or in a sweep, changes no wait. */
  lemma AnswersAsHistory(es: seq<Event>, now: int)
    requires es != [] && Until(es, now)
    ensures Answer(es) == AnswerFromHistory(es)
  {
    var init := es[..|es| - 1];
    match es[|es| - 1]
    case Fail(key, at) => HeldMatches(init, key, at);
    case Ask(key, at) => HeldMatches(init, key, at);
    case Succeed(_) =>
  }

  // ---- a wait runs to its end ----

  predicate Cleared(es: seq<Event>, key: string) {
    exists i :: 0 <= i < |es| && es[i] == Succeed(key)
  }

  /** Whatever is called in between, but for a success, a key that earned a wait is told at any moment
      before the end of it to wait at least until then. */
  lemma {:induction false} WaitHolds(before: seq<Event>, key: string, at: int, more: seq<Event>, now: int)
    requires Until(before + [Fail(key, at)] + more, now)
    requires Answer(before + [Fail(key, at)]) > 0
    requires !Cleared(more, key) && now < at + Answer(before + [Fail(key, at)])
    ensures var es := before + [Fail(key, at)] + more;
            && Answer(es + [Ask(key, now)]) >= at + Answer(before + [Fail(key, at)]) - now > 0
  {
    var first := before + [Fail(key, at)];
    var es := first + more;
    assert (es + [Ask(key, now)])[..|es|] == es;
    UntilPrefix(first, more, now);
    AnswersAsHistory(first, now);
    assert first[..|before|] == before;
    HistoryHolds(before, key, at, more, now);
    AnswersAsHistory(es + [Ask(key, now)], now);
  }

  lemma {:induction false} UntilPrefix(a: seq<Event>, b: seq<Event>, now: int)
    requires Until(a + b, now)
    ensures Until(a, now)
    decreases |b|
  {
    if b == [] {
      assert a + b == a;
    } else {
      var e := b[|b| - 1];
      assert (a + b)[..|a + b| - 1] == a + b[..|b| - 1];
      if e.Succeed? {
        UntilPrefix(a, b[..|b| - 1], now);
      } else {
        UntilPrefix(a, b[..|b| - 1], e.at);
        UntilLater(a, e.at, now);
      }
    }
  }

  /** While the wait lasts, the key's record stays, its count only grows, and its end never comes nearer. */
  lemma {:induction false} HistoryHolds(before: seq<Event>, key: string, at: int, more: seq<Event>, now: int)
    requires Until(before + [Fail(key, at)] + more, now)
    requires Failed(History(before, key), at).1 > 0
    requires !Cleared(more, key) && now < at + Failed(History(before, key), at).1
    ensures var (r0, wait) := Failed(History(before, key), at);
            var r := History(before + [Fail(key, at)] + more, key);
            && r.Some? && r.value.failures >= r0.failures > FREE_ATTEMPTS
            && at <= r.value.last <= now && r.value.until.Some? && r.value.until.value >= at + wait
    decreases |more|
  {
    hide Wait, Pow2, Shift64, Signed64;
    var first := before + [Fail(key, at)];
    var es := first + more;
    var (r0, wait) := Failed(History(before, key), at);
    WaitIsExact(r0.failures);
    if more == [] {
      assert es == first && first[..|before|] == before;
    } else {
      var init, e := more[..|more| - 1], more[|more| - 1];
      assert es[..|es| - 1] == first + init && es[|es| - 1] == e;
      assert forall i :: 0 <= i < |init| ==> init[i] == more[i];
      assert more[|more| - 1] != Succeed(key);
      HistoryHolds(before, key, at, init, if e.Succeed? then now else e.at);
      if e.Fail? && e.key == key {
        var r := History(first + init, key).value;
        UntilPrefix(first, init, e.at);
        assert at <= e.at by { UntilAt(before, key, at, e.at); }
        assert !Quiet(r, e.at);
        WaitGrows(r0.failures, r.failures + 1);
      }
    }
  }

  lemma UntilAt(before: seq<Event>, key: string, at: int, now: int)
    requires Until(before + [Fail(key, at)], now)
    ensures at <= now
  {
    var es := before + [Fail(key, at)];
    assert es[|es| - 1] == Fail(key, at);
  }

  // ---- the throttle as it runs ----

  class Table {
    var records: Records

    constructor ()
      ensures records == Held([])
    {
      records := map[];
    }

    method RetryAfter(key: string, now: int) returns (wait: int)
      modifies this
      ensures (records, wait) == Step(old(records), Ask(key, now))
    {
      if key !in records {
        return 0;
      }
      var rec := records[key];
      if now - rec.last > FORGET_AFTER {
        records := records - {key};
        return 0;
      }
      if rec.until.Some? && now < rec.until.value {
        return rec.until.value - now;
      }
      return 0;
    }

    method FailNow(key: string, now: int) returns (wait: int)
      modifies this
      ensures (records, wait) == Step(old(records), Fail(key, now))
    {
      var rec := if key in records && now - records[key].last <= FORGET_AFTER then records[key] else Rec(0, now, None);
      rec := rec.(failures := rec.failures + 1, last := now);
      records := records[key := rec];
      if rec.failures <= FREE_ATTEMPTS {
        return 0;
      }
      wait := Shift64(BASE_LOCKOUT, rec.failures - FREE_ATTEMPTS - 1);
      if wait > MAX_LOCKOUT || wait <= 0 {
        wait := MAX_LOCKOUT;
      }
      records := records[key := rec.(until := Some(now + wait))];
      ghost var swept := Step(old(records), Fail(key, now)).0;
      assert records == old(records)[key := Failed(Of(old(records), key), now).0];
      SweepNow(now);
    }

    method SucceedNow(key: string)
      modifies this
      ensures records == Step(old(records), Succeed(key)).0
    {
      records := records - {key};
    }

    method SweepNow(now: int)
      modifies this
      ensures records == Sweep(old(records), now)
    {
      if |records| < MANY_RECORDS {
        return;
      }
      var todo := records.Keys;
      while todo != {}
        invariant todo <= old(records).Keys
        invariant forall k :: k in records <==> k in old(records) && (k in todo || !Quiet(old(records)[k], now))
        invariant forall k :: k in records ==> records[k] == old(records)[k]
        decreases todo
      {
        var k :| k in todo;
        if now - records[k].last > FORGET_AFTER {
          records := records - {k};
        }
        todo := todo - {k};
      }
    }
  }
}
