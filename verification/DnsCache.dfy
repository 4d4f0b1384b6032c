/**
  The resolver's cache of answers, as a machine over the steps its lock allows:
  looks, answers kept, refreshes coming back and the cache being emptied, from
  any number of queries at once.
 */
module DnsCache {
  import opened Prelude
  import ListField

  type Message = seq<Byte>

  const SECOND := 1_000_000_000 // in nanoseconds
  const FULL := 20000

  // ---- keys ----

  function Lower(c: char): char {
    if 'A' <= c <= 'Z' then c + ('a' - 'A') else c
  }

  /** A name as the cache knows it: no case, and no dot at its end. */
  function Plain(name: string): string {
    var low := seq(|name|, i requires 0 <= i < |name| => Lower(name[i]));
    if low != [] && low[|low| - 1] == '.' then low[..|low| - 1] else low
  }

  function Key(name: string, kind: nat): string {
    Plain(name) + ['/'] + ListField.Decimal(kind)
  }

  lemma {:induction false} LastSlash(a: string, d: string, a': string, d': string)
    requires a + ['/'] + d == a' + ['/'] + d' && '/' !in d && '/' !in d'
    ensures a == a' && d == d'
  {
    var t := a + ['/'] + d;
    assert t[|a|] == '/' && t[|a'|] == '/';
    assert forall i :: |a| < i < |t| ==> t[i] == d[i - |a| - 1];
    assert forall i :: |a'| < i < |t| ==> t[i] == d'[i - |a'| - 1];
    assert |a| == |a'|;
    assert t[..|a|] == a && t[..|a'|] == a';
    assert t[|a| + 1..] == d && t[|a'| + 1..] == d';
  }

  /** Questions share a key exactly when they are for one type of one name. */
  lemma KeysTellApart(name: string, kind: nat, name': string, kind': nat)
    ensures Key(name, kind) == Key(name', kind') <==> Plain(name) == Plain(name') && kind == kind'
  {
    if Key(name, kind) == Key(name', kind') {
      var d, d' := ListField.Decimal(kind), ListField.Decimal(kind');
      assert forall i :: 0 <= i < |d| ==> ListField.Digit(d[i]);
      assert forall i :: 0 <= i < |d'| ==> ListField.Digit(d'[i]);
      LastSlash(Plain(name), d, Plain(name'), d');
      ListField.ValueOfDecimal(kind);
      ListField.ValueOfDecimal(kind');
    }
  }

  // ---- how long an answer is kept ----

  function Least(ttls: seq<nat>, most: nat): nat {
    if ttls == [] then most else Least(ttls[1..], if ttls[0] < most then ttls[0] else most)
  }

  /** The seconds an answer is kept for, from the lifetimes in it. */
  function Lifetime(ttls: seq<nat>): nat {
    if Least(ttls, 300) < 5 then 5 else Least(ttls, 300)
  }

  lemma {:induction false} LeastIs(ttls: seq<nat>, most: nat)
    ensures Least(ttls, most) <= most && (forall t :: t in ttls ==> Least(ttls, most) <= t)
    ensures Least(ttls, most) == most || Least(ttls, most) in ttls
  {
    if ttls != [] {
      LeastIs(ttls[1..], if ttls[0] < most then ttls[0] else most);
      assert ttls == [ttls[0]] + ttls[1..];
    }
  }

  /** Five seconds to five minutes, and within that the smallest lifetime in the answer. */
  lemma LifetimeIs(ttls: seq<nat>)
    ensures 5 <= Lifetime(ttls) <= 300
    ensures forall t :: t in ttls ==> Lifetime(ttls) <= t || Lifetime(ttls) == 5
    ensures Lifetime(ttls) in ttls || Lifetime(ttls) == 300 || (Lifetime(ttls) == 5 && exists t :: t in ttls && t < 5)
  {
    LeastIs(ttls, 300);
  }

  method LifetimeOf(ttls: seq<nat>) returns (ttl: nat)
    ensures ttl == Lifetime(ttls)
  {
    ttl := 300;
    for i := 0 to |ttls|
      invariant Least(ttls, 300) == Least(ttls[i..], ttl)
    {
      assert ttls[i..][0] == ttls[i] && ttls[i..][1..] == ttls[i + 1..];
      if ttls[i] < ttl {
        ttl := ttls[i];
      }
    }
    if ttl < 5 {
      ttl := 5;
    }
  }

  // ---- the machine ----

  datatype Entry = Entry(msg: Message, expires: int, fetch: bool)

  type Cache = map<string, Entry>

  /** What happens under the lock: a look with the stale allowance in force for its query, the return of the
      refresh that the look at place `started` began, an answer kept with the lifetimes in it, which the
      query at place `asked` had asked upstream for, the cache emptied by a change of route or settings. */
  datatype Step =
    | Look(key: string, stale: int, at: int)
    | Answered(key: string, started: nat, at: int)
    | Keep(key: string, msg: Message, ttls: seq<nat>, asked: nat, at: int)
    | Empty

  function Allowance(stale: int): int {
    if stale > 0 then stale * SECOND else 0
  }

  function Expires(s: Step): int
    requires s.Keep?
  {
    s.at + Lifetime(s.ttls) * SECOND
  }

  function Served(c: Cache, s: Step): Option<Message>
    requires s.Look?
  {
    if s.key in c && s.at < c[s.key].expires + Allowance(s.stale) then Some(c[s.key].msg) else None
  }

  /** A look that finds its answer stale starts a refresh, unless one is under way. */
  predicate Refreshes(c: Cache, s: Step) {
    s.Look? && Served(c, s).Some? && s.at >= c[s.key].expires && !c[s.key].fetch
  }

  function Do(c: Cache, s: Step): Cache {
    match s
    case Look(key, _, _) =>
      if Served(c, s).None? then c - {key}
      else if Refreshes(c, s) then c[key := c[key].(fetch := true)]
      else c
    case Answered(key, _, _) => if key in c then c[key := c[key].(fetch := false)] else c
    case Keep(key, msg, _, _, _) => (if |c| > FULL then map[] else c)[key := Entry(msg, Expires(s), false)]
    case Empty => map[]
  }

  function After(run: seq<Step>): Cache {
    if run == [] then map[] else Do(After(run[..|run| - 1]), run[|run| - 1])
  }

  predicate Timed(s: Step) {
    !s.Empty?
  }

  predicate Ordered(run: seq<Step>) {
    forall i, j :: 0 <= i < j < |run| && Timed(run[i]) && Timed(run[j]) ==> run[i].at <= run[j].at
  }

  /** The last answer kept under a key. */
  function LastKept(run: seq<Step>, key: string): Option<nat> {
    if run == [] then None
    else if run[|run| - 1].Keep? && run[|run| - 1].key == key then Some(|run| - 1)
    else LastKept(run[..|run| - 1], key)
  }

  lemma {:induction false} LastKeptIs(run: seq<Step>, key: string)
    ensures LastKept(run, key).Some? ==>
              var i := LastKept(run, key).value;
              i < |run| && run[i].Keep? && run[i].key == key && forall j :: i < j < |run| && run[j].Keep? ==> run[j].key != key
    ensures LastKept(run, key).None? ==> forall j :: 0 <= j < |run| && run[j].Keep? ==> run[j].key != key
  {
    if run != [] {
      LastKeptIs(run[..|run| - 1], key);
    }
  }

  /** Whatever the cache holds is the last answer kept under its key, until that answer's own time. */
  lemma {:induction false} HeldIsLastKept(run: seq<Step>, key: string)
    requires key in After(run)
    ensures LastKept(run, key).Some?
    ensures var i := LastKept(run, key).value;
            i < |run| && run[i].Keep? && run[i].key == key
            && After(run)[key].msg == run[i].msg && After(run)[key].expires == Expires(run[i])
  {
    if run != [] {
      var rest, s := run[..|run| - 1], run[|run| - 1];
      if key in After(rest) {
        HeldIsLastKept(rest, key);
      }
    }
  }

  lemma SizeAfterKeep(c: Cache, key: string, e: Entry)
    ensures |c[key := e]| <= |c| + 1
  {
    assert c[key := e].Keys == c.Keys + {key};
  }

  /** The cache never holds more than one answer past its bound. */
  lemma {:induction false} SizeBounded(run: seq<Step>)
    ensures |After(run)| <= FULL + 1
  {
    if run != [] {
      var c, s := After(run[..|run| - 1]), run[|run| - 1];
      SizeBounded(run[..|run| - 1]);
      match s
      case Look(key, _, _) =>
        assert (c - {key}).Keys == c.Keys - {key};
        if Refreshes(c, s) {
          assert c[key := c[key].(fetch := true)].Keys == c.Keys;
        }
      case Answered(key, _, _) =>
        if key in c {
          assert c[key := c[key].(fetch := false)].Keys == c.Keys;
        }
      case Keep(key, msg, _, _, _) =>
        SizeAfterKeep(if |c| > FULL then map[] else c, key, Entry(msg, Expires(s), false));
      case Empty =>
    }
  }

  lemma LooksLast(run: seq<Step>, look: Step, i: nat)
    requires Ordered(run + [look]) && look.Look? && i < |run| && Timed(run[i])
    ensures run[i].at <= look.at
  {
    var more := run + [look];
    assert more[i] == run[i] && more[|run|] == look;
  }

  /** Every reply from the cache, in every run: the last answer kept under that very name and type, given
      strictly before the end of its own lifetime, five seconds to five minutes, and the stale allowance. */
  lemma ServedIsBounded(run: seq<Step>, name: string, kind: nat, stale: int, at: int)
    requires Ordered(run + [Look(Key(name, kind), stale, at)])
    requires Served(After(run), Look(Key(name, kind), stale, at)).Some?
    ensures exists i :: 0 <= i < |run| && run[i].Keep?
              && Served(After(run), Look(Key(name, kind), stale, at)) == Some(run[i].msg)
              && run[i].key == Key(name, kind)
              && (forall j :: i < j < |run| && run[j].Keep? ==> run[j].key != Key(name, kind))
              && run[i].at <= at < run[i].at + Lifetime(run[i].ttls) * SECOND + Allowance(stale)
              && 5 <= Lifetime(run[i].ttls) <= 300
  {
    var key := Key(name, kind);
    HeldIsLastKept(run, key);
    LastKeptIs(run, key);
    var i := LastKept(run, key).value;
    LifetimeIs(run[i].ttls);
    LooksLast(run, Look(key, stale, at), i);
  }

  /** Nothing that empties the cache happens after step i. */
  predicate Undisturbed(run: seq<Step>, i: nat) {
    forall j :: i < j < |run| ==> run[j] != Empty && (run[j].Keep? ==> |After(run[..j])| <= FULL)
  }

  lemma StepHolds(c: Cache, s: Step, key: string)
    requires key in c && s != Empty && (s.Keep? ==> |c| <= FULL) && (s.Look? && s.key == key ==> Served(c, s).Some?)
    ensures key in Do(c, s)
  {
  }

  lemma {:induction false} FreshIsHeld(run: seq<Step>, key: string, at: int)
    requires LastKept(run, key).Some? && Undisturbed(run, LastKept(run, key).value)
    requires forall j :: 0 <= j < |run| && Timed(run[j]) ==> run[j].at <= at
    requires LastKept(run, key).value < |run| && run[LastKept(run, key).value].Keep? && at < Expires(run[LastKept(run, key).value])
    ensures key in After(run)
  {
    var n := |run| - 1;
    var i := LastKept(run, key).value;
    LastKeptIs(run, key);
    if i < n {
      var rest, s := run[..n], run[n];
      UndisturbedBefore(run, i);
      FreshIsHeld(rest, key, at);
      HeldIsLastKept(rest, key);
      assert s.Look? ==> s.at <= at;
      StepHolds(After(rest), s, key);
    }
  }

  lemma UndisturbedBefore(run: seq<Step>, i: nat)
    requires run != [] && Undisturbed(run, i)
    ensures Undisturbed(run[..|run| - 1], i)
  {
    var rest := run[..|run| - 1];
    forall j | i < j < |rest| ensures rest[j] != Empty && (rest[j].Keep? ==> |After(rest[..j])| <= FULL) {
      assert rest[j] == run[j] && rest[..j] == run[..j];
    }
  }

  /** An answer still within its lifetime is served, unless the cache was emptied after it was kept; no
      look, of whatever allowance, and no refresh can lose it. */
  lemma FreshIsServed(run: seq<Step>, key: string, stale: int, at: int)
    requires Ordered(run + [Look(key, stale, at)])
    requires LastKept(run, key).Some? && Undisturbed(run, LastKept(run, key).value)
    requires LastKept(run, key).value < |run| && run[LastKept(run, key).value].Keep? && at < Expires(run[LastKept(run, key).value])
    ensures Served(After(run), Look(key, stale, at)) == Some(run[LastKept(run, key).value].msg)
  {
    var more := run + [Look(key, stale, at)];
    forall j | 0 <= j < |run| && Timed(run[j]) ensures run[j].at <= at {
      assert more[j] == run[j] && more[|run|] == Look(key, stale, at);
    }
    FreshIsHeld(run, key, at);
    HeldIsLastKept(run, key);
  }

  // ---- emptying ----

  /** A step after which nothing kept before it under a key is served any more. */
  predicate Replaced(c: Cache, s: Step, key: string) {
    match s
    case Look(k, _, _) => k == key && Served(c, s).None?
    case Answered(_, _, _) => false
    case Keep(k, _, _, _, _) => k == key || |c| > FULL
    case Empty => true
  }

  lemma ReplacedHolds(c: Cache, s: Step, key: string)
    requires Replaced(c, s, key) && key in Do(c, s)
    ensures s.Keep? && s.key == key
  {
  }

  lemma StepAddsOnlyKept(c: Cache, s: Step, key: string)
    requires key in Do(c, s) && !(s.Keep? && s.key == key)
    ensures key in c
  {
  }

  lemma {:induction false} KeptSince(run: seq<Step>, i: nat, key: string)
    requires i < |run| && Replaced(After(run[..i]), run[i], key) && key in After(run)
    ensures LastKept(run, key).Some? && LastKept(run, key).value >= i
  {
    hide Do, Replaced;
    var n := |run| - 1;
    var rest, s := run[..n], run[n];
    if s.Keep? && s.key == key {
    } else if i < n {
      StepAddsOnlyKept(After(rest), s, key);
      assert rest[i] == run[i] && rest[..i] == run[..i];
      KeptSince(rest, i, key);
    } else {
      ReplacedHolds(After(rest), s, key);
    }
  }

  /** After the cache is emptied, for a changed route or with it switched off, what is served under a key
      was kept after that. */
  lemma EmptiedServesOnlyLater(run: seq<Step>, i: nat, look: Step)
    requires i < |run| && run[i] == Empty && look.Look? && Served(After(run), look).Some?
    ensures LastKept(run, look.key).Some?
    ensures var k := LastKept(run, look.key).value;
            i < k < |run| && run[k].Keep? && run[k].key == look.key && Served(After(run), look) == Some(run[k].msg)
  {
    hide After, LastKept;
    HeldIsLastKept(run, look.key);
    KeptSince(run, i, look.key);
    var k := LastKept(run, look.key).value;
    assert run[k].Keep? && k != i;
  }

  /** What a look is served was asked for after the i-th step. */
  ghost predicate AskedSince(run: seq<Step>, i: nat, look: Step)
    requires look.Look?
  {
    Served(After(run), look).Some? ==>
      var k := LastKept(run, look.key);
      k.Some? && k.value < |run| && run[k.value].Keep? && run[k.value].asked > i
  }

  /** So is whatever any look is served after the first j steps. */
  ghost predicate ServesNew(run: seq<Step>, i: nat, j: nat)
    requires j <= |run|
  {
    forall look: Step :: look.Look? ==> AskedSince(run[..j], i, look)
  }

  lemma KeptIsServed(run: seq<Step>, k: nat)
    requires k < |run| && run[k].Keep?
    ensures var look := Look(run[k].key, 0, run[k].at);
            Served(After(run[..k + 1]), look) == Some(run[k].msg) && LastKept(run[..k + 1], run[k].key) == Some(k)
  {
    assert run[..k + 1][..k] == run[..k] && run[..k + 1][k] == run[k];
    LifetimeIs(run[k].ttls);
  }

  /** From an emptying on, every answer served was asked for after it exactly when none asked for before is
      kept after: the cache does not know which way an answer that is still out was asked for. */
  lemma EmptiedServesNewExactlyWhen(run: seq<Step>, i: nat)
    requires i < |run| && run[i] == Empty
    ensures (forall j :: i < j <= |run| ==> ServesNew(run, i, j))
       <==> (forall k :: i < k < |run| && run[k].Keep? ==> run[k].asked > i)
  {
    hide After, LastKept, Served;
    if forall k :: i < k < |run| && run[k].Keep? ==> run[k].asked > i {
      forall j, look: Step | i < j <= |run| && look.Look? ensures AskedSince(run[..j], i, look) {
        if Served(After(run[..j]), look).Some? {
          assert run[..j][i] == run[i];
          EmptiedServesOnlyLater(run[..j], i, look);
          var k := LastKept(run[..j], look.key).value;
          assert run[..j][k] == run[k];
        }
      }
    }
    if k :| i < k < |run| && run[k].Keep? && run[k].asked <= i {
      KeptIsServed(run, k);
      var j, look := k + 1, Look(run[k].key, 0, run[k].at);
      assert run[..j][k] == run[k];
      assert !AskedSince(run[..j], i, look) && !ServesNew(run, i, j);
    }
  }

  // ---- the asker's id ----

  /** An answer with the asker's transaction id in its first two octets. */
  function WithId(msg: Message, id: nat): (out: Message)
    requires id < 0x10000
    ensures |out| == |msg| && (forall i :: 2 <= i < |msg| ==> out[i] == msg[i])
    ensures |msg| >= 2 ==> out[0] as int * 256 + out[1] as int == id
    ensures |msg| < 2 ==> out == msg
  {
    if |msg| >= 2 then [id / 256, id % 256] + msg[2..] else msg
  }

  // ---- the resolver ----

  datatype Config = Config(disableCache: bool, serveExpired: int)

  class Proxy {
    var cache: Cache
    var mark: nat
    var cfg: Config

    constructor ()
      ensures cache == After([]) && mark == 0 && cfg == Config(false, 0)
    {
      cache, mark, cfg := map[], 0, Config(false, 0);
    }

    method Cached(key: string, stale: int, now: int) returns (msg: Option<Message>, refresh: bool)
      modifies this`cache
      ensures msg == Served(old(cache), Look(key, stale, now)) && refresh == Refreshes(old(cache), Look(key, stale, now))
      ensures cache == Do(old(cache), Look(key, stale, now))
    {
      refresh := false;
      if key !in cache {
        assert cache - {key} == cache;
        return None, false;
      }
      var e := cache[key];
      if now < e.expires {
        return Some(e.msg), false;
      }
      if stale > 0 && now < e.expires + stale * SECOND {
        if !e.fetch {
          cache := cache[key := e.(fetch := true)];
          refresh := true;
        }
        return Some(e.msg), refresh;
      }
      cache := cache - {key};
      return None, false;
    }

    method Store(key: string, msg: Message, ttls: seq<nat>, now: int, ghost asked: nat)
      modifies this`cache
      ensures cache == Do(old(cache), Keep(key, msg, ttls, asked, now))
    {
      var ttl := LifetimeOf(ttls);
      if |cache| > FULL {
        cache := map[];
      }
      cache := cache[key := Entry(msg, now + ttl * SECOND, false)];
    }

    /** The upstream of the refresh begun at a place of the run has answered, or failed to. */
    method Refresh(key: string, answer: Option<(Message, seq<nat>)>, now: int, ghost started: nat)
      modifies this`cache
      ensures var back := Do(old(cache), Answered(key, started, now));
              cache == match answer case None => back case Some((msg, ttls)) => Do(back, Keep(key, msg, ttls, started, now))
    {
      if key in cache {
        cache := cache[key := cache[key].(fetch := false)];
      }
      match answer
      case None =>
      case Some((msg, ttls)) => Store(key, msg, ttls, now, started);
    }

    /** Queries leave another way from now on, and what is held is dropped; what is out already may still be kept. */
    method SetMark(m: nat)
      modifies this`cache, this`mark
      ensures mark == m
      ensures cache == if m == old(mark) then old(cache) else Do(old(cache), Empty)
    {
      if mark != m {
        mark := m;
        cache := map[];
      }
    }

    method Reconfigure(c: Config)
      modifies this`cache, this`cfg
      ensures cfg == c
      ensures cache == if c.disableCache then Do(old(cache), Empty) else old(cache)
    {
      cfg := c;
      if c.disableCache {
        cache := map[];
      }
    }

    /** The first half of a query: what the cache serves it, if it is on. `conf` is the configuration the query
        goes on with, whatever it is changed to meanwhile. */
    method Query(name: string, kind: nat, id: nat, now: int) returns (reply: Option<Message>, refresh: bool, conf: Config)
      requires id < 0x10000
      modifies this`cache
      ensures conf == cfg
      ensures var look := Look(Key(name, kind), cfg.serveExpired, now);
              var hit := if cfg.disableCache then None else Served(old(cache), look);
              && cache == (if cfg.disableCache then old(cache) else Do(old(cache), look))
              && reply == (if hit.Some? then Some(WithId(hit.value, id)) else None)
              && refresh == (!cfg.disableCache && Refreshes(old(cache), look))
    {
      conf, reply, refresh := cfg, None, false;
      if !conf.disableCache {
        var msg;
        msg, refresh := Cached(Key(name, kind), conf.serveExpired, now);
        if msg.Some? {
          reply := Some(WithId(msg.value, id));
        }
      }
    }

    /** The second half, of a query the cache did not serve: upstream's answer is kept where the cache was on
        when the query came, and passed on as it is. */
    method Complete(name: string, kind: nat, conf: Config, answer: Option<(Message, seq<nat>)>, now: int, ghost asked: nat)
      returns (reply: Option<Message>)
      modifies this`cache
      ensures reply == if answer.Some? then Some(answer.value.0) else None
      ensures cache == if answer.None? || conf.disableCache then old(cache)
                       else Do(old(cache), Keep(Key(name, kind), answer.value.0, answer.value.1, asked, now))
    {
      match answer
      case None => return None;
      case Some((msg, ttls)) =>
        if !conf.disableCache {
          Store(Key(name, kind), msg, ttls, now, asked);
        }
        return Some(msg);
    }
  }
}
