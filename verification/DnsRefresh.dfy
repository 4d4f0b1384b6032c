/**
  The refreshes of stale answers: a query that finds one starts a refresh in the
  background, and marks the entry so that others do not. The mark carries no name,
  so a refresh that returns late can clear the mark of another.
 */
module DnsRefresh {
  import opened DnsCache

  /** A step that ends a refresh of a key, or the entry it was for. */
  predicate Frees(c: Cache, s: Step, key: string) {
    Replaced(c, s, key) || (s.Answered? && s.key == key)
  }

  lemma StepFetches(c: Cache, s: Step, key: string)
    requires key in c && c[key].fetch && !Frees(c, s, key)
    ensures key in Do(c, s) && Do(c, s)[key].fetch
  {
  }

  lemma StartsFetch(c: Cache, s: Step)
    requires Refreshes(c, s)
    ensures s.key in Do(c, s) && Do(c, s)[s.key].fetch
  {
  }

  /** No step after the i-th frees the key. */
  predicate NoneFree(run: seq<Step>, i: nat, key: string) {
    |run| > i + 1 ==> NoneFree(run[..|run| - 1], i, key) && !Frees(After(run[..|run| - 1]), run[|run| - 1], key)
  }

  lemma {:induction false} NoneFreeUpTo(run: seq<Step>, i: nat, j: nat, key: string)
    requires j <= |run| && forall k :: i < k < j ==> !Frees(After(run[..k]), run[k], key)
    ensures NoneFree(run[..j], i, key)
    decreases j
  {
    if j > i + 1 {
      NoneFreeUpTo(run, i, j - 1, key);
      assert run[..j][..j - 1] == run[..j - 1] && run[..j][j - 1] == run[j - 1];
    }
  }

  lemma {:induction false} StillFetching(run: seq<Step>, i: nat, key: string)
    requires i < |run| && Refreshes(After(run[..i]), run[i]) && run[i].key == key && NoneFree(run, i, key)
    ensures key in After(run) && After(run)[key].fetch
  {
    var n := |run| - 1;
    var rest, s := run[..n], run[n];
    if i < n {
      assert rest[i] == run[i] && rest[..i] == run[..i];
      StillFetching(rest, i, key);
      StepFetches(After(rest), s, key);
    } else {
      StartsFetch(After(rest), s);
    }
  }

  lemma SomethingFrees(run: seq<Step>, i: nat, j: nat)
    requires i < j < |run| && Refreshes(After(run[..i]), run[i]) && Refreshes(After(run[..j]), run[j])
    requires run[i].key == run[j].key
    ensures exists k :: i < k < j && Frees(After(run[..k]), run[k], run[i].key)
  {
    if forall k :: i < k < j ==> !Frees(After(run[..k]), run[k], run[i].key) {
      var rest := run[..j];
      assert rest[i] == run[i] && rest[..i] == run[..i];
      NoneFreeUpTo(run, i, j, run[i].key);
      StillFetching(rest, i, run[i].key);
      assert false;
    }
  }

  // ---- whose return it is ----

  /** Step i starts a refresh of a key. */
  predicate Starts(run: seq<Step>, i: nat, key: string) {
    i < |run| && run[i].Look? && run[i].key == key && Refreshes(After(run[..i]), run[i])
  }

  /** Only refreshes that were started return, each to its key and once. */
  ghost predicate Returning(run: seq<Step>) {
    && (forall k :: 0 <= k < |run| && run[k].Answered? ==> run[k].started < k && Starts(run, run[k].started, run[k].key))
    && (forall j, k :: 0 <= j < k < |run| && run[j].Answered? && run[k].Answered? ==> run[j].started != run[k].started)
  }

  /** No refresh takes longer than this to return. */
  ghost predicate Prompt(run: seq<Step>, limit: int)
    requires Returning(run)
  {
    forall k :: 0 <= k < |run| && run[k].Answered? ==> run[k].at - run[run[k].started].at <= limit
  }

  /** Of two refreshes started for a key, the first returned before the second was started, or its answer
      was replaced or dropped by then. */
  ghost predicate OneAfterAnother(run: seq<Step>, i: nat, j: nat, key: string)
    requires i < j <= |run|
  {
    exists k :: i < k < j && (Replaced(After(run[..k]), run[k], key) || (run[k].Answered? && run[k].started == i))
  }

  lemma FirstFreeing(run: seq<Step>, i: nat, j: nat, key: string) returns (k: nat)
    requires i < j <= |run| && exists m :: i < m < j && Frees(After(run[..m]), run[m], key)
    ensures i < k < j && Frees(After(run[..k]), run[k], key)
    ensures forall m :: i < m < k ==> !Frees(After(run[..m]), run[m], key)
    decreases j
  {
    k :| i < k < j && Frees(After(run[..k]), run[k], key);
    if exists m :: i < m < k && Frees(After(run[..m]), run[m], key) {
      k := FirstFreeing(run, i, k, key);
    }
  }

  /** A refresh begun before the present answer was kept takes five seconds at least if it returns after
      that answer went stale. */
  lemma OlderReturnIsLate(run: seq<Step>, f: nat, m: nat, i: nat, k: nat, key: string)
    requires Ordered(run) && f < m < i < k < |run| && Timed(run[f]) && run[k].Answered?
    requires Replaced(After(run[..m]), run[m], key) && Starts(run, i, key)
    ensures run[k].at - run[f].at >= 5 * SECOND
  {
    var before := run[..i];
    assert before[m] == run[m] && before[..m] == run[..m];
    KeptSince(before, m, key);
    HeldIsLastKept(before, key);
    var e := LastKept(before, key).value;
    assert before[e] == run[e];
    LifetimeIs(run[e].ttls);
    assert run[f].at <= run[e].at && run[i].at <= run[k].at;
  }

  lemma {:induction false} PromptFollow(run: seq<Step>, limit: int, i: nat, j: nat, key: string)
    requires Returning(run) && Ordered(run) && Prompt(run, limit) && limit < 5 * SECOND
    requires i < j < |run| && Starts(run, i, key) && Starts(run, j, key)
    ensures OneAfterAnother(run, i, j, key)
    decreases j
  {
    SomethingFrees(run, i, j);
    var k := FirstFreeing(run, i, j, key);
    if !Replaced(After(run[..k]), run[k], key) {
      var f := run[k].started;
      if f > i {
        SomethingFrees(run, i, f);
      } else if f < i {
        PromptFollow(run, limit, f, i, key);
        var m :| f < m < i && (Replaced(After(run[..m]), run[m], key) || (run[m].Answered? && run[m].started == f));
        OlderReturnIsLate(run, f, m, i, k, key);
      }
      assert f == i;
    }
  }

  /** A query keeps one stale answer while a slow refresh of another is still out: the slow one's return
      lets a second refresh of the same answer start. */
  function Overlap(): seq<Step> {
    [Keep("", [], [0], 0, 0), Look("", 10, 5 * SECOND), Keep("", [], [0], 0, 5 * SECOND), Look("", 10, 10 * SECOND),
     Answered("", 1, 10 * SECOND), Look("", 10, 10 * SECOND)]
  }

  lemma KeepDoes(c: Cache, t: int)
    requires c.Keys <= {""}
    ensures Do(c, Keep("", [], [0], 0, t)) == map["" := Entry([], t + 5 * SECOND, false)]
  {
    assert Least([0], 300) == Least([], 0);
    assert |c.Keys| <= |{""}| by {
      assert c.Keys == {} || c.Keys == {""};
    }
  }

  lemma LookDoes(t: int)
    ensures Do(map["" := Entry([], t, false)], Look("", 10, t)) == map["" := Entry([], t, true)]
  {
  }

  lemma AnsweredDoes(t: int)
    ensures Do(map["" := Entry([], t, true)], Answered("", 1, t)) == map["" := Entry([], t, false)]
  {
  }

  lemma OverlapCaches()
    ensures var c := map["" := Entry([], 5 * SECOND, false)];
            var d := map["" := Entry([], 10 * SECOND, false)];
            && After(Overlap()[..1]) == c && After(Overlap()[..2]) == map["" := Entry([], 5 * SECOND, true)]
            && After(Overlap()[..3]) == d && After(Overlap()[..4]) == map["" := Entry([], 10 * SECOND, true)]
            && After(Overlap()[..5]) == d
  {
    hide After, Do;
    var run := Overlap();
    KeepDoes(map[], 0);
    LookDoes(5 * SECOND);
    KeepDoes(map["" := Entry([], 5 * SECOND, true)], 5 * SECOND);
    LookDoes(10 * SECOND);
    AnsweredDoes(10 * SECOND);
    AfterNone(run);
    AfterNext(run, 0);
    AfterNext(run, 1);
    AfterNext(run, 2);
    AfterNext(run, 3);
    AfterNext(run, 4);
  }

  lemma AfterNone(run: seq<Step>)
    ensures After(run[..0]) == map[]
  {
    assert run[..0] == [];
  }

  lemma AfterNext(run: seq<Step>, k: nat)
    requires k < |run|
    ensures After(run[..k + 1]) == Do(After(run[..k]), run[k])
  {
    assert run[..k + 1][..k] == run[..k];
  }

  lemma OverlapStarts()
    ensures var run := Overlap();
            Starts(run, 1, "") && Starts(run, 3, "") && Starts(run, 5, "") && !Replaced(After(run[..4]), run[4], "")
  {
    OverlapCaches();
  }

  lemma OverlapOverlaps(limit: int)
    requires limit >= 5 * SECOND
    ensures var run := Overlap();
            && Returning(run) && Ordered(run) && Prompt(run, limit)
            && Starts(run, 3, "") && Starts(run, 5, "") && !OneAfterAnother(run, 3, 5, "")
  {
    hide After, Starts;
    OverlapStarts();
    var run := Overlap();
    assert forall k :: 0 <= k < |run| && run[k].Answered? ==> k == 4;
  }

  /** Of one stale answer one refresh is out at a time, in every run, exactly when every refresh returns in
      less than the five seconds an answer is kept for at least. */
  lemma OneRefreshExactlyWhenPrompt(limit: int)
    ensures limit < 5 * SECOND
       <==> forall run, i: nat, j: nat, key ::
              Returning(run) && Ordered(run) && Prompt(run, limit) && i < j < |run| && Starts(run, i, key) && Starts(run, j, key)
              ==> OneAfterAnother(run, i, j, key)
  {
    if limit < 5 * SECOND {
      forall run, i: nat, j: nat, key |
        Returning(run) && Ordered(run) && Prompt(run, limit) && i < j < |run| && Starts(run, i, key) && Starts(run, j, key)
        ensures OneAfterAnother(run, i, j, key)
      {
        PromptFollow(run, limit, i, j, key);
      }
    } else {
      OverlapOverlaps(limit);
    }
  }
}
