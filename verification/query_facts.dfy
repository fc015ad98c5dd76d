/** What the event log's read path promises: the limit policy, the range
    bounds, and how `add` shows up in later reads. */
module QueryFacts {
  import opened Wrappers
  import opened EventLog
  import opened LogQuery

  /** Options with no range bounds. */
  function Latest(limit: Option<int>): Options {
    Options(limit, Unbounded, Unbounded)
  }

  /** Any negative limit, whatever its magnitude, returns the whole log in
      append order: the root first, the newest entry last. */
  lemma {:induction false} NegativeLimitYieldsAll(log: seq<Entry>, n: int)
    requires n < 0
    ensures Query(log, Latest(Some(n))) == log
  {
    assert log[0..|log|] == log;
  }

  /** An absent limit, `limit: 0` and `limit: 1` all yield exactly the
      newest entry, and the iterator is exhausted after it. */
  lemma {:induction false} DefaultLimitYieldsNewest(log: seq<Entry>, limit: Option<int>)
    requires limit == None || limit == Some(0) || limit == Some(1)
    requires |log| > 0
    ensures Query(log, Latest(limit)) == [log[|log| - 1]]
    ensures Yields(Open(log, Latest(limit)), 2) == [Some(log[|log| - 1]), None]
  {
    assert log[0..|log|] == log;
    var y := Yields(Open(log, Latest(limit)), 2);
    assert y[0] == Some(log[|log| - 1]) && y[1] == None;
  }

  /** A positive limit `n` yields the `min(n, count)` newest entries,
      oldest first; a limit larger than the log yields all of it. */
  lemma {:induction false} PositiveLimitYieldsNewest(log: seq<Entry>, n: int)
    requires n > 0
    ensures n <= |log| ==> Query(log, Latest(Some(n))) == log[|log| - n..]
    ensures n >= |log| ==> Query(log, Latest(Some(n))) == log
  {
    assert log[0..|log|] == log;
  }

  /** `next()` on a `limit: 3` iterator yields the third-newest, the
      second-newest and the newest entry, then `null`. */
  lemma {:induction false} NextYieldsOldestFirst(log: seq<Entry>)
    requires |log| >= 3
    ensures Yields(Open(log, Latest(Some(3))), 4)
      == [Some(log[|log| - 3]), Some(log[|log| - 2]), Some(log[|log| - 1]), None]
  {
    PositiveLimitYieldsNewest(log, 3);
    var c := Open(log, Latest(Some(3)));
    assert c.pending == log[|log| - 3..];
    YieldsThree(c);
  }

  /** Four `next()` calls on a cursor holding three entries. */
  lemma {:induction false} YieldsThree(c: Cursor)
    requires |c.pending| == 3
    ensures Yields(c, 4) == [Some(c.pending[0]), Some(c.pending[1]), Some(c.pending[2]), None]
  {
    var y := Yields(c, 4);
    assert y[0] == Some(c.pending[0]) && y[1] == Some(c.pending[1]);
    assert y[2] == Some(c.pending[2]) && y[3] == None;
  }

  /** `Query` in terms of the window and the kept count. */
  lemma {:induction false} QueryUnfold(log: seq<Entry>, opts: Options)
    ensures var w := Window(log, opts.lower, opts.upper);
      Query(log, opts) == w[|w| - KeepCount(opts.limit, |w|)..]
  {
  }

  /** For any bounds, a positive limit `n` keeps the `n` newest entries of
      the unlimited result, or all of them when there are fewer. */
  lemma {:induction false} PositiveLimitCapsRange(log: seq<Entry>, lower: Bound, upper: Bound, n: int)
    requires n > 0
    ensures var all := Query(log, Options(Some(-1), lower, upper));
      Query(log, Options(Some(n), lower, upper)) == all[|all| - (if n < |all| then n else |all|)..]
  {
    var w := Window(log, lower, upper);
    QueryUnfold(log, Options(Some(-1), lower, upper));
    QueryUnfold(log, Options(Some(n), lower, upper));
    assert KeepCount(Some(-1), |w|) == |w|;
    assert w[|w| - |w|..] == w;
    assert Query(log, Options(Some(-1), lower, upper)) == w;
  }

  /** For any bounds, every negative limit gives the same result as `-1`. */
  lemma {:induction false} NegativeLimitsAgree(log: seq<Entry>, lower: Bound, upper: Bound, n: int)
    requires n < 0
    ensures Query(log, Options(Some(n), lower, upper)) == Query(log, Options(Some(-1), lower, upper))
  {
    QueryUnfold(log, Options(Some(-1), lower, upper));
    QueryUnfold(log, Options(Some(n), lower, upper));
  }

  /** For any bounds, an absent limit and `limit: 0` both behave as `limit: 1`. */
  lemma {:induction false} DefaultLimitsAgree(log: seq<Entry>, lower: Bound, upper: Bound)
    ensures Query(log, Options(None, lower, upper)) == Query(log, Options(Some(1), lower, upper))
    ensures Query(log, Options(Some(0), lower, upper)) == Query(log, Options(Some(1), lower, upper))
  {
    SameKeepSameQuery(log, lower, upper, None, Some(1));
    SameKeepSameQuery(log, lower, upper, Some(0), Some(1));
  }

  /** Two limits that keep the same count of every window give the same
      result for any bounds. */
  lemma {:induction false} SameKeepSameQuery(log: seq<Entry>, lower: Bound, upper: Bound, a: Option<int>, b: Option<int>)
    requires forall size: nat :: KeepCount(a, size) == KeepCount(b, size)
    ensures Query(log, Options(a, lower, upper)) == Query(log, Options(b, lower, upper))
  {
    QueryUnfold(log, Options(a, lower, upper));
    QueryUnfold(log, Options(b, lower, upper));
  }

  /** With no limit, `gte: h` yields everything from `h`'s entry on. */
  lemma {:induction false} InclusiveLowerCutsFrom(log: seq<Entry>, i: nat, n: int)
    requires Valid(log) && i < |log| && n < 0
    ensures Query(log, Options(Some(n), Inclusive(log[i].hash), Unbounded)) == log[i..]
  {
    IndexOfOwnHash(log, i);
    QueryOfBounds(log, Options(Some(n), Inclusive(log[i].hash), Unbounded), i, |log|);
  }

  /** With no limit, `gt: h` yields everything after `h`'s entry. */
  lemma {:induction false} ExclusiveLowerCutsAfter(log: seq<Entry>, i: nat, n: int)
    requires Valid(log) && i < |log| && n < 0
    ensures Query(log, Options(Some(n), Exclusive(log[i].hash), Unbounded)) == log[i + 1..]
  {
    IndexOfOwnHash(log, i);
    QueryOfBounds(log, Options(Some(n), Exclusive(log[i].hash), Unbounded), i + 1, |log|);
  }

  /** With no limit, `lt: h` yields everything before `h`'s entry. */
  lemma {:induction false} ExclusiveUpperCutsBefore(log: seq<Entry>, i: nat, n: int)
    requires Valid(log) && i < |log| && n < 0
    ensures Query(log, Options(Some(n), Unbounded, Exclusive(log[i].hash))) == log[..i]
  {
    IndexOfOwnHash(log, i);
    QueryOfBounds(log, Options(Some(n), Unbounded, Exclusive(log[i].hash)), 0, i);
  }

  /** With no limit, `lte: h` yields everything up to and including `h`'s entry. */
  lemma {:induction false} InclusiveUpperCutsThrough(log: seq<Entry>, i: nat, n: int)
    requires Valid(log) && i < |log| && n < 0
    ensures Query(log, Options(Some(n), Unbounded, Inclusive(log[i].hash))) == log[..i + 1]
  {
    IndexOfOwnHash(log, i);
    QueryOfBounds(log, Options(Some(n), Unbounded, Inclusive(log[i].hash)), 0, i + 1);
  }

  /** `gte: head` with `limit: -1` yields the head alone. */
  lemma {:induction false} GteHeadIsHead(log: seq<Entry>)
    requires Valid(log) && |log| > 0
    ensures Query(log, Options(Some(-1), Inclusive(log[|log| - 1].hash), Unbounded)) == [log[|log| - 1]]
  {
    IndexOfOwnHash(log, |log| - 1);
    QueryOfBounds(log, Options(Some(-1), Inclusive(log[|log| - 1].hash), Unbounded), |log| - 1, |log|);
  }

  /** `gt: head` with the default limit yields nothing. */
  lemma {:induction false} GtHeadIsEmpty(log: seq<Entry>)
    requires Valid(log) && |log| > 0
    ensures Query(log, Options(None, Exclusive(log[|log| - 1].hash), Unbounded)) == []
  {
    IndexOfOwnHash(log, |log| - 1);
    QueryOfBounds(log, Options(None, Exclusive(log[|log| - 1].hash), Unbounded), |log|, |log|);
  }

  /** `gte: root` with `limit: -1` yields every entry, root first. */
  lemma {:induction false} GteRootIsAll(log: seq<Entry>)
    requires Valid(log) && |log| > 0
    ensures Query(log, Options(Some(-1), Inclusive(log[0].hash), Unbounded)) == log
  {
    IndexOfOwnHash(log, 0);
    QueryOfBounds(log, Options(Some(-1), Inclusive(log[0].hash), Unbounded), 0, |log|);
    assert log[0..|log|] == log;
  }

  /** `gt: root` with `limit: -1` yields every entry but the root. */
  lemma {:induction false} GtRootSkipsRoot(log: seq<Entry>)
    requires Valid(log) && |log| > 0
    ensures Query(log, Options(Some(-1), Exclusive(log[0].hash), Unbounded)) == log[1..]
  {
    IndexOfOwnHash(log, 0);
    QueryOfBounds(log, Options(Some(-1), Exclusive(log[0].hash), Unbounded), 1, |log|);
  }

  /** `gt` at any entry, with a positive limit that covers the rest of the
      log, yields every later entry in append order. */
  lemma {:induction false} ExclusiveLowerWithCoveringLimit(log: seq<Entry>, i: nat, n: int)
    requires Valid(log) && i < |log|
    requires n > 0 && n >= |log| - i - 1
    ensures Query(log, Options(Some(n), Exclusive(log[i].hash), Unbounded)) == log[i + 1..]
  {
    IndexOfOwnHash(log, i);
    QueryOfBounds(log, Options(Some(n), Exclusive(log[i].hash), Unbounded), i + 1, |log|);
  }

  /** `lt: head` with the default limit yields the entry just before the head. */
  lemma {:induction false} LtHeadIsPrevious(log: seq<Entry>)
    requires Valid(log) && |log| >= 2
    ensures Query(log, Options(None, Unbounded, Exclusive(log[|log| - 1].hash))) == [log[|log| - 2]]
  {
    IndexOfOwnHash(log, |log| - 1);
    QueryOfBounds(log, Options(None, Unbounded, Exclusive(log[|log| - 1].hash)), 0, |log| - 1);
  }

  /** `lt: head` with `limit: -1` yields everything before the head, root first. */
  lemma {:induction false} LtHeadIsAllButHead(log: seq<Entry>)
    requires Valid(log) && |log| > 0
    ensures Query(log, Options(Some(-1), Unbounded, Exclusive(log[|log| - 1].hash))) == log[..|log| - 1]
  {
    ExclusiveUpperCutsBefore(log, |log| - 1, -1);
  }

  /** `lt: head` with `limit: 3` yields the three entries before the head,
      oldest first. */
  lemma {:induction false} LtHeadLimitThree(log: seq<Entry>)
    requires Valid(log) && |log| >= 4
    ensures Query(log, Options(Some(3), Unbounded, Exclusive(log[|log| - 1].hash))) == log[|log| - 4..|log| - 1]
  {
    IndexOfOwnHash(log, |log| - 1);
    QueryOfBounds(log, Options(Some(3), Unbounded, Exclusive(log[|log| - 1].hash)), 0, |log| - 1);
  }

  /** `lt: root` with the default limit yields nothing. */
  lemma {:induction false} LtRootIsEmpty(log: seq<Entry>)
    requires Valid(log) && |log| > 0
    ensures Query(log, Options(None, Unbounded, Exclusive(log[0].hash))) == []
  {
    IndexOfOwnHash(log, 0);
    QueryOfBounds(log, Options(None, Unbounded, Exclusive(log[0].hash)), 0, 0);
  }

  /** `lte: root` with the default limit yields the root alone. */
  lemma {:induction false} LteRootIsRoot(log: seq<Entry>)
    requires Valid(log) && |log| > 0
    ensures Query(log, Options(None, Unbounded, Inclusive(log[0].hash))) == [log[0]]
  {
    IndexOfOwnHash(log, 0);
    QueryOfBounds(log, Options(None, Unbounded, Inclusive(log[0].hash)), 0, 1);
  }

  /** `lte: head` with `limit: -1` yields every entry, root first. */
  lemma {:induction false} LteHeadIsAll(log: seq<Entry>)
    requires Valid(log) && |log| > 0
    ensures Query(log, Options(Some(-1), Unbounded, Inclusive(log[|log| - 1].hash))) == log
  {
    IndexOfOwnHash(log, |log| - 1);
    QueryOfBounds(log, Options(Some(-1), Unbounded, Inclusive(log[|log| - 1].hash)), 0, |log|);
    assert log[0..|log|] == log;
  }

  /** `lte: head` with `limit: 3` yields the three newest entries, oldest first. */
  lemma {:induction false} LteHeadLimitThree(log: seq<Entry>)
    requires Valid(log) && |log| >= 3
    ensures Query(log, Options(Some(3), Unbounded, Inclusive(log[|log| - 1].hash))) == log[|log| - 3..]
  {
    IndexOfOwnHash(log, |log| - 1);
    QueryOfBounds(log, Options(Some(3), Unbounded, Inclusive(log[|log| - 1].hash)), 0, |log|);
    assert log[|log| - 3..|log|] == log[|log| - 3..];
  }

  /** `add` returns the hash of the entry that a full read now ends with;
      the log grows by one, the earlier entries are read as before, and the
      new hash differs from the newest hash read before the `add`. */
  lemma {:induction false} AddShowsUpNewest(log: seq<Entry>, value: string)
    requires Valid(log)
    ensures var a := Add(log, value);
      var all := Query(a.log, Latest(Some(-1)));
      && |all| == |log| + 1
      && all[..|log|] == log
      && all[|log|].hash == a.hash
      && all[|log|].payload.value == value
      && (|log| > 0 ==> Query(log, Latest(None))[0].hash != a.hash)
  {
    var a := Add(log, value);
    NegativeLimitYieldsAll(a.log, -1);
    if |log| > 0 {
      DefaultLimitYieldsNewest(log, None);
    }
  }

  /** Adding values one after another to a fresh log: the values and the
      returned hashes are those of the log's entries, in order. */
  lemma {:induction false} AddedToFreshLog(values: seq<string>, log: seq<Entry>, hashes: seq<Hash>)
    requires AddedInOrder([], values, log, hashes)
    ensures Values(log) == values && Hashes(log) == hashes
  {
    forall k | 0 <= k < |values|
      ensures Values(log)[k] == values[k] && Hashes(log)[k] == hashes[k]
    {
      assert log[0 + k] == log[k];
    }
  }

  /** Adding values one after another and reading with `limit: -1` returns
      them in append order. */
  lemma {:induction false} AddsReadBackInOrder(values: seq<string>)
    ensures var (log, hashes) := AddAll([], values);
      Values(Query(log, Latest(Some(-1)))) == values
  {
    var r := AddAll([], values);
    AddedToFreshLog(values, r.0, r.1);
    NegativeLimitYieldsAll(r.0, -1);
  }

  /** The hashes a series of `add` calls returns are the hashes a full read
      yields, in the same order, and they are pairwise distinct. */
  lemma {:induction false} AddedHashesAreReadHashes(values: seq<string>)
    ensures var (log, hashes) := AddAll([], values);
      var all := Query(log, Latest(Some(-1)));
      Hashes(all) == hashes && DistinctHashes(all)
  {
    var r := AddAll([], values);
    AddedToFreshLog(values, r.0, r.1);
    NegativeLimitYieldsAll(r.0, -1);
    ValidHashesDistinct(r.0);
  }
}
