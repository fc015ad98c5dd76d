/** Reading an event log: `iterator({limit, gt, gte, lt, lte})`, its
    `next()` and `collect()`. Results are presented oldest first. */
module LogQuery {
  import opened Wrappers
  import opened EventLog

  /** One end of a range: absent, exclusive (`gt`/`lt`) or inclusive
      (`gte`/`lte`). At most one of `gt`/`gte` and one of `lt`/`lte` can be
      given, which this type makes structural. */
  datatype Bound = Unbounded | Exclusive(hash: Hash) | Inclusive(hash: Hash)

  /** The iterator options. `limit` absent is JavaScript `undefined`. */
  datatype Options = Options(limit: Option<int>, lower: Bound, upper: Bound)

  /** The position of the first entry whose hash is `h`, if there is one. */
  function IndexOf(log: seq<Entry>, h: Hash): (r: Option<nat>)
    ensures r.Some? ==> r.value < |log| && log[r.value].hash == h
    ensures r.Some? ==> forall j :: 0 <= j < r.value ==> log[j].hash != h
    ensures r.None? ==> forall j :: 0 <= j < |log| ==> log[j].hash != h
  {
    if |log| == 0 then None
    else if log[0].hash == h then Some(0)
    else match IndexOf(log[1..], h)
      case None => None
      case Some(k) => Some(k + 1)
  }

  /** In a log with distinct hashes, looking up the hash of entry `i` finds `i`. */
  lemma IndexOfOwnHash(log: seq<Entry>, i: nat)
    requires Valid(log) && i < |log|
    ensures IndexOf(log, log[i].hash) == Some(i)
  {
    ValidHashesDistinct(log);
  }

  /** First position of the window a lower bound admits; `None` when the
      bound names a hash that is not in the log. */
  function LowerIndex(log: seq<Entry>, b: Bound): (r: Option<nat>)
    ensures r.Some? ==> r.value <= |log|
    ensures b.Unbounded? ==> r == Some(0)
    ensures b.Inclusive? && r.Some? ==> r.value < |log| && log[r.value].hash == b.hash
    ensures b.Exclusive? && r.Some? ==> 0 < r.value && log[r.value - 1].hash == b.hash
    ensures r.None? <==> !b.Unbounded? && IndexOf(log, b.hash).None?
  {
    match b
    case Unbounded => Some(0)
    case Inclusive(h) => IndexOf(log, h)
    case Exclusive(h) =>
      match IndexOf(log, h)
      case Some(i) => Some(i + 1)
      case None => None
  }

  /** One past the last position of the window an upper bound admits;
      `None` when the bound names a hash that is not in the log. */
  function UpperIndex(log: seq<Entry>, b: Bound): (r: Option<nat>)
    ensures r.Some? ==> r.value <= |log|
    ensures b.Unbounded? ==> r == Some(|log|)
    ensures b.Exclusive? && r.Some? ==> r.value < |log| && log[r.value].hash == b.hash
    ensures b.Inclusive? && r.Some? ==> 0 < r.value && log[r.value - 1].hash == b.hash
    ensures r.None? <==> !b.Unbounded? && IndexOf(log, b.hash).None?
  {
    match b
    case Unbounded => Some(|log|)
    case Exclusive(h) => IndexOf(log, h)
    case Inclusive(h) =>
      match IndexOf(log, h)
      case Some(i) => Some(i + 1)
      case None => None
  }

  /** The contiguous run of the log the range bounds admit, oldest first. */
  function Window(log: seq<Entry>, lower: Bound, upper: Bound): (r: seq<Entry>)
    ensures IsRun(log, r)
  {
    match (LowerIndex(log, lower), UpperIndex(log, upper))
    case (Some(lo), Some(hi)) =>
      if lo <= hi then log[lo..hi] else assert log[0..0] == []; []
    case _ => assert log[0..0] == []; []
  }

  /** In a valid log, the windows cut at entry `i` by each kind of bound:
      `gte` starts at it, `gt` just after it, `lt` ends before it and
      `lte` ends with it. */
  lemma WindowOfEntry(log: seq<Entry>, i: nat)
    requires Valid(log) && i < |log|
    ensures Window(log, Inclusive(log[i].hash), Unbounded) == log[i..]
    ensures Window(log, Exclusive(log[i].hash), Unbounded) == log[i + 1..]
    ensures Window(log, Unbounded, Exclusive(log[i].hash)) == log[..i]
    ensures Window(log, Unbounded, Inclusive(log[i].hash)) == log[..i + 1]
  {
    var h := log[i].hash;
    IndexOfOwnHash(log, i);
    assert LowerIndex(log, Inclusive(h)) == Some(i) && LowerIndex(log, Exclusive(h)) == Some(i + 1);
    assert UpperIndex(log, Exclusive(h)) == Some(i) && UpperIndex(log, Inclusive(h)) == Some(i + 1);
    assert log[i..|log|] == log[i..] && log[i + 1..|log|] == log[i + 1..];
    assert log[0..i] == log[..i] && log[0..i + 1] == log[..i + 1];
  }

  /** `r` is a contiguous run of `log`. */
  ghost predicate IsRun(log: seq<Entry>, r: seq<Entry>) {
    exists lo, hi :: 0 <= lo <= hi <= |log| && r == log[lo..hi]
  }

  /** A suffix of a run of the log is a run of the log. */
  lemma RunSuffix(log: seq<Entry>, w: seq<Entry>, k: nat)
    requires IsRun(log, w) && k <= |w|
    ensures IsRun(log, w[|w| - k..])
  {
    var lo, hi :| 0 <= lo <= hi <= |log| && w == log[lo..hi];
    assert w[|w| - k..] == log[hi - k..hi];
  }

  /** How many of the newest window entries a limit keeps: absent or 0
      keeps one, a negative limit keeps all, a positive one keeps at most
      that many. */
  function KeepCount(limit: Option<int>, size: nat): (r: nat)
    ensures r <= size
    ensures size > 0 ==> r > 0
  {
    match limit
    case None => if size == 0 then 0 else 1
    case Some(n) =>
      if n == 0 then (if size == 0 then 0 else 1)
      else if n < 0 then size
      else if n < size then n
      else size
  }

  /** `iterator(opts).collect()`: the newest entries of the window, as many
      as the limit keeps, oldest first. The result is always a contiguous
      run of the log. */
  function Query(log: seq<Entry>, opts: Options): (r: seq<Entry>)
    ensures |r| <= |log|
    ensures IsRun(log, r)
  {
    var w := Window(log, opts.lower, opts.upper);
    var k := KeepCount(opts.limit, |w|);
    RunSuffix(log, w, k);
    w[|w| - k..]
  }


  /** `Query` once the bounds have been resolved to positions `lo..hi`:
      the `KeepCount` newest entries of `log[lo..hi]`. */
  lemma QueryOfBounds(log: seq<Entry>, opts: Options, lo: nat, hi: nat)
    requires LowerIndex(log, opts.lower) == Some(lo)
    requires UpperIndex(log, opts.upper) == Some(hi)
    requires lo <= hi
    ensures hi <= |log|
    ensures Query(log, opts) == log[hi - KeepCount(opts.limit, hi - lo)..hi]
  {
    var w := log[lo..hi];
    assert Window(log, opts.lower, opts.upper) == w;
    assert w[|w| - KeepCount(opts.limit, |w|)..] == log[hi - KeepCount(opts.limit, hi - lo)..hi];
  }

  /** The sequential search behind a range bound: scan the log oldest
      first for the entry named `h`. */
  method FindIndex(log: seq<Entry>, h: Hash) returns (r: Option<nat>)
    ensures r == IndexOf(log, h)
  {
    var i := 0;
    while i < |log|
      invariant 0 <= i <= |log|
      invariant forall j :: 0 <= j < i ==> log[j].hash != h
    {
      if log[i].hash == h {
        return Some(i);
      }
      i := i + 1;
    }
    return None;
  }

  /** Resolve a lower bound by searching the log. */
  method FindLower(log: seq<Entry>, b: Bound) returns (r: Option<nat>)
    ensures r == LowerIndex(log, b)
  {
    match b {
      case Unbounded => r := Some(0);
      case Inclusive(h) => r := FindIndex(log, h);
      case Exclusive(h) =>
        var i := FindIndex(log, h);
        r := if i.Some? then Some(i.value + 1) else None;
    }
  }

  /** Resolve an upper bound by searching the log. */
  method FindUpper(log: seq<Entry>, b: Bound) returns (r: Option<nat>)
    ensures r == UpperIndex(log, b)
  {
    match b {
      case Unbounded => r := Some(|log|);
      case Exclusive(h) => r := FindIndex(log, h);
      case Inclusive(h) =>
        var i := FindIndex(log, h);
        r := if i.Some? then Some(i.value + 1) else None;
    }
  }

  /** The traversal behind `iterator(opts)`: start at the upper bound (or
      the head), walk towards the root, stop at the lower bound or when the
      limit is used up, and present what was collected oldest first. It
      computes exactly `Query`. */
  method Traverse(log: seq<Entry>, opts: Options) returns (r: seq<Entry>)
    ensures r == Query(log, opts)
  {
    var lower := FindLower(log, opts.lower);
    var upper := FindUpper(log, opts.upper);
    if lower.None? || upper.None? || lower.value > upper.value {
      EmptyWindow(log, opts);
      return [];
    }
    var lo, hi := lower.value, upper.value;
    var budget := Budget(opts.limit);
    r := [];
    var i := hi;
    while lo < i && (budget < 0 || |r| < budget)
      invariant lo <= i <= hi
      invariant r == log[i..hi]
      invariant budget >= 0 ==> |r| <= budget
      decreases i
    {
      i := i - 1;
      r := [log[i]] + r;
    }
    WalkKeepsNewest(log, lo, hi, i, opts.limit);
    QueryOfBounds(log, opts, lo, hi);
  }

  /** The walk's budget: absent or 0 allows one entry; a negative budget
      means no limit. */
  function Budget(limit: Option<int>): int {
    match limit
    case None => 1
    case Some(n) => if n == 0 then 1 else n
  }

  /** A bound that names a missing hash, or bounds that cross, admit nothing. */
  lemma EmptyWindow(log: seq<Entry>, opts: Options)
    requires var lo, hi := LowerIndex(log, opts.lower), UpperIndex(log, opts.upper);
      lo.None? || hi.None? || lo.value > hi.value
    ensures Query(log, opts) == []
  {
  }

  /** Where the walk stops: it took the `KeepCount` newest entries of the
      window `log[lo..hi]`. */
  lemma WalkKeepsNewest(log: seq<Entry>, lo: nat, hi: nat, i: nat, limit: Option<int>)
    requires lo <= i <= hi <= |log|
    requires !(lo < i && (Budget(limit) < 0 || hi - i < Budget(limit)))
    requires Budget(limit) >= 0 ==> hi - i <= Budget(limit)
    ensures hi - i == KeepCount(limit, hi - lo)
  {
  }
  /** A live iterator over a snapshot taken when it was created: the
      entries still to be yielded, oldest first. */
  datatype Cursor = Cursor(pending: seq<Entry>)

  /** `db.iterator(opts)`: the cursor holds the entries selected when it
      is opened. It is a value, so appends made afterwards do not reach it.
      Its first `next()` has a value exactly when `collect()` would return
      something, and iterating it to the end yields what `collect()` does. */
  function Open(log: seq<Entry>, opts: Options): (r: Cursor)
    ensures Step(r).0.Some? <==> Query(log, opts) != []
    ensures Drain(r) == Query(log, opts)
  {
    Cursor(Query(log, opts))
  }

  /** `iterator.next()`: the next entry and the advanced cursor, or `None`
      (a `null` value) once the iterator is exhausted. Nothing is lost or
      reordered: the yielded entry followed by the rest is what was pending. */
  function Step(c: Cursor): (r: (Option<Entry>, Cursor))
    ensures r.0.None? <==> c.pending == []
    ensures r.0.None? ==> r.1 == c
    ensures r.0.Some? ==> [r.0.value] + r.1.pending == c.pending
  {
    if c.pending == [] then (None, c)
    else (Some(c.pending[0]), Cursor(c.pending[1..]))
  }

  /** A `for ... of` loop over the iterator: call `next()` until it is
      exhausted. It yields exactly what `collect()` would have returned. */
  function Drain(c: Cursor): (r: seq<Entry>)
    ensures r == c.pending
    decreases |c.pending|
  {
    var (e, rest) := Step(c);
    if e.None? then [] else [e.value] + Drain(rest)
  }

  /** The values of `n` successive `next()` calls: the pending entries in
      order, then `null` for every call past the end. */
  function Yields(c: Cursor, n: nat): (r: seq<Option<Entry>>)
    ensures |r| == n
    ensures forall k :: 0 <= k < n ==> r[k] == if k < |c.pending| then Some(c.pending[k]) else None
    decreases n
  {
    if n == 0 then []
    else
      var (e, rest) := Step(c);
      [e] + Yields(rest, n - 1)
  }
}
