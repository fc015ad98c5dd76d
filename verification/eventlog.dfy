/** The single-writer event log: an append-only chain of content-addressed
    entries. `Add` is the only way the log grows. */
module EventLog {
  import opened Wrappers

  /** The operation an event log stores for every `add`. */
  const AddOp := "ADD"

  /** The payload of an entry. An event log writes `{op: 'ADD', key: null, value}`. */
  datatype Payload = Payload(op: string, key: Option<string>, value: string)

  /** A content identifier. It is built from the whole hashed content of an
      entry (logical time, payload and parent hashes), so it is injective:
      two entries share a hash only when their content is equal. */
  datatype Hash = Cid(time: nat, payload: Payload, next: seq<Hash>)

  /** One entry of the log: its hash, payload, parent hashes and clock time. */
  datatype Entry = Entry(hash: Hash, payload: Payload, next: seq<Hash>, time: nat)

  /** The result of `add`: the grown log and the hash handed back to the caller. */
  datatype Appended = Appended(log: seq<Entry>, hash: Hash)

  /** The current heads of a linear log: the newest entry, if any. */
  function Heads(log: seq<Entry>): seq<Hash> {
    if |log| == 0 then [] else [log[|log| - 1].hash]
  }

  /** The entry `add(value)` creates on top of `log`: it references the
      current heads and its clock is one past the newest entry's. */
  function NewEntry(log: seq<Entry>, value: string): Entry {
    var p := Payload(AddOp, None, value);
    var next := Heads(log);
    Entry(Cid(|log|, p, next), p, next, |log|)
  }

  /** The log invariant: every entry is one `add` built. Entry `i` has
      clock `i`, an `ADD` payload without key, and a hash computed from its
      content; the root has no parent and every later entry's parent is the
      entry before it. */
  predicate Valid(log: seq<Entry>) {
    && (forall i :: 0 <= i < |log| ==>
          && log[i].time == i
          && log[i].hash == Cid(i, log[i].payload, log[i].next)
          && log[i].payload.op == AddOp && log[i].payload.key == None)
    && (|log| > 0 ==> log[0].next == [])
    && (forall i, j {:trigger log[i].hash, log[j].next} ::
          0 <= i < |log| && 0 <= j < |log| && j == i + 1 ==> log[j].next == [log[i].hash])
  }

  /** All hashes of a log are pairwise distinct. */
  predicate DistinctHashes(log: seq<Entry>) {
    forall i, j :: 0 <= i < |log| && 0 <= j < |log| && i != j ==> log[i].hash != log[j].hash
  }

  /** The hashes of a log, oldest first. */
  function Hashes(log: seq<Entry>): (r: seq<Hash>)
    ensures |r| == |log|
    ensures forall i :: 0 <= i < |log| ==> r[i] == log[i].hash
  {
    seq(|log|, i requires 0 <= i < |log| => log[i].hash)
  }

  /** The payload values of a log, oldest first. */
  function Values(log: seq<Entry>): (r: seq<string>)
    ensures |r| == |log|
    ensures forall i :: 0 <= i < |log| ==> r[i] == log[i].payload.value
  {
    seq(|log|, i requires 0 <= i < |log| => log[i].payload.value)
  }

  /** In a valid log the clock of entry `i` is `i`, and so is the time
      recorded in its hash; the hashes are therefore pairwise distinct. */
  lemma ValidHashesDistinct(log: seq<Entry>)
    requires Valid(log)
    ensures forall i :: 0 <= i < |log| ==> log[i].time == i && log[i].hash.time == i
    ensures DistinctHashes(log)
  {
  }

  /** `add(value)`: append one new entry and return its hash. The old log
      is kept unchanged as a prefix; the new entry is the newest one, it
      carries `value` and its hash differs from every earlier hash. */
  function Add(log: seq<Entry>, value: string): (r: Appended)
    ensures |r.log| == |log| + 1 && r.log[..|log|] == log
    ensures r.log[|log|].hash == r.hash
    ensures r.log[|log|].payload == Payload(AddOp, None, value)
    ensures |log| > 0 ==> r.log[|log|].next == [log[|log| - 1].hash]
    ensures Valid(log) ==> Valid(r.log)
    ensures Valid(log) ==> forall i :: 0 <= i < |log| ==> log[i].hash != r.hash
  {
    var e := NewEntry(log, value);
    var grown := log + [e];
    assert grown[..|log|] == log;
    NewEntryKeepsValid(log, value);
    Appended(grown, e.hash)
  }

  /** Appending the entry `add` builds keeps the log invariant, and the new
      hash is fresh. */
  lemma NewEntryKeepsValid(log: seq<Entry>, value: string)
    ensures Valid(log) ==> Valid(log + [NewEntry(log, value)])
    ensures Valid(log) ==> forall i :: 0 <= i < |log| ==> log[i].hash != NewEntry(log, value).hash
  {
    var e := NewEntry(log, value);
    var grown := log + [e];
    if Valid(log) {
      forall i, j | 0 <= i < |grown| && 0 <= j < |grown| && j == i + 1
        ensures grown[j].next == [grown[i].hash]
      {
        if j < |log| {
          assert grown[j] == log[j] && grown[i] == log[i];
        }
      }
    }
  }

  /** A series of `add` calls, one per value, in order (`mapSeries` over
      `db.add`). Returns the grown log and the hashes handed back. The k-th
      returned hash names the k-th new entry, which carries the k-th value. */
  function AddAll(log: seq<Entry>, values: seq<string>): (r: (seq<Entry>, seq<Hash>))
    ensures AddedInOrder(log, values, r.0, r.1)
    ensures Valid(log) ==> Valid(r.0)
    decreases |values|
  {
    if |values| == 0 then
      assert log[..|log|] == log;
      (log, [])
    else
      var a := Add(log, values[0]);
      var rest := AddAll(a.log, values[1..]);
      AddedInOrderCons(log, values, a.log, a.hash, rest.0, rest.1);
      (rest.0, [a.hash] + rest.1)
  }

  /** `grown` extends `log` by one entry per value, in order, and `hashes`
      names those new entries. */
  ghost predicate AddedInOrder(log: seq<Entry>, values: seq<string>, grown: seq<Entry>, hashes: seq<Hash>) {
    && |grown| == |log| + |values| && grown[..|log|] == log
    && |hashes| == |values|
    && forall k :: 0 <= k < |values| ==>
         grown[|log| + k].payload.value == values[k] && grown[|log| + k].hash == hashes[k]
  }

  /** One `add` followed by the rest of the series is the whole series. */
  lemma AddedInOrderCons(log: seq<Entry>, values: seq<string>, mid: seq<Entry>, h: Hash, grown: seq<Entry>, hashes: seq<Hash>)
    requires |values| > 0
    requires |mid| == |log| + 1 && mid[..|log|] == log
    requires mid[|log|].payload.value == values[0] && mid[|log|].hash == h
    requires AddedInOrder(mid, values[1..], grown, hashes)
    ensures AddedInOrder(log, values, grown, [h] + hashes)
  {
    assert grown[..|log|] == mid[..|mid|][..|log|];
    assert grown[|log|] == mid[|log|] by {
      assert grown[..|mid|][|log|] == mid[|log|];
    }
    forall k | 1 <= k < |values|
      ensures grown[|log| + k].payload.value == values[k] && grown[|log| + k].hash == ([h] + hashes)[k]
    {
      assert |log| + k == |mid| + (k - 1);
      assert values[1..][k - 1] == values[k];
    }
  }
}
