/**
 * The bounded fixed-window counter that stands in when Redis is down: its memory bound, its agreement
 * with an unbounded counter, and how many calls it lets through.
 */
module RateLimit {
  import opened Wrappers

  type Millis = int

  /** Entries of the map in insertion order, oldest first. */
  datatype Entry = Entry(key: string, count: nat, resetAt: Millis)

  type Entries = seq<Entry>

  datatype Answer = Answer(count: nat, retryAfterSeconds: int)

  predicate Distinct(entries: Entries) {
    forall i, j :: 0 <= i < j < |entries| ==> entries[i].key != entries[j].key
  }

  function IndexOf(entries: Entries, key: string): (r: Option<nat>)
    ensures r.Some? ==> r.value < |entries| && entries[r.value].key == key
    ensures r.None? ==> forall i :: 0 <= i < |entries| ==> entries[i].key != key
  {
    if entries == [] then None
    else if entries[0].key == key then Some(0)
    else match IndexOf(entries[1..], key)
      case None => None
      case Some(i) => Some(i + 1)
  }

  function Without(entries: Entries, key: string): (r: Entries)
    ensures |r| <= |entries|
  {
    if entries == [] then []
    else if entries[0].key == key then Without(entries[1..], key)
    else [entries[0]] + Without(entries[1..], key)
  }

  function Unexpired(entries: Entries, now: Millis): (r: Entries)
    ensures |r| <= |entries|
  {
    if entries == [] then []
    else if entries[0].resetAt <= now then Unexpired(entries[1..], now)
    else [entries[0]] + Unexpired(entries[1..], now)
  }

  lemma {:induction false} WithoutKeeps(entries: Entries, key: string)
    ensures forall e :: e in Without(entries, key) <==> e in entries && e.key != key
    ensures Distinct(entries) ==> Distinct(Without(entries, key))
  {
    if entries != [] {
      WithoutKeeps(entries[1..], key);
      HeadAndRest(entries);
    }
  }

  lemma {:induction false} UnexpiredKeeps(entries: Entries, now: Millis)
    ensures forall e :: e in Unexpired(entries, now) <==> e in entries && e.resetAt > now
    ensures Distinct(entries) ==> Distinct(Unexpired(entries, now))
  {
    if entries != [] {
      UnexpiredKeeps(entries[1..], now);
      HeadAndRest(entries);
    }
  }

  lemma HeadAndRest(entries: Entries)
    requires entries != []
    ensures forall e :: e in entries <==> e == entries[0] || e in entries[1..]
    ensures Distinct(entries) <==> Distinct(entries[1..]) && forall e :: e in entries[1..] ==> e.key != entries[0].key
  {
    var rest := entries[1..];
    assert entries == [entries[0]] + rest;
    if Distinct(entries) {
      forall e | e in rest
        ensures e.key != entries[0].key
      {
        var i :| 0 <= i < |rest| && rest[i] == e;
        assert entries[i + 1] == e;
      }
    }
  }

  /** What is left of a table when a key and everything expired are gone. */
  lemma OthersKeep(entries: Entries, key: string, now: Millis)
    ensures var others := Unexpired(Without(entries, key), now);
      && (forall e :: e in others <==> e in entries && e.key != key && e.resetAt > now)
      && (Distinct(entries) ==> Distinct(others))
  {
    WithoutKeeps(entries, key);
    UnexpiredKeeps(Without(entries, key), now);
  }

  /** The eviction loop: oldest first, but it stops at an entry whose key is the empty string. */
  function Evicted(entries: Entries, maxKeys: nat): Entries {
    if |entries| < maxKeys || entries == [] || entries[0].key == "" then entries else Evicted(entries[1..], maxKeys)
  }

  /** `Math.ceil(ms / 1000)`. */
  function CeilSeconds(ms: Millis): int {
    (ms + 999) / 1000
  }

  function Max(a: int, b: int): int {
    if a < b then b else a
  }

  predicate LiveAt(entries: Entries, key: string, now: Millis) {
    var i := IndexOf(entries, key);
    i.Some? && entries[i.value].resetAt > now
  }

  function Increment(entries: Entries, maxKeys: nat, key: string, windowSeconds: nat, now: Millis): (Entries, Answer) {
    if LiveAt(entries, key, now) then
      var i := IndexOf(entries, key).value;
      var e := entries[i];
      (entries[i := e.(count := e.count + 1)], Answer(e.count + 1, Max(1, CeilSeconds(e.resetAt - now))))
    else
      (Evicted(Unexpired(Without(entries, key), now), maxKeys) + [Entry(key, 1, now + 1000 * windowSeconds)],
       Answer(1, windowSeconds))
  }

  // ---------------------------------------------------------------------------------------------
  // The class
  // ---------------------------------------------------------------------------------------------

  lemma {:induction false} UnexpiredSnoc(entries: Entries, e: Entry, now: Millis)
    ensures Unexpired(entries + [e], now) == Unexpired(entries, now) + if e.resetAt > now then [e] else []
  {
    if entries != [] {
      assert (entries + [e])[1..] == entries[1..] + [e];
      UnexpiredSnoc(entries[1..], e, now);
    }
  }

  lemma {:induction false} WithoutAbsent(entries: Entries, key: string)
    requires forall i :: 0 <= i < |entries| ==> entries[i].key != key
    ensures Without(entries, key) == entries
  {
    if entries != [] {
      WithoutAbsent(entries[1..], key);
    }
  }

  predicate Absent(entries: Entries, key: string) {
    forall i :: 0 <= i < |entries| ==> entries[i].key != key
  }

  lemma {:induction false} WithoutBetween(front: Entries, e: Entry, back: Entries)
    requires Absent(front, e.key) && Absent(back, e.key)
    ensures Without(front + [e] + back, e.key) == front + back
    decreases |front|
  {
    var all := front + [e] + back;
    if front == [] {
      assert all[1..] == back;
      WithoutAbsent(back, e.key);
      assert front + back == back;
    } else {
      var rest := front[1..];
      assert all[1..] == rest + [e] + back && all[0] == front[0];
      assert Absent(rest, e.key);
      hide Absent, Distinct;
      WithoutBetween(rest, e, back);
      assert front + back == [front[0]] + (rest + back);
    }
  }

  lemma WithoutAt(entries: Entries, i: nat)
    requires Distinct(entries) && i < |entries|
    ensures Without(entries, entries[i].key) == entries[..i] + entries[i + 1..]
  {
    var front, back := entries[..i], entries[i + 1..];
    assert entries == front + [entries[i]] + back;
    WithoutBetween(front, entries[i], back);
  }

  /** The table while expired entries are being removed: `seen` entries have been looked at. */
  function Pruned(entries: Entries, seen: nat, now: Millis): Entries
    requires seen <= |entries|
  {
    Unexpired(entries[..seen], now) + entries[seen..]
  }

  lemma PruneStep(entries: Entries, seen: nat, now: Millis)
    requires seen < |entries|
    ensures var kept := |Unexpired(entries[..seen], now)|; var table := Pruned(entries, seen, now); var e := entries[seen];
      && kept < |table| && table[kept] == e
      && Pruned(entries, seen + 1, now) == (if e.resetAt <= now then table[..kept] + table[kept + 1..] else table)
      && |Unexpired(entries[..seen + 1], now)| == (if e.resetAt <= now then kept else kept + 1)
  {
    hide Unexpired, Distinct;
    assert entries[..seen + 1] == entries[..seen] + [entries[seen]];
    assert entries[seen..] == [entries[seen]] + entries[seen + 1..];
    UnexpiredSnoc(entries[..seen], entries[seen], now);
    DropAt(Unexpired(entries[..seen], now), entries[seen], entries[seen + 1..]);
  }

  lemma DropAt(front: Entries, e: Entry, back: Entries)
    ensures var table := front + ([e] + back); var n := |front|;
      && table[n] == e && table[..n] + table[n + 1..] == front + back
      && (front + [e]) + back == table && (front + []) + back == front + back
  {
  }

  lemma PrunedLength(entries: Entries, seen: nat, now: Millis)
    requires seen <= |entries|
    ensures |Pruned(entries, seen, now)| == |Unexpired(entries[..seen], now)| + |entries| - seen
    ensures seen == |entries| ==> Pruned(entries, seen, now) == Unexpired(entries, now)
  {
    if seen == |entries| {
      assert entries[..seen] == entries;
    }
  }

  class BoundedRateLimitFallback {
    const maxKeys: nat
    var entries: Entries

    predicate Valid()
      reads this
    {
      maxKeys >= 1 && Distinct(entries)
    }

    constructor Unchecked(max: nat)
      requires max >= 1
      ensures Valid() && maxKeys == max && entries == []
    {
      maxKeys := max;
      entries := [];
    }

    /** The constructor's check: anything but a positive number of keys is refused. */
    static method Create(max: int) returns (r: Result<BoundedRateLimitFallback, string>)
      ensures r.Ok? <==> max >= 1
      ensures r.Ok? ==> fresh(r.value) && r.value.Valid() && r.value.maxKeys == max && r.value.entries == []
    {
      if max < 1 {
        return Err("maxKeys must be a positive integer");
      }
      var fallback := new BoundedRateLimitFallback.Unchecked(max);
      return Ok(fallback);
    }

    method Delete(key: string)
      requires Valid()
      modifies this`entries
      ensures Valid() && entries == Without(old(entries), key)
    {
      WithoutKeeps(entries, key);
      var i := IndexOf(entries, key);
      if i.Some? {
        WithoutAt(entries, i.value);
        entries := entries[..i.value] + entries[i.value + 1..];
      } else {
        WithoutAbsent(entries, key);
      }
    }

    method RemoveExpired(now: Millis)
      modifies this`entries
      ensures entries == Unexpired(old(entries), now)
    {
      ghost var before := entries;
      ghost var seen := 0;
      assert entries == Pruned(before, 0, now) && |Unexpired(before[..0], now)| == 0;
      hide *;
      var i := 0;
      while i < |entries|
        invariant seen <= |before| && i == |Unexpired(before[..seen], now)|
        invariant entries == Pruned(before, seen, now)
        decreases |before| - seen
      {
        PrunedLength(before, seen, now);
        PruneStep(before, seen, now);
        if entries[i].resetAt <= now {
          entries := entries[..i] + entries[i + 1..];
        } else {
          i := i + 1;
        }
        seen := seen + 1;
      }
      PrunedLength(before, seen, now);
    }

    method EvictOldest()
      requires Valid()
      modifies this`entries
      ensures Valid() && entries == Evicted(old(entries), maxKeys)
    {
      while |entries| >= maxKeys
        invariant Valid() && Evicted(entries, maxKeys) == Evicted(old(entries), maxKeys)
        decreases |entries|
      {
        var oldestKey := entries[0].key;
        if oldestKey == "" {
          break;
        }
        entries := entries[1..];
      }
    }

    method IncrementKey(key: string, windowSeconds: nat, now: Millis) returns (r: Answer)
      requires Valid()
      modifies this`entries
      ensures Valid() && (entries, r) == Increment(old(entries), maxKeys, key, windowSeconds, now)
    {
      OthersKeep(entries, key, now);
      var existing := IndexOf(entries, key);
      if existing.Some? && entries[existing.value].resetAt > now {
        var e := entries[existing.value];
        entries := entries[existing.value := e.(count := e.count + 1)];
        return Answer(e.count + 1, Max(1, CeilSeconds(e.resetAt - now)));
      }
      if existing.Some? {
        Delete(key);
      } else {
        WithoutAbsent(entries, key);
      }
      RemoveExpired(now);
      EvictOldest();
      EvictedIsPart(Unexpired(Without(old(entries), key), now), maxKeys);
      entries := entries + [Entry(key, 1, now + 1000 * windowSeconds)];
      return Answer(1, windowSeconds);
    }
  }

  lemma {:induction false} EvictedIsPart(entries: Entries, maxKeys: nat)
    ensures |Evicted(entries, maxKeys)| <= |entries|
    ensures forall e :: e in Evicted(entries, maxKeys) ==> e in entries
    ensures Distinct(entries) ==> Distinct(Evicted(entries, maxKeys))
  {
    if !(|entries| < maxKeys || entries == [] || entries[0].key == "") {
      EvictedIsPart(entries[1..], maxKeys);
    }
  }

  // ---------------------------------------------------------------------------------------------
  // The memory bound
  // ---------------------------------------------------------------------------------------------

  /** Eviction makes room unless the empty key shields the rest. */
  lemma {:induction false} EvictionMakesRoom(entries: Entries, maxKeys: nat)
    requires maxKeys >= 1
    ensures |Evicted(entries, maxKeys)| >= maxKeys ==>
              Evicted(entries, maxKeys) != [] && Evicted(entries, maxKeys)[0].key == "" && Evicted(entries, maxKeys)[0] in entries
    ensures |entries| <= maxKeys ==>
              (|Evicted(entries, maxKeys)| >= maxKeys <==> |entries| == maxKeys && entries[0].key == "")
  {
    if !(|entries| < maxKeys || entries == [] || entries[0].key == "") {
      EvictionMakesRoom(entries[1..], maxKeys);
    }
  }

  /**
   * A call keeps a full table within its bound exactly unless the key is new, every entry is live, and
   * the oldest of maxKeys others is filed under the empty string.
   */
  lemma IncrementKeepsBound(entries: Entries, maxKeys: nat, key: string, windowSeconds: nat, now: Millis)
    requires maxKeys >= 1 && |entries| <= maxKeys
    ensures |Increment(entries, maxKeys, key, windowSeconds, now).0| <= maxKeys <==>
      (LiveAt(entries, key, now)
       || !(var others := Unexpired(Without(entries, key), now); |others| == maxKeys && others[0].key == ""))
  {
    EvictionMakesRoom(Unexpired(Without(entries, key), now), maxKeys);
  }

  datatype Call = Call(key: string, windowSeconds: nat, now: Millis) | Delete(key: string)

  function Step(entries: Entries, maxKeys: nat, call: Call): Entries {
    match call
    case Call(key, windowSeconds, now) => Increment(entries, maxKeys, key, windowSeconds, now).0
    case Delete(key) => Without(entries, key)
  }

  function Run(entries: Entries, maxKeys: nat, calls: seq<Call>): Entries
    decreases |calls|
  {
    if calls == [] then entries else Run(Step(entries, maxKeys, calls[0]), maxKeys, calls[1..])
  }

  predicate NoEmptyKey(entries: Entries) {
    forall i :: 0 <= i < |entries| ==> entries[i].key != ""
  }

  lemma StepKeepsBound(entries: Entries, maxKeys: nat, call: Call)
    requires maxKeys >= 1 && |entries| <= maxKeys && NoEmptyKey(entries) && (call.Call? ==> call.key != "")
    ensures |Step(entries, maxKeys, call)| <= maxKeys && NoEmptyKey(Step(entries, maxKeys, call))
  {
    var after := Step(entries, maxKeys, call);
    if call.Call? {
      var others := Unexpired(Without(entries, call.key), call.now);
      OthersKeep(entries, call.key, call.now);
      EvictionMakesRoom(others, maxKeys);
      EvictedIsPart(others, maxKeys);
    } else {
      WithoutKeeps(entries, call.key);
    }
    forall i | 0 <= i < |after|
      ensures after[i].key != ""
    {
      assert after[i] in after;
    }
  }

  /** Over every run of non-empty keys, and all keys the limiter builds are, memory stays bounded. */
  lemma {:induction false} MemoryIsBounded(entries: Entries, maxKeys: nat, calls: seq<Call>)
    requires maxKeys >= 1 && |entries| <= maxKeys && NoEmptyKey(entries)
    requires forall i :: 0 <= i < |calls| && calls[i].Call? ==> calls[i].key != ""
    ensures |Run(entries, maxKeys, calls)| <= maxKeys
    decreases |calls|
  {
    if calls != [] {
      StepKeepsBound(entries, maxKeys, calls[0]);
      MemoryIsBounded(Step(entries, maxKeys, calls[0]), maxKeys, calls[1..]);
    }
  }

  /** A live empty key in front stops all eviction: every new key then makes the table longer. */
  lemma EmptyKeyStopsEviction(entries: Entries, maxKeys: nat, key: string, windowSeconds: nat, now: Millis)
    requires Distinct(entries) && entries != [] && entries[0].key == "" && key != ""
    requires forall i :: 0 <= i < |entries| ==> entries[i].resetAt > now && entries[i].key != key
    ensures var after := Increment(entries, maxKeys, key, windowSeconds, now).0;
      |after| == |entries| + 1 && after[0] == entries[0]
  {
    WithoutAbsent(entries, key);
    AllUnexpired(entries, now);
  }

  lemma {:induction false} AllUnexpired(entries: Entries, now: Millis)
    requires forall i :: 0 <= i < |entries| ==> entries[i].resetAt > now
    ensures Unexpired(entries, now) == entries
  {
    if entries != [] {
      AllUnexpired(entries[1..], now);
    }
  }

  /** The smallest overflow: room for one key, the empty one taken, then any other. */
  lemma EmptyKeyOverflows()
    ensures |Run([], 1, [Call("", 60, 0), Call("a", 60, 0)])| == 2
  {
    var first := Increment([], 1, "", 60, 0).0;
    assert first == [Entry("", 1, 60000)];
    EmptyKeyStopsEviction(first, 1, "a", 60, 0);
    var calls := [Call("", 60, 0), Call("a", 60, 0)];
    assert calls[1..] == [Call("a", 60, 0)] && calls[1..][1..] == [];
    assert Run([], 1, calls) == Run(first, 1, calls[1..]);
  }

  // ---------------------------------------------------------------------------------------------
  // Agreement with an unbounded counter
  // ---------------------------------------------------------------------------------------------

  datatype Window = Window(count: nat, resetAt: Millis)

  /** A fixed-window counter with room for every key. */
  type Counters = map<string, Window>

  function Count(c: Counters, key: string, windowSeconds: nat, now: Millis): Window {
    if key in c && c[key].resetAt > now then Window(c[key].count + 1, c[key].resetAt)
    else Window(1, now + 1000 * windowSeconds)
  }

  function CountStep(c: Counters, call: Call): Counters {
    match call
    case Call(key, windowSeconds, now) => c[key := Count(c, key, windowSeconds, now)]
    case Delete(key) => c - {key}
  }

  function LiveKeys(c: Counters, now: Millis): set<string> {
    set k | k in c && c[k].resetAt > now
  }

  /** The bounded table holds every live window as it is, and nothing the counter does not. */
  ghost predicate Agrees(entries: Entries, c: Counters, now: Millis) {
    && Distinct(entries)
    && (forall e :: e in entries ==> e.key in c && c[e.key] == Window(e.count, e.resetAt))
    && (forall k :: k in LiveKeys(c, now) ==> Entry(k, c[k].count, c[k].resetAt) in entries)
  }

  function Keys(entries: Entries): set<string> {
    set e | e in entries :: e.key
  }

  lemma FirstKeyIsNew(entries: Entries)
    requires Distinct(entries) && entries != []
    ensures Distinct(entries[1..]) && entries[0].key !in Keys(entries[1..])
    ensures Keys(entries) == {entries[0].key} + Keys(entries[1..])
  {
    var rest := entries[1..];
    assert forall i :: 0 <= i < |rest| ==> rest[i] == entries[i + 1];
    assert entries == [entries[0]] + rest;
  }

  lemma {:induction false} KeysCount(entries: Entries)
    requires Distinct(entries)
    ensures |Keys(entries)| == |entries|
  {
    if entries != [] {
      FirstKeyIsNew(entries);
      hide Keys, Distinct;
      KeysCount(entries[1..]);
    } else {
      assert Keys(entries) == {};
    }
  }

  /** With at most maxKeys live keys, the one being counted included, nothing is evicted. */
  lemma NothingEvicted(entries: Entries, c: Counters, maxKeys: nat, key: string, now: Millis)
    requires Agrees(entries, c, now) && |LiveKeys(c, now) + {key}| <= maxKeys
    ensures var others := Unexpired(Without(entries, key), now); Evicted(others, maxKeys) == others
  {
    var others := Unexpired(Without(entries, key), now);
    OthersKeep(entries, key, now);
    KeysCount(others);
    assert Keys(others) + {key} <= LiveKeys(c, now) + {key};
    SubsetSize(Keys(others) + {key}, LiveKeys(c, now) + {key});
    assert key !in Keys(others);
    assert |Keys(others) + {key}| == |others| + 1;
  }

  lemma LiveEntryIsCounter(entries: Entries, c: Counters, key: string, now: Millis)
    requires Agrees(entries, c, now)
    ensures LiveAt(entries, key, now) <==> key in LiveKeys(c, now)
    ensures LiveAt(entries, key, now) ==>
              var e := entries[IndexOf(entries, key).value]; c[key] == Window(e.count, e.resetAt)
  {
    var i := IndexOf(entries, key);
    if key in LiveKeys(c, now) {
      assert Entry(key, c[key].count, c[key].resetAt) in entries;
    }
    if i.Some? {
      assert entries[i.value] in entries;
    }
  }

  /** The same answer, and agreement again. */
  lemma IncrementAgrees(entries: Entries, c: Counters, maxKeys: nat, key: string, windowSeconds: nat, now: Millis)
    requires Agrees(entries, c, now) && |LiveKeys(c, now) + {key}| <= maxKeys
    ensures var (after, answer) := Increment(entries, maxKeys, key, windowSeconds, now);
      && answer.count == Count(c, key, windowSeconds, now).count
      && Agrees(after, c[key := Count(c, key, windowSeconds, now)], now)
  {
    var after := Increment(entries, maxKeys, key, windowSeconds, now).0;
    LiveEntryIsCounter(entries, c, key, now);
    if LiveAt(entries, key, now) {
      CountedAgrees(entries, c, key, windowSeconds, now);
    } else {
      NothingEvicted(entries, c, maxKeys, key, now);
      OpenedAgrees(entries, c, key, windowSeconds, now);
    }
  }

  lemma CountedAgrees(entries: Entries, c: Counters, key: string, windowSeconds: nat, now: Millis)
    requires Agrees(entries, c, now) && LiveAt(entries, key, now) && key in LiveKeys(c, now)
    requires var e := entries[IndexOf(entries, key).value]; c[key] == Window(e.count, e.resetAt)
    ensures var i := IndexOf(entries, key).value;
      Agrees(entries[i := entries[i].(count := entries[i].count + 1)], c[key := Count(c, key, windowSeconds, now)], now)
  {
    var i := IndexOf(entries, key).value;
    var after := entries[i := entries[i].(count := entries[i].count + 1)];
    var d := c[key := Count(c, key, windowSeconds, now)];
    forall e | e in after
      ensures e.key in d && d[e.key] == Window(e.count, e.resetAt)
    {
      var j :| 0 <= j < |after| && after[j] == e;
      if j != i {
        assert entries[j] in entries && entries[j].key != entries[i].key;
      }
    }
    forall k | k in LiveKeys(d, now)
      ensures Entry(k, d[k].count, d[k].resetAt) in after
    {
      if k == key {
        assert after[i] in after;
      } else {
        assert k in LiveKeys(c, now);
        var j :| 0 <= j < |entries| && entries[j] == Entry(k, c[k].count, c[k].resetAt);
        assert after[j] == entries[j];
      }
    }
  }

  lemma OpenedAgrees(entries: Entries, c: Counters, key: string, windowSeconds: nat, now: Millis)
    requires Agrees(entries, c, now) && key !in LiveKeys(c, now)
    ensures Agrees(Unexpired(Without(entries, key), now) + [Entry(key, 1, now + 1000 * windowSeconds)],
                   c[key := Count(c, key, windowSeconds, now)], now)
  {
    var first := Entry(key, 1, now + 1000 * windowSeconds);
    var others := Unexpired(Without(entries, key), now);
    var after := others + [first];
    OthersKeep(entries, key, now);
    var d := c[key := Count(c, key, windowSeconds, now)];
    forall k | k in LiveKeys(d, now)
      ensures Entry(k, d[k].count, d[k].resetAt) in after
    {
      if k == key {
        assert after[|others|] == first;
      } else {
        assert k in LiveKeys(c, now);
        assert Entry(k, c[k].count, c[k].resetAt) in others;
      }
    }
    forall i, j | 0 <= i < j < |after|
      ensures after[i].key != after[j].key
    {
      assert after[i] in others;
    }
  }

  lemma DeleteAgrees(entries: Entries, c: Counters, key: string, now: Millis)
    requires Agrees(entries, c, now)
    ensures Agrees(Without(entries, key), c - {key}, now)
  {
    WithoutKeeps(entries, key);
    forall k | k in LiveKeys(c - {key}, now)
      ensures Entry(k, c[k].count, c[k].resetAt) in Without(entries, key)
    {
      assert k in LiveKeys(c, now);
    }
  }

  /** Time never runs backwards, and at each call at most maxKeys keys are live, its own included. */
  ghost predicate Calm(c: Counters, maxKeys: nat, calls: seq<Call>, since: Millis)
    decreases |calls|
  {
    calls != [] ==>
      if calls[0].Call? then
        && since <= calls[0].now
        && |LiveKeys(c, calls[0].now) + {calls[0].key}| <= maxKeys
        && Calm(CountStep(c, calls[0]), maxKeys, calls[1..], calls[0].now)
      else
        Calm(CountStep(c, calls[0]), maxKeys, calls[1..], since)
  }

  function Answers(entries: Entries, maxKeys: nat, calls: seq<Call>): seq<nat>
    decreases |calls|
  {
    if calls == [] then []
    else
      (if calls[0].Call? then [Increment(entries, maxKeys, calls[0].key, calls[0].windowSeconds, calls[0].now).1.count] else [])
      + Answers(Step(entries, maxKeys, calls[0]), maxKeys, calls[1..])
  }

  function Counts(c: Counters, calls: seq<Call>): seq<nat>
    decreases |calls|
  {
    if calls == [] then []
    else
      (if calls[0].Call? then [Count(c, calls[0].key, calls[0].windowSeconds, calls[0].now).count] else [])
      + Counts(CountStep(c, calls[0]), calls[1..])
  }

  lemma LaterAgrees(entries: Entries, c: Counters, now: Millis, later: Millis)
    requires Agrees(entries, c, now) && now <= later
    ensures Agrees(entries, c, later)
  {
    assert LiveKeys(c, later) <= LiveKeys(c, now);
  }

  /** Over every such run, deletions included, the bounded counter answers like the unbounded one. */
  lemma {:induction false} AgreesWithUnbounded(entries: Entries, c: Counters, maxKeys: nat, calls: seq<Call>, since: Millis)
    requires Agrees(entries, c, since) && Calm(c, maxKeys, calls, since)
    ensures Answers(entries, maxKeys, calls) == Counts(c, calls)
    decreases |calls|
  {
    if calls != [] {
      match calls[0]
      case Call(key, windowSeconds, now) =>
        LaterAgrees(entries, c, since, now);
        IncrementAgrees(entries, c, maxKeys, key, windowSeconds, now);
        AgreesWithUnbounded(Step(entries, maxKeys, calls[0]), CountStep(c, calls[0]), maxKeys, calls[1..], now);
      case Delete(key) =>
        DeleteAgrees(entries, c, key, since);
        AgreesWithUnbounded(Step(entries, maxKeys, calls[0]), CountStep(c, calls[0]), maxKeys, calls[1..], since);
    }
  }

  // ---------------------------------------------------------------------------------------------
  // How much gets through
  // ---------------------------------------------------------------------------------------------

  /** Calls on `key` accepted in the half-open span of one window from `start`. */
  function AcceptedIn(entries: Entries, maxKeys: nat, calls: seq<Call>, key: string, limit: nat, start: Millis, window: nat): nat
    decreases |calls|
  {
    if calls == [] then 0
    else
      (if calls[0].Call? && calls[0].key == key && start <= calls[0].now < start + 1000 * window
          && Increment(entries, maxKeys, key, calls[0].windowSeconds, calls[0].now).1.count <= limit then 1 else 0)
      + AcceptedIn(Step(entries, maxKeys, calls[0]), maxKeys, calls[1..], key, limit, start, window)
  }

  function Left(w: Window, limit: nat): nat {
    if w.count < limit then limit - w.count else 0
  }

  /** What may still be accepted in the span, given the key's current window. */
  function Budget(c: Counters, key: string, limit: nat, start: Millis, window: nat): nat {
    if key !in c || c[key].resetAt <= start then 2 * limit
    else if c[key].resetAt < start + 1000 * window then Left(c[key], limit) + limit
    else Left(c[key], limit)
  }

  /** Only counting, with one window length for the key. */
  predicate Counting(calls: seq<Call>, key: string, window: nat) {
    forall i :: 0 <= i < |calls| ==> calls[i].Call? && (calls[i].key == key ==> calls[i].windowSeconds == window)
  }

  lemma CallFitsBudget(c: Counters, call: Call, key: string, limit: nat, start: Millis, window: nat)
    requires call.Call? && (call.key == key ==> call.windowSeconds == window) && call.now < start + 1000 * window
    ensures var accepted := if call.key == key && start <= call.now && Count(c, key, window, call.now).count <= limit then 1 else 0;
      accepted + Budget(CountStep(c, call), key, limit, start, window) <= Budget(c, key, limit, start, window)
  {
  }

  lemma {:induction false} PastTheSpan(entries: Entries, c: Counters, maxKeys: nat, calls: seq<Call>, key: string,
                                       limit: nat, start: Millis, window: nat, since: Millis)
    requires Calm(c, maxKeys, calls, since) && since >= start + 1000 * window && Counting(calls, key, window)
    ensures AcceptedIn(entries, maxKeys, calls, key, limit, start, window) == 0
    decreases |calls|
  {
    if calls != [] {
      PastTheSpan(Step(entries, maxKeys, calls[0]), CountStep(c, calls[0]), maxKeys, calls[1..], key, limit, start, window, calls[0].now);
    }
  }

  lemma {:induction false} BudgetBounds(entries: Entries, c: Counters, maxKeys: nat, calls: seq<Call>, key: string,
                                        limit: nat, start: Millis, window: nat, since: Millis)
    requires Agrees(entries, c, since) && Calm(c, maxKeys, calls, since) && Counting(calls, key, window)
    ensures AcceptedIn(entries, maxKeys, calls, key, limit, start, window) <= Budget(c, key, limit, start, window)
    decreases |calls|
  {
    if calls != [] {
      var call := calls[0];
      var after, d := Step(entries, maxKeys, call), CountStep(c, call);
      LaterAgrees(entries, c, since, call.now);
      IncrementAgrees(entries, c, maxKeys, call.key, call.windowSeconds, call.now);
      if call.now >= start + 1000 * window {
        PastTheSpan(after, d, maxKeys, calls[1..], key, limit, start, window, call.now);
      } else {
        CallFitsBudget(c, call, key, limit, start, window);
        BudgetBounds(after, d, maxKeys, calls[1..], key, limit, start, window, call.now);
      }
    }
  }

  /** At most twice the limit gets through in any span of one window, wherever it starts. */
  lemma AtMostTwiceTheLimit(maxKeys: nat, calls: seq<Call>, key: string, limit: nat, start: Millis, window: nat, since: Millis)
    requires Calm(map[], maxKeys, calls, since) && Counting(calls, key, window)
    ensures AcceptedIn([], maxKeys, calls, key, limit, start, window) <= 2 * limit
  {
    BudgetBounds([], map[], maxKeys, calls, key, limit, start, window, since);
  }

  lemma {:induction false} IndexBehind(front: Entries, e: Entry)
    requires Absent(front, e.key)
    ensures IndexOf(front + [e], e.key) == Some(|front|)
  {
    if front != [] {
      assert (front + [e])[1..] == front[1..] + [e];
      IndexBehind(front[1..], e);
    }
  }

  lemma {:induction false} IndexIgnoresCounts(entries: Entries, i: nat, count: nat, key: string)
    requires i < |entries|
    ensures IndexOf(entries[i := entries[i].(count := count)], key) == IndexOf(entries, key)
  {
    if i > 0 {
      assert entries[i := entries[i].(count := count)][1..] == entries[1..][i - 1 := entries[i].(count := count)];
      IndexIgnoresCounts(entries[1..], i - 1, count, key);
    }
  }

  /** Waiting as long as an answer says ends the window it counted in; a running window asks for a second at least. */
  lemma RetryAfterIsEnough(entries: Entries, maxKeys: nat, key: string, windowSeconds: nat, now: Millis)
    ensures var (after, answer) := Increment(entries, maxKeys, key, windowSeconds, now);
      && !LiveAt(after, key, now + 1000 * answer.retryAfterSeconds)
      && (LiveAt(entries, key, now) ==> answer.retryAfterSeconds >= 1)
  {
    if LiveAt(entries, key, now) {
      var i := IndexOf(entries, key).value;
      IndexIgnoresCounts(entries, i, entries[i].count + 1, key);
    } else {
      var others := Unexpired(Without(entries, key), now);
      var front := Evicted(others, maxKeys);
      OthersKeep(entries, key, now);
      EvictedIsPart(others, maxKeys);
      forall i | 0 <= i < |front|
        ensures front[i].key != key
      {
        assert front[i] in others;
      }
      IndexBehind(front, Entry(key, 1, now + 1000 * windowSeconds));
    }
  }
}
