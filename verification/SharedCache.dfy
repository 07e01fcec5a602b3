/** The shared memory cache: insertion-ordered entries with sizes, priorities
    and expiry, evicted until they fit. */
module SharedCache {
  import opened Scalars

  datatype Record<V> = Record(key: string, value: V, bytes: nat, priority: int, expiresAt: Option<int>)

  function TotalBytes<V>(entries: seq<Record<V>>): nat {
    if entries == [] then 0 else TotalBytes(entries[..|entries| - 1]) + entries[|entries| - 1].bytes
  }

  ghost predicate DistinctKeys<V>(entries: seq<Record<V>>) {
    forall i, j :: 0 <= i < j < |entries| ==> entries[i].key != entries[j].key
  }

  /** The position of a key, or the number of entries. */
  function Position<V>(entries: seq<Record<V>>, key: string): (i: nat)
    ensures i <= |entries| && (i < |entries| ==> entries[i].key == key)
    ensures forall j :: 0 <= j < i ==> entries[j].key != key
  {
    if entries == [] || entries[0].key == key then 0 else 1 + Position(entries[1..], key)
  }

  function Without<V>(entries: seq<Record<V>>, i: nat): seq<Record<V>>
    requires i < |entries|
  {
    entries[..i] + entries[i + 1..]
  }

  lemma {:induction false} TotalAppend<V>(a: seq<Record<V>>, b: seq<Record<V>>)
    ensures TotalBytes(a + b) == TotalBytes(a) + TotalBytes(b)
    decreases |b|
  {
    if b == [] {
      assert a + b == a;
    } else {
      assert (a + b)[..|a + b| - 1] == a + b[..|b| - 1];
      TotalAppend(a, b[..|b| - 1]);
    }
  }

  lemma TotalOne<V>(e: Record<V>)
    ensures TotalBytes([e]) == e.bytes
  {
    assert [e][..0] == [];
  }

  lemma CutOut<V>(entries: seq<Record<V>>, i: nat)
    requires i < |entries|
    ensures entries == entries[..i] + ([entries[i]] + entries[i + 1..])
    ensures Without(entries, i) == entries[..i] + entries[i + 1..]
  {
  }

  lemma TotalWithout<V>(entries: seq<Record<V>>, i: nat)
    requires i < |entries|
    ensures TotalBytes(entries) == TotalBytes(Without(entries, i)) + entries[i].bytes
  {
    hide *;
    CutOut(entries, i);
    var left, right := entries[..i], entries[i + 1..];
    TotalAppend(left, [entries[i]] + right);
    TotalAppend([entries[i]], right);
    TotalAppend(left, right);
    TotalOne(entries[i]);
  }

  lemma TotalSnoc<V>(entries: seq<Record<V>>, e: Record<V>)
    ensures TotalBytes(entries + [e]) == TotalBytes(entries) + e.bytes
  {
    assert (entries + [e])[..|entries|] == entries;
  }

  lemma WithoutKeys<V(!new)>(entries: seq<Record<V>>, i: nat)
    requires DistinctKeys(entries) && i < |entries|
    ensures DistinctKeys(Without(entries, i))
    ensures forall e :: e in Without(entries, i) <==> e in entries && e.key != entries[i].key
  {
    var rest := Without(entries, i);
    assert |rest| == |entries| - 1;
    hide Without;
    forall j, k | 0 <= j < k < |rest| ensures rest[j].key != rest[k].key {
    }
    forall e | e in entries && e.key != entries[i].key ensures e in rest {
      var j :| 0 <= j < |entries| && entries[j] == e;
    }
    forall e | e in rest ensures e in entries && e.key != entries[i].key {
      var j :| 0 <= j < |rest| && rest[j] == e;
    }
  }

  lemma AppendKeys<V(!new)>(entries: seq<Record<V>>, e: Record<V>)
    requires DistinctKeys(entries) && Position(entries, e.key) == |entries|
    ensures DistinctKeys(entries + [e])
    ensures forall f :: f in entries + [e] <==> f in entries || f == e
  {
    assert (entries + [e])[|entries|] == e;
    assert forall i :: 0 <= i < |entries| ==> (entries + [e])[i] == entries[i];
  }

  lemma MissingKey<V(!new)>(entries: seq<Record<V>>, key: string)
    ensures Position(entries, key) == |entries| <==> forall e :: e in entries ==> e.key != key
  {
    var at := Position(entries, key);
    if at < |entries| {
      assert entries[at] in entries;
    }
  }

  function MovedLast<V>(entries: seq<Record<V>>, at: nat): seq<Record<V>>
    requires at < |entries|
  {
    Without(entries, at) + [entries[at]]
  }

  /** What a lookup finds, and the entries it leaves: a live entry becomes the most
      recent, an expired one goes. */
  function Lookup<V>(entries: seq<Record<V>>, key: string, now: int): (Option<V>, seq<Record<V>>) {
    var at := Position(entries, key);
    if at == |entries| then (None, entries)
    else if entries[at].expiresAt.Some? && entries[at].expiresAt.value <= now then (None, Without(entries, at))
    else (Some(entries[at].value), MovedLast(entries, at))
  }

  /** Moving an entry to the end keeps the entries, their keys and their size. */
  lemma MoveLast<V(!new)>(entries: seq<Record<V>>, at: nat)
    requires DistinctKeys(entries) && at < |entries|
    ensures DistinctKeys(MovedLast(entries, at)) && TotalBytes(MovedLast(entries, at)) == TotalBytes(entries)
    ensures forall e :: e in MovedLast(entries, at) <==> e in entries
    ensures MovedLast(entries, at) != [] && MovedLast(entries, at)[|MovedLast(entries, at)| - 1] == entries[at]
  {
    TotalWithout(entries, at);
    WithoutKeys(entries, at);
    OneEntry(entries, at);
    hide TotalBytes, DistinctKeys, Position, Without;
    MissingKey(Without(entries, at), entries[at].key);
    TotalSnoc(Without(entries, at), entries[at]);
    AppendKeys(Without(entries, at), entries[at]);
  }

  /** The entries without a key. */
  function WithoutKey<V>(entries: seq<Record<V>>, key: string): seq<Record<V>> {
    var at := Position(entries, key);
    if at < |entries| then Without(entries, at) else entries
  }

  /** The entries whose value does not satisfy the predicate, in order. */
  function Rejecting<V>(entries: seq<Record<V>>, p: V -> bool): seq<Record<V>> {
    if entries == [] then []
    else
      var last := entries[|entries| - 1];
      Rejecting(entries[..|entries| - 1], p) + if p(last.value) then [] else [last]
  }

  // ----- Eviction -----

  ghost predicate IsVictim<V>(entries: seq<Record<V>>, at: int) {
    && 0 <= at < |entries|
    && (forall i :: 0 <= i < |entries| ==> entries[at].priority <= entries[i].priority)
    && (forall i :: 0 <= i < at ==> entries[at].priority < entries[i].priority)
  }

  /** The first entry of least priority. */
  function Victim<V>(entries: seq<Record<V>>): (at: nat)
    requires entries != []
    ensures IsVictim(entries, at)
  {
    if |entries| == 1 then 0
    else
      var at := Victim(entries[..|entries| - 1]);
      if entries[|entries| - 1].priority < entries[at].priority then |entries| - 1 else at
  }

  lemma VictimIsUnique<V>(entries: seq<Record<V>>, a: nat, b: nat)
    requires IsVictim(entries, a) && IsVictim(entries, b)
    ensures a == b
  {
    assert entries[a].priority <= entries[b].priority && entries[b].priority <= entries[a].priority;
  }

  /** What is left when victims go until the rest fits. */
  function Evicted<V>(entries: seq<Record<V>>, maxBytes: nat): seq<Record<V>>
    decreases |entries|
  {
    if entries == [] || TotalBytes(entries) <= maxBytes then entries
    else Evicted(Without(entries, Victim(entries)), maxBytes)
  }

  ghost predicate Subsequence<T>(a: seq<T>, b: seq<T>) {
    a == [] || (b != [] && ((a[0] == b[0] && Subsequence(a[1..], b[1..])) || Subsequence(a, b[1..])))
  }

  lemma {:induction false} SubsequenceSelf<T>(a: seq<T>)
    ensures Subsequence(a, a)
  {
    if a != [] {
      SubsequenceSelf(a[1..]);
    }
  }

  /** Cutting one element out keeps the order of the others. */
  lemma {:induction false} SubsequenceWithout<V>(a: seq<Record<V>>, b: seq<Record<V>>, i: nat)
    requires i < |b| && Subsequence(a, Without(b, i))
    ensures Subsequence(a, b)
    decreases |b|
  {
    if i == 0 {
      assert Without(b, 0) == b[1..];
    } else if a != [] {
      assert Without(b, i)[0] == b[0] && Without(b, i)[1..] == Without(b[1..], i - 1);
      if a[0] == b[0] && Subsequence(a[1..], Without(b, i)[1..]) {
        SubsequenceWithout(a[1..], b[1..], i - 1);
      } else {
        SubsequenceWithout(a, b[1..], i - 1);
      }
    }
  }

  /** The order of eviction: less priority first, and of one priority the older. */
  ghost predicate GoesBefore<V>(entries: seq<Record<V>>, i: int, j: int)
    requires 0 <= i < |entries| && 0 <= j < |entries|
  {
    entries[i].priority < entries[j].priority || (entries[i].priority == entries[j].priority && i < j)
  }

  /** Whatever went goes before whatever stayed. */
  ghost predicate OldestGo<V(!new)>(entries: seq<Record<V>>, left: seq<Record<V>>) {
    forall i, j :: 0 <= i < |entries| && 0 <= j < |entries| && entries[i] !in left && entries[j] in left ==>
      GoesBefore(entries, i, j)
  }

  /** The last one to go, and nothing went after it, was still one too many. */
  ghost predicate LastWasNeeded<V(!new)>(entries: seq<Record<V>>, left: seq<Record<V>>, maxBytes: nat, last: int) {
    && 0 <= last < |entries| && entries[last] !in left
    && TotalBytes(left) + entries[last].bytes > maxBytes
    && forall i :: 0 <= i < |entries| && entries[i] !in left && i != last ==> GoesBefore(entries, i, last)
  }

  /** Main theorem on eviction: the rest keeps its order and fits; what went are
      the least in the order of eviction, and no more of them than needed. */
  lemma {:induction false} EvictedExactly<V(!new)>(entries: seq<Record<V>>, maxBytes: nat)
    requires DistinctKeys(entries)
    ensures var left := Evicted(entries, maxBytes);
      && Subsequence(left, entries) && TotalBytes(left) <= maxBytes && DistinctKeys(left)
      && (forall e :: e in left ==> e in entries)
      && OldestGo(entries, left)
      && (left == entries <==> TotalBytes(entries) <= maxBytes)
      && (left != entries ==> exists last :: LastWasNeeded(entries, left, maxBytes, last))
    decreases |entries|
  {
    hide TotalBytes, Without, Subsequence;
    if entries == [] || TotalBytes(entries) <= maxBytes {
      NoBytes<V>();
      SubsequenceSelf(entries);
    } else {
      var at := Victim(entries);
      var rest, left := Without(entries, at), Evicted(entries, maxBytes);
      RestOf(entries, at);
      WithoutKeys(entries, at);
      TotalWithout(entries, at);
      EvictedExactly(rest, maxBytes);
      SubsequenceWithout(left, entries, at);
      VictimGoesFirst(entries, left, maxBytes, at);
    }
  }

  /** The position in the rest of what is at `i` in the whole. */
  function Shifted(at: nat, i: int): int {
    if i < at then i else i - 1
  }

  /** How the rest lies in the whole. */
  lemma RestOf<V>(entries: seq<Record<V>>, at: nat)
    requires at < |entries|
    ensures |Without(entries, at)| == |entries| - 1
    ensures forall i :: 0 <= i < |entries| && i != at ==> entries[i] == Without(entries, at)[Shifted(at, i)]
  {
  }

  lemma VictimGoesFirst<V(!new)>(entries: seq<Record<V>>, left: seq<Record<V>>, maxBytes: nat, at: nat)
    requires DistinctKeys(entries) && at < |entries| && IsVictim(entries, at) && TotalBytes(entries) > maxBytes
    requires forall e :: e in left ==> e in Without(entries, at)
    requires OldestGo(Without(entries, at), left)
    requires left == Without(entries, at) <==> TotalBytes(Without(entries, at)) <= maxBytes
    requires left != Without(entries, at) ==> exists last :: LastWasNeeded(Without(entries, at), left, maxBytes, last)
    ensures entries[at] !in left && OldestGo(entries, left)
    ensures exists last :: LastWasNeeded(entries, left, maxBytes, last)
  {
    hide TotalBytes, Without, DistinctKeys, IsVictim, OldestGo;
    var rest := Without(entries, at);
    RestOf(entries, at);
    WithoutKeys(entries, at);
    assert entries[at] !in left;
    VictimFirst(entries, rest, left, at);
    if left == rest {
      TotalWithout(entries, at);
      assert forall i :: 0 <= i < |entries| && i != at ==> entries[i] in rest;
      assert LastWasNeeded(entries, left, maxBytes, at);
    } else {
      var k :| LastWasNeeded(rest, left, maxBytes, k);
      LastStays(entries, rest, left, maxBytes, at, k);
    }
  }

  lemma VictimFirst<V(!new)>(entries: seq<Record<V>>, rest: seq<Record<V>>, left: seq<Record<V>>, at: nat)
    requires IsVictim(entries, at) && entries[at] !in left && OldestGo(rest, left) && |rest| == |entries| - 1
    requires forall i :: 0 <= i < |entries| && i != at ==> entries[i] == rest[Shifted(at, i)]
    ensures OldestGo(entries, left)
  {
    forall i, j | 0 <= i < |entries| && 0 <= j < |entries| && entries[i] !in left && entries[j] in left
      ensures GoesBefore(entries, i, j)
    {
      if i != at {
        assert GoesBefore(rest, Shifted(at, i), Shifted(at, j));
      }
    }
  }

  lemma LastStays<V(!new)>(entries: seq<Record<V>>, rest: seq<Record<V>>, left: seq<Record<V>>, maxBytes: nat, at: nat,
                           k: nat)
    requires IsVictim(entries, at) && entries[at] !in left && |rest| == |entries| - 1
    requires forall i :: 0 <= i < |entries| && i != at ==> entries[i] == rest[Shifted(at, i)]
    requires LastWasNeeded(rest, left, maxBytes, k)
    ensures LastWasNeeded(entries, left, maxBytes, if k < at then k else k + 1)
  {
    hide TotalBytes;
    var last := if k < at then k else k + 1;
    assert Shifted(at, last) == k && entries[last] == rest[k];
    forall i | 0 <= i < |entries| && entries[i] !in left && i != last ensures GoesBefore(entries, i, last) {
      if i != at {
        assert GoesBefore(rest, Shifted(at, i), k);
      }
    }
  }

  class SharedMemoryCache<V(==,!new)> {
    const maxBytes: nat
    const ttlMs: Option<int>
    var entries: seq<Record<V>>
    var cachedBytes: int

    /** Keys are distinct and the byte count is the sum of the entries' sizes. */
    ghost predicate Valid()
      reads this
    {
      DistinctKeys(entries) && cachedBytes == TotalBytes(entries)
    }

    /** Between calls the entries also fit. */
    ghost predicate Fits()
      reads this
      ensures Fits() ==> Valid()
    {
      Valid() && cachedBytes <= maxBytes
    }

    constructor (maxBytes: nat, ttlMs: Option<int>)
      ensures Fits() && entries == [] && this.maxBytes == maxBytes && this.ttlMs == ttlMs
    {
      this.maxBytes, this.ttlMs := maxBytes, ttlMs;
      entries, cachedBytes := [], 0;
    }

    method Delete(key: string)
      requires Valid()
      modifies this
      ensures Valid() && cachedBytes <= old(cachedBytes)
      ensures entries == WithoutKey(old(entries), key)
      ensures forall e :: e in entries <==> e in old(entries) && e.key != key
    {
      var at := Position(entries, key);
      MissingKey(entries, key);
      if at < |entries| {
        TotalWithout(entries, at);
        WithoutKeys(entries, at);
        cachedBytes := cachedBytes - entries[at].bytes;
        entries := Without(entries, at);
      }
    }

    /** A live entry is returned and becomes the most recent; an expired one goes. */
    method Get(key: string, now: int) returns (r: Option<V>)
      requires Fits()
      modifies this
      ensures Fits()
      ensures r.Some? ==>
        && (exists e ::
              && e in old(entries) && e.key == key && e.value == r.value
              && (e.expiresAt.Some? ==> now < e.expiresAt.value))
        && (forall e :: e in entries <==> e in old(entries))
        && Position(old(entries), key) < |old(entries)|
        && entries == MovedLast(old(entries), Position(old(entries), key))
      ensures r.None? ==> entries == WithoutKey(old(entries), key)
      ensures (r, entries) == Lookup(old(entries), key, now)
      ensures r.None? ==>
        && (forall e :: e in entries <==> e in old(entries) && e.key != key)
        && (forall e :: e in old(entries) && e.key == key ==> e.expiresAt.Some? && e.expiresAt.value <= now)
    {
      hide TotalBytes, DistinctKeys, Position, Without, MovedLast;
      var at := Position(entries, key);
      MissingKey(entries, key);
      if at == |entries| {
        assert entries == WithoutKey(entries, key);
        return None;
      }
      var entry := entries[at];
      assert entry in entries;
      OneEntry(entries, at);
      if entry.expiresAt.Some? && entry.expiresAt.value <= now {
        Delete(key);
        return None;
      }
      MoveLast(entries, at);
      entries := MovedLast(entries, at);
      return Some(entry.value);
    }

    /** The record of a value stored now. */
    function Stored(key: string, value: V, bytes: nat, priority: int, now: int): (e: Record<V>)
      ensures e.key == key && e.value == value && e.bytes == bytes && e.priority == priority
      ensures e.expiresAt.Some? <==> ttlMs.Some?
      ensures ttlMs.Some? ==> e.expiresAt.value - now == ttlMs.value
    {
      Record(key, value, bytes, priority, if ttlMs.None? then None else Some(now + ttlMs.value))
    }

    /** Stores a value that can fit at all, then evicts until everything fits. */
    method Set(key: string, value: V, bytes: nat, priority: int, now: int)
      requires Fits()
      modifies this
      ensures Fits()
      ensures forall e :: e in entries ==>
        || e in old(entries)
        || (e.key == key && e.value == value && bytes <= maxBytes)
      ensures bytes <= maxBytes ==>
        forall e :: e in entries && e.key == key ==> e.value == value && e.priority == priority
      ensures entries == if bytes > maxBytes then old(entries)
                         else Evicted(WithoutKey(old(entries), key) + [Stored(key, value, bytes, priority, now)],
                                      maxBytes)
    {
      if bytes > maxBytes {
        return;
      }
      hide *;
      Delete(key);
      Insert(Stored(key, value, bytes, priority, now));
      Evict();
    }

    method Insert(entry: Record<V>)
      requires Valid() && forall e :: e in entries ==> e.key != entry.key
      modifies this
      ensures Valid() && entries == old(entries) + [entry]
      ensures forall e :: e in entries <==> e in old(entries) || e == entry
    {
      hide TotalBytes, DistinctKeys, Position, Without;
      MissingKey(entries, entry.key);
      TotalSnoc(entries, entry);
      AppendKeys(entries, entry);
      entries := entries + [entry];
      cachedBytes := cachedBytes + entry.bytes;
    }

    /** Drops victims until the rest fits. */
    method Evict()
      requires Valid()
      modifies this
      ensures Fits()
      ensures entries == Evicted(old(entries), maxBytes)
      ensures forall e :: e in entries ==> e in old(entries)
    {
      hide TotalBytes, DistinctKeys, Without, IsVictim;
      while cachedBytes > maxBytes
        invariant Valid()
        invariant Evicted(entries, maxBytes) == Evicted(old(entries), maxBytes)
        invariant forall e :: e in entries ==> e in old(entries)
        decreases |entries|
      {
        NothingIsEmpty(entries);
        var at := EvictIndex();
        VictimIsUnique(entries, at, Victim(entries));
        TotalWithout(entries, at);
        WithoutKeys(entries, at);
        RestOf(entries, at);
        cachedBytes := cachedBytes - entries[at].bytes;
        entries := Without(entries, at);
      }
    }

    /** The first entry of least priority. */
    method EvictIndex() returns (at: nat)
      requires entries != []
      ensures at < |entries| && IsVictim(entries, at)
    {
      at := 0;
      for n := 1 to |entries|
        invariant at < n
        invariant forall i :: 0 <= i < n ==> entries[at].priority <= entries[i].priority
        invariant forall i :: 0 <= i < at ==> entries[at].priority < entries[i].priority
      {
        if entries[n].priority < entries[at].priority {
          at := n;
        }
      }
    }

    /** Removes every entry whose value satisfies the predicate. */
    method DeleteWhere(p: V -> bool)
      requires Fits()
      modifies this
      ensures Fits()
      ensures entries == Rejecting(old(entries), p)
      ensures forall e :: e in entries <==> e in old(entries) && !p(e.value)
    {
      hide Scanned, TotalBytes, DistinctKeys, Without, Rejecting;
      ghost var before := entries;
      ghost var seen := 0;
      var n := 0;
      NothingScanned(before, p, cachedBytes);
      while n < |entries|
        invariant Scanned(before, p, seen, n, entries, cachedBytes) && cachedBytes <= old(cachedBytes)
        decreases |entries| - n
      {
        ScanNext(before, p, seen, n, entries, cachedBytes);
        if p(entries[n].value) {
          cachedBytes := cachedBytes - entries[n].bytes;
          entries := Without(entries, n);
        } else {
          n := n + 1;
        }
        seen := seen + 1;
      }
      AllScanned(before, p, seen, n, entries, cachedBytes);
    }
  }

  /** The entries while the first `seen` of them have been judged and `n` kept. */
  ghost predicate Scanned<V>(
    before: seq<Record<V>>, p: V -> bool, seen: nat, n: nat, entries: seq<Record<V>>, bytes: int)
  {
    && DistinctKeys(entries) && bytes == TotalBytes(entries) && seen <= |before|
    && entries == Rejecting(before[..seen], p) + before[seen..] && n == |Rejecting(before[..seen], p)|
  }

  lemma NothingScanned<V>(before: seq<Record<V>>, p: V -> bool, bytes: int)
    requires DistinctKeys(before) && bytes == TotalBytes(before)
    ensures Scanned(before, p, 0, 0, before, bytes)
  {
  }

  lemma ScanNext<V(!new)>(
    before: seq<Record<V>>, p: V -> bool, seen: nat, n: nat, entries: seq<Record<V>>, bytes: int)
    requires Scanned(before, p, seen, n, entries, bytes) && n < |entries|
    ensures p(entries[n].value) ==>
      |Without(entries, n)| == |entries| - 1
      && Scanned(before, p, seen + 1, n, Without(entries, n), bytes - entries[n].bytes)
    ensures !p(entries[n].value) ==> Scanned(before, p, seen + 1, n + 1, entries, bytes)
  {
    SeenBefore(before, p, seen, n, entries);
    RejectNext(before, p, seen);
    TotalWithout(entries, n);
    WithoutDistinct(entries, n);
    hide Rejecting, TotalBytes, DistinctKeys;
  }

  lemma SeenBefore<V>(before: seq<Record<V>>, p: V -> bool, seen: nat, n: nat, entries: seq<Record<V>>)
    requires seen <= |before| && entries == Rejecting(before[..seen], p) + before[seen..]
    requires n == |Rejecting(before[..seen], p)| && n < |entries|
    ensures seen < |before|
  {
  }

  lemma AllScanned<V(!new)>(
    before: seq<Record<V>>, p: V -> bool, seen: nat, n: nat, entries: seq<Record<V>>, bytes: int)
    requires Scanned(before, p, seen, n, entries, bytes) && n >= |entries|
    ensures DistinctKeys(entries) && bytes == TotalBytes(entries) && entries == Rejecting(before, p)
    ensures forall e :: e in entries <==> e in before && !p(e.value)
  {
    assert seen == |before| && before[..|before|] == before;
    RejectingHas(before, p);
    hide Rejecting, TotalBytes, DistinctKeys;
  }

  lemma WithoutDistinct<V(!new)>(entries: seq<Record<V>>, i: nat)
    requires DistinctKeys(entries) && i < |entries|
    ensures DistinctKeys(Without(entries, i))
  {
    WithoutKeys(entries, i);
  }

  lemma RejectNext<V>(entries: seq<Record<V>>, p: V -> bool, n: nat)
    requires n < |entries|
    ensures var kept, all := Rejecting(entries[..n], p), Rejecting(entries[..n], p) + entries[n..];
      && all[|kept|] == entries[n]
      && Rejecting(entries[..n + 1], p) == (if p(entries[n].value) then kept else kept + [entries[n]])
      && (if p(entries[n].value) then Without(all, |kept|) == kept + entries[n + 1..]
          else kept + [entries[n]] + entries[n + 1..] == all)
  {
    assert entries[..n + 1][..n] == entries[..n] && entries[..n + 1][n] == entries[n];
    assert entries[n..] == [entries[n]] + entries[n + 1..];
    var kept := Rejecting(entries[..n], p);
    assert Rejecting(entries[..n + 1], p) == if p(entries[n].value) then kept else kept + [entries[n]];
    hide *;
    TakeOut(kept, entries[n], entries[n + 1..]);
  }

  lemma TakeOut<V>(front: seq<Record<V>>, e: Record<V>, back: seq<Record<V>>)
    ensures (front + ([e] + back))[|front|] == e && front + [e] + back == front + ([e] + back)
    ensures Without(front + ([e] + back), |front|) == front + back
  {
  }

  lemma {:induction false} RejectingHas<V(!new)>(entries: seq<Record<V>>, p: V -> bool)
    ensures forall e :: e in Rejecting(entries, p) <==> e in entries && !p(e.value)
  {
    if entries != [] {
      RejectingHas(entries[..|entries| - 1], p);
      assert entries == entries[..|entries| - 1] + [entries[|entries| - 1]];
    }
  }

  lemma NoBytes<V>()
    ensures TotalBytes<V>([]) == 0
  {
  }

  lemma NothingIsEmpty<V>(entries: seq<Record<V>>)
    requires TotalBytes(entries) > 0
    ensures entries != []
  {
  }

  /** A key stands for one entry. */
  lemma OneEntry<V(!new)>(entries: seq<Record<V>>, i: nat)
    requires DistinctKeys(entries) && i < |entries|
    ensures forall e :: e in entries && e.key == entries[i].key ==> e == entries[i]
  {
  }
}
