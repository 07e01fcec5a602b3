/** An object store behind the shared cache: whatever expires or is evicted, a
    sequential client reads what the inner store would give it. */
module CachedStore {
  import opened Scalars
  import opened Decimals
  import opened SharedCache

  datatype ObjectHead = ObjectHead(size: nat, etag: Option<string>, lastModified: Option<int>,
                                   contentType: Option<string>)

  type Bytes = seq<bv8>

  /** The inner store as functions of its state; reads do not change it, a failed
      write may have. */
  datatype Inner<!S> = Inner(
    get: (S, string) -> Result<Option<Bytes>>,
    range: (S, string, nat, nat) -> Result<Bytes>,
    head: (S, string) -> Result<Option<ObjectHead>>,
    put: (S, string, Bytes) -> (S, Result<()>),
    delete: (S, string) -> (S, Result<()>))

  /** Writing one path leaves reads of the others alone. */
  ghost predicate Local<S(!new)>(inner: Inner<S>) {
    && (forall s, p, body, q {:trigger inner.put(s, p, body), inner.get(s, q)} :: q != p ==>
          inner.get(inner.put(s, p, body).0, q) == inner.get(s, q))
    && (forall s, p, body, q {:trigger inner.put(s, p, body), inner.head(s, q)} :: q != p ==>
          inner.head(inner.put(s, p, body).0, q) == inner.head(s, q))
    && (forall s, p, body, q, o, n {:trigger inner.put(s, p, body), inner.range(s, q, o, n)} :: q != p ==>
          inner.range(inner.put(s, p, body).0, q, o, n) == inner.range(s, q, o, n))
    && (forall s, p, q {:trigger inner.delete(s, p), inner.get(s, q)} :: q != p ==>
          inner.get(inner.delete(s, p).0, q) == inner.get(s, q))
    && (forall s, p, q {:trigger inner.delete(s, p), inner.head(s, q)} :: q != p ==>
          inner.head(inner.delete(s, p).0, q) == inner.head(s, q))
    && (forall s, p, q, o, n {:trigger inner.delete(s, p), inner.range(s, q, o, n)} :: q != p ==>
          inner.range(inner.delete(s, p).0, q, o, n) == inner.range(s, q, o, n))
  }

  datatype CacheValue =
    | ObjectValue(path: string, blob: Option<Bytes>)
    | RangeValue(path: string, bytes: Bytes)
    | HeadValue(path: string, head: Option<ObjectHead>)

  datatype Policy = Balanced | Io | Latency

  function Priority(value: CacheValue, policy: Policy): int {
    if value.HeadValue? then 4
    else if policy == Io then 3
    else if policy == Latency then 1
    else if value.RangeValue? then 3
    else 2
  }

  function ValueBytes(value: CacheValue): nat {
    match value
    case ObjectValue(_, blob) => if blob.Some? then |blob.value| else 0
    case RangeValue(_, bytes) => |bytes|
    case HeadValue(_, _) => 0
  }

  /** Every entry has the size and the priority of its value. */
  ghost predicate Accounted(policy: Policy, entries: seq<Record<CacheValue>>) {
    forall e :: e in entries ==> e.bytes == ValueBytes(e.value) && e.priority == Priority(e.value, policy)
  }

  /** The bytes of the objects and ranges held. */
  function HeldBytes(entries: seq<Record<CacheValue>>): nat
    decreases |entries|
  {
    if entries == [] then 0
    else
      HeldBytes(entries[..|entries| - 1]) +
      match entries[|entries| - 1].value
      case ObjectValue(_, Some(blob)) => |blob|
      case RangeValue(_, bytes) => |bytes|
      case _ => 0
  }

  lemma {:induction false} HeldIsTotal(policy: Policy, entries: seq<Record<CacheValue>>)
    requires Accounted(policy, entries)
    ensures HeldBytes(entries) == TotalBytes(entries)
    decreases |entries|
  {
    if entries != [] {
      HeldIsTotal(policy, entries[..|entries| - 1]);
      assert entries[|entries| - 1] in entries;
    }
  }

  /** Heads outlive objects and ranges, and where neither reads nor latency are
      favoured ranges outlive objects: none goes while one it outlives stays. */
  lemma EvictionSpares(policy: Policy, entries: seq<Record<CacheValue>>, maxBytes: nat, i: nat, j: nat)
    requires DistinctKeys(entries) && Accounted(policy, entries)
    requires i < |entries| && j < |entries|
    requires entries[i] !in Evicted(entries, maxBytes) && entries[j] in Evicted(entries, maxBytes)
    ensures entries[i].value.HeadValue? ==> entries[j].value.HeadValue?
    ensures policy == Balanced && entries[i].value.RangeValue? ==> !entries[j].value.ObjectValue?
    ensures policy != Balanced && !entries[i].value.HeadValue? && !entries[j].value.HeadValue? ==> i < j
  {
    EvictedExactly(entries, maxBytes);
    hide *;
    OneGoesFirst(entries, Evicted(entries, maxBytes), i, j);
    PriorityOf(policy, entries, i);
    PriorityOf(policy, entries, j);
    PriorityMeans(policy, entries[i].value, entries[j].value);
  }

  lemma OneGoesFirst(entries: seq<Record<CacheValue>>, left: seq<Record<CacheValue>>, i: nat, j: nat)
    requires OldestGo(entries, left) && i < |entries| && j < |entries| && entries[i] !in left && entries[j] in left
    ensures entries[i].priority < entries[j].priority || (entries[i].priority == entries[j].priority && i < j)
  {
    assert GoesBefore(entries, i, j);
  }

  lemma PriorityOf(policy: Policy, entries: seq<Record<CacheValue>>, i: nat)
    requires Accounted(policy, entries) && i < |entries|
    ensures entries[i].priority == Priority(entries[i].value, policy)
  {
  }

  lemma PriorityMeans(policy: Policy, a: CacheValue, b: CacheValue)
    ensures a.HeadValue? && !b.HeadValue? ==> Priority(a, policy) > Priority(b, policy)
    ensures policy == Balanced && a.RangeValue? && b.ObjectValue? ==> Priority(a, policy) > Priority(b, policy)
    ensures policy != Balanced && !a.HeadValue? && !b.HeadValue? ==> Priority(a, policy) == Priority(b, policy)
  {
  }

  /** In a cache of two stores what is kept for the number of reads outlives what
      is kept for latency. */
  lemma ReadsOutliveLatency(a: CacheValue, b: CacheValue)
    requires !a.HeadValue? && !b.HeadValue?
    ensures Priority(a, Io) > Priority(b, Latency)
  {
  }

  /** The entries after a value is cached. */
  function Remembered(entries: seq<Record<CacheValue>>, maxBytes: nat, ttlMs: Option<int>, policy: Policy, key: string,
                      value: CacheValue, now: int): seq<Record<CacheValue>> {
    if ValueBytes(value) > maxBytes then entries
    else
      var expiry := if ttlMs.None? then None else Some(now + ttlMs.value);
      var record := Record(key, value, ValueBytes(value), Priority(value, policy), expiry);
      Evicted(WithoutKey(entries, key) + [record], maxBytes)
  }

  lemma RememberedAccounted(entries: seq<Record<CacheValue>>, maxBytes: nat, ttlMs: Option<int>, policy: Policy,
                            key: string, value: CacheValue, now: int)
    requires DistinctKeys(entries) && Accounted(policy, entries)
    ensures Accounted(policy, Remembered(entries, maxBytes, ttlMs, policy, key, value, now))
  {
    if ValueBytes(value) <= maxBytes {
      var expiry := if ttlMs.None? then None else Some(now + ttlMs.value);
      var record := Record(key, value, ValueBytes(value), Priority(value, policy), expiry);
      var rest := WithoutKey(entries, key);
      SubsetWithout(entries, key);
      EvictedSubset(rest + [record], maxBytes);
      hide *;
      AccountedSubset(policy, entries, rest);
      AccountedMore(policy, rest, record);
      AccountedSubset(policy, rest + [record], Evicted(rest + [record], maxBytes));
      RememberedIs(entries, maxBytes, ttlMs, policy, key, value, now);
    } else {
      hide *;
      RememberedIs(entries, maxBytes, ttlMs, policy, key, value, now);
    }
  }

  lemma RememberedIs(entries: seq<Record<CacheValue>>, maxBytes: nat, ttlMs: Option<int>, policy: Policy, key: string,
                     value: CacheValue, now: int)
    ensures Remembered(entries, maxBytes, ttlMs, policy, key, value, now)
         == if ValueBytes(value) > maxBytes then entries
            else
              var expiry := if ttlMs.None? then None else Some(now + ttlMs.value);
              var record := Record(key, value, ValueBytes(value), Priority(value, policy), expiry);
              Evicted(WithoutKey(entries, key) + [record], maxBytes)
  {
    hide Evicted, WithoutKey, ValueBytes, Priority;
  }

  lemma AccountedSubset(policy: Policy, entries: seq<Record<CacheValue>>, some: seq<Record<CacheValue>>)
    requires Accounted(policy, entries) && forall e :: e in some ==> e in entries
    ensures Accounted(policy, some)
  {
  }

  lemma AccountedMore(policy: Policy, entries: seq<Record<CacheValue>>, record: Record<CacheValue>)
    requires Accounted(policy, entries)
    requires record.bytes == ValueBytes(record.value) && record.priority == Priority(record.value, policy)
    ensures Accounted(policy, entries + [record])
  {
  }

  /** A lookup only moves or drops entries. */
  lemma LookupKeeps<S>(
    inner: Inner<S>, state: S, policy: Policy, entries: seq<Record<CacheValue>>, key: string, now: int)
    requires AllAnswer(inner, state, entries) && Accounted(policy, entries)
    ensures AllAnswer(inner, state, Lookup(entries, key, now).1) && Accounted(policy, Lookup(entries, key, now).1)
    ensures Lookup(entries, key, now).0.Some? ==> Answers(inner, state, key, Lookup(entries, key, now).0.value)
  {
    var left := Lookup(entries, key, now).1;
    var at := Position(entries, key);
    assert at < |entries| ==> entries[at] in entries;
    forall e | e in left ensures e in entries {
    }
    hide Lookup, Position, Without, MovedLast;
    AccountedSubset(policy, entries, left);
  }

  lemma SubsetWithout(entries: seq<Record<CacheValue>>, key: string)
    ensures forall e :: e in WithoutKey(entries, key) ==> e in entries
  {
  }

  lemma {:induction false} EvictedSubset(entries: seq<Record<CacheValue>>, maxBytes: nat)
    ensures forall e :: e in Evicted(entries, maxBytes) ==> e in entries
    decreases |entries|
  {
    if entries != [] && TotalBytes(entries) > maxBytes {
      EvictedSubset(Without(entries, Victim(entries)), maxBytes);
    }
  }

  // ----- Keys -----

  function ObjectKey(path: string): string {
    "object:" + path
  }

  function RangeKey(path: string, offset: nat, length: nat): string {
    "range:" + path + [':'] + NatText(offset) + [':'] + NatText(length)
  }

  function HeadKey(path: string): string {
    "head:" + path
  }

  datatype Request = GetObject(path: string) | GetRange(path: string, offset: nat, length: nat) | GetHead(path: string)

  function KeyOf(r: Request): string {
    match r
    case GetObject(path) => ObjectKey(path)
    case GetRange(path, offset, length) => RangeKey(path, offset, length)
    case GetHead(path) => HeadKey(path)
  }

  lemma RangeKeyInjective(p: string, a: nat, b: nat, q: string, c: nat, d: nat)
    requires RangeKey(p, a, b) == RangeKey(q, c, d)
    ensures p == q && a == c && b == d
  {
    SplitAtLast("range:" + p + [':'] + NatText(a), "range:" + q + [':'] + NatText(c), NatText(b), NatText(d), ':');
    SplitAtLast("range:" + p, "range:" + q, NatText(a), NatText(c), ':');
    SamePrefix("range:", p, q);
    NatRoundTrip(a);
    NatRoundTrip(b);
    NatRoundTrip(c);
    NatRoundTrip(d);
  }

  lemma SamePrefix(prefix: string, p: string, q: string)
    requires prefix + p == prefix + q
    ensures p == q
  {
    assert (prefix + p)[|prefix|..] == p && (prefix + q)[|prefix|..] == q;
  }

  /** Different requests never share a key, whatever the paths contain. */
  lemma KeysNeverCollide(r: Request, s: Request)
    ensures KeyOf(r) == KeyOf(s) <==> r == s
  {
    if KeyOf(r) == KeyOf(s) {
      assert KeyOf(r)[0] == KeyOf(s)[0];
      match r
      case GetObject(path) => SamePrefix("object:", path, s.path);
      case GetHead(path) => SamePrefix("head:", path, s.path);
      case GetRange(path, offset, length) => RangeKeyInjective(path, offset, length, s.path, s.offset, s.length);
    }
  }

  // ----- The wrapper -----

  /** The entry answers the request its key names as the inner store would. */
  ghost predicate Answers<S>(inner: Inner<S>, state: S, key: string, value: CacheValue) {
    match value
    case ObjectValue(path, blob) => key == ObjectKey(path) && inner.get(state, path) == Ok(blob)
    case RangeValue(path, bytes) => exists o: nat, n: nat :: RangeAnswers(inner, state, key, path, bytes, o, n)
    case HeadValue(path, head) => key == HeadKey(path) && inner.head(state, path) == Ok(head)
  }

  ghost predicate RangeAnswers<S>(
    inner: Inner<S>, state: S, key: string, path: string, bytes: Bytes, o: nat, n: nat)
  {
    key == RangeKey(path, o, n) && inner.range(state, path, o, n) == Ok(bytes)
  }

  ghost predicate AllAnswer<S>(inner: Inner<S>, state: S, entries: seq<Record<CacheValue>>) {
    forall e :: e in entries ==> Answers(inner, state, e.key, e.value)
  }

  /** Which request an entry answers. */
  lemma AnswerOf<S>(inner: Inner<S>, state: S, r: Request, value: CacheValue)
    requires Answers(inner, state, KeyOf(r), value)
    ensures match r
            case GetObject(path) => value.ObjectValue? && inner.get(state, path) == Ok(value.blob)
            case GetRange(path, o, n) => value.RangeValue? && inner.range(state, path, o, n) == Ok(value.bytes)
            case GetHead(path) => value.HeadValue? && inner.head(state, path) == Ok(value.head)
  {
    match value
    case ObjectValue(path, _) => KeysNeverCollide(r, GetObject(path));
    case HeadValue(path, _) => KeysNeverCollide(r, GetHead(path));
    case RangeValue(path, bytes) =>
      var o: nat, n: nat :| RangeAnswers(inner, state, KeyOf(r), path, bytes, o, n);
      KeysNeverCollide(r, GetRange(path, o, n));
  }

  /** Entries of other paths keep answering after a write. */
  lemma OthersStillAnswer<S(!new)>(
    inner: Inner<S>, before: S, after: S, path: string, entries: seq<Record<CacheValue>>)
    requires AllAnswer(inner, before, entries)
    requires forall e :: e in entries ==> e.value.path != path
    requires forall q :: q != path ==>
      inner.get(after, q) == inner.get(before, q) && inner.head(after, q) == inner.head(before, q)
    requires forall q, o, n :: q != path ==> inner.range(after, q, o, n) == inner.range(before, q, o, n)
    ensures AllAnswer(inner, after, entries)
  {
    forall e | e in entries ensures Answers(inner, after, e.key, e.value) {
      assert Answers(inner, before, e.key, e.value);
      if e.value.RangeValue? {
        var o: nat, n: nat :| RangeAnswers(inner, before, e.key, e.value.path, e.value.bytes, o, n);
        assert RangeAnswers(inner, after, e.key, e.value.path, e.value.bytes, o, n);
      }
    }
  }

  class CachedObjectStore<S(!new)> {
    const inner: Inner<S>
    const policy: Policy
    const cache: SharedMemoryCache<CacheValue>
    var state: S

    ghost predicate Valid()
      reads this, cache
    {
      cache.Fits() && AllAnswer(inner, state, cache.entries) && Accounted(policy, cache.entries)
    }

    /** The entries after a call that looked a key up: found, or remembered if the
        inner store answered. */
    function Looked(entries: seq<Record<CacheValue>>, key: string, now: int, answer: Option<CacheValue>, later: int)
      : seq<Record<CacheValue>>
    {
      var (found, left) := Lookup(entries, key, now);
      if found.Some? || answer.None? then left
      else Remembered(left, cache.maxBytes, cache.ttlMs, policy, key, answer.value, later)
    }

    constructor (inner: Inner<S>, state: S, policy: Policy, maxBytes: nat, ttlMs: Option<int>)
      ensures Valid() && fresh(cache) && this.inner == inner && this.state == state && this.policy == policy
      ensures cache.maxBytes == maxBytes
    {
      this.inner, this.state, this.policy := inner, state, policy;
      cache := new SharedMemoryCache(maxBytes, ttlMs);
    }

    /** Caches an answer of the inner store. */
    method Remember(key: string, value: CacheValue, now: int)
      requires Valid() && Answers(inner, state, key, value)
      modifies cache
      ensures Valid()
      ensures cache.entries
           == Remembered(old(cache.entries), cache.maxBytes, cache.ttlMs, policy, key, value, now)
    {
      ghost var before := cache.entries;
      RememberedAccounted(before, cache.maxBytes, cache.ttlMs, policy, key, value, now);
      hide Evicted, WithoutKey, TotalBytes, DistinctKeys, Accounted, Answers, ValueBytes, Priority;
      cache.Set(key, value, ValueBytes(value), Priority(value, policy), now);
    }

    /** A live answer kept for this key. */
    method Look(key: string, now: int) returns (r: Option<CacheValue>)
      requires Valid()
      modifies cache
      ensures Valid() && (r, cache.entries) == Lookup(old(cache.entries), key, now)
      ensures r.Some? ==> Answers(inner, state, key, r.value)
    {
      hide Lookup, AllAnswer, Accounted, Answers;
      LookupKeeps(inner, state, policy, cache.entries, key, now);
      r := cache.Get(key, now);
    }

    method Get(path: string, now: int, later: int) returns (r: Result<Option<Bytes>>)
      requires Valid()
      modifies cache
      ensures Valid() && r == inner.get(state, path)
      ensures cache.entries
           == Looked(old(cache.entries), ObjectKey(path), now,
                     if r.Ok? then Some(ObjectValue(path, r.value)) else None, later)
    {
      var cached := Look(ObjectKey(path), now);
      if cached.Some? {
        AnswerOf(inner, state, GetObject(path), cached.value);
        if cached.value.ObjectValue? {
          return Ok(cached.value.blob);
        }
      }
      r := inner.get(state, path);
      if r.Ok? {
        Remember(ObjectKey(path), ObjectValue(path, r.value), later);
      }
    }

    method GetRange(path: string, offset: nat, length: nat, now: int, later: int) returns (r: Result<Bytes>)
      requires Valid()
      modifies cache
      ensures Valid() && r == inner.range(state, path, offset, length)
      ensures cache.entries
           == Looked(old(cache.entries), RangeKey(path, offset, length), now,
                     if r.Ok? then Some(RangeValue(path, r.value)) else None, later)
    {
      var cached := Look(RangeKey(path, offset, length), now);
      if cached.Some? {
        AnswerOf(inner, state, Request.GetRange(path, offset, length), cached.value);
        if cached.value.RangeValue? {
          return Ok(cached.value.bytes);
        }
      }
      r := inner.range(state, path, offset, length);
      if r.Ok? {
        assert RangeAnswers(inner, state, RangeKey(path, offset, length), path, r.value, offset, length);
        Remember(RangeKey(path, offset, length), RangeValue(path, r.value), later);
      }
    }

    method Head(path: string, now: int, later: int) returns (r: Result<Option<ObjectHead>>)
      requires Valid()
      modifies cache
      ensures Valid() && r == inner.head(state, path)
      ensures cache.entries
           == Looked(old(cache.entries), HeadKey(path), now,
                     if r.Ok? then Some(HeadValue(path, r.value)) else None, later)
    {
      var cached := Look(HeadKey(path), now);
      if cached.Some? {
        AnswerOf(inner, state, GetHead(path), cached.value);
        if cached.value.HeadValue? {
          return Ok(cached.value.head);
        }
      }
      r := inner.head(state, path);
      if r.Ok? {
        Remember(HeadKey(path), HeadValue(path, r.value), later);
      }
    }

    method InvalidatePath(path: string)
      requires Valid()
      modifies cache
      ensures Valid()
      ensures forall e :: e in cache.entries <==> e in old(cache.entries) && e.value.path != path
    {
      cache.DeleteWhere((value: CacheValue) => value.path == path);
    }

    /** Forgets the path, writes, and forgets it again; a failed write forgets once. */
    method Put(path: string, body: Bytes) returns (r: Result<()>)
      requires Valid() && Local(inner)
      modifies this, cache
      ensures Valid() && (state, r) == inner.put(old(state), path, body)
      ensures forall e :: e in cache.entries <==> e in old(cache.entries) && e.value.path != path
    {
      InvalidatePath(path);
      var (next, done) := inner.put(state, path, body);
      OthersStillAnswer(inner, state, next, path, cache.entries);
      state := next;
      if done.Err? {
        return done;
      }
      InvalidatePath(path);
      return done;
    }

    method Delete(path: string) returns (r: Result<()>)
      requires Valid() && Local(inner)
      modifies this, cache
      ensures Valid() && (state, r) == inner.delete(old(state), path)
      ensures forall e :: e in cache.entries <==> e in old(cache.entries) && e.value.path != path
    {
      InvalidatePath(path);
      var (next, done) := inner.delete(state, path);
      OthersStillAnswer(inner, state, next, path, cache.entries);
      state := next;
      if done.Err? {
        return done;
      }
      InvalidatePath(path);
      return done;
    }
  }

  // ----- Whole sequences of calls -----

  datatype Call =
    | CallGet(path: string)
    | CallRange(path: string, offset: nat, length: nat)
    | CallHead(path: string)
    | CallPut(path: string, body: Bytes)
    | CallDelete(path: string)

  datatype Answer =
    | ObjectAnswer(blob: Result<Option<Bytes>>)
    | RangeAnswer(bytes: Result<Bytes>)
    | HeadAnswer(head: Result<Option<ObjectHead>>)
    | Done(done: Result<()>)

  /** One call made to the inner store itself. */
  function Direct<S>(inner: Inner<S>, state: S, call: Call): (S, Answer) {
    match call
    case CallGet(path) => (state, ObjectAnswer(inner.get(state, path)))
    case CallRange(path, offset, length) => (state, RangeAnswer(inner.range(state, path, offset, length)))
    case CallHead(path) => (state, HeadAnswer(inner.head(state, path)))
    case CallPut(path, body) =>
      var next := inner.put(state, path, body);
      (next.0, Done(next.1))
    case CallDelete(path) =>
      var next := inner.delete(state, path);
      (next.0, Done(next.1))
  }

  function DirectAll<S>(inner: Inner<S>, state: S, calls: seq<Call>): (S, seq<Answer>)
    decreases |calls|
  {
    if calls == [] then (state, [])
    else
      var before := DirectAll(inner, state, calls[..|calls| - 1]);
      var last := Direct(inner, before.0, calls[|calls| - 1]);
      (last.0, before.1 + [last.1])
  }

  /** Every sequence of completed calls through the wrapper, at any times, gets
      the answers of the inner store and leaves it in the same state. */
  method Serve<S(!new)>(store: CachedObjectStore<S>, calls: seq<Call>, times: seq<(int, int)>)
    returns (answers: seq<Answer>)
    requires store.Valid() && Local(store.inner) && |times| == |calls|
    modifies store, store.cache
    ensures store.Valid() && HeldBytes(store.cache.entries) == store.cache.cachedBytes <= store.cache.maxBytes
    ensures (store.state, answers) == DirectAll(store.inner, old(store.state), calls)
  {
    answers := [];
    ghost var before := store.state;
    hide Local;
    for n := 0 to |calls|
      invariant store.Valid()
      invariant (store.state, answers) == DirectAll(store.inner, before, calls[..n])
    {
      assert calls[..n + 1][..n] == calls[..n];
      var (now, later) := times[n];
      var answer: Answer;
      match calls[n] {
        case CallGet(path) =>
          var r := store.Get(path, now, later);
          answer := ObjectAnswer(r);
        case CallRange(path, offset, length) =>
          var r := store.GetRange(path, offset, length, now, later);
          answer := RangeAnswer(r);
        case CallHead(path) =>
          var r := store.Head(path, now, later);
          answer := HeadAnswer(r);
        case CallPut(path, body) =>
          var r := store.Put(path, body);
          answer := Done(r);
        case CallDelete(path) =>
          var r := store.Delete(path);
          answer := Done(r);
      }
      answers := answers + [answer];
    }
    assert calls[..|calls|] == calls;
    HeldIsTotal(store.policy, store.cache.entries);
  }
}
