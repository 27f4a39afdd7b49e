/**
  The verdict cache (hal/src/authority_compressor.rs) against the history of
  stores and invalidations. Times are nanoseconds; the digest is any function.
*/
module AuthorityCompressor {
  import opened Common

  const SECOND := 1000000000
  const U64 := 0x1_0000_0000_0000_0000

  /** `paramsJson` is the parameter value as serde_json prints it. */
  datatype Request = Request(agent: string, action: string, target: string, irreversible: bool, paramsJson: string)

  datatype Verdict = Verdict(allowed: bool, riskScore: real, reason: string, issuedAt: int)

  type Key = seq<byte>

  datatype Hit = Hit(verdict: Verdict, digest: Key, hitCount: nat)

  // ---- The digest's input ----

  function Preimage(r: Request): string {
    r.agent + "\0" + r.action + "\0" + r.target + "\0" + r.paramsJson
  }

  predicate NulFree(s: string) {
    '\0' !in s
  }

  predicate SameFields(r: Request, q: Request) {
    r.agent == q.agent && r.action == q.action && r.target == q.target && r.paramsJson == q.paramsJson
  }

  lemma CutAtNul(a: string, x: string, b: string, y: string)
    requires NulFree(a) && NulFree(b) && a + "\0" + x == b + "\0" + y
    ensures a == b && x == y
  {
    var s, t := a + "\0" + x, b + "\0" + y;
    FirstNul(a, x);
    FirstNul(b, y);
    assert |a| == |b|;
    assert a == s[..|a|] && b == t[..|b|];
    assert x == s[|a| + 1..] && y == t[|b| + 1..];
  }

  lemma FirstNul(a: string, x: string)
    requires NulFree(a)
    ensures var s := a + "\0" + x; s[|a|] == '\0' && forall i :: 0 <= i < |a| ==> s[i] != '\0'
  {
    forall i | 0 <= i < |a|
      ensures (a + "\0" + x)[i] != '\0'
    {
      assert a[i] in a;
    }
  }

  function Nuls(s: string): nat {
    if s == "" then 0 else (if s[0] == '\0' then 1 else 0) + Nuls(s[1..])
  }

  lemma {:induction false} NulsAdd(a: string, b: string)
    ensures Nuls(a + b) == Nuls(a) + Nuls(b)
  {
    if a == "" {
      assert a + b == b;
    } else {
      assert (a + b)[1..] == a[1..] + b;
      NulsAdd(a[1..], b);
    }
  }

  lemma {:induction false} NulsFree(s: string)
    ensures Nuls(s) == 0 <==> NulFree(s)
  {
    if s != "" {
      NulsFree(s[1..]);
      assert s == [s[0]] + s[1..];
    }
  }

  lemma PreimageNuls(r: Request)
    ensures Nuls(Preimage(r)) == Nuls(r.agent) + Nuls(r.action) + Nuls(r.target) + Nuls(r.paramsJson) + 3
  {
    var ra, rb := r.agent + "\0", r.agent + "\0" + r.action + "\0";
    var rc := rb + r.target + "\0";
    NulsAdd(r.agent, "\0");
    NulsAdd(ra, r.action);
    NulsAdd(ra + r.action, "\0");
    NulsAdd(rb, r.target);
    NulsAdd(rb + r.target, "\0");
    NulsAdd(rc, r.paramsJson);
    assert Nuls("\0") == 1;
  }

  /**
    A request's digest input belongs to that request alone (irreversibility aside)
    exactly when its agent, action and target contain no NUL. Printed JSON never does.
  */
  lemma PreimageIdentifies(r: Request)
    requires NulFree(r.paramsJson)
    ensures (forall q: Request :: NulFree(q.paramsJson) && Preimage(q) == Preimage(r) ==> SameFields(q, r))
            <==> NulFree(r.agent) && NulFree(r.action) && NulFree(r.target)
  {
    if NulFree(r.agent) && NulFree(r.action) && NulFree(r.target) {
      forall q: Request | NulFree(q.paramsJson) && Preimage(q) == Preimage(r)
        ensures SameFields(q, r)
      {
        SameFieldsWhenNulFree(r, q);
      }
    } else {
      var q := Confusable(r);
      assert Preimage(q) == Preimage(r) && !SameFields(q, r);
    }
  }

  lemma OtherNulFree(r: Request, q: Request)
    requires NulFree(r.agent) && NulFree(r.action) && NulFree(r.target) && NulFree(r.paramsJson)
    requires Preimage(q) == Preimage(r)
    ensures NulFree(q.agent) && NulFree(q.action) && NulFree(q.target) && NulFree(q.paramsJson)
  {
    PreimageNuls(r);
    PreimageNuls(q);
    NulsFree(r.agent);
    NulsFree(r.action);
    NulsFree(r.target);
    NulsFree(r.paramsJson);
    NulsFree(q.agent);
    NulsFree(q.action);
    NulsFree(q.target);
    NulsFree(q.paramsJson);
  }

  lemma PreimageParts(r: Request)
    ensures Preimage(r) == r.agent + "\0" + (r.action + "\0" + (r.target + "\0" + r.paramsJson))
  {
  }

  lemma SameFieldsWhenNulFree(r: Request, q: Request)
    requires NulFree(r.agent) && NulFree(r.action) && NulFree(r.target) && NulFree(r.paramsJson)
    requires Preimage(q) == Preimage(r)
    ensures SameFields(q, r)
  {
    OtherNulFree(r, q);
    PreimageParts(q);
    PreimageParts(r);
    var z, w := q.target + "\0" + q.paramsJson, r.target + "\0" + r.paramsJson;
    CutAtNul(q.agent, q.action + "\0" + z, r.agent, r.action + "\0" + w);
    CutAtNul(q.action, z, r.action, w);
    CutAtNul(q.target, q.paramsJson, r.target, r.paramsJson);
  }

  lemma SplitAtNul(s: string) returns (x: string, y: string)
    requires !NulFree(s)
    ensures s == x + "\0" + y && |x| < |s|
  {
    var i :| 0 <= i < |s| && s[i] == '\0';
    x, y := s[..i], s[i + 1..];
    assert s == x + ['\0'] + y;
  }

  /** A NUL in a field can be read as a field boundary instead. */
  lemma Confusable(r: Request) returns (q: Request)
    requires NulFree(r.paramsJson) && !(NulFree(r.agent) && NulFree(r.action) && NulFree(r.target))
    ensures NulFree(q.paramsJson) && Preimage(q) == Preimage(r) && !SameFields(q, r)
  {
    if !NulFree(r.agent) {
      var x, y := SplitAtNul(r.agent);
      q := r.(agent := x, action := y, target := r.action + "\0" + r.target);
      assert Preimage(q) == x + "\0" + y + "\0" + r.action + "\0" + r.target + "\0" + r.paramsJson;
    } else if !NulFree(r.action) {
      var x, y := SplitAtNul(r.action);
      q := r.(agent := r.agent + "\0" + x, action := y);
      assert Preimage(q) == r.agent + "\0" + (x + "\0" + y) + "\0" + r.target + "\0" + r.paramsJson;
    } else {
      var x, y := SplitAtNul(r.target);
      q := r.(action := r.action + "\0" + x, target := y);
      assert Preimage(q) == r.agent + "\0" + r.action + "\0" + (x + "\0" + y) + "\0" + r.paramsJson;
    }
  }

  // ---- Expiry ----

  /** `num_seconds`: truncated toward zero. */
  function NumSeconds(d: int): int {
    if d >= 0 then d / SECOND else -((-d) / SECOND)
  }

  /** `as u64`: a negative i64 becomes a huge number. */
  function AsU64(x: int): int {
    if x < 0 then x + U64 else x
  }

  predicate Expired(v: Verdict, now: int, ttlSecs: nat) {
    AsU64(NumSeconds(now - v.issuedAt)) > ttlSecs
  }

  /**
    A verdict counts as live for less than ttl + 1 seconds, for less than one
    second before its issue time, and then again from 2^64 - ttl seconds before
    it. The last cannot happen for a time to live up to 2^63 seconds, as ages are
    64-bit numbers of seconds.
  */
  lemma LiveWindow(v: Verdict, now: int, ttlSecs: nat)
    ensures !Expired(v, now, ttlSecs) <==>
            || -SECOND < now - v.issuedAt < (ttlSecs + 1) * SECOND
            || (now - v.issuedAt <= -SECOND && v.issuedAt - now >= (U64 - ttlSecs) * SECOND)
    ensures ttlSecs <= U64 / 2 && NumSeconds(now - v.issuedAt) > -(U64 / 2) ==>
              (!Expired(v, now, ttlSecs) <==> -SECOND < now - v.issuedAt < (ttlSecs + 1) * SECOND)
  {
    var age := now - v.issuedAt;
    if age >= 0 {
      assert age / SECOND <= ttlSecs <==> age < (ttlSecs + 1) * SECOND;
    } else {
      assert (-age) / SECOND == 0 <==> -age < SECOND;
      assert (-age) / SECOND >= U64 - ttlSecs <==> -age >= (U64 - ttlSecs) * SECOND;
    }
  }

  // ---- The cache as functions of its state ----

  datatype State = State(inner: map<Key, Verdict>, order: seq<Key>, hits: map<Key, nat>, capacity: nat, ttlSecs: nat)

  function Evicted(inner: map<Key, Verdict>, order: seq<Key>, capacity: nat): (map<Key, Verdict>, seq<Key>) {
    if |inner| >= capacity && order != [] then (inner - {order[0]}, order[1..]) else (inner, order)
  }

  function Inserted(inner: map<Key, Verdict>, order: seq<Key>, capacity: nat, k: Key, v: Verdict)
    : (map<Key, Verdict>, seq<Key>)
  {
    if k in inner then (inner[k := v], order)
    else
      var (kept, rest) := Evicted(inner, order, capacity);
      (kept[k := v], rest + [k])
  }

  datatype Op = Compress(r: Request, now: int) | Store(r: Request, v: Verdict) | Invalidate

  function Lookup(h: string -> Key, st: State, r: Request, now: int): Option<Hit> {
    var k := h(Preimage(r));
    if r.irreversible || k !in st.inner || Expired(st.inner[k], now, st.ttlSecs) then None
    else Some(Hit(st.inner[k], k, (if k in st.hits then st.hits[k] else 0) + 1))
  }

  function Next(h: string -> Key, st: State, op: Op): State {
    match op
    case Compress(r, now) =>
      var hit := Lookup(h, st, r, now);
      if hit == None then st else st.(hits := st.hits[hit.value.digest := hit.value.hitCount])
    case Store(r, v) =>
      if r.irreversible then st
      else
        var k := h(Preimage(r));
        var (inner, order) := Inserted(st.inner, st.order, st.capacity, k, v);
        st.(inner := inner, order := order, hits := st.hits[k := 0])
    case Invalidate =>
      st.(inner := map[], order := [], hits := map[])
  }

  class LruCache {
    var inner: map<Key, Verdict>
    var insertOrder: seq<Key>
    const capacity: nat

    constructor (capacity: nat)
      ensures this.capacity == capacity && inner == map[] && insertOrder == []
    {
      this.capacity := capacity;
      inner, insertOrder := map[], [];
    }

    method Insert(key: Key, value: Verdict)
      modifies this
      ensures (inner, insertOrder) == Inserted(old(inner), old(insertOrder), capacity, key, value)
    {
      if key !in inner {
        if |inner| >= capacity && insertOrder != [] {
          var evict := insertOrder[0];
          insertOrder := insertOrder[1..];
          inner := inner - {evict};
        }
        insertOrder := insertOrder + [key];
      }
      inner := inner[key := value];
    }

    method Clear()
      modifies this
      ensures inner == map[] && insertOrder == []
    {
      inner, insertOrder := map[], [];
    }
  }

  class Compressor {
    const h: string -> Key
    const cache: LruCache
    const ttlSecs: nat
    var hits: map<Key, nat>

    ghost function Value(): State
      reads this, cache
    {
      State(cache.inner, cache.insertOrder, hits, cache.capacity, ttlSecs)
    }

    constructor (h: string -> Key, capacity: nat, ttlSecs: nat)
      ensures this.h == h && fresh(cache)
      ensures Value() == State(map[], [], map[], capacity, ttlSecs)
    {
      this.h, this.ttlSecs := h, ttlSecs;
      cache := new LruCache(capacity);
      hits := map[];
    }

    method Compress(r: Request, now: int) returns (hit: Option<Hit>)
      modifies this
      ensures hit == Lookup(h, old(Value()), r, now)
      ensures Value() == Next(h, old(Value()), Op.Compress(r, now))
    {
      if r.irreversible {
        return None;
      }
      var digest := h(Preimage(r));
      if digest !in cache.inner {
        return None;
      }
      var cached := cache.inner[digest];
      if Expired(cached, now, ttlSecs) {
        return None;
      }
      var count := (if digest in hits then hits[digest] else 0) + 1;
      hits := hits[digest := count];
      return Some(Hit(cached, digest, count));
    }

    method Store(r: Request, v: Verdict)
      modifies this, cache
      ensures Value() == Next(h, old(Value()), Op.Store(r, v))
    {
      if r.irreversible {
        return;
      }
      var digest := h(Preimage(r));
      cache.Insert(digest, v);
      hits := hits[digest := 0];
    }

    method Invalidate()
      modifies this, cache
      ensures Value() == Next(h, old(Value()), Op.Invalidate)
    {
      cache.Clear();
      hits := map[];
    }
  }

  // ---- Runs ----

  function Run(h: string -> Key, capacity: nat, ttlSecs: nat, ops: seq<Op>): State {
    if ops == [] then State(map[], [], map[], capacity, ttlSecs)
    else Next(h, Run(h, capacity, ttlSecs, ops[..|ops| - 1]), ops[|ops| - 1])
  }

  predicate StoresUnder(h: string -> Key, op: Op, k: Key) {
    op.Store? && !op.r.irreversible && h(Preimage(op.r)) == k
  }

  /** Position of the most recent store under k since the last invalidation. */
  function LastStore(h: string -> Key, ops: seq<Op>, k: Key): (i: Option<nat>)
    ensures i.Some? ==> i.value < |ops| && StoresUnder(h, ops[i.value], k)
    ensures i.Some? ==> forall j :: i.value < j < |ops| ==> !StoresUnder(h, ops[j], k) && !ops[j].Invalidate?
  {
    if ops == [] then None
    else if StoresUnder(h, ops[|ops| - 1], k) then Some(|ops| - 1)
    else if ops[|ops| - 1].Invalidate? then None
    else LastStore(h, ops[..|ops| - 1], k)
  }

  /** Hits on k since that store. */
  function HitsSince(h: string -> Key, capacity: nat, ttlSecs: nat, ops: seq<Op>, k: Key): nat {
    if ops == [] then 0
    else
      var front, op := ops[..|ops| - 1], ops[|ops| - 1];
      match op
      case Compress(r, now) =>
        var hit := Lookup(h, Run(h, capacity, ttlSecs, front), r, now);
        HitsSince(h, capacity, ttlSecs, front, k) + if hit.Some? && hit.value.digest == k then 1 else 0
      case Store(r, v) =>
        if StoresUnder(h, op, k) then 0 else HitsSince(h, capacity, ttlSecs, front, k)
      case Invalidate => 0
  }

  /** The last at most n of them. */
  function Latest(entries: seq<Key>, n: nat): seq<Key> {
    if |entries| <= n then entries else entries[|entries| - n..]
  }

  /**
    Keys in the order in which they entered the cache since the last invalidation:
    a store enters its key unless it is among the latest max(capacity, 1) to have
    entered.
  */
  function Entries(h: string -> Key, capacity: nat, ops: seq<Op>): seq<Key> {
    if ops == [] then []
    else
      var entries := Entries(h, capacity, ops[..|ops| - 1]);
      match ops[|ops| - 1]
      case Compress(r, now) => entries
      case Store(r, v) =>
        var k := h(Preimage(r));
        entries + if r.irreversible || k in Latest(entries, Bound(capacity)) then [] else [k]
      case Invalidate => []
  }

  predicate NoDup(s: seq<Key>) {
    forall i, j :: 0 <= i < j < |s| ==> s[i] != s[j]
  }

  function Bound(capacity: nat): nat {
    if capacity == 0 then 1 else capacity
  }

  /** The order lists exactly the cached keys, each once. */
  ghost predicate OrderOk(inner: map<Key, Verdict>, order: seq<Key>) {
    && NoDup(order)
    && (forall k :: k in inner <==> k in order)
    && |inner| == |order|
  }

  ghost predicate IsTail(order: seq<Key>, entries: seq<Key>, bound: nat) {
    && |order| == (if |entries| <= bound then |entries| else bound)
    && forall i {:trigger order[i]} :: 0 <= i < |order| ==> order[i] == entries[|entries| - |order| + i]
  }

  lemma DropOldest(inner: map<Key, Verdict>, order: seq<Key>)
    requires OrderOk(inner, order) && order != []
    ensures OrderOk(inner - {order[0]}, order[1..])
  {
    var kept := inner - {order[0]};
    assert order == [order[0]] + order[1..];
    assert order[0] in inner && kept.Keys == inner.Keys - {order[0]};
    assert |kept.Keys| == |inner.Keys| - 1;
  }

  lemma AddNewest(inner: map<Key, Verdict>, order: seq<Key>, k: Key, v: Verdict)
    requires OrderOk(inner, order) && k !in inner
    ensures OrderOk(inner[k := v], order + [k])
  {
    assert inner[k := v].Keys == inner.Keys + {k};
    assert |inner[k := v].Keys| == |inner.Keys| + 1;
  }

  lemma InsertKeepsOrder(inner: map<Key, Verdict>, order: seq<Key>, capacity: nat, k: Key, v: Verdict,
                         entries: seq<Key>)
    requires OrderOk(inner, order) && IsTail(order, entries, Bound(capacity))
    ensures var (inner', order') := Inserted(inner, order, capacity, k, v);
            OrderOk(inner', order') && IsTail(order', if k in inner then entries else entries + [k], Bound(capacity))
  {
    if k in inner {
      assert inner[k := v].Keys == inner.Keys;
      assert |inner[k := v].Keys| == |inner.Keys|;
    } else {
      var (kept, rest) := Evicted(inner, order, capacity);
      if |inner| >= capacity && order != [] {
        DropOldest(inner, order);
      }
      AddNewest(kept, rest, k, v);
      TailGrows(order, entries, Bound(capacity), k);
    }
  }

  lemma TailGrows(order: seq<Key>, entries: seq<Key>, bound: nat, k: Key)
    requires bound >= 1 && IsTail(order, entries, bound)
    ensures IsTail(if |order| >= bound then order[1..] + [k] else order + [k], entries + [k], bound)
  {
    var all := entries + [k];
    var tail := if |order| >= bound then order[1..] + [k] else order + [k];
    assert |tail| == if |all| <= bound then |all| else bound;
    forall i | 0 <= i < |tail|
      ensures tail[i] == all[|all| - |tail| + i]
    {
      if |order| >= bound {
        assert i < |tail| - 1 ==> tail[i] == order[i + 1];
      }
    }
  }

  lemma {:induction false} RunKeepsOrder(h: string -> Key, capacity: nat, ttlSecs: nat, ops: seq<Op>)
    ensures var st := Run(h, capacity, ttlSecs, ops);
            && st.capacity == capacity && st.ttlSecs == ttlSecs
            && OrderOk(st.inner, st.order)
            && IsTail(st.order, Entries(h, capacity, ops), Bound(capacity))
  {
    if ops != [] {
      var front, op := ops[..|ops| - 1], ops[|ops| - 1];
      RunKeepsOrder(h, capacity, ttlSecs, front);
      var st, entries := Run(h, capacity, ttlSecs, front), Entries(h, capacity, front);
      assert entries + [] == entries;
      TailIsLatest(st.order, entries, Bound(capacity));
      if op.Store? && !op.r.irreversible {
        InsertKeepsOrder(st.inner, st.order, capacity, h(Preimage(op.r)), op.v, entries);
      }
    }
  }

  /** What the cache says about one key agrees with the history. */
  ghost predicate KeyOk(h: string -> Key, st: State, ops: seq<Op>, k: Key) {
    k in st.inner ==>
      && LastStore(h, ops, k).Some?
      && st.inner[k] == ops[LastStore(h, ops, k).value].v
      && k in st.hits
      && st.hits[k] == HitsSince(h, st.capacity, st.ttlSecs, ops, k)
  }

  lemma CompressKeepsKey(h: string -> Key, capacity: nat, ttlSecs: nat, ops: seq<Op>, r: Request, now: int, k: Key)
    requires var st := Run(h, capacity, ttlSecs, ops);
             st.capacity == capacity && st.ttlSecs == ttlSecs && KeyOk(h, st, ops, k)
    ensures KeyOk(h, Run(h, capacity, ttlSecs, ops + [Compress(r, now)]), ops + [Compress(r, now)], k)
  {
    var all := ops + [Compress(r, now)];
    assert all[..|all| - 1] == ops && all[|all| - 1] == Compress(r, now);
  }

  lemma StoreKeepsKey(h: string -> Key, capacity: nat, ttlSecs: nat, ops: seq<Op>, r: Request, v: Verdict, k: Key)
    requires var st := Run(h, capacity, ttlSecs, ops);
             st.capacity == capacity && st.ttlSecs == ttlSecs && KeyOk(h, st, ops, k)
    ensures KeyOk(h, Run(h, capacity, ttlSecs, ops + [Store(r, v)]), ops + [Store(r, v)], k)
  {
    var all := ops + [Store(r, v)];
    var st := Run(h, capacity, ttlSecs, ops);
    assert all[..|all| - 1] == ops && all[|all| - 1] == Store(r, v);
    StoreChangesOne(h, st, r, v, k);
  }

  lemma StoreChangesOne(h: string -> Key, st: State, r: Request, v: Verdict, k: Key)
    ensures var st' := Next(h, st, Store(r, v));
            && st'.capacity == st.capacity && st'.ttlSecs == st.ttlSecs
            && (StoresUnder(h, Store(r, v), k) ==>
                  k in st'.inner && st'.inner[k] == v && k in st'.hits && st'.hits[k] == 0)
            && (!StoresUnder(h, Store(r, v), k) && k in st'.inner ==> k in st.inner && st'.inner[k] == st.inner[k])
            && (!StoresUnder(h, Store(r, v), k) && k in st.hits ==> k in st'.hits && st'.hits[k] == st.hits[k])
  {
  }

  lemma StepKeepsKey(h: string -> Key, capacity: nat, ttlSecs: nat, ops: seq<Op>, op: Op, k: Key)
    requires var st := Run(h, capacity, ttlSecs, ops);
             st.capacity == capacity && st.ttlSecs == ttlSecs && KeyOk(h, st, ops, k)
    ensures KeyOk(h, Run(h, capacity, ttlSecs, ops + [op]), ops + [op], k)
  {
    match op
    case Compress(r, now) => CompressKeepsKey(h, capacity, ttlSecs, ops, r, now, k);
    case Store(r, v) => StoreKeepsKey(h, capacity, ttlSecs, ops, r, v, k);
    case Invalidate =>
      var all := ops + [op];
      assert all[..|all| - 1] == ops && all[|all| - 1] == op;
  }

  lemma {:induction false} RunKeepsKey(h: string -> Key, capacity: nat, ttlSecs: nat, ops: seq<Op>, k: Key)
    ensures KeyOk(h, Run(h, capacity, ttlSecs, ops), ops, k)
  {
    if ops != [] {
      var front := ops[..|ops| - 1];
      RunKeepsKey(h, capacity, ttlSecs, front, k);
      RunKeepsOrder(h, capacity, ttlSecs, front);
      StepKeepsKey(h, capacity, ttlSecs, front, ops[|ops| - 1], k);
      assert front + [ops[|ops| - 1]] == ops;
    }
  }

  /**
    Cache agreement: whatever the history, a hit returns the verdict of the most
    recent store since the last invalidation for a request with this agent, action,
    target and parameters - or that request's digest input differs and collides -
    within its time to live; and it counts the hits since that store.
  */
  lemma HitIsLatestStore(h: string -> Key, capacity: nat, ttlSecs: nat, ops: seq<Op>, r: Request, now: int)
    requires NulFree(r.agent) && NulFree(r.action) && NulFree(r.target) && NulFree(r.paramsJson)
    requires Lookup(h, Run(h, capacity, ttlSecs, ops), r, now).Some?
    ensures var hit := Lookup(h, Run(h, capacity, ttlSecs, ops), r, now).value;
            var i := LastStore(h, ops, hit.digest);
            && !r.irreversible
            && i.Some? && hit.verdict == ops[i.value].v && !Expired(hit.verdict, now, ttlSecs)
            && hit.hitCount == HitsSince(h, capacity, ttlSecs, ops, hit.digest) + 1
            && (SameFields(ops[i.value].r, r)
                || (Preimage(ops[i.value].r) != Preimage(r) && h(Preimage(ops[i.value].r)) == h(Preimage(r))))
  {
    RunKeepsKey(h, capacity, ttlSecs, ops, h(Preimage(r)));
    RunKeepsOrder(h, capacity, ttlSecs, ops);
    var i := LastStore(h, ops, h(Preimage(r))).value;
    if Preimage(ops[i].r) == Preimage(r) {
      SameFieldsWhenNulFree(r, ops[i].r);
    }
  }

  lemma TailIsLatest(order: seq<Key>, entries: seq<Key>, n: nat)
    requires IsTail(order, entries, n)
    ensures order == Latest(entries, n)
  {
  }

  /**
    When there is a hit, told from the history alone: the request is reversible,
    its key is among the last max(capacity, 1) to have entered the cache since the
    last invalidation, and the most recent store under it has not expired.
  */
  lemma HitsExactly(h: string -> Key, capacity: nat, ttlSecs: nat, ops: seq<Op>, r: Request, now: int)
    ensures var k := h(Preimage(r)); var i := LastStore(h, ops, k);
            Lookup(h, Run(h, capacity, ttlSecs, ops), r, now).Some? <==>
            && !r.irreversible
            && k in Latest(Entries(h, capacity, ops), Bound(capacity))
            && i.Some? && !Expired(ops[i.value].v, now, ttlSecs)
  {
    RunKeepsOrder(h, capacity, ttlSecs, ops);
    RunKeepsKey(h, capacity, ttlSecs, ops, h(Preimage(r)));
    TailIsLatest(Run(h, capacity, ttlSecs, ops).order, Entries(h, capacity, ops), Bound(capacity));
  }

  /**
    First in, first out: the cached keys are exactly the last max(capacity, 1)
    to have entered since the last invalidation, each once.
  */
  lemma HoldsLatestEntries(h: string -> Key, capacity: nat, ttlSecs: nat, ops: seq<Op>)
    ensures var st := Run(h, capacity, ttlSecs, ops);
            && OrderOk(st.inner, st.order)
            && IsTail(st.order, Entries(h, capacity, ops), Bound(capacity))
  {
    RunKeepsOrder(h, capacity, ttlSecs, ops);
  }
}
