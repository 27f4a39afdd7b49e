/**
  The paired data and metadata caches (anfs/src/cache.rs) and their byte count.
*/
module AnfsCache {
  import opened Common
  import opened SetSum

  type Path = string

  const U64_MAX := 0xFFFF_FFFF_FFFF_FFFF
  const DATA_CAPACITY := 1024

  /** Contents and tags of a cached file; expiry and the dirty flag are left out. */
  datatype Entry = Entry(data: seq<byte>, tags: set<string>)

  datatype Meta = Meta(size: nat, tags: set<string>)

  // ---- One bounded map with first-in first-out eviction ----

  datatype Lru<V> = Lru(inner: map<Path, V>, order: seq<Path>, capacity: nat)

  function Retained(order: seq<Path>, k: Path): seq<Path> {
    if order == [] then []
    else if order[0] == k then Retained(order[1..], k)
    else [order[0]] + Retained(order[1..], k)
  }

  function Evictee<V>(c: Lru<V>, k: Path): Option<Path> {
    if k !in c.inner && |c.inner| >= c.capacity && c.order != [] then Some(c.order[0]) else None
  }

  function Removed<V>(c: Lru<V>, k: Path): Lru<V> {
    c.(inner := c.inner - {k}, order := Retained(c.order, k))
  }

  function Inserted<V>(c: Lru<V>, k: Path, v: V): Lru<V> {
    var old' := Evictee(c, k);
    var kept := if old'.Some? then Removed(c, old'.value) else c;
    Lru(kept.inner[k := v], if k in kept.inner then kept.order else kept.order + [k], c.capacity)
  }

  class LruCache<V> {
    var inner: map<Path, V>
    var order: seq<Path>
    const capacity: nat

    ghost function Value(): Lru<V>
      reads this
    {
      Lru(inner, order, capacity)
    }

    constructor (capacity: nat)
      ensures Value() == Lru(map[], [], if capacity == 0 then 1 else capacity)
    {
      this.capacity := if capacity == 0 then 1 else capacity;
      inner, order := map[], [];
    }

    method Insert(k: Path, v: V) returns (evicted: Option<(Path, V)>)
      modifies this
      ensures Value() == Inserted(old(Value()), k, v)
      ensures evicted == var e := Evictee(old(Value()), k);
              if e.Some? && e.value in old(inner) then Some((e.value, old(inner)[e.value])) else None
    {
      evicted := None;
      if k !in inner && |inner| >= capacity {
        if order != [] {
          var oldest := order[0];
          if oldest in inner {
            evicted := Some((oldest, inner[oldest]));
          }
          inner := inner - {oldest};
          order := Retained(order, oldest);
        }
      }
      if k !in inner {
        order := order + [k];
      }
      inner := inner[k := v];
    }

    method Remove(k: Path) returns (removed: Option<V>)
      modifies this
      ensures Value() == Removed(old(Value()), k)
      ensures removed == if k in old(inner) then Some(old(inner)[k]) else None
    {
      order := Retained(order, k);
      removed := if k in inner then Some(inner[k]) else None;
      inner := inner - {k};
    }
  }

  // ---- The pair ----

  datatype Pair = Pair(data: Lru<Entry>, meta: Lru<Meta>, bytes: nat)

  datatype Op = Insert(path: Path, data: seq<byte>, tags: set<string>) | Invalidate(path: Path)

  function SaturatingAdd(a: nat, b: nat): nat {
    if a + b > U64_MAX then U64_MAX else a + b
  }

  function SaturatingSub(a: nat, b: nat): nat {
    if a < b then 0 else a - b
  }

  function Next(p: Pair, op: Op): Pair {
    match op
    case Insert(path, data, tags) =>
      Pair(Inserted(p.data, path, Entry(data, tags)),
           Inserted(p.meta, path, Meta(|data|, tags)),
           SaturatingAdd(p.bytes, |data|))
    case Invalidate(path) =>
      Pair(Removed(p.data, path),
           Removed(p.meta, path),
           if path in p.data.inner then SaturatingSub(p.bytes, |p.data.inner[path].data|) else p.bytes)
  }

  class Cache {
    const data: LruCache<Entry>
    const metadata: LruCache<Meta>
    var currentBytes: nat

    ghost predicate Valid() {
      (data as object) != (metadata as object)
    }

    ghost function Value(): Pair
      reads this, data, metadata
    {
      Pair(data.Value(), metadata.Value(), currentBytes)
    }

    constructor (metadataCapacity: nat)
      ensures Valid() && fresh(data) && fresh(metadata)
      ensures Value() == Empty(metadataCapacity)
    {
      data := new LruCache<Entry>(DATA_CAPACITY);
      metadata := new LruCache<Meta>(metadataCapacity);
      currentBytes := 0;
    }

    method Insert(path: Path, bytes: seq<byte>, tags: set<string>)
      requires Valid()
      modifies this, data, metadata
      ensures Valid() && Value() == Next(old(Value()), Op.Insert(path, bytes, tags))
    {
      currentBytes := SaturatingAdd(currentBytes, |bytes|);
      var evicted := data.Insert(path, Entry(bytes, tags));
      var evictedMeta := metadata.Insert(path, Meta(|bytes|, tags));
    }

    method Invalidate(path: Path)
      requires Valid()
      modifies this, data, metadata
      ensures Valid() && Value() == Next(old(Value()), Op.Invalidate(path))
    {
      var removed := data.Remove(path);
      match removed {
        case Some(e) => currentBytes := SaturatingSub(currentBytes, |e.data|);
        case None =>
      }
      var removedMeta := metadata.Remove(path);
    }
  }

  // ---- Runs ----

  function Empty(metadataCapacity: nat): Pair {
    Pair(Lru(map[], [], DATA_CAPACITY), Lru(map[], [], if metadataCapacity == 0 then 1 else metadataCapacity), 0)
  }

  function Run(cap: nat, ops: seq<Op>): Pair {
    if ops == [] then Empty(cap) else Next(Run(cap, ops[..|ops| - 1]), ops[|ops| - 1])
  }

  predicate NoDup(s: seq<Path>) {
    forall i, j :: 0 <= i < j < |s| ==> s[i] != s[j]
  }

  /** The order lists exactly the cached paths, each once. */
  ghost predicate Ordered<V>(c: Lru<V>) {
    && NoDup(c.order)
    && (forall k :: k in c.inner <==> k in c.order)
    && |c.inner| == |c.order| <= c.capacity
  }

  lemma {:induction false} RetainedFacts(order: seq<Path>, k: Path)
    requires NoDup(order)
    ensures NoDup(Retained(order, k))
    ensures forall x :: x in Retained(order, k) <==> x in order && x != k
    ensures |Retained(order, k)| == |order| - if k in order then 1 else 0
    ensures order != [] && k == order[0] ==> Retained(order, k) == order[1..]
  {
    if order != [] {
      var rest := order[1..];
      RetainedFacts(rest, k);
      assert order == [order[0]] + rest;
      assert order[0] !in rest;
      if order[0] == k {
        RetainedAbsent(rest, k);
      }
    }
  }

  lemma {:induction false} RetainedAbsent(order: seq<Path>, k: Path)
    requires k !in order
    ensures Retained(order, k) == order
  {
    if order != [] {
      assert order == [order[0]] + order[1..];
      RetainedAbsent(order[1..], k);
    }
  }

  lemma RemovedOrdered<V>(c: Lru<V>, k: Path)
    requires Ordered(c)
    ensures Ordered(Removed(c, k))
  {
    RetainedFacts(c.order, k);
    var inner := c.inner - {k};
    assert inner.Keys == c.inner.Keys - {k};
    assert |inner.Keys| == |c.inner.Keys| - if k in c.inner then 1 else 0;
  }

  lemma PutOrdered<V>(c: Lru<V>, k: Path, v: V)
    requires Ordered(c) && (k in c.inner || |c.inner| < c.capacity)
    ensures Ordered(Lru(c.inner[k := v], if k in c.inner then c.order else c.order + [k], c.capacity))
  {
    var inner := c.inner[k := v];
    assert inner.Keys == c.inner.Keys + {k};
    assert |inner.Keys| == |c.inner.Keys| + if k in c.inner then 0 else 1;
  }

  lemma InsertedOrdered<V>(c: Lru<V>, k: Path, v: V)
    requires Ordered(c) && c.capacity >= 1
    ensures Ordered(Inserted(c, k, v))
    ensures Inserted(c, k, v).order ==
            if k in c.inner then c.order
            else if |c.order| >= c.capacity then c.order[1..] + [k] else c.order + [k]
  {
    if k !in c.inner && |c.inner| >= c.capacity {
      RemovedOrdered(c, c.order[0]);
      RetainedFacts(c.order, c.order[0]);
      PutOrdered(Removed(c, c.order[0]), k, v);
    } else {
      PutOrdered(c, k, v);
    }
  }

  lemma {:induction false} RunOrdered(cap: nat, ops: seq<Op>)
    ensures var p := Run(cap, ops);
            && Ordered(p.data) && p.data.capacity == DATA_CAPACITY
            && Ordered(p.meta) && p.meta.capacity == if cap == 0 then 1 else cap
  {
    if ops != [] {
      var front := ops[..|ops| - 1];
      var p := Run(cap, front);
      RunOrdered(cap, front);
      match ops[|ops| - 1]
      case Insert(path, data, tags) =>
        InsertedOrdered(p.data, path, Entry(data, tags));
        InsertedOrdered(p.meta, path, Meta(|data|, tags));
      case Invalidate(path) =>
        RemovedOrdered(p.data, path);
        RemovedOrdered(p.meta, path);
    }
  }

  // ---- Bytes ----

  function Lengths(m: map<Path, Entry>): map<Path, nat> {
    map k | k in m :: |m[k].data|
  }

  ghost function LiveBytes(c: Lru<Entry>): nat {
    Total(Lengths(c.inner))
  }

  function BytesAt(c: Lru<Entry>, k: Path): nat {
    if k in c.inner then |c.inner[k].data| else 0
  }

  /** Bytes of the entry an insert overwrites or evicts. */
  function LostBy(c: Lru<Entry>, k: Path): nat {
    BytesAt(c, k) + match Evictee(c, k) case Some(old') => BytesAt(c, old') case None => 0
  }

  function Lost(cap: nat, ops: seq<Op>): nat {
    if ops == [] then 0
    else
      var front, op := ops[..|ops| - 1], ops[|ops| - 1];
      Lost(cap, front) + if op.Insert? then LostBy(Run(cap, front).data, op.path) else 0
  }

  function InsertedBytes(ops: seq<Op>): nat {
    if ops == [] then 0
    else InsertedBytes(ops[..|ops| - 1]) + if ops[|ops| - 1].Insert? then |ops[|ops| - 1].data| else 0
  }

  lemma LivePut(inner: map<Path, Entry>, k: Path, e: Entry)
    ensures Total(Lengths(inner[k := e]))
         == Total(Lengths(inner)) - (if k in inner then |inner[k].data| else 0) + |e.data|
  {
    assert Lengths(inner[k := e]) == Lengths(inner)[k := |e.data|];
    TotalPut(Lengths(inner), k, |e.data|);
  }

  lemma LiveDrop(inner: map<Path, Entry>, k: Path)
    ensures Total(Lengths(inner - {k})) == Total(Lengths(inner)) - if k in inner then |inner[k].data| else 0
  {
    assert Lengths(inner - {k}) == Lengths(inner) - {k};
    TotalDrop(Lengths(inner), k);
  }

  lemma InsertedLive(c: Lru<Entry>, k: Path, e: Entry)
    ensures LiveBytes(Inserted(c, k, e)) + LostBy(c, k) == LiveBytes(c) + |e.data|
  {
    var old' := Evictee(c, k);
    if old'.Some? {
      LiveDrop(c.inner, old'.value);
      LivePut(c.inner - {old'.value}, k, e);
    } else {
      LivePut(c.inner, k, e);
    }
  }

  /** No addition in the run saturates. */
  predicate NeverFull(cap: nat, ops: seq<Op>) {
    forall k :: 0 <= k < |ops| ==> FitsAt(cap, ops, k)
  }

  predicate FitsAt(cap: nat, ops: seq<Op>, k: nat)
    requires k < |ops|
  {
    ops[k].Insert? ==> Run(cap, ops[..k]).bytes + |ops[k].data| <= U64_MAX
  }

  /** The count is the live bytes and everything ever overwritten or evicted. */
  ghost predicate Conserved(cap: nat, ops: seq<Op>) {
    Run(cap, ops).bytes == LiveBytes(Run(cap, ops).data) + Lost(cap, ops)
  }

  lemma LiveCovers(c: Lru<Entry>, path: Path)
    ensures BytesAt(c, path) <= LiveBytes(c)
  {
    LiveDrop(c.inner, path);
  }

  /** One operation keeps the count right unless it is an addition that saturates. */
  lemma StepConserves(cap: nat, ops: seq<Op>, op: Op)
    requires Conserved(cap, ops)
    ensures Conserved(cap, ops + [op]) <==> (op.Insert? ==> Run(cap, ops).bytes + |op.data| <= U64_MAX)
    ensures op.Invalidate? ==> BytesAt(Run(cap, ops).data, op.path) <= Run(cap, ops).bytes
  {
    var p := Run(cap, ops);
    assert (ops + [op])[..|ops|] == ops;
    match op
    case Insert(path, data, tags) =>
      InsertedLive(p.data, path, Entry(data, tags));
    case Invalidate(path) =>
      LiveDrop(p.data.inner, path);
      LiveCovers(p.data, path);
  }

  lemma NeverFullPrefix(cap: nat, ops: seq<Op>, n: nat)
    requires n <= |ops| && NeverFull(cap, ops)
    ensures NeverFull(cap, ops[..n])
  {
    forall k | 0 <= k < n
      ensures FitsAt(cap, ops[..n], k)
    {
      assert FitsAt(cap, ops, k) && ops[..n][..k] == ops[..k];
    }
  }

  lemma NothingConserved(cap: nat)
    ensures Conserved(cap, [])
  {
    assert Lengths(map[]) == map[];
  }

  lemma {:induction false} RunConserves(cap: nat, ops: seq<Op>)
    requires NeverFull(cap, ops)
    ensures Conserved(cap, ops)
  {
    if ops == [] {
      NothingConserved(cap);
    } else {
      var front, op := ops[..|ops| - 1], ops[|ops| - 1];
      NeverFullPrefix(cap, ops, |front|);
      RunConserves(cap, front);
      assert FitsAt(cap, ops, |front|) && front + [op] == ops;
      StepConserves(cap, front, op);
    }
  }

  /**
    Byte conservation: while no addition saturates, the count is the live bytes
    plus everything ever overwritten or evicted. So it never undercounts what is
    cached and no subtraction ever saturates.
  */
  lemma BytesConserved(cap: nat, ops: seq<Op>)
    requires NeverFull(cap, ops)
    ensures Conserved(cap, ops)
    ensures forall path :: BytesAt(Run(cap, ops).data, path) <= Run(cap, ops).bytes
  {
    RunConserves(cap, ops);
    forall path
      ensures BytesAt(Run(cap, ops).data, path) <= Run(cap, ops).bytes
    {
      LiveCovers(Run(cap, ops).data, path);
    }
  }

  ghost predicate AlwaysConserved(cap: nat, ops: seq<Op>) {
    forall n :: 0 <= n <= |ops| ==> Conserved(cap, ops[..n])
  }

  /** And that holds all through a run exactly when no addition in it saturates. */
  lemma ConservedExactly(cap: nat, ops: seq<Op>)
    ensures AlwaysConserved(cap, ops) <==> NeverFull(cap, ops)
  {
    if NeverFull(cap, ops) {
      forall n | 0 <= n <= |ops|
        ensures Conserved(cap, ops[..n])
      {
        NeverFullPrefix(cap, ops, n);
        BytesConserved(cap, ops[..n]);
      }
    }
    if AlwaysConserved(cap, ops) {
      forall k | 0 <= k < |ops|
        ensures FitsAt(cap, ops, k)
      {
        assert Conserved(cap, ops[..k]) && Conserved(cap, ops[..k + 1]);
        assert ops[..k + 1] == ops[..k] + [ops[k]];
        StepConserves(cap, ops[..k], ops[k]);
      }
    }
  }

  predicate LosesNothingAt(cap: nat, ops: seq<Op>, k: nat)
    requires k < |ops|
  {
    ops[k].Insert? ==> LostBy(Run(cap, ops[..k]).data, ops[k].path) == 0
  }

  lemma LosesNothingPrefix(cap: nat, ops: seq<Op>, n: nat, k: nat)
    requires k < n <= |ops|
    ensures LosesNothingAt(cap, ops[..n], k) <==> LosesNothingAt(cap, ops, k)
  {
    assert ops[..n][..k] == ops[..k] && ops[..n][k] == ops[k];
  }

  ghost predicate LosesNothing(cap: nat, ops: seq<Op>) {
    forall k :: 0 <= k < |ops| ==> LosesNothingAt(cap, ops, k)
  }

  lemma LosesNothingLast(cap: nat, ops: seq<Op>, n: nat)
    requires n + 1 == |ops|
    ensures LosesNothing(cap, ops) <==> LosesNothing(cap, ops[..n]) && LosesNothingAt(cap, ops, n)
  {
    forall k | 0 <= k < n
      ensures LosesNothingAt(cap, ops[..n], k) <==> LosesNothingAt(cap, ops, k)
    {
      LosesNothingPrefix(cap, ops, n, k);
    }
  }

  lemma {:induction false} NothingLost(cap: nat, ops: seq<Op>)
    ensures Lost(cap, ops) == 0 <==> LosesNothing(cap, ops)
  {
    if ops != [] {
      NothingLost(cap, ops[..|ops| - 1]);
      LosesNothingLast(cap, ops, |ops| - 1);
    }
  }

  /**
    The field is documented as the bytes held. That is so, in a run without
    saturation, exactly when no insert in it overwrote or evicted a byte.
  */
  lemma BytesHeldExactly(cap: nat, ops: seq<Op>)
    requires NeverFull(cap, ops)
    ensures Run(cap, ops).bytes == LiveBytes(Run(cap, ops).data) <==> LosesNothing(cap, ops)
  {
    BytesConserved(cap, ops);
    NothingLost(cap, ops);
  }

  lemma {:induction false} CountBelowInserted(cap: nat, ops: seq<Op>)
    ensures Run(cap, ops).bytes <= InsertedBytes(ops)
  {
    if ops != [] {
      CountBelowInserted(cap, ops[..|ops| - 1]);
    }
  }

  /** In particular while less than 2^64 bytes were ever inserted. */
  lemma SmallRunsNeverFull(cap: nat, ops: seq<Op>)
    requires InsertedBytes(ops) <= U64_MAX
    ensures NeverFull(cap, ops)
  {
    forall k | 0 <= k < |ops|
      ensures FitsAt(cap, ops, k)
    {
      InsertedGrows(ops, k + 1);
      assert ops[..k + 1][..k] == ops[..k];
      CountBelowInserted(cap, ops[..k]);
    }
  }

  lemma {:induction false} InsertedGrows(ops: seq<Op>, n: nat)
    requires n <= |ops|
    ensures InsertedBytes(ops[..n]) <= InsertedBytes(ops)
  {
    if n < |ops| {
      InsertedGrows(ops[..|ops| - 1], n);
      assert ops[..|ops| - 1][..n] == ops[..n];
    } else {
      assert ops[..n] == ops;
    }
  }

  // ---- Agreement of the two caches ----

  ghost predicate Agree(p: Pair) {
    forall k :: k in p.data.inner && k in p.meta.inner ==>
      p.meta.inner[k].size == |p.data.inner[k].data| && p.meta.inner[k].tags == p.data.inner[k].tags
  }

  lemma {:induction false} RunAgrees(cap: nat, ops: seq<Op>)
    ensures Agree(Run(cap, ops))
  {
    if ops != [] {
      RunAgrees(cap, ops[..|ops| - 1]);
    }
  }

  /** Position of the latest insert of the path, if it was not invalidated since. */
  function LatestInsert(ops: seq<Op>, path: Path): (i: Option<nat>)
    ensures i.Some? ==> i.value < |ops| && ops[i.value].Insert?
  {
    if ops == [] || ops[|ops| - 1] == Invalidate(path) then None
    else if ops[|ops| - 1].Insert? && ops[|ops| - 1].path == path then Some(|ops| - 1)
    else LatestInsert(ops[..|ops| - 1], path)
  }

  lemma InsertedHolds<V>(c: Lru<V>, k: Path, v: V, path: Path)
    ensures var inner := Inserted(c, k, v).inner;
            && (path == k ==> path in inner && inner[path] == v)
            && (path != k && path in inner ==> path in c.inner && inner[path] == c.inner[path])
  {
  }

  /** The path holds these bytes and tags in the data cache, if it is there, and their size and tags in the other. */
  predicate Holds(p: Pair, path: Path, data: seq<byte>, tags: set<string>) {
    && (path in p.data.inner ==> p.data.inner[path].data == data && p.data.inner[path].tags == tags)
    && (path in p.meta.inner ==> p.meta.inner[path].size == |data| && p.meta.inner[path].tags == tags)
  }

  predicate Absent(p: Pair, path: Path) {
    path !in p.data.inner && path !in p.meta.inner
  }

  /** What the last operation leaves of a path. */
  lemma StepHolds(p: Pair, op: Op, path: Path, data: seq<byte>, tags: set<string>)
    ensures op == Invalidate(path) ==> Absent(Next(p, op), path)
    ensures op == Insert(path, data, tags) ==> Holds(Next(p, op), path, data, tags)
    ensures op.Insert? && op.path == path ==> path in Next(p, op).data.inner && path in Next(p, op).meta.inner
    ensures op.path != path && Absent(p, path) ==> Absent(Next(p, op), path)
    ensures op.path != path && Holds(p, path, data, tags) ==> Holds(Next(p, op), path, data, tags)
  {
    if op.Insert? {
      InsertedHolds(p.data, op.path, Entry(op.data, op.tags), path);
      InsertedHolds(p.meta, op.path, Meta(|op.data|, op.tags), path);
    }
  }

  /**
    A path holds the bytes and tags of its latest insert, in either cache, and is in
    neither without one or once invalidated; a path just inserted is in both.
  */
  lemma {:induction false} HoldsLatestInsert(cap: nat, ops: seq<Op>, path: Path)
    ensures var p, i := Run(cap, ops), LatestInsert(ops, path);
            match i
            case None => Absent(p, path)
            case Some(i) =>
              && Holds(p, path, ops[i].data, ops[i].tags)
              && (i == |ops| - 1 ==> path in p.data.inner && path in p.meta.inner)
  {
    if ops != [] {
      var front, op := ops[..|ops| - 1], ops[|ops| - 1];
      HoldsLatestInsert(cap, front, path);
      var i := LatestInsert(ops, path);
      if i.Some? {
        StepHolds(Run(cap, front), op, path, ops[i.value].data, ops[i.value].tags);
      } else {
        StepHolds(Run(cap, front), op, path, [], {});
      }
    }
  }

  ghost predicate SamePaths(p: Pair) {
    p.data.inner.Keys == p.meta.inner.Keys
  }

  lemma SameOrderAfter(p: Pair, op: Op)
    requires Ordered(p.data) && Ordered(p.meta) && p.data.capacity == p.meta.capacity >= 1
    requires p.data.order == p.meta.order
    ensures Next(p, op).data.order == Next(p, op).meta.order
  {
    assert forall k :: k in p.data.inner <==> k in p.meta.inner;
    match op
    case Insert(path, data, tags) =>
      InsertedOrdered(p.data, path, Entry(data, tags));
      InsertedOrdered(p.meta, path, Meta(|data|, tags));
    case Invalidate(path) =>
  }

  lemma {:induction false} EqualCapacitySameOrder(cap: nat, ops: seq<Op>)
    requires cap == DATA_CAPACITY
    ensures Run(cap, ops).data.order == Run(cap, ops).meta.order && SamePaths(Run(cap, ops))
  {
    RunOrdered(cap, ops);
    if ops != [] {
      EqualCapacitySameOrder(cap, ops[..|ops| - 1]);
      RunOrdered(cap, ops[..|ops| - 1]);
      SameOrderAfter(Run(cap, ops[..|ops| - 1]), ops[|ops| - 1]);
    }
  }

  function PathNo(i: nat): Path {
    seq(i, _ => 'a')
  }

  function Fill(n: nat): seq<Op> {
    seq(n, i requires 0 <= i < n => Insert(PathNo(i), [], {}))
  }

  function Least(a: nat, b: nat): nat {
    if a <= b then a else b
  }

  /** A cache whose paths are all shorter than n, filled as far as n distinct paths can fill it. */
  ghost predicate FilledTo<V>(c: Lru<V>, n: nat) {
    Ordered(c) && c.capacity >= 1 && |c.order| == Least(n, c.capacity) && forall k :: k in c.order ==> |k| < n
  }

  lemma FillOne<V>(c: Lru<V>, n: nat, k: Path, v: V)
    requires FilledTo(c, n) && |k| == n
    ensures FilledTo(Inserted(c, k, v), n + 1)
  {
    InsertedOrdered(c, k, v);
    assert k !in c.order;
  }

  /** n distinct paths fill each cache up to its capacity. */
  ghost predicate PairFilled(p: Pair, cap: nat, n: nat) {
    && FilledTo(p.data, n) && p.data.capacity == DATA_CAPACITY
    && FilledTo(p.meta, n) && p.meta.capacity == if cap == 0 then 1 else cap
  }

  lemma FillStep(p: Pair, cap: nat, n: nat)
    requires PairFilled(p, cap, n)
    ensures PairFilled(Next(p, Insert(PathNo(n), [], {})), cap, n + 1)
  {
    FillOne(p.data, n, PathNo(n), Entry([], {}));
    FillOne(p.meta, n, PathNo(n), Meta(0, {}));
  }

  lemma {:induction false} Filled(cap: nat, n: nat)
    ensures PairFilled(Run(cap, Fill(n)), cap, n)
  {
    if n > 0 {
      Filled(cap, n - 1);
      FillStep(Run(cap, Fill(n - 1)), cap, n - 1);
      FillPrefix(n);
    }
  }

  lemma FillPrefix(n: nat)
    requires n > 0
    ensures Fill(n)[..|Fill(n)| - 1] == Fill(n - 1)
  {
  }

  /** The two caches hold the same paths in every run if and only if the metadata capacity is the data cache's 1024. */
  lemma SamePathsExactly(cap: nat)
    ensures (forall ops :: SamePaths(Run(cap, ops))) <==> cap == 1024
  {
    if cap == DATA_CAPACITY {
      forall ops
        ensures SamePaths(Run(cap, ops))
      {
        EqualCapacitySameOrder(cap, ops);
      }
    } else {
      var n := Least(DATA_CAPACITY, if cap == 0 then 1 else cap) + 1;
      var p := Run(cap, Fill(n));
      Filled(cap, n);
      assert |p.data.inner.Keys| != |p.meta.inner.Keys|;
      assert !SamePaths(Run(cap, Fill(n)));
    }
  }
}
