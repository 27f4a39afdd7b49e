/**
  The in-memory typed chain (hal/src/audit_chain.rs). Chains are those grown from
  `new()`. As in module AuditFormat the digest is any function into 32 bytes, and
  the JSON printer any one that tells entries apart up to scores printed as `null`.
*/
module AuditChain {
  import opened Common
  import opened AuditFormat

  datatype Record = Record(
    id: int,
    ts: int,
    agent: string,
    action: string,
    halScore: Option<Score>,
    halLevel: Option<string>,
    metadata: map<string, string>)

  datatype ChainedEntry = ChainedEntry(seqNo: nat, prevHash: seq<byte>, entry: Record, entryHash: seq<byte>)

  datatype ChainVerdict = ChainVerdict(valid: bool, brokenAt: Option<nat>, inspected: nat)

  datatype ChainCodec = ChainCodec(digest: seq<byte> -> seq<byte>, toJson: Record -> seq<byte>)

  /** "cognos-audit-v1" */
  const GENESIS_SEED: seq<byte> := [99, 111, 103, 110, 111, 115, 45, 97, 117, 100, 105, 116, 45, 118, 49]

  /** The file log and the chain hash the same genesis input. */
  lemma SameGenesis()
    ensures |GENESIS_SEED| == |GENESIS_INPUT|
    ensures forall i :: 0 <= i < |GENESIS_SEED| ==> GENESIS_SEED[i] == GENESIS_INPUT[i] as int
  {
  }

  /** An absent score and a non-finite one both print as `null`. */
  function Printable(e: Record): Record {
    if e.halScore.Some? && !IsFinite(e.halScore.value) then e.(halScore := None) else e
  }

  ghost predicate ValidCodec(c: ChainCodec) {
    && (forall s :: |c.digest(s)| == 32)
    && (forall e, f :: c.toJson(e) == c.toJson(f) <==> Printable(e) == Printable(f))
  }

  function GenesisHash(c: ChainCodec): seq<byte> {
    c.digest(GENESIS_SEED)
  }

  function ComputeHash(c: ChainCodec, prev: seq<byte>, e: Record): seq<byte> {
    c.digest(prev + c.toJson(e))
  }

  function PrevOf(c: ChainCodec, entries: seq<ChainedEntry>, i: nat): seq<byte>
    requires i <= |entries|
  {
    if i == 0 then GenesisHash(c) else entries[i - 1].entryHash
  }

  /** Entry i continues the entry before it and carries its own hash. */
  predicate Good(c: ChainCodec, entries: seq<ChainedEntry>, i: nat)
    requires i < |entries|
  {
    && entries[i].prevHash == PrevOf(c, entries, i)
    && entries[i].entryHash == ComputeHash(c, entries[i].prevHash, entries[i].entry)
  }

  predicate AllGood(c: ChainCodec, entries: seq<ChainedEntry>) {
    forall i :: 0 <= i < |entries| ==> Good(c, entries, i)
  }

  predicate FirstBad(c: ChainCodec, entries: seq<ChainedEntry>, k: nat) {
    k < |entries| && !Good(c, entries, k) && forall i :: 0 <= i < k ==> Good(c, entries, i)
  }

  /** The loop of `verify`: accepts exactly the good chains, and otherwise names the first bad entry. */
  method CheckEntries(c: ChainCodec, entries: seq<ChainedEntry>) returns (r: ChainVerdict)
    ensures r.valid <==> AllGood(c, entries)
    ensures r.valid ==> r.brokenAt == None && r.inspected == |entries|
    ensures !r.valid ==>
              && 1 <= r.inspected <= |entries|
              && FirstBad(c, entries, r.inspected - 1)
              && r.brokenAt == Some(entries[r.inspected - 1].seqNo)
  {
    var prev := GenesisHash(c);
    var k := 0;
    while k < |entries|
      invariant 0 <= k <= |entries|
      invariant prev == PrevOf(c, entries, k)
      invariant forall i :: 0 <= i < k ==> Good(c, entries, i)
    {
      var chained := entries[k];
      k := k + 1;
      if chained.prevHash != prev {
        assert !Good(c, entries, k - 1);
        return ChainVerdict(false, Some(chained.seqNo), k);
      }
      var recomputed := ComputeHash(c, chained.prevHash, chained.entry);
      if recomputed != chained.entryHash {
        assert !Good(c, entries, k - 1);
        return ChainVerdict(false, Some(chained.seqNo), k);
      }
      prev := chained.entryHash;
    }
    return ChainVerdict(true, None, k);
  }

  datatype Chain = Chain(entries: seq<ChainedEntry>, head: seq<byte>)

  function Appended(c: ChainCodec, chain: Chain, e: Record): Chain {
    var h := ComputeHash(c, chain.head, e);
    Chain(chain.entries + [ChainedEntry(|chain.entries|, chain.head, e, h)], h)
  }

  /** The chain grown from `new()` by appending the records in order. */
  function Grown(c: ChainCodec, records: seq<Record>): Chain {
    if records == [] then Chain([], GenesisHash(c))
    else Appended(c, Grown(c, records[..|records| - 1]), records[|records| - 1])
  }

  class AuditChain {
    const codec: ChainCodec
    var entries: seq<ChainedEntry>
    var headHash: seq<byte>

    ghost function State(): Chain
      reads this
    {
      Chain(entries, headHash)
    }

    constructor (codec: ChainCodec)
      ensures this.codec == codec && State() == Grown(codec, [])
    {
      this.codec := codec;
      entries := [];
      headHash := codec.digest(GENESIS_SEED);
    }

    method Append(e: Record) returns (seqNo: nat)
      modifies this
      ensures State() == Appended(codec, old(State()), e) && seqNo == |old(entries)|
    {
      seqNo := |entries|;
      var prevHash := headHash;
      var entryHash := ComputeHash(codec, prevHash, e);
      headHash := entryHash;
      entries := entries + [ChainedEntry(seqNo, prevHash, e, entryHash)];
    }

    method Verify() returns (r: ChainVerdict)
      ensures r.valid <==> AllGood(codec, entries)
      ensures !r.valid ==>
                && 1 <= r.inspected <= |entries|
                && FirstBad(codec, entries, r.inspected - 1)
                && r.brokenAt == Some(entries[r.inspected - 1].seqNo)
    {
      r := CheckEntries(codec, entries);
    }
  }

  /** Every grown chain verifies, numbers its entries by position and keeps its last hash as head. */
  lemma {:induction false} GrownIsGood(c: ChainCodec, records: seq<Record>)
    ensures var chain := Grown(c, records);
            && |chain.entries| == |records|
            && AllGood(c, chain.entries)
            && chain.head == PrevOf(c, chain.entries, |records|)
            && forall i :: 0 <= i < |records| ==>
              chain.entries[i].seqNo == i && chain.entries[i].entry == records[i]
  {
    if records != [] {
      var n := |records| - 1;
      var small, chain := Grown(c, records[..n]), Grown(c, records);
      GrownIsGood(c, records[..n]);
      assert chain.entries[..n] == small.entries;
      forall i | 0 <= i < n
        ensures Good(c, chain.entries, i)
      {
        assert Good(c, small.entries, i);
      }
      assert Good(c, chain.entries, n);
    }
  }

  predicate Collide(c: ChainCodec, x: seq<byte>, y: seq<byte>) {
    x != y && c.digest(x) == c.digest(y)
  }

  /**
    Localisation: in a good chain, replacing only the payload of entry k leaves
    the chain good exactly when the new payload prints the same; otherwise entry k
    is the first, and only, bad one - or the two payloads hashed at k collide.
  */
  lemma TamperLocalised(c: ChainCodec, entries: seq<ChainedEntry>, k: nat, e: Record)
    requires ValidCodec(c) && AllGood(c, entries) && k < |entries|
    ensures var bad := entries[k := entries[k].(entry := e)];
            var prev := entries[k].prevHash;
            && (Printable(e) == Printable(entries[k].entry) ==> AllGood(c, bad))
            && (Printable(e) != Printable(entries[k].entry) ==>
                  || (FirstBad(c, bad, k) && forall i :: 0 <= i < |bad| && i != k ==> Good(c, bad, i))
                  || Collide(c, prev + c.toJson(e), prev + c.toJson(entries[k].entry)))
  {
    var bad := entries[k := entries[k].(entry := e)];
    var prev := entries[k].prevHash;
    forall i | 0 <= i < |bad| && i != k
      ensures Good(c, bad, i)
    {
      assert Good(c, entries, i);
    }
    assert Good(c, entries, k);
    var x, y := prev + c.toJson(e), prev + c.toJson(entries[k].entry);
    assert x[|prev|..] == c.toJson(e) && y[|prev|..] == c.toJson(entries[k].entry);
  }

  function Payloads(entries: seq<ChainedEntry>): seq<Record> {
    seq(|entries|, i requires 0 <= i < |entries| => Printable(entries[i].entry))
  }

  ghost function Hashed(c: ChainCodec, entries: seq<ChainedEntry>): set<seq<byte>> {
    {GENESIS_SEED} + set i | 0 <= i < |entries| :: entries[i].prevHash + c.toJson(entries[i].entry)
  }

  ghost predicate CollisionIn(c: ChainCodec, hashed: set<seq<byte>>) {
    exists x, y :: x in hashed && y in hashed && Collide(c, x, y)
  }

  lemma SameDigest(c: ChainCodec, hashed: set<seq<byte>>, x: seq<byte>, y: seq<byte>)
    requires !CollisionIn(c, hashed) && x in hashed && y in hashed && c.digest(x) == c.digest(y)
    ensures x == y
  {
    if x != y {
      assert Collide(c, x, y);
    }
  }

  lemma NoCollisionBelow(c: ChainCodec, small: set<seq<byte>>, big: set<seq<byte>>)
    requires small <= big && !CollisionIn(c, big)
    ensures !CollisionIn(c, small)
  {
  }

  lemma LastInput(c: ChainCodec, entries: seq<ChainedEntry>)
    requires ValidCodec(c) && AllGood(c, entries) && entries != []
    ensures var last := entries[|entries| - 1];
            && |last.prevHash| == 32 && last.prevHash == PrevOf(c, entries, |entries| - 1)
            && last.entryHash == c.digest(last.prevHash + c.toJson(last.entry))
            && last.prevHash + c.toJson(last.entry) in Hashed(c, entries)
            && last.prevHash + c.toJson(last.entry) != GENESIS_SEED
  {
    var n := |entries| - 1;
    assert Good(c, entries, n);
    if n > 0 {
      assert Good(c, entries, n - 1);
    }
    assert |GENESIS_SEED| == 15;
  }

  lemma GoodPrefix(c: ChainCodec, entries: seq<ChainedEntry>, k: nat)
    requires AllGood(c, entries) && k <= |entries|
    ensures AllGood(c, entries[..k]) && Hashed(c, entries[..k]) <= Hashed(c, entries)
    ensures PrevOf(c, entries[..k], k) == PrevOf(c, entries, k)
  {
    forall i | 0 <= i < k
      ensures Good(c, entries[..k], i)
    {
      assert Good(c, entries, i);
    }
    forall x | x in Hashed(c, entries[..k])
      ensures x in Hashed(c, entries)
    {
      if x != GENESIS_SEED {
        var i :| 0 <= i < k && x == entries[..k][i].prevHash + c.toJson(entries[..k][i].entry);
        assert x == entries[i].prevHash + c.toJson(entries[i].entry);
      }
    }
  }

  /** Two good chains with the same last hash carry the same payloads, or their hashed inputs collide. */
  lemma {:induction false} SameHeadSamePayloads(c: ChainCodec, a: seq<ChainedEntry>, b: seq<ChainedEntry>)
    requires ValidCodec(c) && AllGood(c, a) && AllGood(c, b)
    requires PrevOf(c, a, |a|) == PrevOf(c, b, |b|)
    ensures Payloads(a) == Payloads(b) || CollisionIn(c, Hashed(c, a) + Hashed(c, b))
    decreases |a| + |b|
  {
    var all := Hashed(c, a) + Hashed(c, b);
    if a == [] || b == [] {
      EmptyOrCollision(c, a, b);
    } else if !CollisionIn(c, all) {
      SameLast(c, a, b);
      var a', b' := a[..|a| - 1], b[..|b| - 1];
      GoodPrefix(c, a, |a| - 1);
      GoodPrefix(c, b, |b| - 1);
      NoCollisionBelow(c, Hashed(c, a') + Hashed(c, b'), all);
      SameHeadSamePayloads(c, a', b');
      PayloadsSnoc(a);
      PayloadsSnoc(b);
    }
  }

  lemma EmptyOrCollision(c: ChainCodec, a: seq<ChainedEntry>, b: seq<ChainedEntry>)
    requires ValidCodec(c) && AllGood(c, a) && AllGood(c, b) && (a == [] || b == [])
    requires PrevOf(c, a, |a|) == PrevOf(c, b, |b|)
    ensures Payloads(a) == Payloads(b) || CollisionIn(c, Hashed(c, a) + Hashed(c, b))
  {
    if b != [] {
      NotGenesis(c, b, Hashed(c, a) + Hashed(c, b));
    } else if a != [] {
      NotGenesis(c, a, Hashed(c, a) + Hashed(c, b));
    }
  }

  lemma PayloadsSnoc(a: seq<ChainedEntry>)
    requires a != []
    ensures Payloads(a) == Payloads(a[..|a| - 1]) + [Printable(a[|a| - 1].entry)]
  {
  }

  /** A non-empty good chain whose last hash is the genesis hash shows a collision. */
  lemma NotGenesis(c: ChainCodec, a: seq<ChainedEntry>, hashed: set<seq<byte>>)
    requires ValidCodec(c) && AllGood(c, a) && a != [] && PrevOf(c, a, |a|) == GenesisHash(c)
    requires Hashed(c, a) <= hashed
    ensures CollisionIn(c, hashed)
  {
    var last := a[|a| - 1];
    LastInput(c, a);
    assert Collide(c, GENESIS_SEED, last.prevHash + c.toJson(last.entry));
  }

  lemma SameLast(c: ChainCodec, a: seq<ChainedEntry>, b: seq<ChainedEntry>)
    requires ValidCodec(c) && AllGood(c, a) && AllGood(c, b) && a != [] && b != []
    requires PrevOf(c, a, |a|) == PrevOf(c, b, |b|)
    requires !CollisionIn(c, Hashed(c, a) + Hashed(c, b))
    ensures Printable(a[|a| - 1].entry) == Printable(b[|b| - 1].entry)
    ensures PrevOf(c, a, |a| - 1) == PrevOf(c, b, |b| - 1)
  {
    var d, e := a[|a| - 1], b[|b| - 1];
    LastInput(c, a);
    LastInput(c, b);
    var x, y := d.prevHash + c.toJson(d.entry), e.prevHash + c.toJson(e.entry);
    SameDigest(c, Hashed(c, a) + Hashed(c, b), x, y);
    assert d.prevHash == x[..32] == y[..32] == e.prevHash;
    assert c.toJson(d.entry) == x[32..] == y[32..] == c.toJson(e.entry);
  }
}
