/**
  Hash-linked entry sequences and tamper evidence (hal/src/audit_log.rs, `verify`).

  Results read "equal, or two different strings among the ones actually hashed
  have one digest". Asking only that some colliding pair exists would say
  nothing: a 64-digit digest of arbitrary strings always has one.
*/
module AuditTamper {
  import opened Common
  import opened AuditFormat

  /** The head before entry i of a chain that starts from `start`. */
  function PrevHash(start: string, es: seq<AuditEntry>, i: nat): string
    requires i <= |es|
  {
    if i == 0 then start else es[i - 1].chainHash
  }

  function LastHash(start: string, es: seq<AuditEntry>): string {
    PrevHash(start, es, |es|)
  }

  /** What is hashed at position i of a chain that starts from `start`. */
  function InputAt(c: Codec, start: string, es: seq<AuditEntry>, i: nat): string
    requires i < |es|
  {
    HashInput(c, PrevHash(start, es, i), es[i])
  }

  predicate LinkAt(c: Codec, start: string, es: seq<AuditEntry>, i: nat)
    requires i < |es|
  {
    es[i].chainHash == c.digest(InputAt(c, start, es, i))
  }

  predicate Linked(c: Codec, start: string, es: seq<AuditEntry>) {
    forall i :: 0 <= i < |es| ==> LinkAt(c, start, es, i)
  }

  ghost function Inputs(c: Codec, start: string, es: seq<AuditEntry>): set<string> {
    set i | 0 <= i < |es| :: InputAt(c, start, es, i)
  }

  ghost predicate CollisionIn(c: Codec, hashed: set<string>) {
    exists x, y :: x in hashed && y in hashed && x != y && c.digest(x) == c.digest(y)
  }

  lemma LinkedPrefix(c: Codec, start: string, es: seq<AuditEntry>, k: nat)
    requires k <= |es| && Linked(c, start, es)
    ensures Linked(c, start, es[..k])
    ensures Inputs(c, start, es[..k]) <= Inputs(c, start, es)
  {
    forall i | 0 <= i < k
      ensures InputAt(c, start, es[..k], i) == InputAt(c, start, es, i)
      ensures LinkAt(c, start, es[..k], i)
    {
      assert LinkAt(c, start, es, i);
    }
  }

  function ShownAll(es: seq<AuditEntry>): seq<AuditEntry> {
    seq(|es|, i requires 0 <= i < |es| => Shown(es[i]))
  }

  /** Equal hashed inputs come from equal heads and entries that look equal (up to the hash field). */
  lemma HashInputInjective(c: Codec, p: string, d: AuditEntry, q: string, e: AuditEntry)
    requires ValidCodec(c) && |p| == 64 && |q| == 64
    requires HashInput(c, p, d) == HashInput(c, q, e)
    ensures p == q && Shown(d.(chainHash := "")) == Shown(e.(chainHash := ""))
  {
    var x, y := HashInput(c, p, d), HashInput(c, q, e);
    assert p == x[..64] == y[..64] == q;
    assert c.toJson(d.(chainHash := "")) == x[64..] == y[64..] == c.toJson(e.(chainHash := ""));
  }

  lemma ShownWithoutHash(d: AuditEntry)
    ensures Shown(d.(chainHash := "")) == Shown(d).(chainHash := "")
    ensures Shown(d).chainHash == d.chainHash
  {
  }

  lemma SameHashSameEntry(c: Codec, p: string, d: AuditEntry, q: string, e: AuditEntry)
    requires ValidCodec(c) && |p| == 64 && |q| == 64
    requires HashInput(c, p, d) == HashInput(c, q, e) && d.chainHash == e.chainHash
    ensures p == q && Shown(d) == Shown(e)
  {
    HashInputInjective(c, p, d, q, e);
    ShownWithoutHash(d);
    ShownWithoutHash(e);
    assert Shown(d) == Shown(d).(chainHash := "").(chainHash := d.chainHash);
    assert Shown(e) == Shown(e).(chainHash := "").(chainHash := e.chainHash);
  }

  lemma GenesisInputDiffers(c: Codec, p: string, e: AuditEntry)
    requires |p| == 64
    ensures HashInput(c, p, e) != GENESIS_INPUT
  {
    assert |HashInput(c, p, e)| >= 64 && |GENESIS_INPUT| == 15;
  }

  /** Every head of a chain started at the genesis digest is a digest. */
  lemma PrevHashIsDigest(c: Codec, es: seq<AuditEntry>, i: nat)
    requires ValidCodec(c) && i <= |es| && Linked(c, Genesis(c), es)
    ensures |PrevHash(Genesis(c), es, i)| == 64
  {
    if i > 0 {
      assert LinkAt(c, Genesis(c), es, i - 1);
    }
  }

  lemma CollisionMonotone(c: Codec, small: set<string>, big: set<string>)
    requires small <= big && CollisionIn(c, small)
    ensures CollisionIn(c, big)
  {
    var x, y :| x in small && y in small && x != y && c.digest(x) == c.digest(y);
    assert x in big && y in big;
  }

  lemma NoCollisionBelow(c: Codec, small: set<string>, big: set<string>)
    requires small <= big && !CollisionIn(c, big)
    ensures !CollisionIn(c, small)
  {
  }

  lemma SameInput(c: Codec, hashed: set<string>, x: string, y: string)
    requires !CollisionIn(c, hashed) && x in hashed && y in hashed
    requires c.digest(x) == c.digest(y)
    ensures x == y
  {
  }

  ghost function HashedBy(c: Codec, a: seq<AuditEntry>, b: seq<AuditEntry>): set<string> {
    {GENESIS_INPUT} + Inputs(c, Genesis(c), a) + Inputs(c, Genesis(c), b)
  }

  /**
    Tamper evidence: two chains from the genesis digest that end in the same head
    are the same chain, entry for entry and of the same length, but for which
    non-finite score an entry has, unless the inputs hashed for the two contain a
    colliding pair.
  */
  lemma {:induction false} TamperEvident(c: Codec, a: seq<AuditEntry>, b: seq<AuditEntry>)
    requires ValidCodec(c)
    requires Linked(c, Genesis(c), a) && Linked(c, Genesis(c), b)
    requires LastHash(Genesis(c), a) == LastHash(Genesis(c), b)
    ensures ShownAll(a) == ShownAll(b) || CollisionIn(c, HashedBy(c, a, b))
    decreases |a| + |b|
  {
    var g := Genesis(c);
    if a == [] && b == [] {
    } else if a == [] {
      LongerThanGenesis(c, b);
      CollisionMonotone(c, {GENESIS_INPUT} + Inputs(c, g, b), HashedBy(c, a, b));
    } else if b == [] {
      LongerThanGenesis(c, a);
      CollisionMonotone(c, {GENESIS_INPUT} + Inputs(c, g, a), HashedBy(c, a, b));
    } else if !CollisionIn(c, HashedBy(c, a, b)) {
      var m, n := |a| - 1, |b| - 1;
      SameLastEntry(c, a, b);
      LinkedPrefix(c, g, a, m);
      LinkedPrefix(c, g, b, n);
      NoCollisionBelow(c, HashedBy(c, a[..m], b[..n]), HashedBy(c, a, b));
      TamperEvident(c, a[..m], b[..n]);
      SnocEqual(a, b);
    }
  }

  lemma SnocEqual(a: seq<AuditEntry>, b: seq<AuditEntry>)
    requires a != [] && b != []
    requires ShownAll(a[..|a| - 1]) == ShownAll(b[..|b| - 1]) && Shown(a[|a| - 1]) == Shown(b[|b| - 1])
    ensures ShownAll(a) == ShownAll(b)
  {
    assert ShownAll(a) == ShownAll(a[..|a| - 1]) + [Shown(a[|a| - 1])];
    assert ShownAll(b) == ShownAll(b[..|b| - 1]) + [Shown(b[|b| - 1])];
  }

  lemma SameLastEntry(c: Codec, a: seq<AuditEntry>, b: seq<AuditEntry>)
    requires ValidCodec(c) && a != [] && b != []
    requires Linked(c, Genesis(c), a) && Linked(c, Genesis(c), b)
    requires LastHash(Genesis(c), a) == LastHash(Genesis(c), b)
    requires !CollisionIn(c, HashedBy(c, a, b))
    ensures Shown(a[|a| - 1]) == Shown(b[|b| - 1])
    ensures LastHash(Genesis(c), a[..|a| - 1]) == LastHash(Genesis(c), b[..|b| - 1])
  {
    var g, m, n := Genesis(c), |a| - 1, |b| - 1;
    LastIsHashed(c, a);
    LastIsHashed(c, b);
    SameInput(c, HashedBy(c, a, b), InputAt(c, g, a, m), InputAt(c, g, b, n));
    SameHashSameEntry(c, PrevHash(g, a, m), a[m], PrevHash(g, b, n), b[n]);
    PrefixHead(g, a);
    PrefixHead(g, b);
  }

  lemma PrefixHead(g: string, a: seq<AuditEntry>)
    requires a != []
    ensures LastHash(g, a[..|a| - 1]) == PrevHash(g, a, |a| - 1)
  {
  }

  lemma LastIsHashed(c: Codec, a: seq<AuditEntry>)
    requires ValidCodec(c) && a != [] && Linked(c, Genesis(c), a)
    ensures var m := |a| - 1;
            && InputAt(c, Genesis(c), a, m) in Inputs(c, Genesis(c), a)
            && a[m].chainHash == c.digest(InputAt(c, Genesis(c), a, m))
            && |PrevHash(Genesis(c), a, m)| == 64
  {
    assert LinkAt(c, Genesis(c), a, |a| - 1);
    PrevHashIsDigest(c, a, |a| - 1);
  }

  /** A non-empty chain cannot end in the genesis digest without a collision. */
  lemma LongerThanGenesis(c: Codec, es: seq<AuditEntry>)
    requires ValidCodec(c) && es != [] && Linked(c, Genesis(c), es)
    requires LastHash(Genesis(c), es) == Genesis(c)
    ensures CollisionIn(c, {GENESIS_INPUT} + Inputs(c, Genesis(c), es))
  {
    var m := |es| - 1;
    var x := InputAt(c, Genesis(c), es, m);
    PrevHashIsDigest(c, es, m);
    GenesisInputDiffers(c, PrevHash(Genesis(c), es, m), es[m]);
    assert x in Inputs(c, Genesis(c), es);
    assert LinkAt(c, Genesis(c), es, m);
  }

  // ---- The check that `verify` makes of a file ----

  datatype VerifyResult = VerifyResult(valid: bool, brokenAt: Option<nat>)

  predicate Parseable(c: Codec, lines: seq<string>) {
    forall i :: 0 <= i < |lines| ==> c.fromJson(lines[i]).Some?
  }

  function Parsed(c: Codec, lines: seq<string>): seq<AuditEntry>
    requires Parseable(c, lines)
  {
    seq(|lines|, i requires 0 <= i < |lines| => c.fromJson(lines[i]).value)
  }

  /** The first k lines parse and are linked from the genesis digest. */
  predicate SoundPrefix(c: Codec, lines: seq<string>, k: nat)
    requires k <= |lines|
  {
    Parseable(c, lines[..k]) && Linked(c, Genesis(c), Parsed(c, lines[..k]))
  }

  predicate Accepts(c: Codec, lines: seq<string>, tip: string) {
    && Parseable(c, lines)
    && Linked(c, Genesis(c), Parsed(c, lines))
    && LastHash(Genesis(c), Parsed(c, lines)) == tip
  }

  lemma LinkedSnoc(c: Codec, start: string, es: seq<AuditEntry>, e: AuditEntry)
    requires Linked(c, start, es)
    ensures LastHash(start, es + [e]) == e.chainHash
    ensures Linked(c, start, es + [e]) <==> e.chainHash == c.digest(HashInput(c, LastHash(start, es), e))
    ensures Inputs(c, start, es + [e]) == Inputs(c, start, es) + {HashInput(c, LastHash(start, es), e)}
  {
    var long, n := es + [e], |es|;
    forall i | 0 <= i < n
      ensures InputAt(c, start, long, i) == InputAt(c, start, es, i)
      ensures LinkAt(c, start, long, i) == LinkAt(c, start, es, i)
    {
    }
    assert InputAt(c, start, long, n) == HashInput(c, LastHash(start, es), e);
    if Linked(c, start, long) {
      assert LinkAt(c, start, long, n);
    }
    forall x
      ensures x in Inputs(c, start, long) <==> x in Inputs(c, start, es) + {InputAt(c, start, long, n)}
    {
      if x in Inputs(c, start, es) {
        var i :| 0 <= i < n && x == InputAt(c, start, es, i);
        assert x == InputAt(c, start, long, i);
      }
    }
  }

  lemma SoundExtend(c: Codec, lines: seq<string>, k: nat)
    requires k < |lines| && SoundPrefix(c, lines, k)
    ensures SoundPrefix(c, lines, k + 1) <==>
            && c.fromJson(lines[k]).Some?
            && var e := c.fromJson(lines[k]).value;
            e.chainHash == c.digest(HashInput(c, LastHash(Genesis(c), Parsed(c, lines[..k])), e))
    ensures SoundPrefix(c, lines, k + 1) ==>
              LastHash(Genesis(c), Parsed(c, lines[..k + 1])) == c.fromJson(lines[k]).value.chainHash
  {
    var long := lines[..k + 1];
    assert long[k] == lines[k];
    assert forall i :: 0 <= i < k ==> long[i] == lines[..k][i];
    if c.fromJson(lines[k]).Some? {
      var e := c.fromJson(lines[k]).value;
      assert Parseable(c, long);
      assert Parsed(c, long) == Parsed(c, lines[..k]) + [e];
      LinkedSnoc(c, Genesis(c), Parsed(c, lines[..k]), e);
    }
  }

  /** The loop of `verify`: accepts exactly the sound files, and otherwise names the first bad line. */
  method CheckChain(c: Codec, lines: seq<string>, tip: string) returns (r: VerifyResult)
    ensures r.valid <==> Accepts(c, lines, tip)
    ensures r.valid ==> r.brokenAt == None
    ensures !r.valid ==>
              && r.brokenAt.Some?
              && 1 <= r.brokenAt.value <= |lines| + 1
              && SoundPrefix(c, lines, r.brokenAt.value - 1)
              && (r.brokenAt.value <= |lines| ==> !SoundPrefix(c, lines, r.brokenAt.value))
  {
    var prev := Genesis(c);
    var k := 0;
    while k < |lines|
      invariant 0 <= k <= |lines|
      invariant SoundPrefix(c, lines, k)
      invariant prev == LastHash(Genesis(c), Parsed(c, lines[..k]))
    {
      SoundExtend(c, lines, k);
      if !SoundPrefix(c, lines, k + 1) {
        AcceptsNeedsSound(c, lines, tip, k + 1);
      }
      match c.fromJson(lines[k]) {
        case None =>
          return VerifyResult(false, Some(k + 1));
        case Some(entry) =>
          var expected := c.digest(HashInput(c, prev, entry));
          if entry.chainHash != expected {
            return VerifyResult(false, Some(k + 1));
          }
          prev := entry.chainHash;
      }
      k := k + 1;
    }
    assert lines[..k] == lines;
    if prev != tip {
      return VerifyResult(false, Some(k + 1));
    }
    return VerifyResult(true, None);
  }

  lemma AcceptsNeedsSound(c: Codec, lines: seq<string>, tip: string, k: nat)
    requires k <= |lines| && !SoundPrefix(c, lines, k)
    ensures !Accepts(c, lines, tip)
  {
    if Accepts(c, lines, tip) {
      assert Parseable(c, lines[..k]);
      assert Parsed(c, lines[..k]) == Parsed(c, lines)[..k];
      LinkedPrefix(c, Genesis(c), Parsed(c, lines), k);
    }
  }

  lemma {:induction false} ShownLinks(c: Codec, start: string, a: seq<AuditEntry>, b: seq<AuditEntry>, i: nat)
    requires ValidCodec(c) && ShownAll(a) == ShownAll(b) && i < |a|
    ensures |a| == |b| && PrevHash(start, a, i) == PrevHash(start, b, i)
    ensures LinkAt(c, start, a, i) == LinkAt(c, start, b, i) && InputAt(c, start, a, i) == InputAt(c, start, b, i)
    ensures a[i].chainHash == b[i].chainHash
  {
    assert |ShownAll(a)| == |a| && |ShownAll(b)| == |b|;
    assert ShownAll(a)[i] == Shown(a[i]) && ShownAll(b)[i] == Shown(b[i]);
    ShownWithoutHash(a[i]);
    ShownWithoutHash(b[i]);
    if i > 0 {
      assert ShownAll(a)[i - 1] == Shown(a[i - 1]) && ShownAll(b)[i - 1] == Shown(b[i - 1]);
    }
  }

  /** Files whose entries look alike fare alike. */
  lemma ShownAlikeAccepted(c: Codec, a: seq<string>, b: seq<string>, tip: string)
    requires ValidCodec(c) && Parseable(c, a) && Parseable(c, b)
    requires ShownAll(Parsed(c, a)) == ShownAll(Parsed(c, b)) && Accepts(c, a, tip)
    ensures Accepts(c, b, tip)
  {
    var x, y := Parsed(c, a), Parsed(c, b);
    assert |x| == |ShownAll(x)| == |ShownAll(y)| == |y|;
    forall i | 0 <= i < |y|
      ensures LinkAt(c, Genesis(c), y, i)
    {
      assert LinkAt(c, Genesis(c), x, i);
      ShownLinks(c, Genesis(c), x, y, i);
    }
    if y != [] {
      ShownLinks(c, Genesis(c), x, y, |y| - 1);
    }
  }

  /**
    What the check can tell apart: next to a file that passes against a persisted
    tip, another parseable file passes against the same tip exactly when it holds
    the same entries but for which non-finite score an entry has; the exception
    is a digest collision.
  */
  lemma TamperEvidentFiles(c: Codec, a: seq<string>, b: seq<string>, tip: string)
    requires ValidCodec(c) && Accepts(c, a, tip) && Parseable(c, b)
    ensures ShownAll(Parsed(c, a)) == ShownAll(Parsed(c, b)) ==> Accepts(c, b, tip)
    ensures Accepts(c, b, tip) ==>
              || ShownAll(Parsed(c, a)) == ShownAll(Parsed(c, b))
              || CollisionIn(c, HashedBy(c, Parsed(c, a), Parsed(c, b)))
  {
    if ShownAll(Parsed(c, a)) == ShownAll(Parsed(c, b)) {
      ShownAlikeAccepted(c, a, b, tip);
    }
    if Accepts(c, b, tip) {
      TamperEvident(c, Parsed(c, a), Parsed(c, b));
    }
  }

  /** In particular a file with finite scores is told from every other. */
  lemma FiniteFilesTold(c: Codec, a: seq<string>, b: seq<string>, tip: string)
    requires ValidCodec(c) && Accepts(c, a, tip) && Accepts(c, b, tip)
    requires AllFinite(Parsed(c, a))
    ensures Parsed(c, a) == Parsed(c, b) || CollisionIn(c, HashedBy(c, Parsed(c, a), Parsed(c, b)))
  {
    TamperEvident(c, Parsed(c, a), Parsed(c, b));
    if ShownAll(Parsed(c, a)) == ShownAll(Parsed(c, b)) {
      FiniteShownEqual(Parsed(c, a), Parsed(c, b));
    }
  }

  predicate AllFinite(es: seq<AuditEntry>) {
    forall i :: 0 <= i < |es| ==> FiniteScore(es[i])
  }

  lemma FiniteShownEqual(a: seq<AuditEntry>, b: seq<AuditEntry>)
    requires AllFinite(a) && ShownAll(a) == ShownAll(b)
    ensures a == b
  {
    assert |a| == |ShownAll(a)| == |ShownAll(b)| == |b|;
    forall i | 0 <= i < |a|
      ensures a[i] == b[i]
    {
      assert ShownAll(a)[i] == Shown(a[i]) && ShownAll(b)[i] == Shown(b[i]);
    }
  }

  /**
    The check promises to report tampered entries, but an overflowing score can be
    changed to another unnoticed: one-line files whose lines parse to +inf and
    -inf (as `1e39` and `-1e39` do) and carry the hash of either both pass
    against that hash.
  */
  lemma InfinityChangeUnnoticed(c: Codec, e: AuditEntry, line: string, line': string)
    requires ValidCodec(c) && e.halScore == Some(Infinite(true))
    requires e.chainHash == c.digest(HashInput(c, Genesis(c), e))
    requires c.fromJson(line) == Some(e) && c.fromJson(line') == Some(e.(halScore := Some(Infinite(false))))
    ensures Accepts(c, [line], e.chainHash) && Accepts(c, [line'], e.chainHash)
    ensures Parsed(c, [line]) != Parsed(c, [line'])
  {
    assert Parsed(c, [line]) == [e];
    assert LinkAt(c, Genesis(c), [e], 0);
    var f := e.(halScore := Some(Infinite(false)));
    assert Parsed(c, [line']) == [f];
    assert ShownAll([e]) == [Shown(e)] == [Shown(f)] == ShownAll([f]);
    ShownAlikeAccepted(c, [line], [line'], e.chainHash);
  }
}
