/**
  Quorum tracking (cluster/src/quorum.rs): decisions taken at different times of
  one run, and when their respondent sets must share a member.
*/
module Quorum {
  import opened Common
  import opened Floats

  type NodeId = string

  datatype Kind = Majority | Supermajority(frac: F32) | All

  const EPOCHS := 0x1_0000_0000_0000_0000

  datatype Tracker = Tracker(members: set<NodeId>, live: set<NodeId>, failed: set<NodeId>, kind: Kind, epoch: nat)

  /** The units of `frac.clamp(0.0, 1.0)`. A NaN stays one; its products are cast to 0, as those of 0.0 are. */
  function ClampedUnits(frac: F32): nat {
    match frac
    case Finite(units) => if units < 0 then 0 else if units > ONE then ONE else units
    case NegativeZero => 0
    case Infinite(positive) => if positive then ONE else 0
    case NotANumber => 0
  }

  /** `ceil`, of a number of units. */
  function Ceil(units: nat): nat {
    (units + ONE - 1) / ONE
  }

  function Product(n: nat, units: nat): nat {
    n * units
  }

  /** `((n as f32) * frac).ceil() as usize`: both the conversion and the product round. */
  function SuperSize(n: nat, frac: F32): nat {
    Ceil(Rounded(Product(Rounded(n), ClampedUnits(frac))))
  }

  /** `quorum_size` for n members. */
  function Threshold(kind: Kind, n: nat): nat {
    match kind
    case Majority => n / 2 + 1
    case Supermajority(frac) => SuperSize(n, frac)
    case All => n
  }

  /** A fraction that is an f32. */
  predicate ValidKind(kind: Kind) {
    kind.Supermajority? && kind.frac.Finite? && kind.frac.units >= 0 ==> Representable(kind.frac.units)
  }

  predicate AboveHalf(frac: F32) {
    match frac
    case Finite(units) => 2 * units > ONE
    case Infinite(positive) => positive
    case _ => false
  }

  predicate Accepted(t: Tracker, respondents: set<NodeId>) {
    |respondents * t.live| >= Threshold(t.kind, |t.members|)
  }

  /** Live and failed nodes partition the members. */
  predicate Partitioned(t: Tracker) {
    t.live + t.failed == t.members && t.live * t.failed == {}
  }

  function New(members: set<NodeId>): Tracker {
    Tracker(members, members, {}, Majority, 0)
  }

  datatype Step =
    | MarkAlive(node: NodeId)
    | MarkFailed(node: NodeId)
    | Reconfigure(updated: set<NodeId>)
    | SetKind(to: Kind)

  function Next(t: Tracker, s: Step): Tracker {
    match s
    case MarkAlive(n) => if n in t.failed then t.(failed := t.failed - {n}, live := t.live + {n}) else t
    case MarkFailed(n) => if n in t.live then t.(live := t.live - {n}, failed := t.failed + {n}) else t
    case Reconfigure(m) => t.(members := m, live := m, failed := {}, epoch := (t.epoch + 1) % EPOCHS)
    case SetKind(k) => t.(kind := k)
  }

  function Run(t: Tracker, steps: seq<Step>): Tracker {
    if steps == [] then t else Next(Run(t, steps[..|steps| - 1]), steps[|steps| - 1])
  }

  class QuorumTracker {
    var members: set<NodeId>
    var live: set<NodeId>
    var failed: set<NodeId>
    var kind: Kind
    var epoch: nat

    ghost function State(): Tracker
      reads this
    {
      Tracker(members, live, failed, kind, epoch)
    }

    constructor (members: set<NodeId>)
      ensures State() == New(members)
    {
      this.members, live, failed, kind, epoch := members, members, {}, Majority, 0;
    }

    method QuorumSize() returns (q: nat)
      ensures q == Threshold(kind, |members|)
    {
      match kind
      case Majority => q := |members| / 2 + 1;
      case Supermajority(frac) => q := SuperSize(|members|, frac);
      case All => q := |members|;
    }

    method HasQuorum(respondents: set<NodeId>) returns (ok: bool)
      ensures ok == Accepted(State(), respondents)
    {
      var needed := QuorumSize();
      ok := |respondents * live| >= needed;
    }

    method MarkAlive(node: NodeId)
      modifies this
      ensures State() == Next(old(State()), Step.MarkAlive(node))
    {
      if node in failed {
        failed := failed - {node};
        live := live + {node};
      }
    }

    method MarkFailed(node: NodeId)
      modifies this
      ensures State() == Next(old(State()), Step.MarkFailed(node))
    {
      if node in live {
        live := live - {node};
        failed := failed + {node};
      }
    }

    method Reconfigure(updated: set<NodeId>)
      modifies this
      ensures State() == Next(old(State()), Step.Reconfigure(updated))
    {
      members, live, failed := updated, updated, {};
      epoch := (epoch + 1) % EPOCHS;
    }
  }

  // ---- Runs ----

  lemma {:induction false} RunKeepsPartition(t: Tracker, steps: seq<Step>)
    requires Partitioned(t)
    ensures Partitioned(Run(t, steps))
  {
    if steps != [] {
      RunKeepsPartition(t, steps[..|steps| - 1]);
    }
  }

  // What a run comes to, told from its steps alone: the membership is the last one
  // configured, and a member's state is the last mark on it since then.

  function MembersAfter(members: set<NodeId>, steps: seq<Step>): set<NodeId> {
    if steps == [] then members
    else if steps[|steps| - 1].Reconfigure? then steps[|steps| - 1].updated
    else MembersAfter(members, steps[..|steps| - 1])
  }

  /** Is the last mark on the node since the last reconfiguration a failure? */
  predicate LastMarkedFailed(steps: seq<Step>, node: NodeId) {
    if steps == [] then false
    else
      match steps[|steps| - 1]
      case MarkAlive(n) => n != node && LastMarkedFailed(steps[..|steps| - 1], node)
      case MarkFailed(n) => n == node || LastMarkedFailed(steps[..|steps| - 1], node)
      case Reconfigure(_) => false
      case SetKind(_) => LastMarkedFailed(steps[..|steps| - 1], node)
  }

  /** Every mark on a member takes effect, and nothing else does. */
  lemma {:induction false} MarksDecide(members: set<NodeId>, steps: seq<Step>, node: NodeId)
    ensures var t, m := Run(New(members), steps), MembersAfter(members, steps);
            && t.members == m
            && (node in t.failed <==> node in m && LastMarkedFailed(steps, node))
            && (node in t.live <==> node in m && !LastMarkedFailed(steps, node))
  {
    if steps != [] {
      MarksDecide(members, steps[..|steps| - 1], node);
    }
  }

  function Counting(members: set<NodeId>, steps: seq<Step>, respondents: set<NodeId>): set<NodeId> {
    set n | n in respondents && n in MembersAfter(members, steps) && !LastMarkedFailed(steps, n)
  }

  /** So a decision counts the respondents that are members and not last marked failed, and nobody else. */
  lemma CountedRespondents(members: set<NodeId>, steps: seq<Step>, respondents: set<NodeId>)
    ensures var t := Run(New(members), steps);
            Accepted(t, respondents) <==>
            |Counting(members, steps, respondents)| >= Threshold(t.kind, |MembersAfter(members, steps)|)
  {
    var t := Run(New(members), steps);
    MarksDecide(members, steps, "");
    forall n
      ensures n in respondents * t.live <==> n in Counting(members, steps, respondents)
    {
      MarksDecide(members, steps, n);
    }
    assert respondents * t.live == Counting(members, steps, respondents);
  }

  predicate KeepsKind(steps: seq<Step>) {
    forall i :: 0 <= i < |steps| ==> !steps[i].SetKind?
  }

  function Reconfigurations(steps: seq<Step>): nat {
    if steps == [] then 0
    else Reconfigurations(steps[..|steps| - 1]) + if steps[|steps| - 1].Reconfigure? then 1 else 0
  }

  lemma {:induction false} EpochCounts(t: Tracker, steps: seq<Step>)
    requires t.epoch < EPOCHS
    ensures Run(t, steps).epoch == (t.epoch + Reconfigurations(steps)) % EPOCHS
    ensures Reconfigurations(steps) == 0 ==> Run(t, steps).members == t.members
    ensures KeepsKind(steps) ==> Run(t, steps).kind == t.kind
  {
    if steps != [] {
      var front := steps[..|steps| - 1];
      EpochCounts(t, front);
      if KeepsKind(steps) {
        assert KeepsKind(front) && !steps[|steps| - 1].SetKind?;
      }
    }
  }

  // ---- Counting ----

  lemma {:induction false} Overlap(a: set<NodeId>, b: set<NodeId>, all: set<NodeId>)
    requires a <= all && b <= all && |a| + |b| > |all|
    ensures a * b != {}
  {
    if a * b == {} {
      assert |a + b| == |a| + |b|;
      SubsetSize(a + b, all);
    }
  }

  lemma {:induction false} SubsetSize(a: set<NodeId>, b: set<NodeId>)
    requires a <= b
    ensures |a| <= |b|
  {
    assert b == a + (b - a);
    assert |b| == |a| + |b - a|;
  }

  lemma {:induction false} PickSubset(s: set<NodeId>, n: nat) returns (r: set<NodeId>)
    requires n <= |s|
    ensures r <= s && |r| == n
    decreases n
  {
    if n == 0 {
      r := {};
    } else {
      var x :| x in s;
      r := PickSubset(s - {x}, n - 1);
      r := r + {x};
    }
  }

  // ---- What a threshold asks for ----

  lemma DivLeast(a: nat, b: nat, q: nat)
    requires b > 0
    ensures q >= (a + b - 1) / b <==> q * b >= a
  {
    var c := (a + b - 1) / b;
    DivMod(a + b - 1, b);
    MultiplesApart(c, q, b);
    MultiplesApart(q, c, b);
  }

  lemma CeilLeast(units: nat, q: nat)
    ensures q >= Ceil(units) <==> Product(q, ONE) >= units
  {
    DivLeast(units, ONE, q);
  }

  /**
    Each threshold is the least that does its job: more than half, at least the
    rounded product with the fraction, everyone.
  */
  lemma ThresholdLeast(kind: Kind, n: nat, q: nat)
    ensures q >= Threshold(kind, n) <==>
            match kind
            case Majority => 2 * q > n
            case Supermajority(frac) => Product(q, ONE) >= Rounded(Product(Rounded(n), ClampedUnits(frac)))
            case All => q >= n
  {
    if kind.Supermajority? {
      CeilLeast(Rounded(Product(Rounded(n), ClampedUnits(kind.frac))), q);
    }
  }

  lemma SmallRepresentable(n: nat)
    requires n <= SIGNIFICAND
    ensures Representable(n) && Representable(Product(n, ONE)) && Rounded(n) == n
  {
    RoundedIs(n);
    Scaled(n, 149);
  }

  /** Up to 2^24, rounding moves no number across a whole one. */
  lemma CeilOfRounded(n: nat, units: nat)
    requires n <= SIGNIFICAND && units <= Product(n, ONE)
    ensures Ceil(units) <= n && Ceil(units) - 1 <= Ceil(Rounded(units)) <= Ceil(units)
    ensures Ceil(Rounded(units)) < Ceil(units) <==>
            Ceil(units) > 0 && Rounded(units) == Product(Ceil(units) - 1, ONE)
  {
    var exact := Ceil(units);
    CeilLeast(units, n);
    CeilLeast(units, exact);
    SmallRepresentable(exact);
    RoundedAtMost(units, Product(exact, ONE));
    CeilLeast(Rounded(units), exact);
    if exact > 0 {
      CeilLeast(units, exact - 1);
      SmallRepresentable(exact - 1);
      RoundedAtLeast(Product(exact - 1, ONE), units);
      CeilLeast(Rounded(units), exact - 1);
      if exact > 1 {
        CeilLeast(Rounded(units), exact - 2);
        WholeApart(exact - 2);
      }
    }
  }

  lemma WholeApart(k: nat)
    ensures Product(k + 1, ONE) == Product(k, ONE) + ONE
  {
    MultiplesApart(k, k + 1, ONE);
  }

  lemma ProductAtMost(n: nat, units: nat)
    requires units <= ONE
    ensures Product(n, units) <= Product(n, ONE)
  {
    MulLe(units, ONE, n);
  }

  /**
    What rounding does to a supermajority of up to 2^24 members: it never raises
    the exact threshold, and lowers it, by one, exactly when the product rounds
    down to the whole number below.
  */
  lemma RoundingLowersExactly(n: nat, frac: F32)
    requires n <= SIGNIFICAND
    ensures var units := Product(n, ClampedUnits(frac));
            && Ceil(units) - 1 <= SuperSize(n, frac) <= Ceil(units) <= n
            && (SuperSize(n, frac) < Ceil(units) <==>
                  Ceil(units) > 0 && Rounded(units) == Product(Ceil(units) - 1, ONE))
  {
    SmallRepresentable(n);
    ProductAtMost(n, ClampedUnits(frac));
    CeilOfRounded(n, Product(n, ClampedUnits(frac)));
  }

  /**
    When a majority can be had at all, in every run: exactly while fewer than half
    of the members are failed. Respondents that are not live never help.
  */
  lemma MajorityReachableExactly(start: Tracker, steps: seq<Step>)
    requires Partitioned(start)
    ensures var t := Run(start, steps);
            t.kind == Majority ==> ((exists a :: Accepted(t, a)) <==> 2 * |t.failed| < |t.members|)
  {
    var t := Run(start, steps);
    RunKeepsPartition(start, steps);
    assert |t.members| == |t.live| + |t.failed|;
    if t.kind == Majority {
      if a :| Accepted(t, a) {
        SubsetSize(a * t.live, t.live);
      }
      if 2 * |t.failed| < |t.members| {
        assert t.live * t.live == t.live;
        assert Accepted(t, t.live);
      }
    }
  }

  // ---- Intersection within one configuration ----

  /** Any two sets that trackers t and u accept share a node. */
  ghost predicate AlwaysMeet(t: Tracker, u: Tracker) {
    forall a: set<NodeId>, b: set<NodeId> :: Accepted(t, a) && Accepted(u, b) ==> a * b != {}
  }

  lemma MeetWhenLarge(t: Tracker, u: Tracker, a: set<NodeId>, b: set<NodeId>)
    requires Partitioned(t) && Partitioned(u) && Accepted(t, a) && Accepted(u, b)
    requires Threshold(t.kind, |t.members|) + Threshold(u.kind, |u.members|) > |t.members + u.members|
    ensures a * b * (t.members + u.members) != {}
  {
    var x, y := a * t.live, b * u.live;
    Overlap(x, y, t.members + u.members);
    var n :| n in x * y;
    assert n in a * b * (t.members + u.members);
  }

  /** A supermajority strictly above one half, a majority and unanimity all need more than half of n > 0 members. */
  lemma MoreThanHalf(kind: Kind, n: nat)
    requires n > 0 && ValidKind(kind) && (kind.Supermajority? ==> AboveHalf(kind.frac))
    ensures 2 * Threshold(kind, n) > n
  {
    match kind
    case Majority =>
    case All =>
    case Supermajority(frac) =>
      SuperAboveHalf(n, frac);
  }

  /** Rounding never undoes a fraction above one half, however many the members are. */
  lemma SuperAboveHalf(n: nat, frac: F32)
    requires n > 0 && ValidKind(Supermajority(frac)) && AboveHalf(frac)
    ensures 2 * SuperSize(n, frac) > n
  {
    var u, h, q := ClampedUnits(frac), Pow2(148), SuperSize(n, frac);
    Pow2Representable(149);
    HalfOfOne();
    ProductAbove(n, u, 125, h);
    CeilLeast(Rounded(Product(Rounded(n), u)), q);
    TwiceAbove(n, q, h);
  }

  lemma TwiceAbove(n: nat, q: nat, h: nat)
    requires ONE == 2 * h && Product(q, ONE) > n * h
    ensures 2 * q > n
  {
    MulDouble(q, h);
    MulAssoc(2, q, h);
    if 2 * q <= n {
      MulLe(2 * q, n, h);
      assert false;
    }
  }

  lemma HalfOfOne()
    ensures ONE == 2 * Pow2(148)
  {
  }

  /**
    Intersection over a run: respondents accepted at two points of one run, at the
    same epoch number and with fewer than 2^64 reconfigurations between, share a
    member - whatever was marked alive or failed on the way.
  */
  lemma QuorumsIntersect(start: Tracker, steps: seq<Step>, a: set<NodeId>, b: set<NodeId>)
    requires Partitioned(start) && start.epoch < EPOCHS && start.members != {}
    requires ValidKind(start.kind) && (start.kind.Supermajority? ==> AboveHalf(start.kind.frac))
    requires KeepsKind(steps) && Reconfigurations(steps) < EPOCHS
    requires Run(start, steps).epoch == start.epoch
    requires Accepted(start, a) && Accepted(Run(start, steps), b)
    ensures a * b * start.members != {}
  {
    EpochCounts(start, steps);
    assert Reconfigurations(steps) == 0;
    RunKeepsPartition(start, steps);
    var n := |start.members|;
    assert n > 0;
    MoreThanHalf(start.kind, n);
    assert start.members + start.members == start.members;
    MeetWhenLarge(start, Run(start, steps), a, b);
  }

  /** Across one `reconfigure` that adds or removes one node, majorities still intersect. */
  lemma MajorityAcrossOneNode(t: Tracker, updated: set<NodeId>, node: NodeId, before: seq<Step>, after: seq<Step>,
                              a: set<NodeId>, b: set<NodeId>)
    requires Partitioned(t) && t.epoch < EPOCHS && t.kind == Majority
    requires KeepsKind(before) && KeepsKind(after) && Reconfigurations(before) == Reconfigurations(after) == 0
    requires updated == t.members + {node} || updated == t.members - {node}
    requires Accepted(Run(t, before), a)
    requires Accepted(Run(Next(Run(t, before), Step.Reconfigure(updated)), after), b)
    ensures a * b * (t.members + updated) != {}
  {
    var u := Run(t, before);
    var v := Next(u, Step.Reconfigure(updated));
    EpochCounts(t, before);
    EpochCounts(v, after);
    RunKeepsPartition(t, before);
    RunKeepsPartition(v, after);
    OneNodeSizes(t.members, updated, node);
    MeetWhenLarge(u, Run(v, after), a, b);
  }

  lemma OneNodeSizes(m: set<NodeId>, k: set<NodeId>, node: NodeId)
    requires k == m + {node} || k == m - {node}
    ensures Threshold(Majority, |m|) + Threshold(Majority, |k|) > |m + k|
  {
    if node in m && k == m - {node} {
      assert m + k == m && |k| == |m| - 1;
    } else if node !in m && k == m + {node} {
      assert m + k == k && |k| == |m| + 1;
    } else {
      assert k == m && m + k == k;
    }
  }

  /**
    The exact condition, whatever is marked failed in either tracker: any two sets
    they accept intersect if and only if one of them has too few live nodes to
    accept anything, or the two thresholds together exceed the number of nodes
    live in either.
  */
  lemma MeetExactly(t: Tracker, u: Tracker)
    ensures var p, q := Threshold(t.kind, |t.members|), Threshold(u.kind, |u.members|);
            AlwaysMeet(t, u) <==> p > |t.live| || q > |u.live| || p + q > |t.live + u.live|
  {
    var p, q := Threshold(t.kind, |t.members|), Threshold(u.kind, |u.members|);
    if p > |t.live| || q > |u.live| || p + q > |t.live + u.live| {
      forall a, b | Accepted(t, a) && Accepted(u, b)
        ensures a * b != {}
      {
        SubsetSize(a * t.live, t.live);
        SubsetSize(b * u.live, u.live);
        Overlap(a * t.live, b * u.live, t.live + u.live);
        var n :| n in (a * t.live) * (b * u.live);
        assert n in a * b;
      }
    } else {
      var a, b := DisjointPick(t.live, u.live, p, q);
      assert a * t.live == a && b * u.live == b;
      assert Accepted(t, a) && Accepted(u, b);
    }
  }

  /**
    With every node live before and after a change of membership or policy, and
    both thresholds within reach: sets accepted on the two sides always intersect
    if and only if the two thresholds together exceed the number of nodes in
    either membership.
  */
  lemma AllLiveMeetExactly(members: set<NodeId>, updated: set<NodeId>, kind: Kind, kind': Kind)
    requires Threshold(kind, |members|) <= |members| && Threshold(kind', |updated|) <= |updated|
    ensures AlwaysMeet(New(members).(kind := kind), New(updated).(kind := kind')) <==>
            Threshold(kind, |members|) + Threshold(kind', |updated|) > |members + updated|
  {
    MeetExactly(New(members).(kind := kind), New(updated).(kind := kind'));
  }

  /** Disjoint p-subset of m and q-subset of k, preferring for the first the nodes that only m has. */
  lemma DisjointPick(m: set<NodeId>, k: set<NodeId>, p: nat, q: nat) returns (a: set<NodeId>, b: set<NodeId>)
    requires p <= |m| && q <= |k| && p + q <= |m + k|
    ensures a <= m && b <= k && |a| == p && |b| == q && a * b == {}
  {
    var own := m - k;
    if p <= |own| {
      a := PickSubset(own, p);
      b := PickSubset(k, q);
    } else {
      assert m == own + m * k && |m| == |own| + |m * k|;
      var rest := PickSubset(m * k, p - |own|);
      a := own + rest;
      assert own * rest == {};
      assert |a| == p;
      assert m + k == own + k && |m + k| == |own| + |k|;
      assert |k - rest| == |k| - |rest|;
      b := PickSubset(k - rest, q);
    }
  }

  /** Thresholds of a non-empty membership are within reach, up to 2^24 members. */
  lemma ThresholdAttainable(kind: Kind, n: nat)
    requires n > 0 && (kind.Supermajority? ==> n <= SIGNIFICAND)
    ensures Threshold(kind, n) <= n
  {
    if kind.Supermajority? {
      RoundingLowersExactly(n, kind.frac);
    }
  }

  /** In one configuration: two accepted sets always meet if and only if the threshold exceeds half the members. */
  lemma OneConfigurationExactly(members: set<NodeId>, kind: Kind)
    requires members != {}
    ensures var t := New(members).(kind := kind);
            AlwaysMeet(t, t) <==> 2 * Threshold(kind, |members|) > |members|
  {
    assert members + members == members;
    MeetExactly(New(members).(kind := kind), New(members).(kind := kind));
  }

  /** Replacing the whole membership can accept two disjoint sets: nothing carries over. */
  lemma DisjointReconfiguration(old': set<NodeId>, updated: set<NodeId>)
    requires old' != {} && updated != {} && old' * updated == {}
    ensures !AlwaysMeet(New(old'), Next(New(old'), Step.Reconfigure(updated)))
  {
    ThresholdAttainable(Majority, |old'|);
    ThresholdAttainable(Majority, |updated|);
    assert |old' + updated| == |old'| + |updated|;
    MeetExactly(New(old'), Next(New(old'), Step.Reconfigure(updated)));
  }

  // ---- What rounding can do ----

  lemma DivModIs(n: nat, q: nat, r: nat, g: nat)
    requires g > 0 && r < g && n == q * g + r
    ensures n / g == q && n % g == r
  {
    DivMod(n, g);
    MultiplesApart(q, n / g, g);
    MultiplesApart(n / g, q, g);
  }

  /** 11184811 * 2^-24, the f32 nearest to two thirds. */
  const TWO_THIRDS := Finite(11184811 * Pow2(125))

  lemma ThreeTimesTwoThirds(p: nat)
    requires p == Pow2(125)
    ensures ONE == SIGNIFICAND * p && Rounded(33554433 * p) == 2 * ONE
  {
    HalfOfOne();
    Pow2Shift(125);
    assert Pow2(127) == 2 * Pow2(126) == 4 * p;
    GridIs(33554433 * p, 127);
    DivModIs(33554433 * p, SIGNIFICAND / 2, p, 4 * p);
  }

  /** Two of three members make a two-thirds majority, though the fraction, being above 2/3, exactly asks for three. */
  lemma TwoThirdsOfThree()
    ensures ValidKind(Supermajority(TWO_THIRDS)) && AboveHalf(TWO_THIRDS)
    ensures Ceil(Product(3, ClampedUnits(TWO_THIRDS))) == 3 && SuperSize(3, TWO_THIRDS) == 2
  {
    var p := Pow2(125);
    ThreeTimesTwoThirds(p);
    TwoThirdsUnits(p);
    ThreeNeedsThree(p, Product(3, ClampedUnits(TWO_THIRDS)));
    RoundingLowersExactly(3, TWO_THIRDS);
  }

  lemma TwoThirdsUnits(p: nat)
    requires p == Pow2(125) && ONE == SIGNIFICAND * p
    ensures ClampedUnits(TWO_THIRDS) == 11184811 * p && AboveHalf(TWO_THIRDS)
    ensures Representable(11184811 * p) && Product(3, ClampedUnits(TWO_THIRDS)) == 33554433 * p
  {
    Scaled(11184811, 125);
  }

  lemma ThreeNeedsThree(p: nat, units: nat)
    requires p > 0 && ONE == SIGNIFICAND * p && units == 33554433 * p
    ensures Ceil(units) == 3 && Product(2, ONE) == 2 * ONE
  {
    CeilLeast(units, 2);
    CeilLeast(units, 3);
  }

  /** Beyond 2^24 members rounding can put even a fraction of 1.0 out of reach. */
  lemma EveryoneIsNotEnough()
    ensures SuperSize(SIGNIFICAND + 3, Finite(ONE)) == SIGNIFICAND + 4
  {
    var n := SIGNIFICAND + 3;
    assert Pow2(1) == 2 * Pow2(0) == 2;
    GridIs(n, 1);
    assert Rounded(n) == n + 1;
    WholeThreshold(n + 1, n);
  }

  lemma WholeThreshold(m: nat, n: nat)
    requires Rounded(n) == m
    ensures SuperSize(n, Finite(ONE)) == m
  {
    RoundedIs(n);
    WholeStays(m);
    CeilOfWhole(m);
  }

  lemma WholeStays(m: nat)
    requires Representable(m)
    ensures Rounded(Product(m, ONE)) == Product(m, ONE)
  {
    Scaled(m, 149);
    RoundedNear(Product(m, ONE));
  }

  lemma CeilOfWhole(m: nat)
    ensures Ceil(Product(m, ONE)) == m
  {
    CeilLeast(Product(m, ONE), m);
    if m > 0 {
      CeilLeast(Product(m, ONE), m - 1);
      WholeApart(m - 1);
    }
  }
}
