/**
  The policy table (hal/src/governance_kernel.rs): a table kept sorted by priority
  and scanned for the first match, against the policies installed by a history.
*/
module GovernanceKernel {
  import opened Common

  datatype Effect = Allow | Deny | Ask | Log

  datatype Condition =
    | Always
    | ActionEquals(s: string)
    | AgentEquals(s: string)
    | RiskAtLeast(t: F32)
    | And(a: Condition, b: Condition)
    | Or(a: Condition, b: Condition)

  datatype Request = Request(agent: string, actionType: string, target: string, risk: F32)

  datatype Policy = Policy(id: int, priority: int, condition: Condition, effect: Effect, description: string)

  datatype InstallError = DuplicatePolicy | InvalidPriority

  /** What a verdict's reason text is made from. */
  datatype Reason = MatchedPolicy(description: string, priority: int) | NoMatchingPolicy

  datatype Verdict = Verdict(effect: Effect, policyId: Option<int>, reason: Reason, at: int)

  function Matches(c: Condition, r: Request): bool {
    match c
    case Always => true
    case ActionEquals(s) => r.actionType == s
    case AgentEquals(s) => r.agent == s
    case RiskAtLeast(t) => AtMost(t, r.risk)
    case And(a, b) => Matches(a, r) && Matches(b, r)
    case Or(a, b) => Matches(a, r) || Matches(b, r)
  }

  /** Raising only the risk of a request never makes a condition stop matching. */
  lemma {:induction false} MatchesMonotone(c: Condition, r: Request, risk: F32)
    requires AtMost(r.risk, risk) && Matches(c, r)
    ensures Matches(c, r.(risk := risk))
  {
    match c
    case And(a, b) =>
      MatchesMonotone(a, r, risk);
      MatchesMonotone(b, r, risk);
    case Or(a, b) =>
      if Matches(a, r) {
        MatchesMonotone(a, r, risk);
      } else {
        MatchesMonotone(b, r, risk);
      }
    case _ =>
  }

  /** Which field of a request each condition looks at, and how; a conjunction needs both, a disjunction either. */
  lemma MatchesMeans(c: Condition, d: Condition, r: Request, s: string, t: F32)
    ensures Matches(Always, r)
    ensures Matches(ActionEquals(s), r) <==> s == r.actionType
    ensures Matches(AgentEquals(s), r) <==> s == r.agent
    ensures Matches(RiskAtLeast(t), r) <==> AtMost(t, r.risk)
    ensures Matches(And(c, d), r) <==> !(Matches(c, r) ==> !Matches(d, r))
    ensures Matches(Or(c, d), r) <==> (!Matches(c, r) ==> Matches(d, r))
  {
  }

  datatype Field = ActionField | AgentField | RiskField

  /** The fields a condition names. */
  function Fields(c: Condition): set<Field> {
    match c
    case Always => {}
    case ActionEquals(_) => {ActionField}
    case AgentEquals(_) => {AgentField}
    case RiskAtLeast(_) => {RiskField}
    case And(a, b) => Fields(a) + Fields(b)
    case Or(a, b) => Fields(a) + Fields(b)
  }

  /** A condition depends on nothing but the fields it names; the target never matters. */
  lemma {:induction false} DependsOnNamedFields(c: Condition, r: Request, q: Request)
    requires ActionField in Fields(c) ==> r.actionType == q.actionType
    requires AgentField in Fields(c) ==> r.agent == q.agent
    requires RiskField in Fields(c) ==> r.risk == q.risk
    ensures Matches(c, r) == Matches(c, q)
  {
    if c.And? || c.Or? {
      DependsOnNamedFields(c.a, r, q);
      DependsOnNamedFields(c.b, r, q);
    }
  }

  // ---- Stable sorting by descending priority ----

  predicate Descending(ps: seq<Policy>) {
    forall i, j :: 0 <= i < j < |ps| ==> ps[i].priority >= ps[j].priority
  }

  function OfPriority(ps: seq<Policy>, x: int): seq<Policy> {
    if ps == [] then []
    else if ps[0].priority == x then [ps[0]] + OfPriority(ps[1..], x)
    else OfPriority(ps[1..], x)
  }

  /** `table` is `live` sorted by priority, with equal priorities left in their order. */
  ghost predicate StableSortOf(table: seq<Policy>, live: seq<Policy>) {
    Descending(table) && forall x :: OfPriority(table, x) == OfPriority(live, x)
  }

  function InsertAfterEquals(t: seq<Policy>, p: Policy): seq<Policy> {
    if t == [] then [p]
    else if t[0].priority >= p.priority then [t[0]] + InsertAfterEquals(t[1..], p)
    else [p] + t
  }

  /** `sort_by` with the priorities compared in reverse; a stable sort, so its result is this one (UniqueStableSort). */
  function Sorted(ps: seq<Policy>): seq<Policy> {
    if ps == [] then [] else InsertAfterEquals(Sorted(ps[..|ps| - 1]), ps[|ps| - 1])
  }

  lemma {:induction false} OfPrioritySplit(a: seq<Policy>, b: seq<Policy>, x: int)
    ensures OfPriority(a + b, x) == OfPriority(a, x) + OfPriority(b, x)
  {
    if a == [] {
      assert a + b == b;
    } else {
      OfPrioritySplit(a[1..], b, x);
      assert (a + b)[1..] == a[1..] + b;
    }
  }

  lemma {:induction false} OfPriorityMembers(ps: seq<Policy>, x: int)
    ensures forall p :: p in OfPriority(ps, x) <==> p in ps && p.priority == x
  {
    if ps != [] {
      OfPriorityMembers(ps[1..], x);
      assert ps == [ps[0]] + ps[1..];
    }
  }

  lemma {:induction false} InsertKeepsOrder(t: seq<Policy>, p: Policy)
    requires Descending(t)
    ensures Descending(InsertAfterEquals(t, p))
    ensures forall q :: q in InsertAfterEquals(t, p) <==> q in t || q == p
  {
    if t != [] {
      assert t == [t[0]] + t[1..];
      if t[0].priority >= p.priority {
        InsertKeepsOrder(t[1..], p);
        forall q | q in InsertAfterEquals(t[1..], p)
          ensures t[0].priority >= q.priority
        {
          if q != p {
            var j :| 0 <= j < |t[1..]| && t[1..][j] == q;
            assert t[j + 1] == q;
          }
        }
      }
    }
  }

  lemma {:induction false} InsertIsStable(t: seq<Policy>, p: Policy, x: int)
    requires Descending(t)
    ensures OfPriority(InsertAfterEquals(t, p), x) == OfPriority(t, x) + if p.priority == x then [p] else []
  {
    if t == [] {
      assert OfPriority([p], x) == if p.priority == x then [p] else [];
    } else if t[0].priority >= p.priority {
      InsertIsStable(t[1..], p, x);
    } else {
      assert ([p] + t)[1..] == t;
      NoneOfPriority(t, p.priority);
    }
  }

  lemma {:induction false} NoneOfPriority(t: seq<Policy>, x: int)
    requires Descending(t) && (t == [] || t[0].priority < x)
    ensures OfPriority(t, x) == []
  {
    if t != [] {
      NoneOfPriority(t[1..], x);
    }
  }

  lemma {:induction false} SortedIsStable(ps: seq<Policy>)
    ensures StableSortOf(Sorted(ps), ps)
  {
    if ps != [] {
      var front, p := ps[..|ps| - 1], ps[|ps| - 1];
      SortedIsStable(front);
      assert ps == front + [p];
      InsertKeepsOrder(Sorted(front), p);
      forall x
        ensures OfPriority(Sorted(ps), x) == OfPriority(ps, x)
      {
        InsertIsStable(Sorted(front), p, x);
        OfPrioritySplit(front, [p], x);
        assert OfPriority([p], x) == if p.priority == x then [p] else [];
      }
    }
  }

  lemma SameMembers(a: seq<Policy>, b: seq<Policy>, p: Policy)
    requires forall x :: OfPriority(a, x) == OfPriority(b, x)
    ensures p in a <==> p in b
  {
    OfPriorityMembers(a, p.priority);
    OfPriorityMembers(b, p.priority);
  }

  lemma SameHead(a: seq<Policy>, b: seq<Policy>)
    requires StableSortOf(a, b) && Descending(b) && a != [] && b != []
    ensures a[0] == b[0]
  {
    SameMembers(a, b, a[0]);
    SameMembers(a, b, b[0]);
    var x := a[0].priority;
    assert b[0].priority == x;
    assert OfPriority(a, x)[0] == a[0] && OfPriority(b, x)[0] == b[0];
  }

  /** A stable sort by priority is unique. */
  lemma {:induction false} UniqueStableSort(a: seq<Policy>, b: seq<Policy>)
    requires StableSortOf(a, b) && Descending(b)
    ensures a == b
  {
    if a != [] {
      SameMembers(a, b, a[0]);
    }
    if b != [] {
      SameMembers(a, b, b[0]);
    }
    if a != [] && b != [] {
      SameHead(a, b);
      forall y
        ensures OfPriority(a[1..], y) == OfPriority(b[1..], y)
      {
        SameTail(a, b, y);
      }
      UniqueStableSort(a[1..], b[1..]);
      assert a == [a[0]] + a[1..] && b == [b[0]] + b[1..];
    }
  }

  lemma SameTail(a: seq<Policy>, b: seq<Policy>, y: int)
    requires a != [] && b != [] && a[0] == b[0] && OfPriority(a, y) == OfPriority(b, y)
    ensures OfPriority(a[1..], y) == OfPriority(b[1..], y)
  {
    if a[0].priority == y {
      assert OfPriority(a[1..], y) == OfPriority(a, y)[1..];
      assert OfPriority(b[1..], y) == OfPriority(b, y)[1..];
    }
  }

  // ---- The kernel ----

  predicate Reserved(priority: int) {
    -1000 <= priority <= -1
  }

  predicate HasId(ps: seq<Policy>, id: int) {
    exists i :: 0 <= i < |ps| && ps[i].id == id
  }

  function Without(ps: seq<Policy>, id: int): seq<Policy> {
    if ps == [] then []
    else if ps[0].id != id then [ps[0]] + Without(ps[1..], id)
    else Without(ps[1..], id)
  }

  function FirstMatch(ps: seq<Policy>, r: Request): Option<Policy> {
    if ps == [] then None
    else if Matches(ps[0].condition, r) then Some(ps[0])
    else FirstMatch(ps[1..], r)
  }

  function VerdictOf(p: Option<Policy>, now: int): Verdict {
    match p
    case Some(p) => Verdict(p.effect, Some(p.id), MatchedPolicy(p.description, p.priority), now)
    case None => Verdict(Deny, None, NoMatchingPolicy, now)
  }

  datatype Op = Install(p: Policy) | Remove(id: int)

  /** The table after one operation. */
  function TableNext(t: seq<Policy>, op: Op): seq<Policy> {
    match op
    case Install(p) => if HasId(t, p.id) || Reserved(p.priority) then t else Sorted(t + [p])
    case Remove(id) => Without(t, id)
  }

  class GovernanceKernel {
    var policies: seq<Policy>

    constructor ()
      ensures policies == []
    {
      policies := [];
    }

    method InstallPolicy(p: Policy) returns (error: Option<InstallError>)
      modifies this
      ensures policies == TableNext(old(policies), Install(p))
      ensures error == if HasId(old(policies), p.id) then Some(DuplicatePolicy)
                       else if Reserved(p.priority) then Some(InvalidPriority) else None
    {
      var i := 0;
      while i < |policies|
        invariant 0 <= i <= |policies|
        invariant forall j :: 0 <= j < i ==> policies[j].id != p.id
      {
        if policies[i].id == p.id {
          return Some(DuplicatePolicy);
        }
        i := i + 1;
      }
      if Reserved(p.priority) {
        return Some(InvalidPriority);
      }
      policies := Sorted(policies + [p]);
      return None;
    }

    method RemovePolicy(id: int) returns (removed: bool)
      modifies this
      ensures policies == TableNext(old(policies), Remove(id))
      ensures removed == HasId(old(policies), id)
    {
      var before := |policies|;
      WithoutShrinks(policies, id);
      policies := Without(policies, id);
      removed := |policies| < before;
    }

    method Evaluate(r: Request, now: int) returns (v: Verdict)
      ensures v == VerdictOf(FirstMatch(policies, r), now)
    {
      var i := 0;
      while i < |policies|
        invariant 0 <= i <= |policies|
        invariant FirstMatch(policies, r) == FirstMatch(policies[i..], r)
      {
        var p := policies[i];
        if Matches(p.condition, r) {
          return Verdict(p.effect, Some(p.id), MatchedPolicy(p.description, p.priority), now);
        }
        assert policies[i..][1..] == policies[i + 1..];
        i := i + 1;
      }
      return Verdict(Deny, None, NoMatchingPolicy, now);
    }
  }

  lemma {:induction false} WithoutShrinks(ps: seq<Policy>, id: int)
    ensures |Without(ps, id)| <= |ps|
    ensures |Without(ps, id)| < |ps| <==> HasId(ps, id)
    ensures !HasId(ps, id) ==> Without(ps, id) == ps
  {
    if ps != [] {
      WithoutShrinks(ps[1..], id);
      assert ps == [ps[0]] + ps[1..];
      if HasId(ps[1..], id) {
        var i :| 0 <= i < |ps[1..]| && ps[1..][i].id == id;
        assert ps[i + 1].id == id;
      }
      if HasId(ps, id) && ps[0].id != id {
        var i :| 0 <= i < |ps| && ps[i].id == id;
        assert ps[1..][i - 1].id == id;
      }
    }
  }

  // ---- What a history installs ----

  function Table(h: seq<Op>): seq<Policy> {
    if h == [] then [] else TableNext(Table(h[..|h| - 1]), h[|h| - 1])
  }

  /** The installed policies in installation order, with no sorting anywhere. */
  function Live(h: seq<Op>): seq<Policy> {
    if h == [] then []
    else
      var live := Live(h[..|h| - 1]);
      match h[|h| - 1]
      case Install(p) => if HasId(live, p.id) || Reserved(p.priority) then live else live + [p]
      case Remove(id) => Without(live, id)
  }

  /** An installation counts exactly when its id is not installed and its priority is not from -1000 to -1. */
  lemma InstalledExactly(h: seq<Op>, p: Policy)
    ensures var live, live' := Live(h), Live(h + [Install(p)]);
            if (forall q :: q in live ==> q.id != p.id) && (p.priority < -1000 || p.priority > -1)
            then live' == live + [p] else live' == live
  {
    assert (h + [Install(p)])[..|h|] == h;
    var live := Live(h);
    assert HasId(live, p.id) <==> exists q :: q in live && q.id == p.id;
  }

  /** A removal takes out exactly the policy of that id and keeps the others in their order. */
  lemma RemovedExactly(h: seq<Op>, id: int)
    ensures var live, live' := Live(h), Live(h + [Remove(id)]);
            && ((forall q :: q in live ==> q.id != id) ==> live' == live)
            && (forall k :: 0 <= k < |live| && live[k].id == id ==> live' == live[..k] + live[k + 1..])
  {
    assert (h + [Remove(id)])[..|h|] == h;
    var live := Live(h);
    TableSortsLive(h);
    WithoutShrinks(live, id);
    assert HasId(live, id) <==> exists q :: q in live && q.id == id;
    forall k | 0 <= k < |live| && live[k].id == id
      ensures Without(live, id) == live[..k] + live[k + 1..]
    {
      WithoutOne(live, id, k);
    }
  }

  lemma {:induction false} WithoutOne(ps: seq<Policy>, id: int, k: nat)
    requires UniqueIds(ps) && k < |ps| && ps[k].id == id
    ensures Without(ps, id) == ps[..k] + ps[k + 1..]
  {
    if k == 0 {
      WithoutShrinks(ps[1..], id);
    } else {
      WithoutOne(ps[1..], id, k - 1);
      assert ps[..k] + ps[k + 1..] == [ps[0]] + (ps[1..][..k - 1] + ps[1..][k..]);
    }
  }

  predicate UniqueIds(ps: seq<Policy>) {
    forall i, j :: 0 <= i < j < |ps| ==> ps[i].id != ps[j].id
  }

  lemma {:induction false} WithoutMembers(ps: seq<Policy>, id: int)
    ensures forall p :: p in Without(ps, id) <==> p in ps && p.id != id
  {
    if ps != [] {
      WithoutMembers(ps[1..], id);
      assert ps == [ps[0]] + ps[1..];
    }
  }

  lemma {:induction false} WithoutDescending(ps: seq<Policy>, id: int)
    requires Descending(ps)
    ensures Descending(Without(ps, id))
  {
    if ps != [] {
      var rest := Without(ps[1..], id);
      WithoutDescending(ps[1..], id);
      WithoutMembers(ps[1..], id);
      forall q | q in rest
        ensures ps[0].priority >= q.priority
      {
        var j :| 0 <= j < |ps[1..]| && ps[1..][j] == q;
        assert ps[j + 1] == q;
      }
    }
  }

  lemma {:induction false} WithoutUnique(ps: seq<Policy>, id: int)
    requires UniqueIds(ps)
    ensures UniqueIds(Without(ps, id))
  {
    if ps != [] {
      var rest := Without(ps[1..], id);
      WithoutUnique(ps[1..], id);
      WithoutMembers(ps[1..], id);
      forall q | q in rest
        ensures ps[0].id != q.id
      {
        var j :| 0 <= j < |ps[1..]| && ps[1..][j] == q;
        assert ps[j + 1] == q;
      }
    }
  }

  lemma {:induction false} WithoutCommutes(ps: seq<Policy>, id: int, x: int)
    ensures OfPriority(Without(ps, id), x) == Without(OfPriority(ps, x), id)
  {
    if ps != [] {
      var rest := ps[1..];
      WithoutCommutes(rest, id, x);
      assert ([ps[0]] + Without(rest, id))[1..] == Without(rest, id);
      assert ([ps[0]] + OfPriority(rest, x))[1..] == OfPriority(rest, x);
    }
  }

  lemma SameIds(a: seq<Policy>, b: seq<Policy>, id: int)
    requires StableSortOf(a, b)
    ensures HasId(a, id) == HasId(b, id)
  {
    if HasId(a, id) {
      var i :| 0 <= i < |a| && a[i].id == id;
      SameMembers(a, b, a[i]);
    }
    if HasId(b, id) {
      var i :| 0 <= i < |b| && b[i].id == id;
      SameMembers(a, b, b[i]);
    }
  }

  /** After every history the table is the stable sort of what is installed, and ids stay unique. */
  lemma {:induction false} TableSortsLive(h: seq<Op>)
    ensures StableSortOf(Table(h), Live(h)) && UniqueIds(Live(h))
  {
    if h != [] {
      var front := h[..|h| - 1];
      TableSortsLive(front);
      match h[|h| - 1]
      case Install(p) =>
        SameIds(Table(front), Live(front), p.id);
        InstallSorts(Table(front), Live(front), p);
      case Remove(id) =>
        WithoutDescending(Table(front), id);
        WithoutUnique(Live(front), id);
        forall x
          ensures OfPriority(Without(Table(front), id), x) == OfPriority(Without(Live(front), id), x)
        {
          WithoutCommutes(Table(front), id, x);
          WithoutCommutes(Live(front), id, x);
        }
    }
  }

  lemma InstallSorts(table: seq<Policy>, live: seq<Policy>, p: Policy)
    requires StableSortOf(table, live)
    ensures StableSortOf(Sorted(table + [p]), live + [p])
  {
    SortedIsStable(table + [p]);
    forall x
      ensures OfPriority(Sorted(table + [p]), x) == OfPriority(live + [p], x)
    {
      OfPrioritySplit(table, [p], x);
      OfPrioritySplit(live, [p], x);
    }
  }

  // ---- Evaluation against the installed policies ----

  /** The matching policy of greatest priority, earliest installed among ties. */
  ghost predicate IsBest(live: seq<Policy>, r: Request, i: nat) {
    && i < |live| && Matches(live[i].condition, r)
    && forall j :: 0 <= j < |live| && Matches(live[j].condition, r) ==>
      live[j].priority < live[i].priority || (live[j].priority == live[i].priority && i <= j)
  }

  lemma {:induction false} FirstMatchFacts(ps: seq<Policy>, r: Request)
    ensures FirstMatch(ps, r) == None <==> forall p :: p in ps ==> !Matches(p.condition, r)
    ensures FirstMatch(ps, r).Some? ==>
              var p := FirstMatch(ps, r).value;
              && p in ps && Matches(p.condition, r)
              && FirstMatch(OfPriority(ps, p.priority), r) == Some(p)
              && (Descending(ps) ==> forall q :: q in ps && Matches(q.condition, r) ==> q.priority <= p.priority)
  {
    if ps != [] {
      assert ps == [ps[0]] + ps[1..];
      FirstMatchFacts(ps[1..], r);
      if Matches(ps[0].condition, r) {
        var x := ps[0].priority;
        assert OfPriority(ps, x)[0] == ps[0];
      } else if FirstMatch(ps, r).Some? {
        var x := FirstMatch(ps, r).value.priority;
        assert ([ps[0]] + OfPriority(ps[1..], x))[1..] == OfPriority(ps[1..], x);
      }
    }
  }

  lemma {:induction false} FirstInFilter(ps: seq<Policy>, x: int, r: Request) returns (i: nat)
    requires FirstMatch(OfPriority(ps, x), r).Some?
    ensures i < |ps| && FirstMatch(OfPriority(ps, x), r) == Some(ps[i])
    ensures ps[i].priority == x && Matches(ps[i].condition, r)
    ensures forall j :: 0 <= j < i && ps[j].priority == x ==> !Matches(ps[j].condition, r)
  {
    if ps[0].priority == x && Matches(ps[0].condition, r) {
      assert OfPriority(ps, x)[0] == ps[0];
      i := 0;
    } else {
      assert ([ps[0]] + OfPriority(ps[1..], x))[1..] == OfPriority(ps[1..], x);
      i := FirstInFilter(ps[1..], x, r);
      i := i + 1;
    }
  }

  /**
    After every history of installs and removals, evaluation gives the effect, the
    id, the description and the priority of the best matching installed policy, and
    denies without a policy exactly when none matches.
  */
  lemma EvaluateIsBest(h: seq<Op>, r: Request, now: int)
    ensures var v := VerdictOf(FirstMatch(Table(h), r), now); var live := Live(h);
            && v.at == now
            && (v.policyId == None <==> forall p :: p in live ==> !Matches(p.condition, r))
            && (v.policyId == None ==> v.effect == Deny && v.reason == NoMatchingPolicy)
            && (v.policyId.Some? ==>
                  exists i: nat ::
                    && IsBest(live, r, i)
                    && v.effect == live[i].effect
                    && v.policyId == Some(live[i].id)
                    && v.reason == MatchedPolicy(live[i].description, live[i].priority))
  {
    var table, live := Table(h), Live(h);
    TableSortsLive(h);
    FirstMatchFacts(table, r);
    forall p
      ensures p in table <==> p in live
    {
      SameMembers(table, live, p);
    }
    if FirstMatch(table, r).Some? {
      var p := FirstMatch(table, r).value;
      var i := FirstInFilter(live, p.priority, r);
      assert IsBest(live, r, i);
    }
  }

  /** Two acceptable installs commute exactly when their priorities differ. */
  lemma InstallsCommute(t: seq<Policy>, p: Policy, q: Policy)
    requires Descending(t) && p.id != q.id
    requires !HasId(t, p.id) && !HasId(t, q.id) && !Reserved(p.priority) && !Reserved(q.priority)
    ensures TableNext(TableNext(t, Install(p)), Install(q)) == TableNext(TableNext(t, Install(q)), Install(p))
            <==> p.priority != q.priority
  {
    var a, b := Sorted(Sorted(t + [p]) + [q]), Sorted(Sorted(t + [q]) + [p]);
    BothInstalled(t, p, q);
    BothInstalled(t, q, p);
    if p.priority != q.priority {
      forall x
        ensures OfPriority(a, x) == OfPriority(b, x)
      {
        TwoMore(t, p, q, x);
        TwoMore(t, q, p, x);
      }
      UniqueStableSort(a, b);
    } else {
      var x, n := p.priority, |OfPriority(t, p.priority)|;
      TwoMore(t, p, q, x);
      TwoMore(t, q, p, x);
      assert OfPriority(a, x)[n] == p && OfPriority(b, x)[n] == q;
    }
  }

  lemma BothInstalled(t: seq<Policy>, p: Policy, q: Policy)
    requires Descending(t) && p.id != q.id && !HasId(t, p.id) && !HasId(t, q.id)
    requires !Reserved(p.priority) && !Reserved(q.priority)
    ensures var a := TableNext(TableNext(t, Install(p)), Install(q));
            && a == Sorted(Sorted(t + [p]) + [q])
            && StableSortOf(a, t + [p] + [q])
  {
    var t1 := Sorted(t + [p]);
    InstallSorts(t, t, p);
    InstallSorts(t1, t + [p], q);
    SameIds(t1, t + [p], q.id);
    HasIdSnoc(t, p, q.id);
  }

  lemma HasIdSnoc(t: seq<Policy>, p: Policy, id: int)
    ensures HasId(t + [p], id) <==> HasId(t, id) || p.id == id
  {
    assert (t + [p])[|t|] == p;
    if HasId(t, id) {
      var i :| 0 <= i < |t| && t[i].id == id;
      assert (t + [p])[i].id == id;
    }
  }

  lemma TwoMore(t: seq<Policy>, p: Policy, q: Policy, x: int)
    ensures OfPriority(t + [p] + [q], x) ==
            OfPriority(t, x) + (if p.priority == x then [p] else []) + (if q.priority == x then [q] else [])
  {
    OfPrioritySplit(t + [p], [q], x);
    OfPrioritySplit(t, [p], x);
  }

  /** Removing a policy just installed gives the table back. */
  lemma RemoveUndoesInstall(t: seq<Policy>, p: Policy)
    requires Descending(t) && !HasId(t, p.id) && !Reserved(p.priority)
    ensures TableNext(TableNext(t, Install(p)), Remove(p.id)) == t
  {
    var t1 := Sorted(t + [p]);
    InstallSorts(t, t, p);
    WithoutDescending(t1, p.id);
    WithoutShrinks(t, p.id);
    forall x
      ensures OfPriority(Without(t1, p.id), x) == OfPriority(t, x)
    {
      WithoutCommutes(t1, p.id, x);
      WithoutCommutes(t + [p], p.id, x);
      WithoutAppend(t, p);
    }
    UniqueStableSort(Without(t1, p.id), t);
  }

  lemma {:induction false} WithoutAppend(t: seq<Policy>, p: Policy)
    ensures Without(t + [p], p.id) == Without(t, p.id)
  {
    if t == [] {
      assert t + [p] == [p];
    } else {
      WithoutAppend(t[1..], p);
      assert (t + [p])[1..] == t[1..] + [p];
    }
  }
}
