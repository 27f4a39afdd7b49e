/**
  Classification against an unordered set of protected prefixes
  (hal/src/existential_governor.rs): the answer must not depend on the order in
  which the set is scanned.
*/
module ExistentialGovernor {
  import opened Common

  datatype Threat = HalItself | AuditTrail | Kernel | MemoryStore | AuthKeys

  datatype Verdict = Safe | Threatens(t: Threat) | Catastrophic

  const DEFAULTS: seq<string> := [
    "/opt/cognos/hal",
    "/etc/cognos/hal",
    "/var/lib/cognos/audit",
    "/sys/kernel",
    "/proc/sys",
    "/lib/modules",
    "/var/lib/cognos/memory",
    "/etc/cognos/keys",
    "/var/lib/cognos/tokens"
  ]

  predicate StartsWith(s: string, prefix: string) {
    prefix <= s
  }

  /** The class a protected path belongs to, in the order in which the code asks. */
  function ClassOf(path: string): Option<Threat> {
    if StartsWith(path, "/opt/cognos/hal") || StartsWith(path, "/etc/cognos/hal") then Some(HalItself)
    else if StartsWith(path, "/var/lib/cognos/audit") then Some(AuditTrail)
    else if StartsWith(path, "/sys/kernel") || StartsWith(path, "/proc/sys") || StartsWith(path, "/lib/modules") then
      Some(Kernel)
    else if StartsWith(path, "/var/lib/cognos/memory") then Some(MemoryStore)
    else if StartsWith(path, "/etc/cognos/keys") || StartsWith(path, "/var/lib/cognos/tokens") then Some(AuthKeys)
    else None
  }

  /** The threat each default prefix stands for. */
  function DefaultThreat(i: nat): Threat
    requires i < |DEFAULTS|
  {
    [HalItself, HalItself, AuditTrail, Kernel, Kernel, Kernel, MemoryStore, AuthKeys, AuthKeys][i]
  }

  /** A target's threat, looked up directly: the threat of the default prefix it starts with. */
  ghost predicate IsThreat(target: string, answer: Option<Threat>) {
    match answer
    case Some(t) => exists i :: 0 <= i < |DEFAULTS| && StartsWith(target, DEFAULTS[i]) && t == DefaultThreat(i)
    case None => forall i :: 0 <= i < |DEFAULTS| ==> !StartsWith(target, DEFAULTS[i])
  }

  ghost predicate CoversDefaults(protected: set<string>) {
    forall i :: 0 <= i < |DEFAULTS| ==> DEFAULTS[i] in protected
  }

  /** Prefixes of one string are comparable. */
  lemma PrefixesComparable(a: string, b: string, s: string)
    requires a <= s && b <= s
    ensures a <= b || b <= a
  {
    if |a| <= |b| {
      assert a == s[..|a|] == b[..|a|];
    } else {
      assert b == s[..|b|] == a[..|b|];
    }
  }

  lemma Differ(a: string, b: string, k: nat)
    requires k < |a| && k < |b| && a[k] != b[k]
    ensures !(a <= b) && !(b <= a)
  {
  }

  /** No default prefix is a prefix of another. */
  lemma DefaultsIncomparable(i: nat, j: nat)
    requires i < |DEFAULTS| && j < |DEFAULTS| && i != j
    ensures !(DEFAULTS[i] <= DEFAULTS[j])
  {
    var a, b := DEFAULTS[i], DEFAULTS[j];
    if a[1] != b[1] {
      Differ(a, b, 1);
    } else if i in {1, 7} {
      assert a[12] != b[12];
      Differ(a, b, 12);
    } else {
      assert i in {2, 6, 8} && j in {2, 6, 8};
      assert a[16] != b[16];
      Differ(a, b, 16);
    }
  }

  /** A string starts with at most one default prefix. */
  lemma OneDefault(s: string, i: nat, j: nat)
    requires i < |DEFAULTS| && j < |DEFAULTS| && DEFAULTS[i] <= s && DEFAULTS[j] <= s
    ensures i == j
  {
    if i != j {
      PrefixesComparable(DEFAULTS[i], DEFAULTS[j], s);
      DefaultsIncomparable(i, j);
      DefaultsIncomparable(j, i);
    }
  }

  /** The direct lookup has one answer. */
  lemma ThreatUnique(target: string, a: Option<Threat>, b: Option<Threat>)
    requires IsThreat(target, a) && IsThreat(target, b)
    ensures a == b
  {
    if a.Some? && b.Some? {
      var i :| 0 <= i < |DEFAULTS| && StartsWith(target, DEFAULTS[i]) && a.value == DefaultThreat(i);
      var j :| 0 <= j < |DEFAULTS| && StartsWith(target, DEFAULTS[j]) && b.value == DefaultThreat(j);
      OneDefault(target, i, j);
    }
  }

  /** Which targets are which threat, prefix by prefix. */
  lemma ThreatsInWords(target: string)
    ensures IsThreat(target, Some(HalItself)) <==> "/opt/cognos/hal" <= target || "/etc/cognos/hal" <= target
    ensures IsThreat(target, Some(AuditTrail)) <==> "/var/lib/cognos/audit" <= target
    ensures IsThreat(target, Some(Kernel)) <==>
            "/sys/kernel" <= target || "/proc/sys" <= target || "/lib/modules" <= target
    ensures IsThreat(target, Some(MemoryStore)) <==> "/var/lib/cognos/memory" <= target
    ensures IsThreat(target, Some(AuthKeys)) <==> "/etc/cognos/keys" <= target || "/var/lib/cognos/tokens" <= target
  {
    assert DEFAULTS[0] == "/opt/cognos/hal" && DEFAULTS[1] == "/etc/cognos/hal";
    assert DEFAULTS[2] == "/var/lib/cognos/audit";
    assert DEFAULTS[3] == "/sys/kernel" && DEFAULTS[4] == "/proc/sys" && DEFAULTS[5] == "/lib/modules";
    assert DEFAULTS[6] == "/var/lib/cognos/memory" && DEFAULTS[7] == "/etc/cognos/keys";
    assert DEFAULTS[8] == "/var/lib/cognos/tokens";
    var k :=
      if "/opt/cognos/hal" <= target then 0 else if "/etc/cognos/hal" <= target then 1
      else if "/var/lib/cognos/audit" <= target then 2 else if "/sys/kernel" <= target then 3
      else if "/proc/sys" <= target then 4 else if "/lib/modules" <= target then 5
      else if "/var/lib/cognos/memory" <= target then 6 else if "/etc/cognos/keys" <= target then 7 else 8;
    assert StartsWith(target, DEFAULTS[k]) || forall i :: 0 <= i < |DEFAULTS| ==> !StartsWith(target, DEFAULTS[i]);
    if StartsWith(target, DEFAULTS[k]) {
      forall i | 0 <= i < |DEFAULTS| && StartsWith(target, DEFAULTS[i])
        ensures i == k
      {
        OneDefault(target, i, k);
      }
    }
  }

  /** A path with a class starts with a default prefix of that class. */
  lemma ClassHasDefault(path: string)
    ensures ClassOf(path).Some? ==>
              exists i :: 0 <= i < |DEFAULTS| && StartsWith(path, DEFAULTS[i])
                && DefaultThreat(i) == ClassOf(path).value
    ensures ClassOf(path) == None ==> forall i :: 0 <= i < |DEFAULTS| ==> !StartsWith(path, DEFAULTS[i])
  {
    assert DEFAULTS[0] == "/opt/cognos/hal" && DEFAULTS[1] == "/etc/cognos/hal";
    assert DEFAULTS[2] == "/var/lib/cognos/audit";
    assert DEFAULTS[3] == "/sys/kernel" && DEFAULTS[4] == "/proc/sys" && DEFAULTS[5] == "/lib/modules";
    assert DEFAULTS[6] == "/var/lib/cognos/memory" && DEFAULTS[7] == "/etc/cognos/keys";
    assert DEFAULTS[8] == "/var/lib/cognos/tokens";
  }

  /**
    When `protect` protects: whatever else is in the set, everything under an added
    path counts as a threat if and only if the path itself lies under a default
    prefix. Any other added path changes no answer.
  */
  lemma ProtectsExactly(path: string)
    ensures (forall target :: StartsWith(target, path) ==> !IsThreat(target, None)) <==> ClassOf(path).Some?
  {
    ClassHasDefault(path);
    if ClassOf(path).Some? {
      var i :| 0 <= i < |DEFAULTS| && StartsWith(path, DEFAULTS[i]);
      forall target | StartsWith(target, path)
        ensures !IsThreat(target, None)
      {
        assert StartsWith(target, DEFAULTS[i]);
      }
    } else {
      assert StartsWith(path, path) && IsThreat(path, None);
    }
  }

  class Governor {
    var protectedResources: set<string>
    var armed: set<Threat>

    ghost predicate Valid()
      reads this
    {
      CoversDefaults(protectedResources)
    }

    constructor ()
      ensures Valid() && armed == {HalItself, AuditTrail, Kernel, MemoryStore, AuthKeys}
      ensures protectedResources == set i | 0 <= i < |DEFAULTS| :: DEFAULTS[i]
    {
      protectedResources := set i | 0 <= i < |DEFAULTS| :: DEFAULTS[i];
      armed := {HalItself, AuditTrail, Kernel, MemoryStore, AuthKeys};
    }

    method Protect(path: string)
      requires Valid()
      modifies this`protectedResources
      ensures Valid() && protectedResources == old(protectedResources) + {path}
    {
      protectedResources := protectedResources + {path};
    }

    method Disarm(t: Threat)
      requires Valid()
      modifies this`armed
      ensures Valid() && armed == old(armed) - {t}
    {
      armed := armed - {t};
    }

    /**
      `classify`: the set is scanned in any order whatever (`:|` below picks an
      arbitrary unscanned path), and still the answer is the direct lookup among
      the nine defaults; added paths never change it.
    */
    method Classify(target: string) returns (threat: Option<Threat>)
      requires Valid()
      ensures IsThreat(target, threat)
    {
      var rest := protectedResources;
      while rest != {}
        invariant rest <= protectedResources
        invariant forall i :: 0 <= i < |DEFAULTS| && StartsWith(target, DEFAULTS[i]) ==> DEFAULTS[i] in rest
        decreases |rest|
      {
        var path :| path in rest;
        rest := rest - {path};
        if StartsWith(target, path) {
          var class' := ClassOf(path);
          ClassHasDefault(path);
          if class'.Some? {
            ghost var i :| 0 <= i < |DEFAULTS| && StartsWith(path, DEFAULTS[i]) && DefaultThreat(i) == class'.value;
            assert StartsWith(target, DEFAULTS[i]);
            return class';
          }
        }
      }
      return None;
    }

    method Evaluate(target: string) returns (v: Verdict)
      requires Valid()
      ensures v == Safe <==> IsThreat(target, None)
      ensures v == Catastrophic <==> exists t :: IsThreat(target, Some(t)) && t in armed
      ensures forall t :: v == Threatens(t) ==> IsThreat(target, Some(t)) && t !in armed
    {
      var threat := Classify(target);
      forall t | IsThreat(target, Some(t)) {
        ThreatUnique(target, threat, Some(t));
      }
      if IsThreat(target, None) {
        ThreatUnique(target, threat, None);
      }
      match threat
      case None => v := Safe;
      case Some(t) => v := if t in armed then Catastrophic else Threatens(t);
    }
  }
}
