/** Concatenated contributions, used for everything the policy engine accumulates. */
module Gathering {
  import opened Permutations

  function Gather<T, U>(s: seq<T>, f: T -> seq<U>): seq<U> {
    if s == [] then [] else Gather(s[..|s| - 1], f) + f(s[|s| - 1])
  }

  lemma GatherLast<T, U>(s: seq<T>, x: T, f: T -> seq<U>)
    ensures Gather(s + [x], f) == Gather(s, f) + f(x)
  {
    assert (s + [x])[..|s|] == s;
  }

  lemma {:induction false} GatherSplit<T, U>(a: seq<T>, b: seq<T>, f: T -> seq<U>)
    ensures Gather(a + b, f) == Gather(a, f) + Gather(b, f)
    decreases |b|
  {
    if b == [] {
      assert a + b == a;
    } else {
      var front, last := b[..|b| - 1], b[|b| - 1];
      assert a + b == (a + front) + [last];
      GatherLast(a + front, last, f);
      GatherSplit(a, front, f);
    }
  }

  /** What is gathered does not depend on the order, up to its own order. */
  lemma {:induction false} GatherPermutes<T, U>(a: seq<T>, b: seq<T>, f: T -> seq<U>)
    requires multiset(a) == multiset(b)
    ensures multiset(Gather(a, f)) == multiset(Gather(b, f))
    decreases |a|
  {
    if a == [] {
      assert |multiset(b)| == |b|;
    } else {
      var i := RemoveLast(a, b);
      GatherPermutes(a[..|a| - 1], b[..i] + b[i + 1..], f);
      GatherSplit(b[..i], b[i + 1..], f);
      GatherSplit(b[..i] + [b[i]], b[i + 1..], f);
      GatherLast(b[..i], b[i], f);
    }
  }

  lemma {:induction false} GatherMember<T, U>(s: seq<T>, f: T -> seq<U>, u: U)
    ensures u in Gather(s, f) <==> exists x :: x in s && u in f(x)
  {
    if s != [] {
      var front, last := s[..|s| - 1], s[|s| - 1];
      GatherMember(front, f, u);
      assert s == front + [last];
    }
  }

  lemma {:induction false} GatherEmptyIff<T, U>(s: seq<T>, f: T -> seq<U>)
    ensures Gather(s, f) == [] <==> forall x :: x in s ==> f(x) == []
  {
    if s != [] {
      var front, last := s[..|s| - 1], s[|s| - 1];
      GatherEmptyIff(front, f);
      assert s == front + [last];
    }
  }
}

/** Admission policies: what one evaluation decides, in any order, and what the result cache returns. */
module Policies {
  import opened Sorting
  import opened Gathering
  import opened Joining
  import opened Common

  datatype Value = Nil | Text(text: string) | Flag(flag: bool) | Items(items: seq<Value>) | Other(tag: int)

  datatype Operator = Equal | NotEqual | In | NotIn | Exists | DoesNotExist | Unknown(name: string)

  datatype Condition = Condition(field: string, operator: Operator, value: Value)

  datatype Rule = Rule(name: string, kind: string, config: map<string, Value>, conditions: seq<Condition>)

  datatype Action = Allow | Deny | Audit | OtherAction(name: string)

  datatype Policy = Policy(name: string, namespace: string, enabled: bool, priority: int,
                           labels: map<string, string>, rules: seq<Rule>, action: Action, deleted: bool)

  /** `settings` stands for the fields only the rule checks look at. */
  datatype WorkloadSpec = WorkloadSpec(name: string, namespace: string, image: string, labels: map<string, string>,
                                       privileged: bool, hostNetwork: bool, settings: map<string, Value>)

  datatype Violation = Violation(rule: string, message: string)

  datatype AuditEntry = AuditEntry(policy: string, violations: nat)

  datatype Reason = NoReason | AllowedBy(policy: string) | DefaultDeny | DefaultAllow | Violated(count: nat)

  datatype Result = Result(allowed: bool, reason: Reason, matched: seq<string>, violations: seq<Violation>,
                           audits: seq<AuditEntry>, policyCount: nat)

  /** The check of one rule (pkg/policy/evaluator.go is not part of this model). */
  type Check = (Rule, WorkloadSpec) -> seq<Violation>

  // ---- Conditions ----

  const LABELS := "labels."

  function FieldValue(field: string, spec: WorkloadSpec): Value {
    if field == "namespace" then Text(spec.namespace)
    else if field == "name" then Text(spec.name)
    else if field == "image" then Text(spec.image)
    else if field == "privileged" then Flag(spec.privileged)
    else if field == "hostNetwork" then Flag(spec.hostNetwork)
    else if |field| > 7 && field[..7] == LABELS then
      Text(if field[7..] in spec.labels then spec.labels[field[7..]] else "")
    else Nil
  }

  predicate Holds(c: Condition, spec: WorkloadSpec) {
    var value := FieldValue(c.field, spec);
    match c.operator
    case Equal => value == c.value
    case NotEqual => value != c.value
    case In => c.value.Items? && value in c.value.items
    case NotIn => !(c.value.Items? && value in c.value.items)
    case Exists => value != Nil
    case DoesNotExist => value == Nil
    case Unknown(_) => false
  }

  predicate Triggered(rule: Rule, spec: WorkloadSpec) {
    forall c :: c in rule.conditions ==> Holds(c, spec)
  }

  /** The fields a condition can name. */
  predicate Readable(field: string) {
    || field == "namespace" || field == "name" || field == "image" || field == "privileged" || field == "hostNetwork"
    || (|field| > 7 && field[..7] == LABELS)
  }

  /** What equality compares. A label that is missing reads as the empty text. */
  lemma EqualReads(spec: WorkloadSpec, t: string, b: bool, name: string)
    ensures Holds(Condition("namespace", Equal, Text(t)), spec) <==> spec.namespace == t
    ensures Holds(Condition("name", Equal, Text(t)), spec) <==> spec.name == t
    ensures Holds(Condition("image", Equal, Text(t)), spec) <==> spec.image == t
    ensures Holds(Condition("privileged", Equal, Flag(b)), spec) <==> spec.privileged == b
    ensures Holds(Condition("hostNetwork", Equal, Flag(b)), spec) <==> spec.hostNetwork == b
    ensures name in spec.labels && name != "" ==> (Holds(Condition(LABELS + name, Equal, Text(t)), spec) <==> spec.labels[name] == t)
    ensures name !in spec.labels && name != "" ==> (Holds(Condition(LABELS + name, Equal, Text(t)), spec) <==> t == "")
  {
    var field := LABELS + name;
    assert field[..7] == LABELS && field[7..] == name;
    assert field[0] == 'l' && "namespace"[0] == "name"[0] == 'n';
    assert "image"[0] == 'i' && "privileged"[0] == 'p' && "hostNetwork"[0] == 'h';
  }

  /** The other operators by equality: In needs a list with an equal value; NotEqual and NotIn are the negations, so
      that NotIn holds of a value that is no list; what the engine does not know never holds. */
  lemma OperatorsByEqual(field: string, value: Value, values: seq<Value>, spec: WorkloadSpec, unknown: string)
    ensures Holds(Condition(field, NotEqual, value), spec) <==> !Holds(Condition(field, Equal, value), spec)
    ensures Holds(Condition(field, In, Items(values)), spec) <==>
            exists i :: 0 <= i < |values| && Holds(Condition(field, Equal, values[i]), spec)
    ensures Holds(Condition(field, NotIn, value), spec) <==> !Holds(Condition(field, In, value), spec)
    ensures !value.Items? ==> Holds(Condition(field, NotIn, value), spec)
    ensures !Holds(Condition(field, Unknown(unknown), value), spec)
  {
  }

  /** Existence is decided by the field's name alone, never by the workload. */
  lemma ExistsIff(field: string, value: Value, spec: WorkloadSpec)
    ensures Holds(Condition(field, Exists, value), spec) <==> Readable(field)
    ensures Holds(Condition(field, DoesNotExist, value), spec) <==> !Readable(field)
  {
  }

  /** So a label exists on every workload that does not have it. */
  lemma MissingLabelExists(spec: WorkloadSpec, name: string, value: Value)
    requires name != "" && name !in spec.labels
    ensures Holds(Condition(LABELS + name, Exists, value), spec)
    ensures !Holds(Condition(LABELS + name, DoesNotExist, value), spec)
  {
    assert (LABELS + name)[..7] == LABELS;
  }

  // ---- One policy ----

  predicate Applies(p: Policy, spec: WorkloadSpec) {
    && (p.namespace == "" || p.namespace == spec.namespace || p.namespace == "*")
    && forall k :: k in p.labels ==> k in spec.labels && spec.labels[k] == p.labels[k]
  }

  /** A policy of a named namespace is for the workloads of that namespace only; without a namespace, or with "*", it
      is for all. Each of its labels narrows it further. */
  lemma AppliesIff(p: Policy, spec: WorkloadSpec)
    ensures p.namespace !in {"", "*", spec.namespace} ==> !Applies(p, spec)
    ensures p.namespace in {"", "*", spec.namespace} ==>
              (Applies(p, spec) <==> forall k :: k in p.labels ==> k in spec.labels && spec.labels[k] == p.labels[k])
  {
  }

  predicate AnyTriggered(rules: seq<Rule>, spec: WorkloadSpec) {
    exists rule :: rule in rules && Triggered(rule, spec)
  }

  predicate Matches(p: Policy, spec: WorkloadSpec) {
    (p.rules == [] && p.action == Allow) || AnyTriggered(p.rules, spec)
  }

  /** An enabled, applicable policy that matched. */
  predicate Hits(p: Policy, spec: WorkloadSpec) {
    p.enabled && Applies(p, spec) && Matches(p, spec)
  }

  /** An enabled, applicable Deny policy with a triggered rule that the workload violates. */
  predicate Denies(p: Policy, spec: WorkloadSpec, check: Check) {
    && p.enabled && p.action == Deny && Applies(p, spec)
    && exists rule :: rule in p.rules && Triggered(rule, spec) && check(rule, spec) != []
  }

  function RuleViolations(spec: WorkloadSpec, check: Check): Rule -> seq<Violation> {
    rule => if Triggered(rule, spec) then check(rule, spec) else []
  }

  function PolicyViolations(p: Policy, spec: WorkloadSpec, check: Check): seq<Violation> {
    Gather(p.rules, RuleViolations(spec, check))
  }

  lemma DeniesIff(p: Policy, spec: WorkloadSpec, check: Check)
    ensures Denies(p, spec, check) <==> Hits(p, spec) && p.action == Deny && PolicyViolations(p, spec, check) != []
  {
    GatherEmptyIff(p.rules, RuleViolations(spec, check));
  }

  lemma AnyTriggeredLast(rules: seq<Rule>, rule: Rule, spec: WorkloadSpec)
    ensures AnyTriggered(rules + [rule], spec) <==> AnyTriggered(rules, spec) || Triggered(rule, spec)
  {
    assert rule in rules + [rule];
  }

  method EvaluatePolicy(p: Policy, spec: WorkloadSpec, check: Check) returns (matched: bool, violations: seq<Violation>)
    ensures matched == Matches(p, spec)
    ensures violations == PolicyViolations(p, spec, check)
  {
    matched, violations := false, [];
    if |p.rules| == 0 && p.action == Allow {
      return true, [];
    }
    for i := 0 to |p.rules|
      invariant matched == AnyTriggered(p.rules[..i], spec)
      invariant violations == Gather(p.rules[..i], RuleViolations(spec, check))
    {
      var rule := p.rules[i];
      assert p.rules[..i + 1] == p.rules[..i] + [rule];
      GatherLast(p.rules[..i], rule, RuleViolations(spec, check));
      AnyTriggeredLast(p.rules[..i], rule, spec);
      if Triggered(rule, spec) {
        matched := true;
        var found := check(rule, spec);
        if |found| > 0 {
          violations := violations + found;
        }
      }
    }
    assert p.rules[..|p.rules|] == p.rules;
  }

  // ---- All policies, in one order ----

  function MatchedName(spec: WorkloadSpec): Policy -> seq<string> {
    p => if Hits(p, spec) then [p.name] else []
  }

  function Denials(spec: WorkloadSpec, check: Check): Policy -> seq<Violation> {
    p => if Hits(p, spec) && p.action == Deny then PolicyViolations(p, spec, check) else []
  }

  function Audits(spec: WorkloadSpec, check: Check): Policy -> seq<AuditEntry> {
    p => if Hits(p, spec) && p.action == Audit
         then [AuditEntry(p.name, |PolicyViolations(p, spec, check)|)] else []
  }

  predicate AnyDenies(ps: seq<Policy>, spec: WorkloadSpec, check: Check) {
    exists p :: p in ps && Denies(p, spec, check)
  }

  predicate AnyHits(ps: seq<Policy>, spec: WorkloadSpec) {
    exists p :: p in ps && Hits(p, spec)
  }

  /** The admission decision, without mentioning any order. */
  predicate Admits(ps: seq<Policy>, spec: WorkloadSpec, check: Check, default: Action) {
    !AnyDenies(ps, spec, check) && (AnyHits(ps, spec) || default != Deny)
  }

  /** The i-th policy is an Allow policy that matched before any policy denied. */
  predicate Acquits(ps: seq<Policy>, i: int, spec: WorkloadSpec, check: Check) {
    0 <= i < |ps| && Hits(ps[i], spec) && ps[i].action == Allow && !AnyDenies(ps[..i], spec, check)
  }

  /** The Allow policy that set the reason last. */
  function Acquitting(ps: seq<Policy>, spec: WorkloadSpec, check: Check): Option<string> {
    if ps == [] then None
    else if Acquits(ps, |ps| - 1, spec, check) then Some(ps[|ps| - 1].name)
    else Acquitting(ps[..|ps| - 1], spec, check)
  }

  lemma {:induction false} AcquittingIff(ps: seq<Policy>, spec: WorkloadSpec, check: Check)
    ensures Acquitting(ps, spec, check).Some? <==> exists i :: Acquits(ps, i, spec, check)
    ensures Acquitting(ps, spec, check).Some? ==>
              exists i :: Acquits(ps, i, spec, check) && Acquitting(ps, spec, check).value == ps[i].name
  {
    if ps != [] {
      var front := ps[..|ps| - 1];
      AcquittingIff(front, spec, check);
      forall i | 0 <= i < |front|
        ensures Acquits(ps, i, spec, check) == Acquits(front, i, spec, check)
      {
        assert ps[..i] == front[..i];
      }
    }
  }

  function FinalReason(ps: seq<Policy>, spec: WorkloadSpec, check: Check, default: Action): Reason {
    if !AnyHits(ps, spec) then (if default == Deny then DefaultDeny else DefaultAllow)
    else if Acquitting(ps, spec, check).Some? then AllowedBy(Acquitting(ps, spec, check).value)
    else if AnyDenies(ps, spec, check) then Violated(|Gather(ps, Denials(spec, check))|)
    else NoReason
  }

  ghost predicate Evaluated(r: Result, ps: seq<Policy>, spec: WorkloadSpec, check: Check, default: Action) {
    && (r.allowed <==> Admits(ps, spec, check, default))
    && r.reason == FinalReason(ps, spec, check, default)
    && r.matched == Gather(ps, MatchedName(spec))
    && r.violations == Gather(ps, Denials(spec, check))
    && r.audits == Gather(ps, Audits(spec, check))
    && r.policyCount == |ps|
  }

  /** What the loop has accumulated after the policies `ps`. */
  ghost predicate Accumulated(r: Result, ps: seq<Policy>, spec: WorkloadSpec, check: Check) {
    && (r.allowed <==> !AnyDenies(ps, spec, check))
    && r.reason == (match Acquitting(ps, spec, check) case Some(n) => AllowedBy(n) case None => NoReason)
    && r.matched == Gather(ps, MatchedName(spec))
    && r.violations == Gather(ps, Denials(spec, check))
    && r.audits == Gather(ps, Audits(spec, check))
  }

  lemma Prefixes(ps: seq<Policy>, p: Policy, spec: WorkloadSpec, check: Check)
    ensures AnyDenies(ps + [p], spec, check) <==> AnyDenies(ps, spec, check) || Denies(p, spec, check)
    ensures Acquitting(ps + [p], spec, check) ==
              if Hits(p, spec) && p.action == Allow && !AnyDenies(ps, spec, check)
              then Some(p.name) else Acquitting(ps, spec, check)
    ensures Gather(ps + [p], MatchedName(spec)) == Gather(ps, MatchedName(spec)) + MatchedName(spec)(p)
    ensures Gather(ps + [p], Denials(spec, check)) == Gather(ps, Denials(spec, check)) + Denials(spec, check)(p)
    ensures Gather(ps + [p], Audits(spec, check)) == Gather(ps, Audits(spec, check)) + Audits(spec, check)(p)
  {
    assert (ps + [p])[..|ps|] == ps;
    GatherLast(ps, p, MatchedName(spec));
    GatherLast(ps, p, Denials(spec, check));
    GatherLast(ps, p, Audits(spec, check));
  }

  /** The body of Evaluate's loop. */
  method EvaluateNext(r: Result, ghost ps: seq<Policy>, p: Policy, spec: WorkloadSpec, check: Check) returns (q: Result)
    requires Accumulated(r, ps, spec, check)
    ensures Accumulated(q, ps + [p], spec, check) && q.policyCount == r.policyCount
  {
    Prefixes(ps, p, spec, check);
    DeniesIff(p, spec, check);
    q := r;
    if !p.enabled || !Applies(p, spec) {
      return;
    }
    var matched, violations := EvaluatePolicy(p, spec, check);
    if matched {
      q := q.(matched := q.matched + [p.name]);
      match p.action
      case Deny =>
        if |violations| > 0 {
          q := q.(allowed := false, violations := q.violations + violations);
        }
      case Allow =>
        if q.allowed {
          q := q.(reason := AllowedBy(p.name));
        }
      case Audit =>
        q := q.(audits := q.audits + [AuditEntry(p.name, |violations|)]);
      case OtherAction(_) =>
    }
  }

  lemma NothingMatched(ps: seq<Policy>, spec: WorkloadSpec, check: Check)
    ensures Gather(ps, MatchedName(spec)) == [] <==> !AnyHits(ps, spec)
    ensures !AnyHits(ps, spec) ==> !AnyDenies(ps, spec, check)
  {
    GatherEmptyIff(ps, MatchedName(spec));
    forall p | p in ps
      ensures Hits(p, spec) <==> MatchedName(spec)(p) != []
      ensures Denies(p, spec, check) ==> Hits(p, spec)
    {
      DeniesIff(p, spec, check);
    }
  }

  /** Evaluate over policies already put in order. */
  method EvaluateInOrder(ps: seq<Policy>, spec: WorkloadSpec, check: Check, default: Action) returns (r: Result)
    ensures Evaluated(r, ps, spec, check, default)
  {
    r := Result(true, NoReason, [], [], [], |ps|);
    for i := 0 to |ps|
      invariant Accumulated(r, ps[..i], spec, check) && r.policyCount == |ps|
    {
      assert ps[..i + 1] == ps[..i] + [ps[i]];
      r := EvaluateNext(r, ps[..i], ps[i], spec, check);
    }
    assert ps[..|ps|] == ps;
    NothingMatched(ps, spec, check);
    if |r.matched| == 0 {
      if default == Deny {
        r := r.(allowed := false, reason := DefaultDeny);
      } else {
        r := r.(allowed := true, reason := DefaultAllow);
      }
    }
    if !r.allowed && r.reason == NoReason {
      r := r.(reason := Violated(|r.violations|));
    }
  }

  // ---- Any order ----

  lemma SameMembers(a: seq<Policy>, b: seq<Policy>)
    requires multiset(a) == multiset(b)
    ensures forall p :: p in a <==> p in b
  {
    forall p
      ensures p in a <==> p in b
    {
      assert p in a <==> p in multiset(a);
      assert p in b <==> p in multiset(b);
    }
  }

  /** Everything but the reason is the same, up to order, in every order of evaluation. */
  lemma OrderIndependent(ra: Result, a: seq<Policy>, rb: Result, b: seq<Policy>,
                         spec: WorkloadSpec, check: Check, default: Action)
    requires multiset(a) == multiset(b)
    requires Evaluated(ra, a, spec, check, default) && Evaluated(rb, b, spec, check, default)
    ensures ra.allowed == rb.allowed
    ensures multiset(ra.matched) == multiset(rb.matched)
    ensures multiset(ra.violations) == multiset(rb.violations)
    ensures multiset(ra.audits) == multiset(rb.audits)
    ensures ra.policyCount == rb.policyCount
  {
    SameMembers(a, b);
    GatherPermutes(a, b, MatchedName(spec));
    GatherPermutes(a, b, Denials(spec, check));
    GatherPermutes(a, b, Audits(spec, check));
    assert |multiset(a)| == |a| && |multiset(b)| == |b|;
  }

  function Priority(): Policy -> real {
    (p: Policy) => p.priority as real
  }

  function Live(policies: map<string, Policy>): set<Policy> {
    set n | n in policies && !policies[n].deleted :: policies[n]
  }

  /** A list getSortedPolicies may return. */
  ghost predicate Ranked(ps: seq<Policy>, policies: map<string, Policy>) {
    multiset(ps) == multiset(Live(policies)) && Descending(ps, Priority())
  }

  lemma RankedMembers(ps: seq<Policy>, policies: map<string, Policy>)
    requires Ranked(ps, policies)
    ensures forall p :: p in ps <==> p in Live(policies)
  {
    forall p
      ensures p in ps <==> p in Live(policies)
    {
      assert p in ps <==> p in multiset(ps);
      assert p in Live(policies) <==> p in multiset(Live(policies));
    }
  }

  /** A result that evaluating the stored policies now may give. */
  ghost predicate Fresh(r: Result, policies: map<string, Policy>, spec: WorkloadSpec, check: Check, default: Action) {
    exists ps :: Ranked(ps, policies) && Evaluated(r, ps, spec, check, default)
  }

  /** The decision depends on the stored policies alone. */
  lemma AllowedIff(r: Result, policies: map<string, Policy>, spec: WorkloadSpec, check: Check, default: Action)
    requires Fresh(r, policies, spec, check, default)
    ensures r.allowed <==>
              && (forall p :: p in Live(policies) ==> !Denies(p, spec, check))
              && ((exists p :: p in Live(policies) && Hits(p, spec)) || default != Deny)
  {
    var ps: seq<Policy> :| Ranked(ps, policies) && Evaluated(r, ps, spec, check, default);
    RankedMembers(ps, policies);
  }

  /** The same, told by the fields of the stored policies. */
  lemma AllowedByFields(r: Result, policies: map<string, Policy>, spec: WorkloadSpec, check: Check, default: Action)
    requires Fresh(r, policies, spec, check, default)
    ensures r.allowed <==>
              && (forall n, rule ::
                    (n in policies && !policies[n].deleted && policies[n].enabled && policies[n].action == Deny
                     && Applies(policies[n], spec) && rule in policies[n].rules
                     && (forall c :: c in rule.conditions ==> Holds(c, spec)))
                    ==> check(rule, spec) == [])
              && (default != Deny
                  || exists n :: n in policies && !policies[n].deleted && policies[n].enabled && Applies(policies[n], spec)
                       && ((policies[n].rules == [] && policies[n].action == Allow)
                           || exists rule :: rule in policies[n].rules && forall c :: c in rule.conditions ==> Holds(c, spec)))
  {
    AllowedIff(r, policies, spec, check, default);
    forall n | n in policies && !policies[n].deleted
      ensures policies[n] in Live(policies)
    {
    }
    if p :| p in Live(policies) && Hits(p, spec) {
      var n :| n in policies && !policies[n].deleted && policies[n] == p;
    }
    if p :| p in Live(policies) && Denies(p, spec, check) {
      var n :| n in policies && !policies[n].deleted && policies[n] == p;
      var rule :| rule in p.rules && Triggered(rule, spec) && check(rule, spec) != [];
      assert rule in policies[n].rules;
    }
  }

  /** What the lists of a result hold: the names of all policies that matched, the violations of those that deny, and
      an audit entry for each that audits. */
  lemma ResultLists(r: Result, ps: seq<Policy>, spec: WorkloadSpec, check: Check, default: Action,
                    name: string, v: Violation, e: AuditEntry)
    requires Evaluated(r, ps, spec, check, default)
    ensures name in r.matched <==> exists p :: p in ps && Hits(p, spec) && p.name == name
    ensures v in r.violations <==>
            exists p :: p in ps && Hits(p, spec) && p.action == Deny && v in PolicyViolations(p, spec, check)
    ensures e in r.audits <==>
            exists p :: p in ps && Hits(p, spec) && p.action == Audit && e == AuditEntry(p.name, |PolicyViolations(p, spec, check)|)
  {
    GatherMember(ps, MatchedName(spec), name);
    GatherMember(ps, Denials(spec, check), v);
    GatherMember(ps, Audits(spec, check), e);
    forall p
      ensures name in MatchedName(spec)(p) <==> Hits(p, spec) && p.name == name
      ensures v in Denials(spec, check)(p) <==> Hits(p, spec) && p.action == Deny && v in PolicyViolations(p, spec, check)
      ensures e in Audits(spec, check)(p) <==>
              Hits(p, spec) && p.action == Audit && e == AuditEntry(p.name, |PolicyViolations(p, spec, check)|)
    {
    }
  }

  /** A policy's violations are what the checks of its triggered rules find. */
  lemma ViolationsOf(p: Policy, spec: WorkloadSpec, check: Check, v: Violation)
    ensures v in PolicyViolations(p, spec, check) <==>
            exists rule :: rule in p.rules && Triggered(rule, spec) && v in check(rule, spec)
  {
    GatherMember(p.rules, RuleViolations(spec, check), v);
    forall rule
      ensures v in RuleViolations(spec, check)(rule) <==> Triggered(rule, spec) && v in check(rule, spec)
    {
    }
  }

  // ---- The reason given with a denial ----

  /** A denial names an Allow policy as its reason exactly when one matched before the first denying policy. */
  lemma MisleadingReasonIff(r: Result, ps: seq<Policy>, spec: WorkloadSpec, check: Check, default: Action)
    requires Evaluated(r, ps, spec, check, default) && !r.allowed
    ensures r.reason.AllowedBy? <==> exists i :: Acquits(ps, i, spec, check)
  {
    AcquittingIff(ps, spec, check);
    forall i: int | Acquits(ps, i, spec, check)
      ensures AnyHits(ps, spec)
    {
      assert ps[i] in ps;
    }
  }

  /** In terms of priorities: an Allow policy ranked above every denying policy always puts its name on the denial. */
  lemma AllowRankedAbove(r: Result, policies: map<string, Policy>, spec: WorkloadSpec, check: Check, default: Action, a: Policy)
    requires Fresh(r, policies, spec, check, default) && !r.allowed
    requires a in Live(policies) && Hits(a, spec) && a.action == Allow
    requires forall d :: d in Live(policies) && Denies(d, spec, check) ==> d.priority < a.priority
    ensures r.reason.AllowedBy?
  {
    var ps: seq<Policy> :| Ranked(ps, policies) && Evaluated(r, ps, spec, check, default);
    RankedMembers(ps, policies);
    var i :| 0 <= i < |ps| && ps[i] == a;
    forall d | d in ps[..i]
      ensures !Denies(d, spec, check)
    {
      var j :| 0 <= j < i && ps[j] == d;
      assert Priority()(ps[j]) >= Priority()(ps[i]);
      assert d in ps;
    }
    assert Acquits(ps, i, spec, check);
    MisleadingReasonIff(r, ps, spec, check, default);
  }

  lemma RankedLater(ps: seq<Policy>, i: nat, j: nat)
    requires Descending(ps, Priority()) && i < |ps| && j < |ps|
    requires ps[i].priority < ps[j].priority
    ensures j < i
  {
    assert Priority()(ps[i]) < Priority()(ps[j]);
  }

  /** A denying policy ranked above every matching Allow policy always prevents it. */
  lemma DenierRankedAbove(r: Result, policies: map<string, Policy>, spec: WorkloadSpec, check: Check, default: Action, d: Policy)
    requires Fresh(r, policies, spec, check, default)
    requires d in Live(policies) && Denies(d, spec, check)
    requires forall a :: a in Live(policies) && Hits(a, spec) && a.action == Allow ==> a.priority < d.priority
    ensures !r.allowed && !r.reason.AllowedBy?
  {
    var ps: seq<Policy> :| Ranked(ps, policies) && Evaluated(r, ps, spec, check, default);
    RankedMembers(ps, policies);
    var j :| 0 <= j < |ps| && ps[j] == d;
    forall i: int | 0 <= i < |ps| && Hits(ps[i], spec) && ps[i].action == Allow
      ensures AnyDenies(ps[..i], spec, check)
    {
      assert ps[i] in ps;
      RankedLater(ps, i, j);
      assert ps[j] in ps[..i];
    }
    MisleadingReasonIff(r, ps, spec, check, default);
  }

  lemma SomeResult(ps: seq<Policy>, spec: WorkloadSpec, check: Check, default: Action) returns (r: Result)
    ensures Evaluated(r, ps, spec, check, default)
  {
    r := Result(Admits(ps, spec, check, default), FinalReason(ps, spec, check, default),
                Gather(ps, MatchedName(spec)), Gather(ps, Denials(spec, check)), Gather(ps, Audits(spec, check)), |ps|);
  }

  lemma RankedPair(policies: map<string, Policy>, a: Policy, b: Policy)
    requires policies == map[a.name := a, b.name := b] && a.name != b.name && !a.deleted && !b.deleted
    requires a.priority >= b.priority
    ensures Ranked([a, b], policies)
  {
    assert policies[a.name] == a && policies[b.name] == b;
    assert Live(policies) == {a, b};
    assert multiset({a, b}) == multiset{a, b};
  }

  /** A workload can be refused with the reason that a policy allowed it. */
  lemma DeniedAsAllowed(spec: WorkloadSpec)
    ensures exists r, policies: map<string, Policy>, check: Check ::
              Fresh(r, policies, spec, check, Deny) && !r.allowed && r.reason.AllowedBy?
  {
    var allow := Policy("a", "", true, 1, map[], [], Allow, false);
    var rule := Rule("r", "PrivilegedMode", map[], []);
    var deny := Policy("d", "", true, 0, map[], [rule], Deny, false);
    var policies := map["a" := allow, "d" := deny];
    var check: Check := (_, _) => [Violation("r", "privileged")];
    RankedPair(policies, allow, deny);
    var r := SomeResult([allow, deny], spec, check, Deny);
    assert rule in deny.rules && Triggered(rule, spec);
    assert allow in [allow, deny] && deny in [allow, deny];
    assert Acquits([allow, deny], 0, spec, check);
    MisleadingReasonIff(r, [allow, deny], spec, check, Deny);
    assert Fresh(r, policies, spec, check, Deny);
  }

  // ---- The result cache ----

  function CacheKey(spec: WorkloadSpec): string {
    spec.namespace + "/" + spec.name + "/" + spec.image
  }

  /** No two of the submitted workloads share a cache key. */
  ghost predicate KeyDetermines(submitted: set<WorkloadSpec>) {
    forall a, b :: a in submitted && b in submitted && CacheKey(a) == CacheKey(b) ==> a == b
  }

  // ---- Which workloads share a key ----

  function Slashes(s: string): nat {
    if s == "" then 0 else Slashes(s[..|s| - 1]) + if s[|s| - 1] == '/' then 1 else 0
  }

  lemma {:induction false} SlashesSplit(a: string, b: string)
    ensures Slashes(a + b) == Slashes(a) + Slashes(b)
    decreases |b|
  {
    if b == "" {
      assert a + b == a;
    } else {
      assert (a + b)[..|a + b| - 1] == a + b[..|b| - 1];
      SlashesSplit(a, b[..|b| - 1]);
    }
  }

  lemma {:induction false} NoSlashIff(s: string)
    ensures Slashes(s) == 0 <==> '/' !in s
  {
    if s != "" {
      NoSlashIff(s[..|s| - 1]);
      assert s == s[..|s| - 1] + [s[|s| - 1]];
    }
  }

  lemma KeySlashes(spec: WorkloadSpec)
    ensures Slashes(CacheKey(spec)) == 2 + Slashes(spec.namespace) + Slashes(spec.name) + Slashes(spec.image)
  {
    var slash := "/";
    assert Slashes(slash) == 1 by {
      assert slash[..0] == "";
    }
    var head := spec.namespace + slash + spec.name;
    SlashesSplit(spec.namespace, slash);
    SlashesSplit(spec.namespace + slash, spec.name);
    SlashesSplit(head, slash);
    SlashesSplit(head + slash, spec.image);
  }

  predicate SameNames(a: WorkloadSpec, b: WorkloadSpec) {
    a.namespace == b.namespace && a.name == b.name && a.image == b.image
  }

  predicate NoSlash(a: WorkloadSpec) {
    '/' !in a.namespace && '/' !in a.name && '/' !in a.image
  }

  lemma NoSlashKeyIff(a: WorkloadSpec)
    ensures NoSlash(a) <==> Slashes(CacheKey(a)) == 2
  {
    KeySlashes(a);
    NoSlashIff(a.namespace);
    NoSlashIff(a.name);
    NoSlashIff(a.image);
  }

  lemma KeyTail(a: WorkloadSpec)
    ensures CacheKey(a) == Join(a.namespace, '/', a.name + "/" + a.image)
    ensures a.name + "/" + a.image == Join(a.name, '/', a.image)
  {
  }

  lemma PlainKeyUnique(a: WorkloadSpec, b: WorkloadSpec)
    requires CacheKey(a) == CacheKey(b) && NoSlash(a)
    ensures SameNames(a, b)
  {
    NoSlashKeyIff(a);
    NoSlashKeyIff(b);
    KeyTail(a);
    KeyTail(b);
    JoinUnique(a.namespace, a.name + "/" + a.image, b.namespace, b.name + "/" + b.image, '/');
    JoinUnique(a.name, a.image, b.name, b.image, '/');
  }

  lemma CutAtSlash(s: string) returns (u: string, v: string)
    requires '/' in s
    ensures s == u + "/" + v
  {
    var i :| 0 <= i < |s| && s[i] == '/';
    u, v := s[..i], s[i + 1..];
  }

  lemma Regroup(a: string, b: string, c: string, d: string)
    ensures (a + "/" + b) + "/" + c + "/" + d == a + "/" + (b + "/" + c) + "/" + d == a + "/" + b + "/" + (c + "/" + d)
  {
  }

  /** A slash in one of the names can be read as the separator. */
  lemma SlashMoves(a: WorkloadSpec) returns (b: WorkloadSpec)
    requires !NoSlash(a)
    ensures CacheKey(a) == CacheKey(b) && !SameNames(a, b)
  {
    if '/' in a.namespace {
      var u, v := CutAtSlash(a.namespace);
      b := a.(namespace := u, name := v + "/" + a.name);
      Regroup(u, v, a.name, a.image);
    } else if '/' in a.name {
      var u, v := CutAtSlash(a.name);
      b := a.(namespace := a.namespace + "/" + u, name := v);
      Regroup(a.namespace, u, v, a.image);
    } else {
      var u, v := CutAtSlash(a.image);
      b := a.(name := a.name + "/" + u, image := v);
      Regroup(a.namespace, a.name, u, v);
    }
  }

  /** The key of a workload also belongs to other names exactly if one of its own contains a slash. */
  lemma KeyCollidesIff(a: WorkloadSpec)
    ensures (exists b :: CacheKey(a) == CacheKey(b) && !SameNames(a, b)) <==> !NoSlash(a)
  {
    if !NoSlash(a) {
      var b := SlashMoves(a);
    } else {
      forall b | CacheKey(a) == CacheKey(b)
        ensures SameNames(a, b)
      {
        PlainKeyUnique(a, b);
      }
    }
  }

  // ---- What a shared key does ----

  predicate SameOutsideSettings(a: WorkloadSpec, b: WorkloadSpec) {
    a == b.(settings := a.settings)
  }

  /** A check that reads no more than the settings, and those only if nothing else tells the workloads apart. */
  function TellingCheck(a: WorkloadSpec, b: WorkloadSpec): Check {
    if SameOutsideSettings(a, b)
    then (_, spec: WorkloadSpec) => if spec.settings == a.settings then [Violation("telling", "settings")] else []
    else (_, _) => [Violation("telling", "")]
  }

  function Includes(labels: map<string, string>, some: map<string, string>): bool {
    forall k :: k in some ==> k in labels && labels[k] == some[k]
  }

  function TellingConditions(a: WorkloadSpec): seq<Condition> {
    [Condition("namespace", Equal, Text(a.namespace)), Condition("name", Equal, Text(a.name)),
     Condition("image", Equal, Text(a.image)), Condition("privileged", Equal, Flag(a.privileged)),
     Condition("hostNetwork", Equal, Flag(a.hostNetwork))]
  }

  /** A Deny policy that selects by label where the labels differ and by the named fields where they do not. */
  function TellingPolicy(a: WorkloadSpec, b: WorkloadSpec): Policy {
    var labels := if a.labels == b.labels then map[] else if Includes(b.labels, a.labels) then b.labels else a.labels;
    var conditions := if a.labels == b.labels then TellingConditions(a) else [];
    Policy("telling", "", true, 0, labels, [Rule("telling", "SecurityContext", map[], conditions)], Deny, false)
  }

  lemma OneRule(p: Policy, rule: Rule, spec: WorkloadSpec, check: Check)
    requires p.enabled && p.action == Deny && p.rules == [rule]
    ensures Denies(p, spec, check) <==> Applies(p, spec) && Triggered(rule, spec) && check(rule, spec) != []
  {
    assert rule in p.rules;
  }

  lemma TellingTriggers(a: WorkloadSpec, spec: WorkloadSpec)
    ensures Triggered(Rule("telling", "SecurityContext", map[], TellingConditions(a)), spec) <==>
            SameNames(a, spec) && a.privileged == spec.privileged && a.hostNetwork == spec.hostNetwork
  {
    var cs := TellingConditions(a);
    assert cs[0] in cs && cs[1] in cs && cs[2] in cs && cs[3] in cs && cs[4] in cs;
    assert Holds(cs[0], spec) <==> spec.namespace == a.namespace;
    assert Holds(cs[1], spec) <==> spec.name == a.name;
    assert Holds(cs[2], spec) <==> spec.image == a.image;
    assert Holds(cs[3], spec) <==> spec.privileged == a.privileged;
    assert Holds(cs[4], spec) <==> spec.hostNetwork == a.hostNetwork;
  }

  /** Different label maps do not include each other. */
  lemma IncludesBoth(a: map<string, string>, b: map<string, string>)
    requires Includes(a, b) && Includes(b, a)
    ensures a == b
  {
  }

  /** Any two different workloads are told apart by conditions, label selectors or a check of the settings. */
  lemma ToldApart(a: WorkloadSpec, b: WorkloadSpec)
    requires a != b
    ensures Denies(TellingPolicy(a, b), a, TellingCheck(a, b)) != Denies(TellingPolicy(a, b), b, TellingCheck(a, b))
  {
    var p, check := TellingPolicy(a, b), TellingCheck(a, b);
    OneRule(p, p.rules[0], a, check);
    OneRule(p, p.rules[0], b, check);
    if a.labels == b.labels {
      TellingTriggers(a, a);
      TellingTriggers(a, b);
    } else if Includes(b.labels, a.labels) {
      assert Applies(p, a) ==> Includes(a.labels, b.labels);
      if Includes(a.labels, b.labels) {
        IncludesBoth(a.labels, b.labels);
      }
    } else {
      assert Applies(p, b) ==> Includes(b.labels, a.labels);
    }
  }

  lemma OnePolicy(policies: map<string, Policy>, p: Policy)
    requires policies == map[p.name := p] && !p.deleted
    ensures Live(policies) == {p}
  {
    assert policies[p.name] == p;
  }

  /** One Deny policy over a default of Allow: a result for a workload it treats one way is none for a workload it
      treats the other way. */
  lemma ApartResults(policies: map<string, Policy>, p: Policy, check: Check, a: WorkloadSpec, b: WorkloadSpec, r: Result)
    requires policies == map[p.name := p] && !p.deleted
    requires Denies(p, a, check) != Denies(p, b, check) && Fresh(r, policies, a, check, Allow)
    ensures !Fresh(r, policies, b, check, Allow)
  {
    AllowedOne(policies, p, check, a, r);
    if Fresh(r, policies, b, check, Allow) {
      AllowedOne(policies, p, check, b, r);
    }
  }

  lemma AllowedOne(policies: map<string, Policy>, p: Policy, check: Check, spec: WorkloadSpec, r: Result)
    requires policies == map[p.name := p] && !p.deleted && Fresh(r, policies, spec, check, Allow)
    ensures r.allowed <==> !Denies(p, spec, check)
  {
    OnePolicy(policies, p);
    AllowedIff(r, policies, spec, check, Allow);
  }

  /** Under all policies, rule checks and default actions, what was evaluated for one of the submitted workloads is
      current for every other with its key. */
  ghost predicate HitsCurrent(submitted: set<WorkloadSpec>) {
    forall check: Check, policies, default, a, b, r ::
      (a in submitted && b in submitted && CacheKey(a) == CacheKey(b)
       && KeyedByName(policies) && Fresh(r, policies, a, check, default))
      ==> Fresh(r, policies, b, check, default)
  }

  /** The cache is right about a set of workloads exactly if the key determines them. */
  lemma HitsCurrentIff(submitted: set<WorkloadSpec>)
    ensures HitsCurrent(submitted) <==> KeyDetermines(submitted)
  {
    if !KeyDetermines(submitted) {
      var a, b :| a in submitted && b in submitted && CacheKey(a) == CacheKey(b) && a != b;
      var check, policies, r := WrongAnswer(a, b);
      assert KeyedByName(policies);
    }
  }

  lemma WrongAnswer(a: WorkloadSpec, b: WorkloadSpec) returns (check: Check, policies: map<string, Policy>, r: Result)
    requires a != b
    ensures KeyedByName(policies)
    ensures Fresh(r, policies, a, check, Allow) && !Fresh(r, policies, b, check, Allow)
  {
    var p := TellingPolicy(a, b);
    check, policies := TellingCheck(a, b), map[p.name := p];
    ToldApart(a, b);
    r := SomeResult([p], a, check, Allow);
    RankedOne(policies, p);
    assert Fresh(r, policies, a, check, Allow);
    ApartResults(policies, p, check, a, b, r);
  }

  lemma RankedOne(policies: map<string, Policy>, p: Policy)
    requires policies == map[p.name := p] && !p.deleted
    ensures Ranked([p], policies)
  {
    OnePolicy(policies, p);
  }

  datatype Cached = Cached(result: Result, expiresAt: int)

  /** The policies, by name, that the names in `done` stand for. */
  function LiveAmong(policies: map<string, Policy>, done: set<string>): set<Policy> {
    set n | n in done && n in policies && !policies[n].deleted :: policies[n]
  }

  ghost predicate KeyedByName(policies: map<string, Policy>) {
    forall n :: n in policies ==> policies[n].name == n
  }

  lemma LiveStep(policies: map<string, Policy>, done: set<string>, n: string)
    requires KeyedByName(policies) && n in policies && n !in done
    ensures multiset(LiveAmong(policies, done + {n})) ==
              multiset(LiveAmong(policies, done)) + if policies[n].deleted then multiset{} else multiset{policies[n]}
  {
    var was := LiveAmong(policies, done);
    if policies[n].deleted {
      assert LiveAmong(policies, done + {n}) == was;
    } else {
      assert policies[n] !in was;
      assert LiveAmong(policies, done + {n}) == was + {policies[n]};
      assert multiset(was + {policies[n]}) == multiset(was) + multiset{policies[n]};
    }
  }

  type Judgment = (Result, map<string, Policy>, WorkloadSpec) -> bool

  ghost function Judged(check: Check, default: Action): Judgment {
    (r, policies, spec) => Fresh(r, policies, spec, check, default)
  }

  /** Every entry was evaluated for a submitted workload of its key, over the policies of its basis. */
  ghost predicate Backed(cache: map<string, Cached>, cachedFor: map<string, WorkloadSpec>, basis: map<string, map<string, Policy>>,
                         submitted: set<WorkloadSpec>, judged: Judgment) {
    && cache.Keys == cachedFor.Keys == basis.Keys
    && (forall k :: k in cache ==> CacheKey(cachedFor[k]) == k && cachedFor[k] in submitted)
    && forall k :: k in cache ==> judged(cache[k].result, basis[k], cachedFor[k])
  }

  lemma BackedUpdate(cache: map<string, Cached>, cachedFor: map<string, WorkloadSpec>, basis: map<string, map<string, Policy>>,
                     submitted: set<WorkloadSpec>, judged: Judgment, spec: WorkloadSpec, entry: Cached, from: map<string, Policy>)
    requires Backed(cache, cachedFor, basis, submitted, judged) && judged(entry.result, from, spec)
    ensures var k := CacheKey(spec);
            Backed(cache[k := entry], cachedFor[k := spec], basis[k := from], submitted + {spec}, judged)
  {
  }

  ghost predicate AllFrom(basis: map<string, map<string, Policy>>, policies: map<string, Policy>) {
    forall k :: k in basis ==> basis[k] == policies
  }

  lemma AllFromUpdate(basis: map<string, map<string, Policy>>, policies: map<string, Policy>, k: string, from: map<string, Policy>)
    requires AllFrom(basis, policies)
    ensures AllFrom(basis[k := from], policies) <==> from == policies
  {
    assert basis[k := from][k] == from;
  }

  /** A backed entry of a current cache is right for the workload whose key it has, if the key determines it. */
  lemma HitIsCurrent(cache: map<string, Cached>, cachedFor: map<string, WorkloadSpec>, basis: map<string, map<string, Policy>>,
                     submitted: set<WorkloadSpec>, judged: Judgment, policies: map<string, Policy>, spec: WorkloadSpec)
    requires Backed(cache, cachedFor, basis, submitted, judged) && CacheKey(spec) in cache
    requires AllFrom(basis, policies) && KeyDetermines(submitted + {spec})
    ensures judged(cache[CacheKey(spec)].result, policies, spec)
  {
    assert cachedFor[CacheKey(spec)] == spec;
  }

  class Engine {
    const check: Check
    const defaultAction: Action
    const cacheEnabled: bool
    const cacheTTL: int
    var policies: map<string, Policy>
    var cache: map<string, Cached>
    /** The workload and the policies each entry was evaluated for. */
    ghost var cachedFor: map<string, WorkloadSpec>
    ghost var basis: map<string, map<string, Policy>>
    /** The workloads looked up or stored since the policies last changed. */
    ghost var submitted: set<WorkloadSpec>

    ghost predicate Valid()
      reads this
    {
      KeyedByName(policies) && Backed(cache, cachedFor, basis, submitted, Judged(check, defaultAction))
    }

    /** Every entry was evaluated for the policies stored now. */
    ghost predicate Current()
      reads this
    {
      AllFrom(basis, policies)
    }

    constructor (check: Check, defaultAction: Action, cacheEnabled: bool, cacheTTL: int)
      ensures Valid() && Current() && policies == map[] && cache == map[] && submitted == {}
      ensures this.check == check && this.defaultAction == defaultAction
      ensures this.cacheEnabled == cacheEnabled && this.cacheTTL == cacheTTL
    {
      this.check, this.defaultAction := check, defaultAction;
      this.cacheEnabled, this.cacheTTL := cacheEnabled, cacheTTL;
      policies, cache, cachedFor, basis, submitted := map[], map[], map[], map[], {};
    }

    method AddPolicy(p: Policy) returns (ok: bool)
      requires Valid()
      modifies this
      ensures Valid() && ok == (p.name != "")
      ensures ok ==> Current() && policies == old(policies)[p.name := p] && cache == map[] && submitted == {}
      ensures !ok ==> unchanged(this)
    {
      if p.name == "" {
        return false;
      }
      policies := policies[p.name := p];
      cache, cachedFor, basis, submitted := map[], map[], map[], {};
      return true;
    }

    method RemovePolicy(name: string) returns (ok: bool)
      requires Valid()
      modifies this
      ensures Valid() && ok == (name in old(policies))
      ensures ok ==> Current() && policies == old(policies) - {name} && cache == map[] && submitted == {}
      ensures !ok ==> unchanged(this)
    {
      if name !in policies {
        return false;
      }
      policies := policies - {name};
      cache, cachedFor, basis, submitted := map[], map[], map[], {};
      return true;
    }

    /** getSortedPolicies: the map is walked in any order and ties are broken in any way. */
    method SortedPolicies() returns (ps: seq<Policy>)
      requires KeyedByName(policies)
      ensures Ranked(ps, policies)
    {
      ps := [];
      var names := policies.Keys;
      ghost var done := {};
      while names != {}
        invariant names <= policies.Keys && done == policies.Keys - names
        invariant multiset(ps) == multiset(LiveAmong(policies, done))
        decreases |names|
      {
        var n :| n in names;
        LiveStep(policies, done, n);
        if !policies[n].deleted {
          ps := ps + [policies[n]];
        }
        names := names - {n};
        done := done + {n};
      }
      assert LiveAmong(policies, done) == Live(policies);
      ps := SortSlice(ps, Priority());
    }

    /** getCachedResult */
    method CachedResult(spec: WorkloadSpec, now: int) returns (r: Option<Result>)
      requires Valid()
      ensures r.Some? <==> cacheEnabled && CacheKey(spec) in cache && now < cache[CacheKey(spec)].expiresAt
      ensures r.Some? ==> r.value == cache[CacheKey(spec)].result
      ensures r.Some? && Current() && KeyDetermines(submitted + {spec}) ==> Fresh(r.value, policies, spec, check, defaultAction)
    {
      if cacheEnabled {
        var key := CacheKey(spec);
        if key in cache && now < cache[key].expiresAt {
          if AllFrom(basis, policies) && KeyDetermines(submitted + {spec}) {
            HitIsCurrent(cache, cachedFor, basis, submitted, Judged(check, defaultAction), policies, spec);
          }
          return Some(cache[key].result);
        }
      }
      return None;
    }

    /** The part of Evaluate between the two uses of the cache: the policies are read at one moment. */
    method Judge(spec: WorkloadSpec) returns (r: Result)
      requires Valid()
      ensures Fresh(r, policies, spec, check, defaultAction)
    {
      var ps := SortedPolicies();
      r := EvaluateInOrder(ps, spec, check, defaultAction);
    }

    ghost method Submit(spec: WorkloadSpec)
      requires Valid()
      modifies this`submitted
      ensures Valid() && submitted == old(submitted) + {spec}
    {
      submitted := submitted + {spec};
    }

    /** cacheResult, for a result that was evaluated for the policies `from`. The cache stays current exactly if
        those are still the policies. */
    method CacheResult(spec: WorkloadSpec, r: Result, ghost from: map<string, Policy>, stored: int)
      requires Valid() && Fresh(r, from, spec, check, defaultAction)
      modifies this`cache, this`cachedFor, this`basis, this`submitted
      ensures Valid() && submitted == old(submitted) + {spec}
      ensures cacheEnabled ==>
                && cache == old(cache)[CacheKey(spec) := Cached(r, stored + cacheTTL)]
                && cachedFor == old(cachedFor)[CacheKey(spec) := spec] && basis == old(basis)[CacheKey(spec) := from]
      ensures !cacheEnabled ==> cache == old(cache) && cachedFor == old(cachedFor) && basis == old(basis)
      ensures cacheEnabled && old(Current()) ==> (Current() <==> from == policies)
    {
      if cacheEnabled {
        if AllFrom(basis, policies) {
          AllFromUpdate(basis, policies, CacheKey(spec), from);
        }
        StoreEntry(spec, Cached(r, stored + cacheTTL), from);
      } else {
        Submit(spec);
      }
    }

    method StoreEntry(spec: WorkloadSpec, entry: Cached, ghost from: map<string, Policy>)
      requires Valid() && Judged(check, defaultAction)(entry.result, from, spec)
      modifies this`cache, this`cachedFor, this`basis, this`submitted
      ensures Valid() && submitted == old(submitted) + {spec}
      ensures cache == old(cache)[CacheKey(spec) := entry]
      ensures cachedFor == old(cachedFor)[CacheKey(spec) := spec] && basis == old(basis)[CacheKey(spec) := from]
    {
      ghost var judged := Judged(check, defaultAction);
      BackedUpdate(cache, cachedFor, basis, submitted, judged, spec, entry, from);
      cache := cache[CacheKey(spec) := entry];
      cachedFor, basis := cachedFor[CacheKey(spec) := spec], basis[CacheKey(spec) := from];
      submitted := submitted + {spec};
    }

    /** A whole evaluation. A hit returns what was stored; anything else is evaluated and stored. In a current
        cache the answer is one that evaluating now could give, as long as the workload's key tells it apart from
        the workloads submitted since the last change of the policies. */
    method Evaluate(spec: WorkloadSpec, now: int, stored: int) returns (r: Result, hit: bool)
      requires Valid()
      modifies this`cache, this`cachedFor, this`basis, this`submitted
      ensures Valid() && submitted == old(submitted) + {spec} && (old(Current()) ==> Current())
      ensures hit <==> cacheEnabled && CacheKey(spec) in old(cache) && now < old(cache)[CacheKey(spec)].expiresAt
      ensures hit ==> r == old(cache)[CacheKey(spec)].result
      ensures hit ==> unchanged(this`cache) && unchanged(this`basis)
      ensures !hit || (old(Current()) && KeyDetermines(submitted)) ==> Fresh(r, policies, spec, check, defaultAction)
      ensures !hit ==> cache == if cacheEnabled then old(cache)[CacheKey(spec) := Cached(r, stored + cacheTTL)] else old(cache)
    {
      var cached := CachedResult(spec, now);
      if cached.Some? {
        Submit(spec);
        return cached.value, true;
      }
      r := Judge(spec);
      CacheResult(spec, r, policies, stored);
      hit := false;
    }
  }

  /** Any two different workloads with one key: under some policy the second is answered from the first one's
      entry, in a current cache, with a result that evaluating it could not give. */
  method WrongHit(a: WorkloadSpec, b: WorkloadSpec) returns (r: Result, hit: bool, engine: Engine)
    requires a != b && CacheKey(a) == CacheKey(b)
    ensures engine.Valid() && engine.Current() && engine.submitted == {a, b}
    ensures hit && !Fresh(r, engine.policies, b, engine.check, engine.defaultAction)
  {
    var p, check := TellingPolicy(a, b), TellingCheck(a, b);
    ToldApart(a, b);
    engine := new Engine(check, Allow, true, 10);
    var _ := engine.AddPolicy(p);
    ghost var first;
    r, hit, first := EvaluateBoth(engine, a, b);
    ApartResults(engine.policies, p, check, a, b, first);
  }

  /** The second of two workloads with one key is answered with the first one's result. */
  method EvaluateBoth(engine: Engine, a: WorkloadSpec, b: WorkloadSpec) returns (r: Result, hit: bool, ghost first: Result)
    requires engine.Valid() && engine.Current() && engine.cacheEnabled && engine.cacheTTL > 1 && engine.cache == map[]
    requires CacheKey(a) == CacheKey(b)
    modifies engine`cache, engine`cachedFor, engine`basis, engine`submitted
    ensures engine.Valid() && engine.Current() && engine.submitted == old(engine.submitted) + {a, b}
    ensures hit && r == first && Fresh(first, engine.policies, a, engine.check, engine.defaultAction)
  {
    var answer, _ := engine.Evaluate(a, 0, 0);
    first := answer;
    r, hit := engine.Evaluate(b, 1, 1);
  }

  /** A policy is added between the reading of the policies and the storing of the result. */
  method JudgeAcrossChange(engine: Engine, spec: WorkloadSpec, p: Policy) returns (judged: Result)
    requires engine.Valid() && engine.policies == map[] && engine.cacheEnabled && p.name != "" && engine.defaultAction == Allow
    modifies engine
    ensures engine.Valid() && engine.policies == map[p.name := p] && engine.submitted == {spec}
    ensures judged.allowed && engine.cache == map[CacheKey(spec) := Cached(judged, engine.cacheTTL)]
    ensures engine.basis == map[CacheKey(spec) := map[]]
  {
    judged := engine.Judge(spec);
    AllowedIff(judged, map[], spec, engine.check, Allow);
    var _ := engine.AddPolicy(p);
    engine.CacheResult(spec, judged, map[], 0);
  }

  /** Then the cache keeps the old answer and returns it. */
  method StaleHit(spec: WorkloadSpec) returns (r: Result, hit: bool, engine: Engine)
    ensures engine.Valid() && !engine.Current() && KeyDetermines(engine.submitted)
    ensures hit && !Fresh(r, engine.policies, spec, engine.check, engine.defaultAction)
  {
    var rule := Rule("r", "SecurityContext", map[], []);
    var p := Policy("d", "", true, 0, map[], [rule], Deny, false);
    var check: Check := (_, _) => [Violation("r", "denied")];
    engine := new Engine(check, Allow, true, 10);
    r := JudgeAcrossChange(engine, spec, p);
    assert p.name in engine.policies && engine.basis[CacheKey(spec)] != engine.policies;
    OneRule(p, rule, spec, check);
    DeniedNotFresh(engine.policies, p, spec, check, r);
    r, hit := engine.Evaluate(spec, 1, 1);
  }

  lemma DeniedNotFresh(policies: map<string, Policy>, p: Policy, spec: WorkloadSpec, check: Check, r: Result)
    requires policies == map[p.name := p] && !p.deleted && Denies(p, spec, check) && r.allowed
    ensures !Fresh(r, policies, spec, check, Allow)
  {
    if Fresh(r, policies, spec, check, Allow) {
      AllowedOne(policies, p, check, spec, r);
    }
  }
}
