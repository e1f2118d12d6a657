/** Authorization bindings of a Compose fan-out: hash inputs, plans, dependent plans and their verification. */
module Fanout {
  import opened Wrappers
  import opened Bytes

  type Digest = d: seq<Byte> | |d| == 32 witness seq(32, _ => 0)
  type Id = d: seq<Byte> | |d| == 16 witness seq(16, _ => 0)
  type U32 = n: nat | n < 0x1_0000_0000
  type U64 = n: nat | n < 0x1_0000_0000_0000_0000
  type Name = s: seq<Byte> | |s| < 0x1_0000_0000_0000_0000

  /** SHA-256, of which only the length of its result is known. */
  type Sha = seq<Byte> -> Digest

  /**
   * These two hash inputs do not collide. No hash is free of collisions altogether, so the claims
   * below name the inputs.
   */
  predicate NoCollision(sha: Sha, a: seq<Byte>, b: seq<Byte>) {
    sha(a) == sha(b) ==> a == b
  }

  datatype FanoutAction = ContainerRun | ContainerStop | ContainerDelete | ImagePull | VolumeCreate | ImageBuild

  function Code(action: FanoutAction): Byte {
    match action
    case ContainerRun => 1
    case ContainerStop => 2
    case ContainerDelete => 3
    case ImagePull => 4
    case VolumeCreate => 5
    case ImageBuild => 6
  }

  datatype ServiceMutation = ServiceMutation(service: Name, action: FanoutAction, requestDigest: Digest)

  // ----- hash inputs -----

  function Ascii(s: string): (b: seq<Byte>)
    ensures |b| == |s| && forall i :: 0 <= i < |s| ==> b[i] == s[i] as int % 256
  {
    seq(|s|, i requires 0 <= i < |s| => s[i] as int % 256)
  }

  const PLAN_TAG := "ferrocrate/compose-plan/v1"
  const DEPENDENT_TAG := "ferrocrate/compose-dependent-plan/v1"
  const IDEMPOTENCY_TAG := "ferrocrate/compose-idempotency/v1"
  const CHILD_TAG := "ferrocrate/compose-child/v1"

  function MutationBytes(ordinal: U32, code: Byte, service: Name, requestDigest: Digest): seq<Byte> {
    BigEndian(ordinal, 4) + ([code] + (BigEndian(|service|, 8) + (service + requestDigest)))
  }

  /** The mutations from place `from` on, with no count in front of them. */
  function MutationListBytes(mutations: seq<ServiceMutation>, from: nat): seq<Byte>
    requires from <= |mutations| < 0x1_0000_0000
    decreases |mutations| - from
  {
    if from == |mutations| then [] else
      var m := mutations[from];
      MutationBytes(from, Code(m.action), m.service, m.requestDigest) + MutationListBytes(mutations, from + 1)
  }

  function PlanBytes(parent: Id, generation: U64, policy: Digest, deadline: U64,
                     mutations: seq<ServiceMutation>): seq<Byte>
    requires |mutations| < 0x1_0000_0000
  {
    Ascii(PLAN_TAG)
    + (parent + (BigEndian(generation, 8) + (policy + (BigEndian(deadline, 8) + MutationListBytes(mutations, 0)))))
  }

  function DependentBytes(plan: Digest, parent: Id, child: Id, outcome: Digest, ordinal: U32,
                          m: ServiceMutation): seq<Byte> {
    Ascii(DEPENDENT_TAG)
    + (plan + (parent + (child + (outcome + MutationBytes(ordinal, Code(m.action), m.service, m.requestDigest)))))
  }

  function IdempotencyBytes(parent: Id, plan: Digest, ordinal: U32, code: Byte, service: Name,
                            requestDigest: Digest): seq<Byte> {
    Ascii(IDEMPOTENCY_TAG) + (parent + (plan + MutationBytes(ordinal, code, service, requestDigest)))
  }

  function ChildBytes(idempotency: Digest, attempt: U32): seq<Byte> {
    Ascii(CHILD_TAG) + (idempotency + BigEndian(attempt, 4))
  }

  /** Where the fields stand in the hash input of a root plan. */
  lemma PlanBytesLayout(parent: Id, generation: U64, policy: Digest, deadline: U64, mutations: seq<ServiceMutation>)
    requires |mutations| < 0x1_0000_0000
    ensures var b := PlanBytes(parent, generation, policy, deadline, mutations);
            && |b| >= 90 && b[..26] == Ascii("ferrocrate/compose-plan/v1") && b[26..42] == parent
            && b[42..50] == BigEndian(generation, 8) && b[50..82] == policy && b[82..90] == BigEndian(deadline, 8)
            && b[90..] == MutationListBytes(mutations, 0)
  {
    assert |PLAN_TAG| == 26;
    var b, list := PlanBytes(parent, generation, policy, deadline, mutations), MutationListBytes(mutations, 0);
    var fourth := BigEndian(deadline, 8) + list;
    var third := policy + fourth;
    var second := BigEndian(generation, 8) + third;
    assert b[0..] == b;
    PartAt(b, 0, Ascii(PLAN_TAG), parent + second);
    PartAt(b, 26, parent, second);
    PartAt(b, 42, BigEndian(generation, 8), third);
    PartAt(b, 50, policy, fourth);
    PartAt(b, 82, BigEndian(deadline, 8), list);
  }

  /** And in that of a dependent plan. */
  lemma DependentBytesLayout(plan: Digest, parent: Id, child: Id, outcome: Digest, ordinal: U32, m: ServiceMutation)
    ensures var b := DependentBytes(plan, parent, child, outcome, ordinal, m);
            && |b| >= 132 && b[..36] == Ascii("ferrocrate/compose-dependent-plan/v1") && b[36..68] == plan
            && b[68..84] == parent && b[84..100] == child && b[100..132] == outcome
            && b[132..] == MutationBytes(ordinal, Code(m.action), m.service, m.requestDigest)
  {
    assert |DEPENDENT_TAG| == 36;
    var b := DependentBytes(plan, parent, child, outcome, ordinal, m);
    var last := MutationBytes(ordinal, Code(m.action), m.service, m.requestDigest);
    assert b[0..] == b;
    PartAt(b, 0, Ascii(DEPENDENT_TAG), plan + (parent + (child + (outcome + last))));
    PartAt(b, 36, plan, parent + (child + (outcome + last)));
    PartAt(b, 68, parent, child + (outcome + last));
    PartAt(b, 84, child, outcome + last);
    PartAt(b, 100, outcome, last);
  }

  /** And in one mutation. */
  lemma MutationBytesLayout(ordinal: U32, code: Byte, service: Name, requestDigest: Digest)
    ensures var b := MutationBytes(ordinal, code, service, requestDigest);
            && |b| == 45 + |service| && b[..4] == BigEndian(ordinal, 4) && b[4] == code
            && b[5..13] == BigEndian(|service|, 8) && b[13..13 + |service|] == service
            && b[13 + |service|..] == requestDigest
  {
    var b, len := MutationBytes(ordinal, code, service, requestDigest), BigEndian(|service|, 8);
    assert b[0..] == b;
    PartAt(b, 0, BigEndian(ordinal, 4), [code] + (len + (service + requestDigest)));
    PartAt(b, 4, [code], len + (service + requestDigest));
    PartAt(b, 5, len, service + requestDigest);
    PartAt(b, 13, service, requestDigest);
  }

  lemma CodeInjective(a: FanoutAction, b: FanoutAction)
    requires Code(a) == Code(b)
    ensures a == b
  {
  }

  /** One mutation can be read off the front of any byte stream in only one way. */
  lemma MutationHead(o1: U32, c1: Byte, s1: Name, d1: Digest, x: seq<Byte>, o2: U32, c2: Byte, s2: Name, d2: Digest,
                     y: seq<Byte>)
    requires MutationBytes(o1, c1, s1, d1) + x == MutationBytes(o2, c2, s2, d2) + y
    ensures o1 == o2 && c1 == c2 && s1 == s2 && d1 == d2 && x == y
  {
    Power256Values();
    var n1, n2 := BigEndian(|s1|, 8), BigEndian(|s2|, 8);
    MutationFront(o1, c1, s1, d1, x);
    MutationFront(o2, c2, s2, d2, y);
    SplitEqual(BigEndian(o1, 4), [c1] + (n1 + (s1 + (d1 + x))), BigEndian(o2, 4), [c2] + (n2 + (s2 + (d2 + y))));
    SplitEqual([c1], n1 + (s1 + (d1 + x)), [c2], n2 + (s2 + (d2 + y)));
    SplitEqual(n1, s1 + (d1 + x), n2, s2 + (d2 + y));
    BigEndianInjective(o1, o2, 4);
    BigEndianInjective(|s1|, |s2|, 8);
    SplitEqual(s1, d1 + x, s2, d2 + y);
    SplitEqual(d1, x, d2, y);
  }

  lemma MutationFront(o: U32, c: Byte, s: Name, d: Digest, x: seq<Byte>)
    ensures MutationBytes(o, c, s, d) + x == BigEndian(o, 4) + ([c] + (BigEndian(|s|, 8) + (s + (d + x))))
  {
    var n := BigEndian(|s|, 8);
    assert s + d + x == s + (d + x);
    assert n + (s + d) + x == n + (s + (d + x));
    assert [c] + (n + (s + d)) + x == [c] + (n + (s + (d + x)));
  }

  /** The list needs no length in front: each mutation delimits itself and the stream ends with the last one. */
  lemma {:induction false} MutationListInjective(a: seq<ServiceMutation>, b: seq<ServiceMutation>, from: nat)
    requires from <= |a| < 0x1_0000_0000 && from <= |b| < 0x1_0000_0000
    requires MutationListBytes(a, from) == MutationListBytes(b, from)
    ensures a[from..] == b[from..]
    decreases |a| - from
  {
    if from < |a| && from < |b| {
      var m, n := a[from], b[from];
      MutationHead(from, Code(m.action), m.service, m.requestDigest, MutationListBytes(a, from + 1),
                   from, Code(n.action), n.service, n.requestDigest, MutationListBytes(b, from + 1));
      CodeInjective(m.action, n.action);
      MutationListInjective(a, b, from + 1);
      assert a[from..] == [m] + a[from + 1..] && b[from..] == [n] + b[from + 1..];
    }
  }

  /** The root plan's hash input determines the parent, the policy, the deadline and every mutation in order. */
  lemma PlanBytesInjective(p1: Id, g1: U64, y1: Digest, t1: U64, a: seq<ServiceMutation>, p2: Id, g2: U64, y2: Digest,
                           t2: U64, b: seq<ServiceMutation>)
    requires |a| < 0x1_0000_0000 && |b| < 0x1_0000_0000
    requires PlanBytes(p1, g1, y1, t1, a) == PlanBytes(p2, g2, y2, t2, b)
    ensures p1 == p2 && g1 == g2 && y1 == y2 && t1 == t2 && a == b
  {
    Power256Values();
    var l1, l2 := MutationListBytes(a, 0), MutationListBytes(b, 0);
    var e1, e2 := BigEndian(t1, 8), BigEndian(t2, 8);
    var h1, h2 := BigEndian(g1, 8), BigEndian(g2, 8);
    SplitEqual(Ascii(PLAN_TAG), p1 + (h1 + (y1 + (e1 + l1))), Ascii(PLAN_TAG), p2 + (h2 + (y2 + (e2 + l2))));
    SplitEqual(p1, h1 + (y1 + (e1 + l1)), p2, h2 + (y2 + (e2 + l2)));
    SplitEqual(h1, y1 + (e1 + l1), h2, y2 + (e2 + l2));
    SplitEqual(y1, e1 + l1, y2, e2 + l2);
    SplitEqual(e1, l1, e2, l2);
    BigEndianInjective(g1, g2, 8);
    BigEndianInjective(t1, t2, 8);
    MutationListInjective(a, b, 0);
    assert a[0..] == a && b[0..] == b;
  }

  lemma IdempotencyBytesInjective(p1: Id, l1: Digest, o1: U32, c1: Byte, s1: Name, d1: Digest, p2: Id, l2: Digest,
                                  o2: U32, c2: Byte, s2: Name, d2: Digest)
    requires IdempotencyBytes(p1, l1, o1, c1, s1, d1) == IdempotencyBytes(p2, l2, o2, c2, s2, d2)
    ensures p1 == p2 && l1 == l2 && o1 == o2 && c1 == c2 && s1 == s2 && d1 == d2
  {
    var m1, m2 := MutationBytes(o1, c1, s1, d1), MutationBytes(o2, c2, s2, d2);
    SplitEqual(Ascii(IDEMPOTENCY_TAG), p1 + (l1 + m1), Ascii(IDEMPOTENCY_TAG), p2 + (l2 + m2));
    SplitEqual(p1, l1 + m1, p2, l2 + m2);
    SplitEqual(l1, m1, l2, m2);
    assert m1 + [] == m2 + [];
    MutationHead(o1, c1, s1, d1, [], o2, c2, s2, d2, []);
  }

  lemma DependentBytesInjective(l1: Digest, p1: Id, c1: Id, r1: Digest, o1: U32, m1: ServiceMutation, l2: Digest,
                                p2: Id, c2: Id, r2: Digest, o2: U32, m2: ServiceMutation)
    requires DependentBytes(l1, p1, c1, r1, o1, m1) == DependentBytes(l2, p2, c2, r2, o2, m2)
    ensures l1 == l2 && p1 == p2 && c1 == c2 && r1 == r2 && o1 == o2 && m1 == m2
  {
    var x1, x2 := MutationBytes(o1, Code(m1.action), m1.service, m1.requestDigest),
                  MutationBytes(o2, Code(m2.action), m2.service, m2.requestDigest);
    SplitEqual(Ascii(DEPENDENT_TAG), l1 + (p1 + (c1 + (r1 + x1))), Ascii(DEPENDENT_TAG), l2 + (p2 + (c2 + (r2 + x2))));
    SplitEqual(l1, p1 + (c1 + (r1 + x1)), l2, p2 + (c2 + (r2 + x2)));
    SplitEqual(p1, c1 + (r1 + x1), p2, c2 + (r2 + x2));
    SplitEqual(c1, r1 + x1, c2, r2 + x2);
    SplitEqual(r1, x1, r2, x2);
    assert x1 + [] == x2 + [];
    MutationHead(o1, Code(m1.action), m1.service, m1.requestDigest, [],
                 o2, Code(m2.action), m2.service, m2.requestDigest, []);
    CodeInjective(m1.action, m2.action);
  }

  /** Inputs of different kinds never coincide, whatever follows their tags: the tags differ at byte 19. */
  lemma TagsNeverCoincide(x: seq<Byte>, y: seq<Byte>)
    ensures Ascii(PLAN_TAG) + x != Ascii(DEPENDENT_TAG) + y && Ascii(PLAN_TAG) + x != Ascii(IDEMPOTENCY_TAG) + y
    ensures Ascii(PLAN_TAG) + x != Ascii(CHILD_TAG) + y && Ascii(DEPENDENT_TAG) + x != Ascii(IDEMPOTENCY_TAG) + y
    ensures Ascii(DEPENDENT_TAG) + x != Ascii(CHILD_TAG) + y && Ascii(IDEMPOTENCY_TAG) + x != Ascii(CHILD_TAG) + y
  {
    assert (Ascii(PLAN_TAG) + x)[19] == 'p' as int && (Ascii(PLAN_TAG) + y)[19] == 'p' as int;
    assert (Ascii(DEPENDENT_TAG) + x)[19] == 'd' as int && (Ascii(DEPENDENT_TAG) + y)[19] == 'd' as int;
    assert (Ascii(IDEMPOTENCY_TAG) + x)[19] == 'i' as int && (Ascii(IDEMPOTENCY_TAG) + y)[19] == 'i' as int;
    assert (Ascii(CHILD_TAG) + y)[19] == 'c' as int;
  }

  // ----- plans -----

  datatype FanoutChild = FanoutChild(
    parentRequestId: Id, childId: Id, idempotencyKey: Digest, service: Name, action: FanoutAction,
    requestDigest: Digest, deadline: U64, policyGeneration: U64, policyDigest: Digest,
    attempt: U32, ordinal: U32, planDigest: Digest)

  datatype Commitment = Commitment(service: Name, action: FanoutAction)

  datatype FanoutPlan = FanoutPlan(digest: Digest, children: seq<FanoutChild>, commitments: seq<Commitment>)

  datatype FanoutError = ReplayError | Expired | TooManyChildren | Storage

  /** What a fan-out is bound to besides its mutations. */
  datatype Binding = Binding(parent: Id, generation: U64, policy: Digest, deadline: U64, attempt: U32)

  /** The key and the id of a child, both recomputed from what it is bound to. */
  function MakeChild(sha: Sha, b: Binding, plan: Digest, ordinal: U32, m: ServiceMutation): FanoutChild {
    var key := sha(IdempotencyBytes(b.parent, plan, ordinal, Code(m.action), m.service, m.requestDigest));
    var id: Id := sha(ChildBytes(key, b.attempt))[..16];
    FanoutChild(b.parent, id, key, m.service, m.action, m.requestDigest, b.deadline, b.generation, b.policy, b.attempt,
                ordinal, plan)
  }

  function Derive(sha: Sha, b: Binding, mutations: seq<ServiceMutation>): Result<FanoutPlan, FanoutError> {
    if |mutations| > 0xFFFF_FFFF then Err(TooManyChildren) else
    var digest := sha(PlanBytes(b.parent, b.generation, b.policy, b.deadline, mutations));
    Ok(FanoutPlan(digest,
                  seq(|mutations|, i requires 0 <= i < |mutations| => MakeChild(sha, b, digest, i, mutations[i])),
                  seq(|mutations|,
                      i requires 0 <= i < |mutations| => Commitment(mutations[i].service, mutations[i].action))))
  }

  /** The first child with the given ordinal. */
  function FindOrdinal(children: seq<FanoutChild>, ordinal: U32): (found: Option<FanoutChild>)
    ensures found.Some? ==> found.value in children && found.value.ordinal == ordinal
    ensures found.None? ==> forall c :: c in children ==> c.ordinal != ordinal
  {
    if children == [] then None
    else if children[0].ordinal == ordinal then Some(children[0])
    else FindOrdinal(children[1..], ordinal)
  }

  function VerifyChild(plan: FanoutPlan, child: FanoutChild, now: U64): Result<(), FanoutError> {
    if now > child.deadline then Err(Expired) else
    var found := FindOrdinal(plan.children, child.ordinal);
    if found == Some(child) && child.planDigest == plan.digest then Ok(()) else Err(ReplayError)
  }

  function DeriveDependent(sha: Sha, plan: FanoutPlan, predecessor: FanoutChild, outcome: Digest,
                           m: ServiceMutation): Result<FanoutPlan, FanoutError> {
    var _ :- VerifyChild(plan, predecessor, predecessor.deadline);
    if predecessor.ordinal + 1 > 0xFFFF_FFFF then Err(ReplayError) else
    var next := predecessor.ordinal + 1;
    if next >= |plan.commitments| || plan.commitments[next] != Commitment(m.service, m.action)
    then Err(ReplayError) else
    var digest := sha(DependentBytes(plan.digest, predecessor.parentRequestId, predecessor.childId, outcome, next, m));
    var b := Binding(predecessor.parentRequestId, predecessor.policyGeneration, predecessor.policyDigest,
                     predecessor.deadline, predecessor.attempt);
    Ok(FanoutPlan(digest, [MakeChild(sha, b, digest, next, m)], plan.commitments))
  }

  /** Unless their hash inputs collide, equal plan digests mean equal plans in everything but the attempt. */
  lemma PlanDigestBinds(sha: Sha, b1: Binding, m1: seq<ServiceMutation>, b2: Binding, m2: seq<ServiceMutation>)
    requires Derive(sha, b1, m1).Ok? && Derive(sha, b2, m2).Ok?
    requires NoCollision(sha,
                         PlanBytes(b1.parent, b1.generation, b1.policy, b1.deadline, m1),
                         PlanBytes(b2.parent, b2.generation, b2.policy, b2.deadline, m2))
    requires Derive(sha, b1, m1).value.digest == Derive(sha, b2, m2).value.digest
    ensures m1 == m2 && b1 == b2.(attempt := b1.attempt)
  {
    PlanBytesInjective(b1.parent, b1.generation, b1.policy, b1.deadline, m1,
                       b2.parent, b2.generation, b2.policy, b2.deadline, m2);
  }

  // ----- chains of dependent plans -----

  /**
   * What a child carries: the binding of its fan-out, its mutation, its place and plan, and the
   * key and id they derive.
   */
  predicate Carries(sha: Sha, b: Binding, plan: Digest, ordinal: U32, m: ServiceMutation, c: FanoutChild) {
    && c.parentRequestId == b.parent && c.policyGeneration == b.generation && c.policyDigest == b.policy
    && c.deadline == b.deadline && c.attempt == b.attempt
    && c.service == m.service && c.action == m.action && c.requestDigest == m.requestDigest
    && c.ordinal == ordinal && c.planDigest == plan
    && c.idempotencyKey == sha(IdempotencyBytes(b.parent, plan, ordinal, Code(m.action), m.service, m.requestDigest))
    && c.childId == sha(ChildBytes(c.idempotencyKey, b.attempt))[..16]
  }

  /** The child carries what its plan is bound to, and stands for the commitment at its ordinal. */
  predicate BoundChild(sha: Sha, b: Binding, plan: FanoutPlan, c: FanoutChild) {
    && Carries(sha, b, plan.digest, c.ordinal, ServiceMutation(c.service, c.action, c.requestDigest), c)
    && c.ordinal < |plan.commitments|
    && plan.commitments[c.ordinal] == Commitment(c.service, c.action)
  }

  predicate BoundPlan(sha: Sha, b: Binding, commitments: seq<Commitment>, plan: FanoutPlan) {
    plan.commitments == commitments && forall c :: c in plan.children ==> BoundChild(sha, b, plan, c)
  }

  /** Child `i` of a derived plan carries the plan's binding and mutation `i`, field by field. */
  lemma DerivedPlanIsBound(sha: Sha, b: Binding, mutations: seq<ServiceMutation>)
    ensures Derive(sha, b, mutations).Ok? <==> |mutations| <= 0xFFFF_FFFF
    ensures Derive(sha, b, mutations).Ok? ==>
              var plan := Derive(sha, b, mutations).value;
              && plan.digest == sha(PlanBytes(b.parent, b.generation, b.policy, b.deadline, mutations))
              && |plan.commitments| == |mutations| == |plan.children| && DistinctOrdinals(plan.children)
              && BoundPlan(sha, b, plan.commitments, plan)
    ensures Derive(sha, b, mutations).Ok? ==>
              var plan := Derive(sha, b, mutations).value;
              forall i :: 0 <= i < |mutations| ==>
                && Carries(sha, b, plan.digest, i, mutations[i], plan.children[i])
                && plan.commitments[i] == Commitment(mutations[i].service, mutations[i].action)
  {
  }

  /** A derived child expires exactly when the deadline of its fan-out has passed. */
  lemma DerivedChildExpiresIff(sha: Sha, b: Binding, mutations: seq<ServiceMutation>, i: nat, now: U64)
    requires Derive(sha, b, mutations).Ok? && i < |mutations|
    ensures var plan := Derive(sha, b, mutations).value;
            && (VerifyChild(plan, plan.children[i], now) == Err(Expired) <==> now > b.deadline)
            && (VerifyChild(plan, plan.children[i], now).Ok? <==> now <= b.deadline)
  {
    DerivedPlanIsBound(sha, b, mutations);
    var plan := Derive(sha, b, mutations).value;
    VerifiedIff(sha, b, plan.commitments, plan, plan.children[i], now);
  }

  lemma DependentPlanIsBound(sha: Sha, b: Binding, commitments: seq<Commitment>, plan: FanoutPlan,
                             predecessor: FanoutChild, outcome: Digest, m: ServiceMutation)
    requires BoundPlan(sha, b, commitments, plan) && DeriveDependent(sha, plan, predecessor, outcome, m).Ok?
    ensures var next := DeriveDependent(sha, plan, predecessor, outcome, m).value;
            && BoundPlan(sha, b, commitments, next) && predecessor in plan.children
            && predecessor.ordinal + 1 < |commitments| && |next.children| == 1
            && Carries(sha, b, next.digest, predecessor.ordinal + 1, m, next.children[0])
            && next.digest ==
               sha(DependentBytes(plan.digest, b.parent, predecessor.childId, outcome, predecessor.ordinal + 1, m))
  {
    assert BoundChild(sha, b, plan, predecessor);
  }

  datatype Link = Link(predecessor: FanoutChild, outcome: Digest, mutation: ServiceMutation)

  /** Dependent derivation repeated along `links`. */
  function Follow(sha: Sha, plan: FanoutPlan, links: seq<Link>): Result<FanoutPlan, FanoutError>
    decreases |links|
  {
    if links == [] then Ok(plan) else
      var next :- DeriveDependent(sha, plan, links[0].predecessor, links[0].outcome, links[0].mutation);
      Follow(sha, next, links[1..])
  }

  /**
   * Along every chain of dependent plans the ordinal rises by one per link and stays below the
   * number of commitments; each child stands for the root plan's commitment at its ordinal and
   * keeps the root's parent, deadline, policy and attempt.
   */
  lemma {:induction false} ChainStaysBound(sha: Sha, b: Binding, commitments: seq<Commitment>, plan: FanoutPlan,
                                           links: seq<Link>)
    requires BoundPlan(sha, b, commitments, plan) && Follow(sha, plan, links).Ok? && links != []
    ensures var last := Follow(sha, plan, links).value;
            && BoundPlan(sha, b, commitments, last) && links[0].predecessor in plan.children
            && |last.children| == 1
            && last.children[0].ordinal == links[0].predecessor.ordinal + |links| < |commitments|
            && Carries(sha, b, last.digest, last.children[0].ordinal, links[|links| - 1].mutation, last.children[0])
    decreases |links|
  {
    var first := links[0];
    DependentPlanIsBound(sha, b, commitments, plan, first.predecessor, first.outcome, first.mutation);
    var next := DeriveDependent(sha, plan, first.predecessor, first.outcome, first.mutation).value;
    if |links| > 1 {
      ChainStaysBound(sha, b, commitments, next, links[1..]);
      assert links[1..][0].predecessor == next.children[0];
    }
  }

  predicate DistinctOrdinals(children: seq<FanoutChild>) {
    forall i, j :: 0 <= i < j < |children| ==> children[i].ordinal != children[j].ordinal
  }

  /** On a bound plan verification accepts exactly the plan's own children up to their deadline. */
  lemma VerifiedIff(sha: Sha, b: Binding, commitments: seq<Commitment>, plan: FanoutPlan, child: FanoutChild, now: U64)
    requires BoundPlan(sha, b, commitments, plan) && DistinctOrdinals(plan.children)
    ensures VerifyChild(plan, child, now) == Err(Expired) <==> now > child.deadline
    ensures VerifyChild(plan, child, now).Ok? <==> now <= child.deadline && child in plan.children
    ensures VerifyChild(plan, child, now) == Err(ReplayError) <==> now <= child.deadline && child !in plan.children
  {
    if child in plan.children {
      assert BoundChild(sha, b, plan, child);
      var found := FindOrdinal(plan.children, child.ordinal);
      assert found.Some?;
      var i :| 0 <= i < |plan.children| && plan.children[i] == found.value;
      var j :| 0 <= j < |plan.children| && plan.children[j] == child;
      assert i == j;
    }
  }

  /** Exactly the next committed step can be derived from a child of a plan. */
  lemma DependentAcceptedIff(sha: Sha, b: Binding, commitments: seq<Commitment>, plan: FanoutPlan,
                             predecessor: FanoutChild, outcome: Digest, m: ServiceMutation)
    requires BoundPlan(sha, b, commitments, plan) && |commitments| <= 0xFFFF_FFFF && DistinctOrdinals(plan.children)
    ensures DeriveDependent(sha, plan, predecessor, outcome, m).Ok? <==>
            && predecessor in plan.children
            && predecessor.ordinal + 1 < |commitments|
            && commitments[predecessor.ordinal + 1] == Commitment(m.service, m.action)
    ensures DeriveDependent(sha, plan, predecessor, outcome, m).Err? ==>
              DeriveDependent(sha, plan, predecessor, outcome, m).error == ReplayError
  {
    VerifiedIff(sha, b, commitments, plan, predecessor, predecessor.deadline);
  }
}

/**
 * The runtime's own check of a fan-out context. Its tags, its action codes and the layout
 * of its two hash inputs are its own; that they are the planner's is proved, not assumed.
 */
module FanoutIntegrity {
  import opened Wrappers
  import opened Bytes
  import F = Fanout

  datatype RuntimeAction =
    | ContainerRun | ContainerStop | ContainerDelete | ImagePull | VolumeCreate | ImageBuild
    | ImageTag | ImageReferenceWrite
    | OtherAction(name: string)

  function ActionCode(action: RuntimeAction): Byte {
    match action
    case ContainerRun => 1
    case ContainerStop => 2
    case ContainerDelete => 3
    case ImagePull => 4
    case VolumeCreate => 5
    case ImageBuild => 6
    case ImageTag => 7
    case ImageReferenceWrite => 8
    case OtherAction(_) => 0
  }

  /** The runtime action that a planned action stands for. */
  function Matching(action: F.FanoutAction): RuntimeAction {
    match action
    case ContainerRun => ContainerRun
    case ContainerStop => ContainerStop
    case ContainerDelete => ContainerDelete
    case ImagePull => ImagePull
    case VolumeCreate => VolumeCreate
    case ImageBuild => ImageBuild
  }

  datatype FanoutContext = FanoutContext(
    parentRequestId: F.Id, childId: F.Id, idempotencyKey: F.Digest, expectedAction: RuntimeAction,
    expectedResource: F.Name, requestDigest: F.Digest, deadline: F.U64, policyGeneration: F.U64,
    policyDigest: F.Digest, attempt: F.U32, ordinal: F.U32, planDigest: F.Digest)

  datatype RequestOrigin = RequestOrigin(
    requestId: Option<F.Id>, parentRequestId: Option<F.Id>, attempt: F.U32, fanout: Option<FanoutContext>)

  const KEY_TAG := "ferrocrate/compose-idempotency/v1"
  const CHILD_TAG := "ferrocrate/compose-child/v1"

  /** What the runtime feeds to the hash of the idempotency key, update by update. */
  function KeyInput(c: FanoutContext): seq<Byte> {
    var input := F.Ascii(KEY_TAG);
    var input := input + c.parentRequestId;
    var input := input + c.planDigest;
    var input := input + BigEndian(c.ordinal, 4);
    var input := input + [ActionCode(c.expectedAction)];
    var input := input + BigEndian(|c.expectedResource|, 8);
    var input := input + c.expectedResource;
    input + c.requestDigest
  }

  /** What the runtime feeds to the hash of the child id. */
  function ChildInput(c: FanoutContext, key: F.Digest): seq<Byte> {
    var input := F.Ascii(CHILD_TAG);
    var input := input + key;
    input + BigEndian(c.attempt, 4)
  }

  predicate IntegrityValid(sha: F.Sha, c: FanoutContext) {
    var expected := sha(KeyInput(c));
    expected == c.idempotencyKey && sha(ChildInput(c, expected))[..16] == c.childId
  }

  predicate OriginIntegrityValid(sha: F.Sha, origin: RequestOrigin) {
    origin.fanout.Some? ==>
      var c := origin.fanout.value;
      && IntegrityValid(sha, c)
      && origin.requestId == Some(c.childId)
      && origin.parentRequestId == Some(c.parentRequestId)
      && origin.attempt == c.attempt
  }

  /** A planned child handed to the runtime as `action` on `resource`. */
  function ComposeChild(child: F.FanoutChild, action: RuntimeAction, resource: F.Name): RequestOrigin {
    RequestOrigin(Some(child.childId), Some(child.parentRequestId), child.attempt,
                  Some(ContextOf(child, action, resource)))
  }

  /** The runtime's key input has the planner's layout, with the runtime's action code in its place. */
  lemma KeyInputsAgree(c: FanoutContext)
    ensures KeyInput(c) == F.IdempotencyBytes(c.parentRequestId, c.planDigest, c.ordinal,
                                              ActionCode(c.expectedAction), c.expectedResource, c.requestDigest)
  {
    var tag, parent, plan := F.Ascii(KEY_TAG), c.parentRequestId, c.planDigest;
    var ordinal, code, len := BigEndian(c.ordinal, 4), [ActionCode(c.expectedAction)],
                              BigEndian(|c.expectedResource|, 8);
    var rest := c.expectedResource + c.requestDigest;
    assert KeyInput(c) == tag + parent + plan + ordinal + code + len + rest;
    assert code + (len + rest) == code + len + rest;
    assert ordinal + (code + (len + rest)) == ordinal + code + len + rest;
    assert plan + (ordinal + (code + (len + rest))) == plan + ordinal + code + len + rest;
    assert parent + (plan + (ordinal + (code + (len + rest)))) == parent + plan + ordinal + code + len + rest;
  }

  lemma ChildInputsAgree(c: FanoutContext, key: F.Digest)
    ensures ChildInput(c, key) == F.ChildBytes(key, c.attempt)
  {
    assert F.Ascii(CHILD_TAG) + key + BigEndian(c.attempt, 4) == F.Ascii(CHILD_TAG) + (key + BigEndian(c.attempt, 4));
  }

  function ContextOf(child: F.FanoutChild, action: RuntimeAction, resource: F.Name): FanoutContext {
    FanoutContext(child.parentRequestId, child.childId, child.idempotencyKey, action, resource,
                  child.requestDigest, child.deadline, child.policyGeneration, child.policyDigest,
                  child.attempt, child.ordinal, child.planDigest)
  }

  /** The check of a context, in the planner's terms: its key and its id are those of its own fields. */
  lemma IntegrityValidIff(sha: F.Sha, c: FanoutContext)
    ensures IntegrityValid(sha, c) <==>
            && c.idempotencyKey == sha(F.IdempotencyBytes(c.parentRequestId, c.planDigest, c.ordinal,
                                                          ActionCode(c.expectedAction), c.expectedResource,
                                                          c.requestDigest))
            && c.childId == sha(F.ChildBytes(c.idempotencyKey, c.attempt))[..16]
  {
    KeyInputsAgree(c);
    ChildInputsAgree(c, sha(KeyInput(c)));
  }

  /** A request passes only under the id, the parent and the attempt of the child it carries. */
  lemma OriginMustAgree(sha: F.Sha, child: F.FanoutChild, action: RuntimeAction, resource: F.Name,
                        requestId: Option<F.Id>, parent: Option<F.Id>, attempt: F.U32)
    ensures var origin := ComposeChild(child, action, resource);
            var changed := origin.(requestId := requestId, parentRequestId := parent, attempt := attempt);
            OriginIntegrityValid(sha, changed) <==>
            && OriginIntegrityValid(sha, origin)
            && requestId == Some(child.childId) && parent == Some(child.parentRequestId) && attempt == child.attempt
  {
  }

  /** For the planned action and service both sides hash the same bytes, and for any other they do not. */
  lemma SameInputIff(child: F.FanoutChild, action: RuntimeAction, resource: F.Name)
    ensures KeyInput(ContextOf(child, action, resource)) == PlannedInput(child) <==>
            action == Matching(child.action) && resource == child.service
  {
    var c := ContextOf(child, action, resource);
    KeyInputsAgree(c);
    CodesAgree(child.action, action);
    if KeyInput(c) == PlannedInput(child) {
      F.IdempotencyBytesInjective(c.parentRequestId, c.planDigest, c.ordinal, ActionCode(action),
                                  resource, c.requestDigest,
                                  child.parentRequestId, child.planDigest, child.ordinal, F.Code(child.action),
                                  child.service, child.requestDigest);
    }
  }

  /** What the planner hashes for the child's key. */
  function PlannedInput(child: F.FanoutChild): seq<Byte> {
    F.IdempotencyBytes(child.parentRequestId, child.planDigest, child.ordinal, F.Code(child.action),
                       child.service, child.requestDigest)
  }

  lemma CodesAgree(planned: F.FanoutAction, action: RuntimeAction)
    ensures ActionCode(action) == F.Code(planned) <==> action == Matching(planned)
  {
  }

  /**
   * The two separate computations agree: unless the two hash inputs collide, a child of any
   * bound plan passes the runtime's check if and only if it is carried with its own action
   * and service.
   */
  lemma PlannedChildPassesIff(sha: F.Sha, b: F.Binding, plan: F.FanoutPlan, child: F.FanoutChild,
                              action: RuntimeAction, resource: F.Name)
    requires F.BoundChild(sha, b, plan, child)
    requires F.NoCollision(sha, PlannedInput(child), KeyInput(ContextOf(child, action, resource)))
    ensures OriginIntegrityValid(sha, ComposeChild(child, action, resource)) <==>
            action == Matching(child.action) && resource == child.service
  {
    var c := ContextOf(child, action, resource);
    SameInputIff(child, action, resource);
    ChildInputsAgree(c, child.idempotencyKey);
  }

  /** Every child reached by any chain of dependent plans from any root plan passes the runtime's check. */
  lemma ChainPassesIntegrity(sha: F.Sha, b: F.Binding, mutations: seq<F.ServiceMutation>, links: seq<F.Link>,
                             child: F.FanoutChild)
    requires F.Derive(sha, b, mutations).Ok? && F.Follow(sha, F.Derive(sha, b, mutations).value, links).Ok?
    requires child in F.Follow(sha, F.Derive(sha, b, mutations).value, links).value.children
    ensures child.ordinal < |mutations| && child.service == mutations[child.ordinal].service
            && child.action == mutations[child.ordinal].action
    ensures OriginIntegrityValid(sha, ComposeChild(child, Matching(child.action), child.service))
  {
    var root := F.Derive(sha, b, mutations).value;
    F.DerivedPlanIsBound(sha, b, mutations);
    if links != [] {
      F.ChainStaysBound(sha, b, root.commitments, root, links);
    }
    var last := F.Follow(sha, root, links).value;
    assert F.BoundChild(sha, b, last, child);
    SameInputIff(child, Matching(child.action), child.service);
    PlannedChildPassesIff(sha, b, last, child, Matching(child.action), child.service);
  }
}
