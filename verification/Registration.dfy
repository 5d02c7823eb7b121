/** What a preorder is for, and which names can be registered. */
module Registration {
  import opened Buffers
  import opened Options
  import opened Strings
  import opened DataTriggers
  import opened Dpns

  // ------------------------------------------------------ preorders bind names

  ghost predicate InjectiveHash(hash: Buffer -> Buffer) {
    forall a, b :: hash(a) == hash(b) ==> a == b
  }

  ghost predicate InjectiveEncoding(encode: string -> Buffer) {
    forall s, t :: encode(s) == encode(t) ==> s == t
  }

  lemma HeadsAndTails(a: Buffer, b: Buffer, s: Buffer, t: Buffer)
    requires |a| == |b| && a + s == b + t
    ensures a == b && s == t
  {
    assert a == (a + s)[..|a|] == (b + t)[..|b|] == b;
    assert s == (a + s)[|a|..] == (b + t)[|b|..] == t;
  }

  /** Without collisions a preorder admits one salt and one name: two domains that
      the check admits on the strength of the same single preorder, in whatever
      registries, agree in both. */
  lemma PreorderBindsName(env: Environment, reg: Registry, other: Registry, d: Domain, e: Domain, preorder: Buffer)
    requires InjectiveHash(env.hash) && InjectiveEncoding(env.encode)
    requires d.MatchesSchema() && e.MatchesSchema()
    requires Admissible(env, reg, d) && Admissible(env, other, e)
    requires reg.preorders == {preorder} && other.preorders == {preorder}
    ensures d.preorderSalt == e.preorderSalt && d.FullName() == e.FullName()
  {
    assert SaltedHash(env, d) in reg.preorders && SaltedHash(env, e) in other.preorders;
    SamePreorder(env, d, e);
  }

  lemma SamePreorder(env: Environment, d: Domain, e: Domain)
    requires InjectiveHash(env.hash) && InjectiveEncoding(env.encode)
    requires d.MatchesSchema() && e.MatchesSchema() && SaltedHash(env, d) == SaltedHash(env, e)
    ensures d.preorderSalt == e.preorderSalt && d.FullName() == e.FullName()
  {
    HeadsAndTails(d.preorderSalt, e.preorderSalt, env.encode(d.FullName()), env.encode(e.FullName()));
  }

  /** 32 bytes of salt, then the name. */
  ghost predicate IsSaltAndName(p: Buffer, salt: Buffer, name: Buffer) {
    |p| >= 32 && p[..32] == salt && p[32..] == name
  }

  /** The preorder of a domain is the salt, then the encoded full name; read under
      the identity as hash, its parts stand in the preorder, and no other will do. */
  lemma PreorderIsSaltAndName(env: Environment, reg: Registry, d: Domain)
    requires (forall b :: env.hash(b) == b) && d.MatchesSchema() && Admissible(env, reg, d)
    ensures exists p :: p in reg.preorders && IsSaltAndName(p, d.preorderSalt, env.encode(d.FullName()))
    ensures forall rest: set<Buffer> :: d.preorderSalt + env.encode(d.FullName()) !in rest ==>
      !Admissible(env, reg.(preorders := rest), d)
  {
    var p := d.preorderSalt + env.encode(d.FullName());
    assert IsSaltAndName(p, d.preorderSalt, env.encode(d.FullName()));
    forall rest: set<Buffer> | p !in rest ensures !Admissible(env, reg.(preorders := rest), d) {
      assert SaltedHash(env, d) == p;
    }
  }

  /** So in every reachable registry each name has a preorder of its own. */
  lemma PreordersAreDistinct(env: Environment, submissions: seq<Submission>, dk: DomainKey, ek: DomainKey)
    requires InjectiveHash(env.hash) && InjectiveEncoding(env.encode)
    requires dk in Run(env, submissions).domains && ek in Run(env, submissions).domains && dk != ek
    ensures var reg := Run(env, submissions);
      var d, e := reg.domains[dk], reg.domains[ek];
      var p, q := env.hash(d.preorderSalt + env.encode(d.FullName())),
        env.hash(e.preorderSalt + env.encode(e.FullName()));
      p in reg.preorders && q in reg.preorders && p != q
  {
    var reg := Run(env, submissions);
    RunsAreSound(env, submissions);
    assert Fits(env, reg, dk) && Fits(env, reg, ek);
    if SaltedHash(env, reg.domains[dk]) == SaltedHash(env, reg.domains[ek]) {
      SamePreorder(env, reg.domains[dk], reg.domains[ek]);
      FullNameIdentifies(env, submissions, dk, ek);
    }
  }

  // ------------------------------------------------------------ labels and names

  function LowerCase(c: char): char {
    if 'A' <= c <= 'Z' then (c as int + 32) as char else c
  }

  function LowerCased(s: string): (r: string)
    ensures |r| == |s| && forall i :: 0 <= i < |s| ==> r[i] == LowerCase(s[i])
  {
    seq(|s|, i requires 0 <= i < |s| => LowerCase(s[i]))
  }

  /** The two label patterns are one up to case: a label is anything of at least
      three characters whose letters, in lower case, give a normalized label. */
  lemma LabelIff(s: string)
    ensures IsLabel(s) <==> |s| >= 3 && IsNormalizedLabel(LowerCased(s))
  {
    var lowered := LowerCased(s);
    forall i | 0 <= i < |s|
      ensures IsLetterOrDigit(lowered[i]) <==> IsLetterOrDigit(s[i]) || 'A' <= s[i] <= 'Z'
      ensures lowered[i] == '-' <==> s[i] == '-'
    {
    }
    if |s| >= 3 && IsNormalizedLabel(lowered) {
      forall c | c in s ensures IsLetterOrDigit(c) || 'A' <= c <= 'Z' || c == '-' {
        var i :| 0 <= i < |s| && s[i] == c;
        assert lowered[i] in lowered;
      }
    }
  }

  ghost predicate AllLabels(parts: seq<string>) {
    forall i :: 0 <= i < |parts| ==> IsNormalizedLabel(parts[i])
  }

  ghost predicate NameCharacters(s: string) {
    && s != "" && IsLetterOrDigit(s[0]) && IsLetterOrDigit(s[|s| - 1])
    && forall c <- s :: IsLetterOrDigit(c) || c == '-' || c == DOT
  }

  lemma {:induction false} LabelsMakeNames(parts: seq<string>)
    requires parts != [] && AllLabels(parts)
    ensures NameCharacters(Join(parts, DOT)) && |Join(parts, DOT)| >= 2
  {
    if |parts| > 1 {
      LabelsMakeNames(parts[1..]);
    }
  }

  /** Every name made of labels that is short enough may be asked for as a parent. */
  lemma NamesMayBeParents(parts: seq<string>)
    requires parts != [] && AllLabels(parts) && |Join(parts, DOT)| <= 190
    ensures IsParentName(Join(parts, DOT))
  {
    LabelsMakeNames(parts);
    var name := Join(parts, DOT);
    assert forall c <- name[1..] :: c in name;
  }

  // ------------------------------------------------------ what a batch registers

  ghost predicate Creates(batch: seq<Transition>, d: Domain) {
    exists i :: 0 <= i < |batch| && batch[i] == OnDomain(CREATE, d)
  }

  ghost predicate Preorders(batch: seq<Transition>, h: Buffer) {
    exists i :: 0 <= i < |batch| && batch[i] == OnPreorder(CREATE, h)
  }

  /** `later` has what `reg` has and what the batch creates, and nothing else. */
  ghost predicate Extends(reg: Registry, batch: seq<Transition>, later: Registry) {
    && (forall h :: h in later.preorders <==> h in reg.preorders || Preorders(batch, h))
    && (forall d: Domain :: d.Key() in later.domains && later.domains[d.Key()] == d <==>
          (d.Key() in reg.domains && reg.domains[d.Key()] == d) || Creates(batch, d))
  }

  lemma CreatesMore(batch: seq<Transition>, t: Transition)
    ensures forall d :: Creates(batch + [t], d) <==> Creates(batch, d) || t == OnDomain(CREATE, d)
    ensures forall h :: Preorders(batch + [t], h) <==> Preorders(batch, h) || t == OnPreorder(CREATE, h)
  {
    var more := batch + [t];
    assert more[|batch|] == t && forall i :: 0 <= i < |batch| ==> more[i] == batch[i];
    forall d | Creates(batch, d) ensures Creates(more, d) {
      var i :| 0 <= i < |batch| && batch[i] == OnDomain(CREATE, d);
      assert more[i] == OnDomain(CREATE, d);
    }
    forall h | Preorders(batch, h) ensures Preorders(more, h) {
      var i :| 0 <= i < |batch| && batch[i] == OnPreorder(CREATE, h);
      assert more[i] == OnPreorder(CREATE, h);
    }
  }

  lemma {:induction false} BatchExtends(env: Environment, reg: Registry, owner: Buffer, batch: seq<Transition>, n: nat)
    requires Sound(env, reg) && Accepted(env, reg, owner, batch) && n <= |batch|
    ensures Extends(reg, batch[..n], ApplyAll(reg, batch[..n]))
  {
    if n > 0 {
      BatchExtends(env, reg, owner, batch, n - 1);
      BatchKeeps(env, reg, owner, batch, n - 1);
      var t, front := batch[n - 1], batch[..n - 1];
      assert batch[..n] == front + [t] && batch[..n][..n - 1] == front;
      CreatesMore(front, t);
      PassesIff(env, reg, t);
      OneExtends(reg, front, t, ApplyAll(reg, front));
    }
  }

  lemma OneExtends(reg: Registry, front: seq<Transition>, t: Transition, before: Registry)
    requires Extends(reg, front, before) && t.action == CREATE
    requires t.OnDomain? ==> t.domain.Key() !in before.domains
    ensures Extends(reg, front + [t], Apply(before, t))
  {
    CreatesMore(front, t);
  }

  /** A submission that is accepted registers exactly what it creates; any other
      changes nothing. */
  lemma SubmissionRegisters(env: Environment, submissions: seq<Submission>, next: Submission)
    ensures var reg, later := Run(env, submissions), Run(env, submissions + [next]);
      if Accepted(env, reg, next.owner, next.batch) then Extends(reg, next.batch, later) else later == reg
  {
    RunsAreSound(env, submissions);
    assert (submissions + [next])[..|submissions|] == submissions;
    if Accepted(env, Run(env, submissions), next.owner, next.batch) {
      BatchExtends(env, Run(env, submissions), next.owner, next.batch, |next.batch|);
      assert next.batch[..|next.batch|] == next.batch;
    }
  }

  // ---------------------------------------------------- which names can be had

  /** The conditions on a domain beside the schema and the preorder. */
  ghost predicate MayOwn(env: Environment, reg: Registry, d: Domain) {
    && |d.FullName()| <= 253
    && d.normalizedLabel == env.toLowerCase(d.printedLabel)
    && (d.dashUniqueIdentityId == Some(d.ownerId) || d.dashAliasIdentityId == Some(d.ownerId))
    && if d.normalizedParentDomainName == "" then d.ownerId == env.topLevelIdentity
       else exists parent ::
         && parent in reg.domains && reg.domains[parent].FullName() == d.normalizedParentDomainName
         && (reg.domains[parent].allowSubdomains || reg.domains[parent].ownerId == d.ownerId)
         && !d.allowSubdomains
  }

  function PreorderOf(env: Environment, d: Domain): Submission {
    Submission(d.ownerId, [OnPreorder(CREATE, env.hash(d.preorderSalt + env.encode(d.FullName())))])
  }

  function CreationOf(d: Domain): Submission {
    Submission(d.ownerId, [OnDomain(CREATE, d)])
  }

  /** The parent by its full name is the parent the check looks up. */
  lemma ParentByName(env: Environment, reg: Registry, d: Domain, parent: DomainKey)
    requires Sound(env, reg) && d.MatchesSchema() && !d.IsTopLevel()
    requires parent in reg.domains && reg.domains[parent].FullName() == d.normalizedParentDomainName
    ensures parent == d.ParentKey()
  {
    assert Fits(env, reg, parent);
    FullNameParts(reg.domains[parent]);
  }

  lemma MayOwnIsAdmissible(env: Environment, reg: Registry, d: Domain)
    requires Sound(env, reg) && d.MatchesSchema()
    ensures Admissible(env, reg, d) <==>
      MayOwn(env, reg, d) && env.hash(d.preorderSalt + env.encode(d.FullName())) in reg.preorders
  {
    if !d.IsTopLevel() {
      if d.ParentKey() in reg.domains {
        assert Fits(env, reg, d.ParentKey());
        ParentIsNamed(d, reg.domains[d.ParentKey()]);
      }
      forall parent | parent in reg.domains && reg.domains[parent].FullName() == d.normalizedParentDomainName
        ensures parent == d.ParentKey()
      {
        ParentByName(env, reg, d, parent);
      }
    }
  }

  /** What is registered: the owner may have it, and it was preordered. */
  lemma RegisteredMeans(env: Environment, submissions: seq<Submission>, k: DomainKey)
    requires k in Run(env, submissions).domains
    ensures var reg := Run(env, submissions);
      var d := reg.domains[k];
      && d.MatchesSchema() && d.Key() == k && MayOwn(env, reg, d)
      && env.hash(d.preorderSalt + env.encode(d.FullName())) in reg.preorders
  {
    var reg := Run(env, submissions);
    RunsAreSound(env, submissions);
    assert Fits(env, reg, k);
    MayOwnIsAdmissible(env, reg, reg.domains[k]);
  }

  /** And what can be: a name that is free, and that its owner may have, is
      registered by a preorder and a creation. */
  lemma FreeNameCanBeHad(env: Environment, submissions: seq<Submission>, d: Domain)
    requires d.MatchesSchema() && IsHash(env.hash(d.preorderSalt + env.encode(d.FullName())))
    requires MayOwn(env, Run(env, submissions), d) && d.Key() !in Run(env, submissions).domains
    ensures var later := Run(env, submissions + [PreorderOf(env, d)] + [CreationOf(d)]);
      d.Key() in later.domains && later.domains[d.Key()] == d
  {
    var reg, ordered := Run(env, submissions), submissions + [PreorderOf(env, d)];
    var preorder, creation := PreorderOf(env, d), CreationOf(d);
    RunsAreSound(env, submissions);
    PassesIff(env, reg, preorder.batch[0]);
    OneTransition(env, submissions, d.ownerId, preorder.batch[0]);
    var mid := Run(env, ordered);
    assert mid.domains == reg.domains;
    RunsAreSound(env, ordered);
    MayOwnIsAdmissible(env, mid, d);
    PassesIff(env, mid, creation.batch[0]);
    OneTransition(env, ordered, d.ownerId, creation.batch[0]);
  }

  lemma OneTransition(env: Environment, submissions: seq<Submission>, owner: Buffer, t: Transition)
    requires t.MatchesSchema() && Passes(env, Run(env, submissions), t) && t.action == CREATE
    requires t.OnDomain? ==> t.domain.ownerId == owner && t.domain.Key() !in Run(env, submissions).domains
    ensures Run(env, submissions + [Submission(owner, [t])]) == Apply(Run(env, submissions), t)
  {
    var next := Submission(owner, [t]);
    var reg := Run(env, submissions);
    assert (submissions + [next])[..|submissions|] == submissions;
    assert Accepted(env, reg, owner, [t]);
    assert Run(env, submissions + [next]) == ApplyAll(reg, [t]);
    assert [t][..0] == [] && ApplyAll(reg, []) == reg;
  }
}
