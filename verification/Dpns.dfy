/** The registry of DPNS names under the domain check: who owns what in every
    registry that accepted transitions can build. */
module Dpns {
  import opened Buffers
  import opened Options
  import opened Strings
  import opened DataTriggers

  const MAX_PRINTABLE_DOMAIN_NAME_LENGTH := 253
  const DOT := '.'

  // ------------------------------------------------------------- the schema

  predicate IsLetterOrDigit(c: char) {
    'a' <= c <= 'z' || '0' <= c <= '9'
  }

  /** `^[a-zA-Z0-9][a-zA-Z0-9-]{0,61}[a-zA-Z0-9]$`, at least three characters. */
  predicate IsLabel(s: string) {
    && 3 <= |s| <= 63
    && s[0] != '-' && s[|s| - 1] != '-'
    && forall c <- s :: IsLetterOrDigit(c) || 'A' <= c <= 'Z' || c == '-'
  }

  /** `^[a-z0-9][a-z0-9-]{0,61}[a-z0-9]$` */
  predicate IsNormalizedLabel(s: string) {
    && 2 <= |s| <= 63
    && IsLetterOrDigit(s[0]) && IsLetterOrDigit(s[|s| - 1])
    && forall c <- s :: IsLetterOrDigit(c) || c == '-'
  }

  /** `^$|^[[a-z0-9][a-z0-9-\.]{0,188}[a-z0-9]$`: the first character may be a
      bracket, and dots may follow each other. */
  predicate IsParentName(s: string) {
    s == "" || (
      && 2 <= |s| <= 190
      && (IsLetterOrDigit(s[0]) || s[0] == '[') && IsLetterOrDigit(s[|s| - 1])
      && forall c <- s[1..] :: IsLetterOrDigit(c) || c == '-' || c == DOT)
  }

  const HASH_SIZE := 32

  predicate IsHash(b: Buffer) {
    |b| == HASH_SIZE
  }

  // ------------------------------------------------------------ the documents

  datatype DomainKey = DomainKey(parentName: string, normalizedLabel: string)

  datatype Domain = Domain(
    ownerId: Buffer,
    printedLabel: string,
    normalizedLabel: string,
    normalizedParentDomainName: string,
    preorderSalt: Buffer,
    dashUniqueIdentityId: Option<Buffer>,
    dashAliasIdentityId: Option<Buffer>,
    allowSubdomains: bool
  ) {
    predicate IsTopLevel() {
      normalizedParentDomainName == ""
    }

    function FullName(): string {
      if IsTopLevel() then normalizedLabel else normalizedLabel + [DOT] + normalizedParentDomainName
    }

    function Key(): DomainKey {
      DomainKey(normalizedParentDomainName, normalizedLabel)
    }

    /** Where the check looks for the parent: the parent's name without its first
        label, and that label. */
    function ParentKey(): DomainKey {
      var parts := Split(normalizedParentDomainName, DOT);
      DomainKey(Join(parts[1..], DOT), parts[0])
    }

    /** What the document schema demands of the fields. */
    predicate MatchesSchema() {
      && IsLabel(printedLabel) && IsNormalizedLabel(normalizedLabel)
      && IsParentName(normalizedParentDomainName)
      && IsHash(preorderSalt)
      && (dashUniqueIdentityId.Some? ==> IsHash(dashUniqueIdentityId.value))
      && (dashAliasIdentityId.Some? ==> IsHash(dashAliasIdentityId.value))
      && dashUniqueIdentityId.Some? != dashAliasIdentityId.Some?
    }

    /** A label without dots, and a parent name that does not end with one. */
    predicate Clean() {
      && normalizedLabel != "" && DOT !in normalizedLabel
      && (IsTopLevel() || normalizedParentDomainName[|normalizedParentDomainName| - 1] != DOT)
    }
  }

  lemma SchemaIsClean(d: Domain)
    requires d.MatchesSchema()
    ensures d.Clean()
  {
  }

  datatype Environment = Environment(
    contracts: Contracts,
    topLevelIdentity: Buffer,
    hash: Buffer -> Buffer,
    encode: string -> Buffer,
    toLowerCase: string -> string
  )

  datatype Registry = Registry(domains: map<DomainKey, Domain>, preorders: set<Buffer>)

  const EMPTY_REGISTRY := Registry(map[], {})

  function SaltedHash(env: Environment, d: Domain): Buffer {
    env.hash(d.preorderSalt + env.encode(d.FullName()))
  }

  // --------------------------------------------------------------- the check

  datatype DomainError =
    | NameTooLong
    | LabelMismatch
    | UniqueIdentityMismatch
    | AliasIdentityMismatch
    | TopLevelForbidden
    | ParentMissing
    | SubdomainsForbidden
    | NotParentOwner
    | PreorderMissing

  predicate NoParent(reg: Registry, d: Domain) {
    !d.IsTopLevel() && d.ParentKey() !in reg.domains
  }

  /** When each error is reported. A missing parent ends the check. */
  predicate Violates(env: Environment, reg: Registry, d: Domain, e: DomainError) {
    match e
    case NameTooLong => |d.FullName()| > MAX_PRINTABLE_DOMAIN_NAME_LENGTH
    case LabelMismatch => d.normalizedLabel != env.toLowerCase(d.printedLabel)
    case UniqueIdentityMismatch => d.dashUniqueIdentityId.Some? && d.dashUniqueIdentityId.value != d.ownerId
    case AliasIdentityMismatch => d.dashAliasIdentityId.Some? && d.dashAliasIdentityId.value != d.ownerId
    case TopLevelForbidden => d.IsTopLevel() && d.ownerId != env.topLevelIdentity
    case ParentMissing => NoParent(reg, d)
    case SubdomainsForbidden => !d.IsTopLevel() && !NoParent(reg, d) && d.allowSubdomains
    case NotParentOwner =>
      && !d.IsTopLevel() && !NoParent(reg, d)
      && !reg.domains[d.ParentKey()].allowSubdomains
      && reg.domains[d.ParentKey()].ownerId != d.ownerId
    case PreorderMissing => !NoParent(reg, d) && SaltedHash(env, d) !in reg.preorders
  }

  /** A domain that fits into the registry. */
  predicate Admissible(env: Environment, reg: Registry, d: Domain) {
    && |d.FullName()| <= MAX_PRINTABLE_DOMAIN_NAME_LENGTH
    && d.normalizedLabel == env.toLowerCase(d.printedLabel)
    && (d.dashUniqueIdentityId.Some? ==> d.dashUniqueIdentityId.value == d.ownerId)
    && (d.dashAliasIdentityId.Some? ==> d.dashAliasIdentityId.value == d.ownerId)
    && SaltedHash(env, d) in reg.preorders
    && if d.IsTopLevel() then d.ownerId == env.topLevelIdentity else
         && d.ParentKey() in reg.domains
         && !d.allowSubdomains
         && (reg.domains[d.ParentKey()].allowSubdomains || d.ownerId == reg.domains[d.ParentKey()].ownerId)
  }

  function Order(e: DomainError): nat {
    match e
    case NameTooLong => 0
    case LabelMismatch => 1
    case UniqueIdentityMismatch => 2
    case AliasIdentityMismatch => 3
    case TopLevelForbidden => 4
    case ParentMissing => 5
    case SubdomainsForbidden => 6
    case NotParentOwner => 7
    case PreorderMissing => 8
  }

  /** `errors` lists what is violated among the first `n` checks, in order. */
  ghost predicate Reports(env: Environment, reg: Registry, d: Domain, errors: seq<DomainError>, n: nat) {
    && (forall e :: e in errors <==> Violates(env, reg, d, e) && Order(e) < n)
    && forall i, j :: 0 <= i < j < |errors| ==> Order(errors[i]) < Order(errors[j])
  }

  method Check(ghost env: Environment, ghost reg: Registry, ghost d: Domain,
               errors: seq<DomainError>, e: DomainError, violated: bool) returns (r: seq<DomainError>)
    requires Reports(env, reg, d, errors, Order(e)) && violated == Violates(env, reg, d, e)
    ensures Reports(env, reg, d, r, Order(e) + 1)
  {
    r := if violated then errors + [e] else errors;
  }

  method CheckNames(env: Environment, ghost reg: Registry, d: Domain, fullDomainName: string)
      returns (errors: seq<DomainError>)
    requires fullDomainName == d.FullName()
    ensures Reports(env, reg, d, errors, Order(ParentMissing))
  {
    errors := Check(env, reg, d, [], NameTooLong, |fullDomainName| > MAX_PRINTABLE_DOMAIN_NAME_LENGTH);
    errors := Check(env, reg, d, errors, LabelMismatch, d.normalizedLabel != env.toLowerCase(d.printedLabel));
    errors := Check(env, reg, d, errors, UniqueIdentityMismatch,
                    d.dashUniqueIdentityId.Some? && d.ownerId != d.dashUniqueIdentityId.value);
    errors := Check(env, reg, d, errors, AliasIdentityMismatch,
                    d.dashAliasIdentityId.Some? && d.ownerId != d.dashAliasIdentityId.value);
    errors := Check(env, reg, d, errors, TopLevelForbidden,
                    |d.normalizedParentDomainName| == 0 && d.ownerId != env.topLevelIdentity);
  }

  /** False when the parent is missing, which ends the check. */
  method CheckParent(ghost env: Environment, reg: Registry, d: Domain, before: seq<DomainError>)
      returns (errors: seq<DomainError>, goOn: bool)
    requires Reports(env, reg, d, before, Order(ParentMissing))
    ensures Reports(env, reg, d, errors, Order(PreorderMissing))
    ensures goOn == !NoParent(reg, d)
  {
    if |d.normalizedParentDomainName| == 0 {
      NothingMore(env, reg, d, before, Order(ParentMissing), Order(PreorderMissing));
      return before, true;
    }
    var parentDomainSegments := Split(d.normalizedParentDomainName, DOT);
    var parentKey := DomainKey(Join(parentDomainSegments[1..], DOT), parentDomainSegments[0]);
    errors := Check(env, reg, d, before, ParentMissing, parentKey !in reg.domains);
    if parentKey !in reg.domains {
      NothingMore(env, reg, d, errors, Order(SubdomainsForbidden), Order(PreorderMissing));
      return errors, false;
    }
    var parentDomain := reg.domains[parentKey];
    errors := Check(env, reg, d, errors, SubdomainsForbidden, d.allowSubdomains);
    errors := Check(env, reg, d, errors, NotParentOwner,
                    !parentDomain.allowSubdomains && d.ownerId != parentDomain.ownerId);
    goOn := true;
  }

  lemma NothingMore(env: Environment, reg: Registry, d: Domain, errors: seq<DomainError>, n: nat, m: nat)
    requires Reports(env, reg, d, errors, n) && n <= m
    requires forall e :: n <= Order(e) < m ==> !Violates(env, reg, d, e)
    ensures Reports(env, reg, d, errors, m)
  {
  }

  method CreateDomainDataTrigger(env: Environment, reg: Registry, d: Domain) returns (errors: seq<DomainError>)
    ensures Reports(env, reg, d, errors, 9)
    ensures errors == [] <==> Admissible(env, reg, d)
  {
    var fullDomainName := d.normalizedLabel;
    if |d.normalizedParentDomainName| > 0 {
      fullDomainName := d.normalizedLabel + [DOT] + d.normalizedParentDomainName;
    }
    var goOn;
    errors := CheckNames(env, reg, d, fullDomainName);
    errors, goOn := CheckParent(env, reg, d, errors);
    if !goOn {
      NothingMore(env, reg, d, errors, 8, 9);
    } else {
      var saltedDomainHash := env.hash(d.preorderSalt + env.encode(fullDomainName));
      errors := Check(env, reg, d, errors, PreorderMissing, saltedDomainHash !in reg.preorders);
    }
    AdmissibleIff(env, reg, d, errors);
  }

  /** No error is exactly what admits a domain. */
  lemma AdmissibleIff(env: Environment, reg: Registry, d: Domain, errors: seq<DomainError>)
    requires Reports(env, reg, d, errors, 9)
    ensures errors == [] <==> Admissible(env, reg, d)
  {
    assert errors != [] ==> errors[0] in errors;
    if errors == [] {
      assert !Violates(env, reg, d, NameTooLong) && !Violates(env, reg, d, LabelMismatch);
      assert !Violates(env, reg, d, UniqueIdentityMismatch) && !Violates(env, reg, d, AliasIdentityMismatch);
      assert !Violates(env, reg, d, TopLevelForbidden) && !Violates(env, reg, d, ParentMissing);
      assert !Violates(env, reg, d, SubdomainsForbidden) && !Violates(env, reg, d, NotParentOwner);
      assert !Violates(env, reg, d, PreorderMissing);
    }
  }

  // ------------------------------------------------------------ transitions

  datatype Transition =
    | OnDomain(action: Action, domain: Domain)
    | OnPreorder(action: Action, saltedDomainHash: Buffer)
  {
    function DocumentType(): string {
      if OnDomain? then DOMAIN else PREORDER
    }

    /** A deletion carries no fields. */
    predicate MatchesSchema() {
      action != DELETE ==> if OnDomain? then domain.MatchesSchema() else IsHash(saltedDomainHash)
    }
  }

  predicate Passes(env: Environment, reg: Registry, t: Transition) {
    forall trigger <- GetDataTriggers(env.contracts, env.contracts.dpns, t.DocumentType(), t.action) ::
      trigger.check == CreateDomain && t.OnDomain? && Admissible(env, reg, t.domain)
  }

  /** One owner's batch: every transition matches the schema and is checked
      against the registry before the batch, and the unique index on the names
      holds. */
  ghost predicate Accepted(env: Environment, reg: Registry, owner: Buffer, batch: seq<Transition>) {
    && (forall i :: 0 <= i < |batch| ==> batch[i].MatchesSchema() && Passes(env, reg, batch[i]))
    && (forall i :: 0 <= i < |batch| && batch[i].OnDomain? ==> batch[i].domain.ownerId == owner)
    && (forall i :: 0 <= i < |batch| && batch[i].OnDomain? && batch[i].action == CREATE ==>
          batch[i].domain.Key() !in reg.domains)
    && (forall i, j :: 0 <= i < j < |batch| && batch[i].OnDomain? && batch[j].OnDomain? ==>
          batch[i].domain.Key() != batch[j].domain.Key())
  }

  function Apply(reg: Registry, t: Transition): Registry {
    match t
    case OnDomain(action, d) =>
      if action == DELETE then reg.(domains := reg.domains - {d.Key()})
      else reg.(domains := reg.domains[d.Key() := d])
    case OnPreorder(action, h) =>
      if action == DELETE then reg.(preorders := reg.preorders - {h})
      else reg.(preorders := reg.preorders + {h})
  }

  function ApplyAll(reg: Registry, batch: seq<Transition>): Registry {
    if batch == [] then reg else Apply(ApplyAll(reg, batch[..|batch| - 1]), batch[|batch| - 1])
  }

  datatype Submission = Submission(owner: Buffer, batch: seq<Transition>)

  ghost function Run(env: Environment, submissions: seq<Submission>): Registry {
    if submissions == [] then EMPTY_REGISTRY
    else
      var reg, last := Run(env, submissions[..|submissions| - 1]), submissions[|submissions| - 1];
      if Accepted(env, reg, last.owner, last.batch) then ApplyAll(reg, last.batch) else reg
  }

  // ------------------------------------------------- what every run keeps

  /** The domain filed under `k` still satisfies what admitted it. */
  ghost predicate Fits(env: Environment, reg: Registry, k: DomainKey)
    requires k in reg.domains
  {
    var d := reg.domains[k];
    d.Key() == k && d.MatchesSchema() && Admissible(env, reg, d)
  }

  ghost predicate Sound(env: Environment, reg: Registry) {
    forall k {:trigger Fits(env, reg, k)} :: k in reg.domains ==> Fits(env, reg, k)
  }

  ghost predicate Grows(reg: Registry, later: Registry) {
    && (forall k :: k in reg.domains ==> k in later.domains && later.domains[k] == reg.domains[k])
    && reg.preorders <= later.preorders
  }

  lemma AdmissibleStays(env: Environment, reg: Registry, later: Registry, d: Domain)
    requires Admissible(env, reg, d) && Grows(reg, later)
    ensures Admissible(env, later, d)
  {
  }

  /** What passes the checks: any creation of a preorder, the creation of an
      admissible domain, and nothing else. */
  lemma PassesIff(env: Environment, reg: Registry, t: Transition)
    ensures Passes(env, reg, t) <==> t.action == CREATE && (t.OnDomain? ==> Admissible(env, reg, t.domain))
  {
    var c, document := env.contracts, t.DocumentType();
    if t.action != CREATE {
      ReplaceAndDeleteRejected(c, c.dpns, document, t.action);
    } else {
      forall trigger | trigger in GetDataTriggers(c, c.dpns, document, CREATE)
        ensures document == DOMAIN && trigger.check == CreateDomain
      {
        CreationChecks(c, c.dpns, document, trigger);
      }
      if t.OnDomain? { CreationIsChecked(c, c.dpns, document, CreateDomain); }
    }
  }

  lemma {:induction false} BatchKeeps(env: Environment, reg: Registry, owner: Buffer, batch: seq<Transition>, n: nat)
    requires Sound(env, reg) && Accepted(env, reg, owner, batch) && n <= |batch|
    ensures var later := ApplyAll(reg, batch[..n]);
      && Sound(env, later) && Grows(reg, later)
      && forall k :: k in later.domains && k !in reg.domains ==>
           exists i :: 0 <= i < n && batch[i].OnDomain? && batch[i].domain.Key() == k
  {
    if n > 0 {
      BatchKeeps(env, reg, owner, batch, n - 1);
      var t, before := batch[n - 1], ApplyAll(reg, batch[..n - 1]);
      assert batch[..n][..n - 1] == batch[..n - 1];
      PassesIff(env, reg, t);
      CreationKeeps(env, reg, before, t);
    }
  }

  lemma CreationKeeps(env: Environment, reg: Registry, before: Registry, t: Transition)
    requires Sound(env, before) && Grows(reg, before)
    requires t.action == CREATE
    requires t.OnDomain? ==>
      Admissible(env, reg, t.domain) && t.domain.MatchesSchema() && t.domain.Key() !in before.domains
    ensures Sound(env, Apply(before, t)) && Grows(reg, Apply(before, t))
  {
    var later := Apply(before, t);
    assert Grows(before, later);
    forall k | k in later.domains ensures Fits(env, later, k) {
      if k in before.domains {
        assert Fits(env, before, k);
        AdmissibleStays(env, before, later, before.domains[k]);
      } else {
        AdmissibleStays(env, reg, later, t.domain);
      }
    }
  }

  lemma {:induction false} RunsAreSound(env: Environment, submissions: seq<Submission>)
    ensures Sound(env, Run(env, submissions))
    decreases |submissions|
  {
    if submissions != [] {
      var front, last := submissions[..|submissions| - 1], submissions[|submissions| - 1];
      RunsAreSound(env, front);
      var reg := Run(env, front);
      if Accepted(env, reg, last.owner, last.batch) {
        BatchKeeps(env, reg, last.owner, last.batch, |last.batch|);
        assert last.batch[..|last.batch|] == last.batch;
      }
    }
  }

  /** No submission ever takes a name away or changes it. */
  lemma RegistryGrows(env: Environment, submissions: seq<Submission>, next: Submission)
    ensures Grows(Run(env, submissions), Run(env, submissions + [next]))
  {
    var reg := Run(env, submissions);
    RunsAreSound(env, submissions);
    assert (submissions + [next])[..|submissions|] == submissions;
    if Accepted(env, reg, next.owner, next.batch) {
      BatchKeeps(env, reg, next.owner, next.batch, |next.batch|);
      assert next.batch[..|next.batch|] == next.batch;
    }
  }

  // -------------------------------------------------------------- ownership

  /** A domain, its parent, its parent's parent and so on. */
  ghost function Chain(env: Environment, reg: Registry, k: DomainKey): (c: seq<Domain>)
    requires Sound(env, reg) && k in reg.domains
    ensures c != [] && c[0] == reg.domains[k]
    decreases |k.parentName|
  {
    assert Fits(env, reg, k);
    var d := reg.domains[k];
    if d.IsTopLevel() then [d]
    else
      TailShorter(d.normalizedParentDomainName, DOT);
      [d] + Chain(env, reg, d.ParentKey())
  }

  /** The links of a chain: each domain is below the next and, unless that is
      the top, has its owner. */
  ghost predicate Linked(env: Environment, reg: Registry, c: seq<Domain>) {
    && c != [] && c[|c| - 1].IsTopLevel() && c[|c| - 1].ownerId == env.topLevelIdentity
    && (forall i :: 0 <= i < |c| - 1 ==>
          && !c[i].IsTopLevel() && !c[i].allowSubdomains
          && c[i].ParentKey() in reg.domains && c[i + 1] == reg.domains[c[i].ParentKey()])
    && forall i :: 0 <= i < |c| - 1 ==> c[i].ownerId == c[0].ownerId
  }

  lemma LinkMore(env: Environment, reg: Registry, d: Domain, c: seq<Domain>)
    requires Linked(env, reg, c) && c[0].Key() in reg.domains
    requires !d.IsTopLevel() && Admissible(env, reg, d) && reg.domains[d.ParentKey()] == c[0]
    ensures Linked(env, reg, [d] + c)
  {
    var all := [d] + c;
    forall i | 0 <= i < |all| - 1 ensures all[i].ownerId == d.ownerId {
      if i > 0 { assert c[i - 1].ownerId == c[0].ownerId; }
    }
  }

  /** Ownership over whole runs: every chain of parents is registered without a
      gap, ends in a top-level domain of the top-level identity, lets no one
      register below anything else, and belongs to one owner up to that end. */
  lemma {:induction false} ChainOwnership(env: Environment, reg: Registry, k: DomainKey)
    requires Sound(env, reg) && k in reg.domains
    ensures Linked(env, reg, Chain(env, reg, k))
    decreases |k.parentName|
  {
    assert Fits(env, reg, k);
    var d := reg.domains[k];
    if !d.IsTopLevel() {
      TailShorter(d.normalizedParentDomainName, DOT);
      ChainOwnership(env, reg, d.ParentKey());
      assert Fits(env, reg, d.ParentKey());
      LinkMore(env, reg, d, Chain(env, reg, d.ParentKey()));
    }
  }

  lemma OwnershipOverRuns(env: Environment, submissions: seq<Submission>, k: DomainKey)
    requires k in Run(env, submissions).domains
    ensures var reg := Run(env, submissions);
      && Sound(env, reg) && Linked(env, reg, Chain(env, reg, k))
      && Admissible(env, reg, reg.domains[k]) && reg.domains[k].Key() == k
  {
    RunsAreSound(env, submissions);
    assert Fits(env, Run(env, submissions), k);
    ChainOwnership(env, Run(env, submissions), k);
  }

  // ------------------------------------------------------- names and parents

  /** The parent found by the check carries the parent name that was asked for,
      except when that name is one label and a dot: then it is the label alone. */
  lemma ParentNameIff(d: Domain, parent: Domain)
    requires !d.IsTopLevel() && parent.Key() == d.ParentKey()
    ensures parent.FullName() == d.normalizedParentDomainName <==> Split(d.normalizedParentDomainName, DOT)[1..] != [""]
  {
    var name := d.normalizedParentDomainName;
    var parts := Split(name, DOT);
    SplitParts(name, DOT);
    if |parts| == 1 {
      assert parts == [parts[0]];
    } else if parts[1..] == [""] {
      assert name == parts[0] + [DOT] + "";
    } else if |parts| == 2 {
      assert parts[1..] == [parts[1]];
    } else {
      JoinNonEmpty(parts[1..], DOT);
    }
  }

  /** The parent name "ab." finds the domain "ab". */
  lemma TrailingDotFindsLabel(d: Domain, parent: Domain)
    requires d.normalizedParentDomainName == "ab." && parent.Key() == d.ParentKey()
    ensures parent.FullName() == "ab"
  {
    var name: string := "ab";
    assert "ab." == name + [DOT] + "";
    SplitOne(name, DOT);
    SplitAround(name, "", DOT);
  }

  /** The parent found for a domain that matches the schema carries exactly the
      parent name asked for. */
  lemma ParentIsNamed(d: Domain, parent: Domain)
    requires !d.IsTopLevel() && d.MatchesSchema() && parent.Key() == d.ParentKey()
    ensures parent.FullName() == d.normalizedParentDomainName
  {
    var name := d.normalizedParentDomainName;
    var parts := Split(name, DOT);
    SplitParts(name, DOT);
    ParentNameIff(d, parent);
  }

  lemma FullNameParts(d: Domain)
    requires d.MatchesSchema()
    ensures var parts := Split(d.FullName(), DOT);
      && parts[0] == d.normalizedLabel
      && d.normalizedParentDomainName == Join(parts[1..], DOT)
      && (d.IsTopLevel() <==> |parts| == 1)
      && (!d.IsTopLevel() ==> parts[1..] == Split(d.normalizedParentDomainName, DOT))
  {
    SchemaIsClean(d);
    SplitOne(d.normalizedLabel, DOT);
    if !d.IsTopLevel() {
      SplitAround(d.normalizedLabel, d.normalizedParentDomainName, DOT);
      SplitParts(d.normalizedParentDomainName, DOT);
      assert Split(d.FullName(), DOT)[1..] == Split(d.normalizedParentDomainName, DOT);
    }
  }

  /** The parent's name is the domain's name without its first label. */
  lemma ParentParts(env: Environment, reg: Registry, d: Domain)
    requires Sound(env, reg) && d.MatchesSchema() && !d.IsTopLevel() && d.ParentKey() in reg.domains
    ensures Split(reg.domains[d.ParentKey()].FullName(), DOT) == Split(d.FullName(), DOT)[1..]
  {
    FullNameParts(d);
    assert Fits(env, reg, d.ParentKey());
    ParentIsNamed(d, reg.domains[d.ParentKey()]);
  }

  predicate IsRegistered(reg: Registry, d: Domain) {
    d.Key() in reg.domains && reg.domains[d.Key()] == d
  }

  /** The chain of a domain goes through the names its full name ends with. */
  lemma {:induction false} ChainNames(env: Environment, reg: Registry, k: DomainKey, i: nat)
    requires Sound(env, reg) && k in reg.domains
    requires i < |Split(reg.domains[k].FullName(), DOT)|
    ensures |Chain(env, reg, k)| == |Split(reg.domains[k].FullName(), DOT)|
    ensures IsRegistered(reg, Chain(env, reg, k)[i])
    ensures Split(Chain(env, reg, k)[i].FullName(), DOT) == Split(reg.domains[k].FullName(), DOT)[i..]
    decreases |k.parentName|
  {
    assert Fits(env, reg, k);
    var d := reg.domains[k];
    var parts := Split(d.FullName(), DOT);
    FullNameParts(d);
    if d.IsTopLevel() {
      assert parts[0..] == parts;
    } else {
      TailShorter(d.normalizedParentDomainName, DOT);
      ParentParts(env, reg, d);
      assert Chain(env, reg, k) == [d] + Chain(env, reg, d.ParentKey());
      if i == 0 {
        ChainNames(env, reg, d.ParentKey(), 0);
        assert parts[0..] == parts;
      } else {
        ChainNames(env, reg, d.ParentKey(), i - 1);
        assert parts[1..][i - 1..] == parts[i..];
      }
    }
  }

  /** Registered names consist of labels: every part of a registered full name is
      one, although the pattern of parent names also admits empty parts, parts of
      one character and parts that start with a bracket or a hyphen. */
  lemma NamesAreLabels(env: Environment, submissions: seq<Submission>, k: DomainKey)
    requires k in Run(env, submissions).domains
    ensures forall part <- Split(Run(env, submissions).domains[k].FullName(), DOT) :: IsNormalizedLabel(part)
  {
    var reg := Run(env, submissions);
    RunsAreSound(env, submissions);
    var parts := Split(reg.domains[k].FullName(), DOT);
    forall i | 0 <= i < |parts| ensures IsNormalizedLabel(parts[i]) {
      ChainNames(env, reg, k, i);
      assert Fits(env, reg, Chain(env, reg, k)[i].Key());
      FullNameParts(Chain(env, reg, k)[i]);
      assert parts[i..][0] == parts[i];
    }
  }

  /** The full name of a registered domain identifies it. */
  lemma FullNameIdentifies(env: Environment, submissions: seq<Submission>, dk: DomainKey, ek: DomainKey)
    requires var reg := Run(env, submissions);
      dk in reg.domains && ek in reg.domains && reg.domains[dk].FullName() == reg.domains[ek].FullName()
    ensures dk == ek
  {
    var reg := Run(env, submissions);
    RunsAreSound(env, submissions);
    assert Fits(env, reg, dk) && Fits(env, reg, ek);
    FullNameParts(reg.domains[dk]);
    FullNameParts(reg.domains[ek]);
  }

  /** Owning a name is owning everything below it: in every reachable registry,
      if `e` is registered below a top-level domain, then every registered name
      ending in a dot and `e`'s full name has `e`'s owner. */
  lemma NameOwnership(env: Environment, submissions: seq<Submission>, dk: DomainKey, ek: DomainKey, prefix: string)
    requires var reg := Run(env, submissions);
      && dk in reg.domains && ek in reg.domains && !reg.domains[ek].IsTopLevel()
      && reg.domains[dk].FullName() == prefix + [DOT] + reg.domains[ek].FullName()
    ensures var reg := Run(env, submissions);
      Sound(env, reg) && reg.domains[ek] in Chain(env, reg, dk) && reg.domains[dk].ownerId == reg.domains[ek].ownerId
  {
    var reg := Run(env, submissions);
    RunsAreSound(env, submissions);
    var d, e := reg.domains[dk], reg.domains[ek];
    assert Fits(env, reg, ek);
    SplitAround(prefix, e.FullName(), DOT);
    var i := |Split(prefix, DOT)|;
    ChainNames(env, reg, dk, i);
    var ancestor := Chain(env, reg, dk)[i];
    assert Fits(env, reg, ancestor.Key());
    assert (Split(prefix, DOT) + Split(e.FullName(), DOT))[i..] == Split(e.FullName(), DOT);
    FullNameParts(e);
    FullNameParts(ancestor);
    assert ancestor.Key() == e.Key() == ek;
    ChainOwnership(env, reg, dk);
    assert i < |Chain(env, reg, dk)| - 1;
  }
}
