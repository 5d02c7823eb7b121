/** Feature flags: which are accepted, and which one is in force at a height. */
module FeatureFlags {
  import opened Buffers
  import opened Options
  import opened DataTriggers

  /** The unique index of both flag types. */
  datatype FlagKey = FlagKey(flagType: string, enableAtHeight: int)

  type Flags = map<FlagKey, Buffer>

  datatype Environment = Environment(
    contracts: Contracts,
    topLevelIdentity: Buffer,
    contractHeight: Option<int>   // the block of the flags contract, if there is one
  )

  // --------------------------------------------------------------- the check

  datatype FlagError = InThePast | NotTopLevelIdentity

  method CreateFeatureFlagDataTrigger(env: Environment, enableAtHeight: int, ownerId: Buffer, blockHeight: int)
      returns (errors: seq<FlagError>)
    ensures errors == [] <==> Admissible(env, enableAtHeight, ownerId, blockHeight)
    ensures InThePast in errors <==> enableAtHeight < blockHeight
    ensures NotTopLevelIdentity in errors <==> enableAtHeight >= blockHeight && ownerId != env.topLevelIdentity
  {
    errors := [];
    if enableAtHeight < blockHeight {
      return [InThePast];
    }
    if ownerId != env.topLevelIdentity {
      errors := errors + [NotTopLevelIdentity];
    }
  }

  predicate Admissible(env: Environment, enableAtHeight: int, ownerId: Buffer, blockHeight: int) {
    enableAtHeight >= blockHeight && ownerId == env.topLevelIdentity
  }

  // ------------------------------------------------------ the flag in force

  /** The heights up to `height` for which there is a flag of this type. */
  ghost function Candidates(flags: Flags, flagType: string, height: int): set<int> {
    set k | k in flags && k.flagType == flagType && k.enableAtHeight <= height :: k.enableAtHeight
  }

  /** `k` is the candidate with the greatest height. */
  ghost predicate IsLatest(flags: Flags, flagType: string, height: int, k: FlagKey) {
    && k in flags && k.flagType == flagType && k.enableAtHeight <= height
    && forall h :: h in Candidates(flags, flagType, height) ==> h <= k.enableAtHeight
  }

  /** The query: heights at most `height`, descending, the first of them. */
  ghost function Query(flags: Flags, flagType: string, height: int): (r: Option<Buffer>)
    ensures r.None? <==> Candidates(flags, flagType, height) == {}
    ensures r.Some? ==> exists k :: IsLatest(flags, flagType, height, k) && r.value == flags[k]
  {
    var heights := Candidates(flags, flagType, height);
    if heights == {} then None
    else
      var h := Greatest(heights);
      assert IsLatest(flags, flagType, height, FlagKey(flagType, h));
      Some(flags[FlagKey(flagType, h)])
  }

  ghost function Greatest(s: set<int>): (m: int)
    requires s != {}
    ensures m in s && forall x :: x in s ==> x <= m
  {
    HasMember(s);
    var x :| x in s;
    if s == {x} then x
    else
      assert s == (s - {x}) + {x};
      var y := Greatest(s - {x});
      if x > y then x else y
  }

  lemma HasMember(s: set<int>)
    ensures (forall x :: x !in s) ==> s == {}
  {
    if forall x :: x !in s {
      assert s == {};
    }
  }

  ghost function GetLatestFeatureFlag(env: Environment, flags: Flags, flagType: string,
                                      blockHeight: int): Option<Buffer>
  {
    match env.contractHeight
    case None => None
    case Some(start) => if blockHeight <= start then None else Query(flags, flagType, blockHeight)
  }

  /** The flag of this type in force at `height`: no later one is enabled by then. */
  ghost predicate InForce(flags: Flags, flagType: string, height: int, enabledAt: int) {
    && enabledAt <= height && FlagKey(flagType, enabledAt) in flags
    && forall h :: enabledAt < h <= height ==> FlagKey(flagType, h) !in flags
  }

  /** The answer for any flag type: the flag of that type in force, once the
      contract exists; none if there is no such flag, or no contract yet. */
  lemma LatestFlagIff(env: Environment, flags: Flags, flagType: string, height: int)
    ensures var answer, hasContract := GetLatestFeatureFlag(env, flags, flagType, height),
        env.contractHeight.Some? && env.contractHeight.value < height;
      && (forall document :: answer == Some(document) <==>
            hasContract && exists h :: InForce(flags, flagType, height, h) && flags[FlagKey(flagType, h)] == document)
      && (answer == None <==> !hasContract || forall h :: h <= height ==> FlagKey(flagType, h) !in flags)
  {
    var heights := Candidates(flags, flagType, height);
    forall h | h <= height && FlagKey(flagType, h) in flags ensures h in heights {
      assert FlagKey(flagType, h).enableAtHeight == h;
    }
    forall h | h in heights ensures h <= height && FlagKey(flagType, h) in flags {
    }
    if heights != {} {
      var top := Greatest(heights);
      assert InForce(flags, flagType, height, top);
      forall h | InForce(flags, flagType, height, h) ensures h == top {
        assert h in heights;
      }
    }
  }

  /** The answer for a height depends only on the flags up to that height. */
  lemma SameBelowSameAnswer(env: Environment, flags: Flags, others: Flags, flagType: string, height: int)
    requires SameUpTo(flags, others, height)
    ensures GetLatestFeatureFlag(env, flags, flagType, height) == GetLatestFeatureFlag(env, others, flagType, height)
  {
    assert Candidates(flags, flagType, height) == Candidates(others, flagType, height);
  }

  ghost predicate SameUpTo(flags: Flags, others: Flags, height: int) {
    forall k: FlagKey :: k.enableAtHeight <= height ==>
      (k in flags <==> k in others) && (k in flags ==> flags[k] == others[k])
  }

  // -------------------------------------------------------------------- runs

  /** `visible` is what readers inside the running block see. */
  datatype State = State(committed: Flags, visible: Flags, open: bool, height: int)

  datatype Event =
    | BeginBlock(height: int)
    | Submit(action: Action, key: FlagKey, document: Buffer, ownerId: Buffer)
    | Commit
    | Abort

  predicate IsFlagType(flagType: string) {
    flagType == UPDATE_CONSENSUS_PARAMS || flagType == FIX_CUMULATIVE_FEES
  }

  /** Every matching check is passed, and the unique index holds. */
  predicate Accepted(env: Environment, s: State, action: Action, key: FlagKey, ownerId: Buffer) {
    && s.open && IsFlagType(key.flagType)
    && (action == CREATE ==> key !in s.visible)
    && forall trigger <- GetDataTriggers(env.contracts, env.contracts.featureFlags, key.flagType, action) ::
         trigger.check == CreateFeatureFlag && Admissible(env, key.enableAtHeight, ownerId, s.height)
  }

  function Step(env: Environment, s: State, event: Event): State {
    match event
    case BeginBlock(h) =>
      // a block that was not committed is aborted; heights never go back
      if h < s.height then s else State(s.committed, s.committed, true, h)
    case Submit(action, key, document, ownerId) =>
      if !Accepted(env, s, action, key, ownerId) then s
      else if action == DELETE then s.(visible := s.visible - {key})
      else s.(visible := s.visible[key := document])
    case Commit => if s.open then s.(committed := s.visible, open := false) else s
    case Abort => s.(visible := s.committed, open := false)
  }

  function Run(env: Environment, s: State, events: seq<Event>): State {
    if events == [] then s else Step(env, Run(env, s, events[..|events| - 1]), events[|events| - 1])
  }

  const INITIAL := State(map[], map[], false, 0)

  lemma AcceptedCreatesAhead(env: Environment, s: State, action: Action, key: FlagKey, ownerId: Buffer)
    requires Accepted(env, s, action, key, ownerId)
    ensures action == CREATE && Admissible(env, key.enableAtHeight, ownerId, s.height)
  {
    var c := env.contracts;
    if action != CREATE {
      ReplaceAndDeleteRejected(c, c.featureFlags, key.flagType, action);
    } else {
      CreationIsChecked(c, c.featureFlags, key.flagType, CreateFeatureFlag);
    }
  }

  /** What is accepted: the creation, in a running block, of a new flag of a known
      type that is ahead of the block, by the top-level identity. */
  lemma AcceptedIff(env: Environment, s: State, action: Action, key: FlagKey, ownerId: Buffer)
    ensures Accepted(env, s, action, key, ownerId) <==>
      && s.open && action == CREATE && key !in s.visible
      && (key.flagType == UPDATE_CONSENSUS_PARAMS || key.flagType == FIX_CUMULATIVE_FEES)
      && key.enableAtHeight >= s.height && ownerId == env.topLevelIdentity
  {
    var c := env.contracts;
    if Accepted(env, s, action, key, ownerId) {
      AcceptedCreatesAhead(env, s, action, key, ownerId);
    }
    if IsFlagType(key.flagType) && action == CREATE {
      forall trigger | trigger in GetDataTriggers(c, c.featureFlags, key.flagType, CREATE)
        ensures trigger.check == CreateFeatureFlag
      {
        CreationChecks(c, c.featureFlags, key.flagType, trigger);
      }
    }
  }

  /** A flag that is accepted is in force at its height: inside the block at once,
      outside after the commit, and not after an abort. */
  lemma AcceptedIsInForce(env: Environment, s: State, key: FlagKey, document: Buffer, ownerId: Buffer)
    requires Accepted(env, s, CREATE, key, ownerId)
    requires env.contractHeight.Some? && env.contractHeight.value < key.enableAtHeight
    ensures var t := Step(env, s, Submit(CREATE, key, document, ownerId));
      && GetLatestFeatureFlag(env, t.visible, key.flagType, key.enableAtHeight) == Some(document)
      && t.committed == s.committed
      && (forall other: FlagKey :: other != key ==> Lookup(t.visible, other) == Lookup(s.visible, other))
      && GetLatestFeatureFlag(env, Step(env, t, Commit).committed, key.flagType, key.enableAtHeight) == Some(document)
      && Step(env, t, Abort).visible == s.committed == Step(env, t, Abort).committed
  {
    var t := Step(env, s, Submit(CREATE, key, document, ownerId));
    LatestFlagIff(env, t.visible, key.flagType, key.enableAtHeight);
    assert key == FlagKey(key.flagType, key.enableAtHeight);
    assert InForce(t.visible, key.flagType, key.enableAtHeight, key.enableAtHeight);
  }

  function Lookup(flags: Flags, key: FlagKey): Option<Buffer> {
    if key in flags then Some(flags[key]) else None
  }

  /** Below the current height the running block sees exactly what is committed. */
  ghost predicate Settled(s: State) {
    SameUpTo(s.committed, s.visible, s.height - 1) && (!s.open ==> s.visible == s.committed)
  }

  lemma StepSettles(env: Environment, s: State, event: Event)
    requires Settled(s)
    ensures var t := Step(env, s, event);
      Settled(t) && t.height >= s.height && SameUpTo(s.committed, t.committed, s.height - 1)
  {
    if event.Submit? && Accepted(env, s, event.action, event.key, event.ownerId) {
      AcceptedCreatesAhead(env, s, event.action, event.key, event.ownerId);
    }
  }

  lemma {:induction false} RunSettles(env: Environment, s: State, events: seq<Event>)
    requires Settled(s)
    ensures var t := Run(env, s, events);
      Settled(t) && t.height >= s.height && SameUpTo(s.committed, t.committed, s.height - 1)
    decreases |events|
  {
    if events != [] {
      var front := events[..|events| - 1];
      RunSettles(env, s, front);
      StepSettles(env, Run(env, s, front), events[|events| - 1]);
    }
  }

  /** Historical stability: once the block height has passed `height`, the flag
      in force there is the same in every later state, for readers inside and
      outside the running block, whatever is submitted, committed or aborted. */
  lemma HistoryIsStable(env: Environment, before: seq<Event>, after: seq<Event>, flagType: string, height: int)
    requires height < Run(env, INITIAL, before).height
    ensures var s := Run(env, INITIAL, before);
      var t, flag := Run(env, s, after), GetLatestFeatureFlag(env, s.committed, flagType, height);
      && GetLatestFeatureFlag(env, s.visible, flagType, height) == flag
      && GetLatestFeatureFlag(env, t.committed, flagType, height) == flag
      && GetLatestFeatureFlag(env, t.visible, flagType, height) == flag
  {
    var s := Run(env, INITIAL, before);
    RunSettles(env, INITIAL, before);
    RunSettles(env, s, after);
    var t := Run(env, s, after);
    SameBelowSameAnswer(env, s.committed, s.visible, flagType, height);
    SameBelowSameAnswer(env, s.committed, t.committed, flagType, height);
    SameBelowSameAnswer(env, t.committed, t.visible, flagType, height);
  }

  /** The bound is tight: at the current height itself the answer can change. */
  lemma CurrentHeightCanChange(env: Environment, start: int, height: int, document: Buffer)
    requires env.contractHeight == Some(start) && start < height
    ensures var s := State(map[], map[], true, height);
      var key := FlagKey(FIX_CUMULATIVE_FEES, height);
      var t := Step(env, s, Submit(CREATE, key, document, env.topLevelIdentity));
      && GetLatestFeatureFlag(env, s.visible, FIX_CUMULATIVE_FEES, height) == None
      && GetLatestFeatureFlag(env, t.visible, FIX_CUMULATIVE_FEES, height) == Some(document)
  {
    var key := FlagKey(FIX_CUMULATIVE_FEES, height);
    var c := env.contracts;
    forall trigger | trigger in GetDataTriggers(c, c.featureFlags, FIX_CUMULATIVE_FEES, CREATE)
      ensures trigger.check == CreateFeatureFlag
    {
      CreationChecks(c, c.featureFlags, FIX_CUMULATIVE_FEES, trigger);
    }
    var flags: Flags := map[key := document];
    assert height in Candidates(flags, FIX_CUMULATIVE_FEES, height);
    assert Candidates(map[], FIX_CUMULATIVE_FEES, height) == {};
  }
}
