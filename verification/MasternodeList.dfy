/** The masternode list kept up to date with diffs fetched one by one, any of
    which may fail to arrive. */
module MasternodeList {
  import opened Options

  datatype Diff = Diff(fromHeight: int, toHeight: int)

  /** The diffs applied since the list was created, and the height they reach. */
  datatype State = State(store: Option<seq<Diff>>, latestRequestedHeight: int)

  const INITIAL := State(None, 1)

  datatype Outcome = Ok | NotEnoughBlocks | RpcFailed

  // ------------------------------------------------------------ what is fetched

  function DiffsPerBlock(fromHeight: int, toHeight: int): (r: seq<Diff>)
    ensures |r| == if fromHeight < toHeight then toHeight - fromHeight else 0
    ensures forall i :: 0 <= i < |r| ==> r[i] == Diff(fromHeight + i, fromHeight + i + 1)
  {
    if fromHeight >= toHeight then [] else seq(toHeight - fromHeight, i => Diff(fromHeight + i, fromHeight + i + 1))
  }

  predicate StartsOver(limit: nat, s: State, coreHeight: int) {
    coreHeight - s.latestRequestedHeight > limit || s.latestRequestedHeight == 1
  }

  /** The list a call works on: emptied when it is too far behind. */
  function Prepared(limit: nat, s: State, coreHeight: int): State {
    if coreHeight - s.latestRequestedHeight > limit then INITIAL else s
  }

  /** The diffs a call asks for, one request each. */
  function Requested(limit: nat, s: State, coreHeight: int): seq<Diff> {
    if StartsOver(limit, s, coreHeight) then
      [Diff(1, coreHeight - limit)] + DiffsPerBlock(coreHeight - limit, coreHeight)
    else DiffsPerBlock(s.latestRequestedHeight, coreHeight)
  }

  function Applied(s: State, diffs: seq<Diff>): Option<seq<Diff>> {
    match s.store
    case None => Some(diffs)
    case Some(store) => Some(store + diffs)
  }

  /** `answers(n)`: the n-th request of this call is answered. */
  predicate AllAnswered(answers: nat -> bool, n: nat) {
    forall i :: 0 <= i < n ==> answers(i)
  }

  function Update(limit: nat, s: State, coreHeight: int, answers: nat -> bool): State {
    if coreHeight < limit + 1 then s
    else
      var p, diffs := Prepared(limit, s, coreHeight), Requested(limit, s, coreHeight);
      if !AllAnswered(answers, |diffs|) then p
      else if StartsOver(limit, s, coreHeight) || s.latestRequestedHeight < coreHeight
        then State(Applied(p, diffs), coreHeight)
      else p
  }

  // ------------------------------------------------------------- the invariant

  /** One gapless chain of diffs between two heights. */
  ghost predicate Chain(diffs: seq<Diff>, fromHeight: int, toHeight: int) {
    && diffs != [] && diffs[0].fromHeight == fromHeight && diffs[|diffs| - 1].toHeight == toHeight
    && forall i :: 0 < i < |diffs| ==> diffs[i - 1].toHeight == diffs[i].fromHeight
  }

  /** The last `limit` diffs are of single blocks. */
  ghost predicate RecentSingle(limit: nat, diffs: seq<Diff>) {
    && |diffs| > limit
    && forall i :: |diffs| - limit <= i < |diffs| ==> diffs[i].toHeight == diffs[i].fromHeight + 1
  }

  ghost predicate Sound(limit: nat, s: State) {
    || s == INITIAL
    || (s.store.Some? && s.latestRequestedHeight > limit
        && Chain(s.store.value, 1, s.latestRequestedHeight) && RecentSingle(limit, s.store.value))
  }

  lemma ChainAppend(a: seq<Diff>, b: seq<Diff>, lo: int, mid: int, hi: int)
    requires Chain(a, lo, mid) && Chain(b, mid, hi)
    ensures Chain(a + b, lo, hi)
  {
  }

  lemma PerBlockChain(lo: int, hi: int)
    requires lo < hi
    ensures Chain(DiffsPerBlock(lo, hi), lo, hi)
  {
  }

  /** Every call, whatever fails, leaves an empty list at height 1 or one gapless
      chain from 1 to the latest height ending in single blocks; a successful
      call reaches the greater of the old and the requested height; no call makes
      more than one request more than the limit. */
  lemma UpdateKeepsChain(limit: nat, s: State, coreHeight: int, answers: nat -> bool)
    requires Sound(limit, s)
    ensures Sound(limit, Update(limit, s, coreHeight, answers))
    ensures coreHeight > limit ==> |Requested(limit, s, coreHeight)| <= limit + 1
    ensures coreHeight > limit && AllAnswered(answers, |Requested(limit, s, coreHeight)|) ==>
      Update(limit, s, coreHeight, answers).latestRequestedHeight ==
        if coreHeight > s.latestRequestedHeight then coreHeight else s.latestRequestedHeight
  {
    if coreHeight > limit {
      var diffs := Requested(limit, s, coreHeight);
      if StartsOver(limit, s, coreHeight) {
        var start := coreHeight - limit;
        if limit > 0 {
          PerBlockChain(start, coreHeight);
          ChainAppend([Diff(1, start)], DiffsPerBlock(start, coreHeight), 1, start, coreHeight);
        }
        assert Chain(diffs, 1, coreHeight);
        if limit == 0 && coreHeight == 1 && s.store.Some? {
          ChainAppend(s.store.value, diffs, 1, 1, 1);
        }
      } else if s.latestRequestedHeight < coreHeight {
        PerBlockChain(s.latestRequestedHeight, coreHeight);
        ChainAppend(s.store.value, diffs, 1, s.latestRequestedHeight, coreHeight);
      }
    }
  }

  /** One diff per block from `fromHeight` on. */
  ghost predicate PerBlock(diffs: seq<Diff>, fromHeight: int) {
    forall i :: 0 <= i < |diffs| ==> diffs[i] == Diff(fromHeight + i, fromHeight + i + 1)
  }

  /** What a call does to the list: nothing up to the limit; when a request fails
      the list is left as it was, unless it was too far behind and is empty now;
      else diffs are appended: one per block, or, when the list starts over, one up
      to the limit and then one per block. */
  lemma UpdateOutcome(limit: nat, s: State, coreHeight: int, answers: nat -> bool)
    requires Sound(limit, s)
    ensures var t, behind := Update(limit, s, coreHeight, answers), coreHeight - s.latestRequestedHeight;
      var before := if behind > limit || s.store.None? then [] else s.store.value;
      var startsOver := behind > limit || s.latestRequestedHeight == 1;
      var n: nat := if startsOver then 1 + limit else if behind > 0 then behind else 0;
      && (coreHeight <= limit ==> t == s)
      && (coreHeight > limit && (exists i: nat :: i < n && !answers(i)) ==> t == if behind > limit then INITIAL else s)
      && (coreHeight > limit && (forall i: nat :: i < n ==> answers(i)) ==>
            if n == 0 then t == s
            else
              && t.store.Some? && before <= t.store.value && |t.store.value| == |before| + n
              && var added := t.store.value[|before|..];
                 if startsOver then
                   added[0] == Diff(1, coreHeight - limit) && PerBlock(added[1..], coreHeight - limit)
                 else PerBlock(added, s.latestRequestedHeight))
  {
    var diffs := Requested(limit, s, coreHeight);
    assert AllAnswered(answers, |diffs|) <==> forall i: nat :: i < |diffs| ==> answers(i);
    assert s.latestRequestedHeight == 1 || s.store.Some?;
  }

  datatype Call = Call(coreHeight: int, answers: nat -> bool)

  function Run(limit: nat, calls: seq<Call>): State {
    if calls == [] then INITIAL
    else Update(limit, Run(limit, calls[..|calls| - 1]), calls[|calls| - 1].coreHeight, calls[|calls| - 1].answers)
  }

  lemma {:induction false} RunKeepsChain(limit: nat, calls: seq<Call>)
    ensures Sound(limit, Run(limit, calls))
    decreases |calls|
  {
    if calls != [] {
      RunKeepsChain(limit, calls[..|calls| - 1]);
      var last := calls[|calls| - 1];
      UpdateKeepsChain(limit, Run(limit, calls[..|calls| - 1]), last.coreHeight, last.answers);
    }
  }

  // ---------------------------------------------------------------- the objects

  class SimplifiedMasternodeList {
    var store: Option<seq<Diff>>

    constructor ()
      ensures store == None
    {
      store := None;
    }

    method ApplyDiffs(diffs: seq<Diff>)
      modifies this
      ensures store == (match old(store) case None => Some(diffs) case Some(s) => Some(s + diffs))
    {
      if store.None? {
        store := Some(diffs);
      } else {
        ghost var before := store.value;
        assert before + diffs[..0] == before;
        for i := 0 to |diffs|
          invariant store == Some(before + diffs[..i])
        {
          assert before + diffs[..i + 1] == before + diffs[..i] + [diffs[i]];
          store := Some(store.value + [diffs[i]]);
        }
        assert diffs[..|diffs|] == diffs;
      }
    }

    method Reset()
      modifies this
      ensures store == None
    {
      store := None;
    }
  }

  class Updater {
    const list: SimplifiedMasternodeList
    const smlMaxListsLimit: nat
    var latestRequestedHeight: int

    ghost function View(): State
      reads this, list
    {
      State(list.store, latestRequestedHeight)
    }

    constructor (limit: nat)
      ensures View() == INITIAL && smlMaxListsLimit == limit && fresh(list)
    {
      list := new SimplifiedMasternodeList();
      smlMaxListsLimit := limit;
      latestRequestedHeight := 1;
    }

    /** `None` when a request is not answered; `calls` counts the requests. */
    method FetchDiffsPerBlock(fromHeight: int, toHeight: int, answers: nat -> bool, before: nat)
        returns (r: Option<seq<Diff>>, calls: nat)
      ensures r.Some? <==> forall i :: before <= i < before + |DiffsPerBlock(fromHeight, toHeight)| ==> answers(i)
      ensures r.Some? ==> r.value == DiffsPerBlock(fromHeight, toHeight)
      ensures before <= calls <= before + |DiffsPerBlock(fromHeight, toHeight)|
    {
      var diffs: seq<Diff> := [];
      calls := before;
      var height := fromHeight;
      while height < toHeight
        invariant fromHeight <= height && (height <= toHeight || height == fromHeight)
        invariant |diffs| == height - fromHeight && calls == before + |diffs|
        invariant forall i :: 0 <= i < |diffs| ==> diffs[i] == Diff(fromHeight + i, fromHeight + i + 1)
        invariant forall i :: before <= i < calls ==> answers(i)
      {
        calls := calls + 1;
        if !answers(calls - 1) {
          return None, calls;
        }
        diffs := diffs + [Diff(height, height + 1)];
        height := height + 1;
      }
      return Some(diffs), calls;
    }

    method UpdateSimplifiedMasternodeList(coreHeight: int, answers: nat -> bool) returns (r: Outcome, calls: nat)
      modifies this, list
      ensures View() == Update(smlMaxListsLimit, old(View()), coreHeight, answers)
      ensures r == if coreHeight < smlMaxListsLimit + 1 then NotEnoughBlocks
        else if AllAnswered(answers, |Requested(smlMaxListsLimit, old(View()), coreHeight)|) then Ok
        else RpcFailed
      ensures calls <= |Requested(smlMaxListsLimit, old(View()), coreHeight)|
    {
      calls := 0;
      if coreHeight < smlMaxListsLimit + 1 {
        return NotEnoughBlocks, calls;
      }
      if coreHeight - latestRequestedHeight > smlMaxListsLimit {
        latestRequestedHeight := 1;
        list.Reset();
      }
      if latestRequestedHeight == 1 {
        var startHeight := coreHeight - smlMaxListsLimit;
        calls := 1;
        if !answers(0) {
          return RpcFailed, calls;
        }
        var perBlock;
        perBlock, calls := FetchDiffsPerBlock(startHeight, coreHeight, answers, 1);
        if perBlock.None? {
          return RpcFailed, calls;
        }
        list.ApplyDiffs([Diff(latestRequestedHeight, startHeight)] + perBlock.value);
        latestRequestedHeight := coreHeight;
      } else if latestRequestedHeight < coreHeight {
        var perBlock;
        perBlock, calls := FetchDiffsPerBlock(latestRequestedHeight, coreHeight, answers, 0);
        if perBlock.None? {
          return RpcFailed, calls;
        }
        list.ApplyDiffs(perBlock.value);
        latestRequestedHeight := coreHeight;
      }
      return Ok, calls;
    }
  }
}
