/** The choice of a validator quorum: the one whose hash, hashed with the
    entropy, comes first. */
module Quorums {
  import opened Options
  import opened Buffers
  import opened ByteOrder

  datatype Quorum = Quorum(quorumHash: Buffer, publicKey: Buffer)

  datatype Scored = Scored(score: Buffer, hash: Buffer)

  datatype Result = QuorumsNotFound | Found(quorum: Option<Quorum>)

  function ScoreOf(s: Scored): Buffer {
    s.score
  }

  /** `sha` stands for single SHA-256. */
  function Score(sha: Buffer -> Buffer, entropy: Buffer, hash: Buffer): Scored {
    Scored(sha(hash + entropy), hash)
  }

  function CalculateQuorumHashScores(sha: Buffer -> Buffer, entropy: Buffer, quorums: seq<Quorum>): (r: seq<Scored>)
    ensures |r| == |quorums|
    ensures forall i :: 0 <= i < |r| ==> r[i] == Score(sha, entropy, quorums[i].quorumHash)
  {
    seq(|quorums|, i requires 0 <= i < |quorums| => Score(sha, entropy, quorums[i].quorumHash))
  }

  /** The list's own lookup: the first quorum with that hash. */
  function GetQuorum(quorums: seq<Quorum>, hash: Buffer): Option<Quorum> {
    if quorums == [] then None
    else if quorums[0].quorumHash == hash then Some(quorums[0])
    else GetQuorum(quorums[1..], hash)
  }

  function Choice(sha: Buffer -> Buffer, entropy: Buffer, quorums: seq<Quorum>): Result {
    var sorted := SortBy(ScoreOf, CalculateQuorumHashScores(sha, entropy, quorums));
    if sorted == [] then QuorumsNotFound else Found(GetQuorum(quorums, sorted[0].hash))
  }

  // ------------------------------------------------------------ the algorithm

  /** `after` is `before` with the elements from `j` up to `i` one place further
      up and `x`, which was at `i`, in front of them. */
  ghost predicate Moved(before: seq<Scored>, after: seq<Scored>, i: nat, j: nat, x: Scored) {
    && |after| == |before| && j <= i < |before| && after[j] == x
    && (forall k :: 0 <= k < j || i < k < |before| ==> after[k] == before[k])
    && forall k :: j < k <= i ==> after[k] == before[k - 1]
  }

  lemma MovedPieces(before: seq<Scored>, after: seq<Scored>, i: nat, j: nat, x: Scored)
    requires Moved(before, after, i, j, x)
    ensures after[..j] == before[..j] && after[j] == x && after[j + 1..i + 1] == before[j..i]
    ensures after[i + 1..] == before[i + 1..]
  {
  }

  lemma JoinPieces(s: seq<Scored>, j: nat)
    requires j < |s|
    ensures s == s[..j] + [s[j]] + s[j + 1..]
  {
  }

  lemma MovedIsInserted(before: seq<Scored>, after: seq<Scored>, i: nat, j: nat, x: Scored)
    requires Moved(before, after, i, j, x)
    requires forall k :: j <= k < i ==> Compare(before[k].score, x.score) > 0
    requires j > 0 ==> Compare(before[j - 1].score, x.score) <= 0
    ensures after[..i + 1] == InsertSorted(ScoreOf, before[..i], x)
    ensures after[i + 1..] == before[i + 1..]
  {
    var sorted, moved := before[..i], after[..i + 1];
    MovedPieces(before, after, i, j, x);
    JoinPieces(moved, j);
    assert moved[..j] == after[..j] && moved[j + 1..] == after[j + 1..i + 1];
    assert sorted[..j] == before[..j] && sorted[j..] == before[j..i];
    InsertPlace(sorted, x, j);
  }

  /** Moves the elements before `i` that are greater than `a[i]` one place up. */
  method MoveUpGreater(a: array<Scored>, i: nat) returns (j: nat)
    requires i < a.Length
    modifies a
    ensures j <= i
    ensures forall k :: 0 <= k < j || i < k < a.Length ==> a[k] == old(a[k])
    ensures forall k :: j < k <= i ==> a[k] == old(a[k - 1])
    ensures forall k :: j <= k < i ==> Compare(old(a[k]).score, old(a[i]).score) > 0
    ensures j > 0 ==> Compare(old(a[j - 1]).score, old(a[i]).score) <= 0
  {
    var x := a[i];
    j := i;
    while j > 0 && Compare(a[j - 1].score, x.score) > 0
      invariant j <= i
      invariant forall k :: 0 <= k < j || i < k < a.Length ==> a[k] == old(a[k])
      invariant forall k :: j < k <= i ==> a[k] == old(a[k - 1])
      invariant forall k :: j <= k < i ==> Compare(old(a[k]).score, x.score) > 0
    {
      a[j] := a[j - 1];
      j := j - 1;
    }
  }

  /** Moves `a[i]` down to its place among the sorted elements before it. */
  method MoveDown(a: array<Scored>, i: nat)
    requires i < a.Length
    modifies a
    ensures a[..i + 1] == InsertSorted(ScoreOf, old(a[..i]), old(a[i]))
    ensures a[i + 1..] == old(a[i + 1..])
  {
    ghost var before := a[..];
    var x := a[i];
    var j := MoveUpGreater(a, i);
    a[j] := x;
    MovedIsInserted(before, a[..], i, j, x);
    assert a[..i + 1] == a[..][..i + 1] && a[i + 1..] == a[..][i + 1..];
  }

  /** Insertion puts `x` where only greater elements follow. */
  lemma {:induction false} InsertPlace(sorted: seq<Scored>, x: Scored, j: nat)
    requires j <= |sorted| && forall k :: j <= k < |sorted| ==> Compare(sorted[k].score, x.score) > 0
    requires j > 0 ==> Compare(sorted[j - 1].score, x.score) <= 0
    ensures InsertSorted(ScoreOf, sorted, x) == sorted[..j] + [x] + sorted[j..]
  {
    if j < |sorted| {
      var front, last := sorted[..|sorted| - 1], sorted[|sorted| - 1];
      InsertPlace(front, x, j);
      assert front[..j] == sorted[..j];
      assert front[j..] + [last] == sorted[j..];
      assert sorted[..j] + [x] + (front[j..] + [last]) == (sorted[..j] + [x] + front[j..]) + [last];
    }
  }

  /** The stable sort of the scores, in place. */
  method SortByScore(a: array<Scored>)
    modifies a
    ensures a[..] == SortBy(ScoreOf, old(a[..]))
  {
    ghost var before := a[..];
    for i := 0 to a.Length
      invariant a[..i] == SortBy(ScoreOf, before[..i])
      invariant a[i..] == before[i..]
    {
      assert a[i] == a[i..][0] && a[i + 1..] == a[i..][1..];
      MoveDown(a, i);
      assert before[..i + 1][..i] == before[..i];
    }
    assert a[..] == a[..a.Length] && before == before[..a.Length];
  }

  method GetRandomQuorum(sha: Buffer -> Buffer, entropy: Buffer, quorums: seq<Quorum>) returns (r: Result)
    ensures r == Choice(sha, entropy, quorums)
  {
    LengthKept(CalculateQuorumHashScores(sha, entropy, quorums));
    if |quorums| == 0 {
      return QuorumsNotFound;
    }
    var scores := CalculateQuorumHashScores(sha, entropy, quorums);
    var scored := new Scored[|scores|](i requires 0 <= i < |scores| => scores[i]);
    assert scored[..] == scores;
    SortByScore(scored);
    assert scored[0] == scored[..][0];
    r := Found(GetQuorum(quorums, scored[0].hash));
  }

  lemma LengthKept(scores: seq<Scored>)
    ensures |SortBy(ScoreOf, scores)| == |scores|
  {
    SortByIsSorted(ScoreOf, scores);
    SameMembers(SortBy(ScoreOf, scores), scores);
  }

  // -------------------------------------------------------------- what is chosen

  /** No quorum of the list scores lower than `q`. */
  ghost predicate Least(sha: Buffer -> Buffer, entropy: Buffer, quorums: seq<Quorum>, q: Quorum) {
    q in quorums && forall p :: p in quorums ==> !Precedes(sha(p.quorumHash + entropy), sha(q.quorumHash + entropy))
  }

  lemma LeastIff(sha: Buffer -> Buffer, entropy: Buffer, quorums: seq<Quorum>, q: Quorum)
    ensures Least(sha, entropy, quorums, q) <==>
      q in quorums && Lowest(sha, entropy, quorums, sha(q.quorumHash + entropy))
  {
    forall p | p in quorums
      ensures Precedes(sha(p.quorumHash + entropy), sha(q.quorumHash + entropy)) <==>
        Compare(sha(q.quorumHash + entropy), sha(p.quorumHash + entropy)) > 0
    {
      LessIff(sha(p.quorumHash + entropy), sha(q.quorumHash + entropy));
      CompareAntisymmetric(sha(p.quorumHash + entropy), sha(q.quorumHash + entropy));
    }
  }

  ghost predicate Lowest(sha: Buffer -> Buffer, entropy: Buffer, quorums: seq<Quorum>, score: Buffer) {
    forall p :: p in quorums ==> Compare(score, sha(p.quorumHash + entropy)) <= 0
  }

  lemma {:induction false} LookupFinds(quorums: seq<Quorum>, q: Quorum)
    requires q in quorums
    ensures GetQuorum(quorums, q.quorumHash).Some?
    ensures GetQuorum(quorums, q.quorumHash).value in quorums
    ensures GetQuorum(quorums, q.quorumHash).value.quorumHash == q.quorumHash
  {
    if quorums[0].quorumHash != q.quorumHash {
      LookupFinds(quorums[1..], q);
    }
  }

  /** A list that is not empty yields one of its members with the least score. */
  lemma ChoiceIsLeast(sha: Buffer -> Buffer, entropy: Buffer, quorums: seq<Quorum>)
    requires quorums != []
    ensures Choice(sha, entropy, quorums).Found? && Choice(sha, entropy, quorums).quorum.Some?
    ensures Least(sha, entropy, quorums, Choice(sha, entropy, quorums).quorum.value)
  {
    var scores := CalculateQuorumHashScores(sha, entropy, quorums);
    var sorted := SortBy(ScoreOf, scores);
    LengthKept(scores);
    SortByIsSorted(ScoreOf, scores);
    SameMembers(sorted, scores);
    assert sorted[0] in scores;
    var i :| 0 <= i < |scores| && scores[i] == sorted[0];
    LookupFinds(quorums, quorums[i]);
    LeastIff(sha, entropy, quorums, GetQuorum(quorums, sorted[0].hash).value);
    forall p | p in quorums ensures Compare(sorted[0].score, sha(p.quorumHash + entropy)) <= 0 {
      var j :| 0 <= j < |quorums| && quorums[j] == p;
      assert scores[j] in sorted;
      FirstIsLeastOf(sorted, scores[j]);
    }
  }

  lemma FirstIsLeastOf(sorted: seq<Scored>, x: Scored)
    requires Ascending(ScoreOf, sorted) && x in sorted
    ensures Compare(sorted[0].score, x.score) <= 0
  {
    var k :| 0 <= k < |sorted| && sorted[k] == x;
    if k == 0 {
      CompareZero(x.score, x.score);
    } else {
      assert Compare(ScoreOf(sorted[0]), ScoreOf(sorted[k])) <= 0;
    }
  }

  // -------------------------------------------------------- the order of the list

  ghost predicate OneLeast(sha: Buffer -> Buffer, entropy: Buffer, quorums: seq<Quorum>) {
    forall p, q :: Least(sha, entropy, quorums, p) && Least(sha, entropy, quorums, q) ==> p == q
  }

  ghost predicate OrderDoesNotMatter(sha: Buffer -> Buffer, entropy: Buffer, quorums: seq<Quorum>) {
    forall other :: multiset(other) == multiset(quorums) ==>
      Choice(sha, entropy, other) == Choice(sha, entropy, quorums)
  }

  lemma SameLeast(sha: Buffer -> Buffer, entropy: Buffer, a: seq<Quorum>, b: seq<Quorum>, q: Quorum)
    requires multiset(a) == multiset(b) && Least(sha, entropy, a, q)
    ensures Least(sha, entropy, b, q)
  {
    SameMembers(a, b);
  }

  lemma {:induction false} InsertHead(s: seq<Scored>, x: Scored)
    requires s != [] && Compare(s[0].score, x.score) <= 0
    ensures InsertSorted(ScoreOf, s, x)[..1] == [s[0]]
  {
    if Compare(s[|s| - 1].score, x.score) > 0 {
      InsertHead(s[..|s| - 1], x);
    }
  }

  lemma {:induction false} SortHead(s: seq<Scored>)
    requires s != [] && forall i :: 0 <= i < |s| ==> Compare(s[0].score, s[i].score) <= 0
    ensures SortBy(ScoreOf, s)[..1] == [s[0]]
  {
    var front, last := s[..|s| - 1], s[|s| - 1];
    if front == [] {
      assert SortBy(ScoreOf, front) == [];
    } else {
      SortHead(front);
      InsertHead(SortBy(ScoreOf, front), last);
    }
  }

  /** A quorum of least score is chosen when it stands first. */
  lemma LeastFirst(sha: Buffer -> Buffer, entropy: Buffer, quorums: seq<Quorum>)
    requires quorums != [] && Least(sha, entropy, quorums, quorums[0])
    ensures Choice(sha, entropy, quorums) == Found(Some(quorums[0]))
  {
    var scores := CalculateQuorumHashScores(sha, entropy, quorums);
    LeastIff(sha, entropy, quorums, quorums[0]);
    forall i | 0 <= i < |scores| ensures Compare(scores[0].score, scores[i].score) <= 0 {
      assert quorums[i] in quorums;
    }
    SortHead(scores);
    assert SortBy(ScoreOf, scores)[0] == SortBy(ScoreOf, scores)[..1][0];
  }

  lemma BroughtToFront(sha: Buffer -> Buffer, entropy: Buffer, quorums: seq<Quorum>, q: Quorum)
      returns (other: seq<Quorum>)
    requires Least(sha, entropy, quorums, q)
    ensures multiset(other) == multiset(quorums)
    ensures Choice(sha, entropy, other) == Found(Some(q))
  {
    var i :| 0 <= i < |quorums| && quorums[i] == q;
    other := [q] + quorums[..i] + quorums[i + 1..];
    assert quorums == quorums[..i] + [q] + quorums[i + 1..];
    SameLeast(sha, entropy, quorums, other, q);
    LeastFirst(sha, entropy, other);
  }

  /** Every order of the list yields the same quorum exactly when one quorum
      alone has the least score. */
  lemma OrderDoesNotMatterIff(sha: Buffer -> Buffer, entropy: Buffer, quorums: seq<Quorum>)
    ensures OrderDoesNotMatter(sha, entropy, quorums) <==> OneLeast(sha, entropy, quorums)
  {
    if OneLeast(sha, entropy, quorums) {
      forall other | multiset(other) == multiset(quorums)
        ensures Choice(sha, entropy, other) == Choice(sha, entropy, quorums)
      {
        SameMembers(other, quorums);
        if quorums == [] {
          assert other == [];
        } else {
          ChoiceIsLeast(sha, entropy, quorums);
          ChoiceIsLeast(sha, entropy, other);
          SameLeast(sha, entropy, other, quorums, Choice(sha, entropy, other).quorum.value);
        }
      }
    }
    if OrderDoesNotMatter(sha, entropy, quorums) {
      forall p, q | Least(sha, entropy, quorums, p) && Least(sha, entropy, quorums, q) ensures p == q {
        var first := BroughtToFront(sha, entropy, quorums, p);
        var second := BroughtToFront(sha, entropy, quorums, q);
        assert Choice(sha, entropy, first) == Choice(sha, entropy, second);
      }
    }
  }

  lemma SameScore(a: Buffer, b: Buffer)
    requires Compare(a, b) <= 0 && Compare(b, a) <= 0
    ensures a == b
  {
    CompareAntisymmetric(a, b);
    CompareZero(a, b);
  }

  lemma DistinctScoresOneLeast(sha: Buffer -> Buffer, entropy: Buffer, quorums: seq<Quorum>)
    requires DistinctBy(ScoreOf, CalculateQuorumHashScores(sha, entropy, quorums))
    ensures OneLeast(sha, entropy, quorums)
  {
    var scores := CalculateQuorumHashScores(sha, entropy, quorums);
    forall p, q | Least(sha, entropy, quorums, p) && Least(sha, entropy, quorums, q) ensures p == q {
      LeastIff(sha, entropy, quorums, p);
      LeastIff(sha, entropy, quorums, q);
      var i :| 0 <= i < |quorums| && quorums[i] == p;
      var j :| 0 <= j < |quorums| && quorums[j] == q;
      SameScore(scores[i].score, scores[j].score);
      assert ScoreOf(scores[i]) == ScoreOf(scores[j]);
    }
  }

  /** Distinct scores are enough, as for any list of distinct quorum hashes
      under a hash function without collisions. */
  lemma DistinctScoresAreEnough(sha: Buffer -> Buffer, entropy: Buffer, quorums: seq<Quorum>, other: seq<Quorum>)
    requires DistinctBy(ScoreOf, CalculateQuorumHashScores(sha, entropy, quorums))
    requires multiset(other) == multiset(quorums)
    ensures Choice(sha, entropy, other) == Choice(sha, entropy, quorums)
  {
    DistinctScoresOneLeast(sha, entropy, quorums);
    OrderDoesNotMatterIff(sha, entropy, quorums);
  }

  /** Two quorums with the same score: each is chosen when it stands first. */
  lemma TieDependsOnOrder(entropy: Buffer, p: Quorum, q: Quorum)
    ensures var sha := (b: Buffer) => [];
      && Choice(sha, entropy, [p, q]) == Found(Some(p))
      && Choice(sha, entropy, [q, p]) == Found(Some(q))
  {
    var sha := (b: Buffer) => [];
    LeastFirst(sha, entropy, [p, q]);
    LeastFirst(sha, entropy, [q, p]);
  }
}
