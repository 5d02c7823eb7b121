/** Byte buffers, the order of `Buffer.compare`, and the sorts the drive code
    runs with that order. */
module Buffers {

  type Byte = b: int | 0 <= b < 256

  type Buffer = seq<Byte>

  /** `Buffer.compare`: lexicographic, a proper prefix comes first. */
  function Compare(a: Buffer, b: Buffer): int
  {
    if a == [] then (if b == [] then 0 else -1)
    else if b == [] then 1
    else if a[0] < b[0] then -1
    else if a[0] > b[0] then 1
    else Compare(a[1..], b[1..])
  }

  predicate Less(a: Buffer, b: Buffer) {
    Compare(a, b) < 0
  }

  lemma {:induction false} CompareZero(a: Buffer, b: Buffer)
    ensures Compare(a, b) == 0 <==> a == b
  {
    if a != [] && b != [] && a[0] == b[0] {
      CompareZero(a[1..], b[1..]);
      assert a == [a[0]] + a[1..] && b == [b[0]] + b[1..];
    }
  }

  lemma {:induction false} CompareAntisymmetric(a: Buffer, b: Buffer)
    ensures Compare(a, b) == -Compare(b, a)
  {
    if a != [] && b != [] && a[0] == b[0] {
      CompareAntisymmetric(a[1..], b[1..]);
    }
  }

  lemma {:induction false} LessTransitive(a: Buffer, b: Buffer, c: Buffer)
    requires Compare(a, b) <= 0 && Compare(b, c) <= 0
    ensures Compare(a, c) <= 0
    ensures Less(a, b) || Less(b, c) ==> Less(a, c)
  {
    if a != [] && b != [] && c != [] && a[0] == b[0] == c[0] {
      LessTransitive(a[1..], b[1..], c[1..]);
    }
  }

  /** `keys` holds no key twice and is in ascending order. */
  ghost predicate StrictlyAscending(keys: seq<Buffer>) {
    forall i, j :: 0 <= i < j < |keys| ==> Less(keys[i], keys[j])
  }

  /** Two strictly ascending sequences of the same keys are the same sequence:
      the order in which a Map was filled cannot show in its sorted keys. */
  lemma {:induction false} AscendingIsCanonical(a: seq<Buffer>, b: seq<Buffer>)
    requires StrictlyAscending(a) && StrictlyAscending(b)
    requires forall k :: k in a <==> k in b
    ensures a == b
  {
    assert a != [] ==> a[0] in b;
    assert b != [] ==> b[0] in a;
    if a != [] {
      FirstIsLeast(a, b[0]);
      FirstIsLeast(b, a[0]);
      CompareAntisymmetric(a[0], b[0]);
      CompareZero(a[0], b[0]);
      forall k ensures k in a[1..] <==> k in b[1..] {
        TailMembers(a, k);
        TailMembers(b, k);
      }
      AscendingIsCanonical(a[1..], b[1..]);
      assert a == [a[0]] + a[1..] && b == [b[0]] + b[1..];
    }
  }

  lemma FirstIsLeast(a: seq<Buffer>, k: Buffer)
    requires StrictlyAscending(a) && k in a
    ensures Compare(a[0], k) <= 0
  {
    CompareZero(k, k);
    var i :| 0 <= i < |a| && a[i] == k;
  }

  lemma TailMembers(a: seq<Buffer>, k: Buffer)
    requires StrictlyAscending(a) && a != []
    ensures k in a[1..] <==> k in a && k != a[0]
  {
    CompareZero(a[0], a[0]);
    if k in a && k != a[0] {
      var i :| 0 <= i < |a| && a[i] == k;
      assert a[1..][i - 1] == k;
    }
    if k in a[1..] {
      var i :| 0 <= i < |a[1..]| && a[1..][i] == k;
      assert a[i + 1] == k && Less(a[0], a[i + 1]);
    }
  }

  ghost predicate Distinct(keys: seq<Buffer>) {
    forall i, j :: 0 <= i < j < |keys| ==> keys[i] != keys[j]
  }

  lemma AscendingIsDistinct(a: seq<Buffer>)
    requires StrictlyAscending(a)
    ensures Distinct(a)
  {
    forall i, j | 0 <= i < j < |a| ensures a[i] != a[j] {
      CompareZero(a[i], a[j]);
    }
  }

  lemma JoinDistinct(a: seq<Buffer>, b: seq<Buffer>)
    requires StrictlyAscending(a) && StrictlyAscending(b)
    requires forall k :: k in a ==> k !in b
    ensures Distinct(a + b)
  {
    AscendingIsDistinct(a);
    AscendingIsDistinct(b);
    forall i, j | 0 <= i < |a| <= j < |a| + |b| ensures (a + b)[i] != (a + b)[j] {
      assert a[i] in a && b[j - |a|] in b;
    }
  }

  lemma JoinAscendingIff(a: seq<Buffer>, b: seq<Buffer>)
    requires StrictlyAscending(a) && StrictlyAscending(b)
    ensures StrictlyAscending(a + b) <==> forall p, d :: p in a && d in b ==> Less(p, d)
  {
    if StrictlyAscending(a + b) {
      forall p, d | p in a && d in b ensures Less(p, d) {
        var i :| 0 <= i < |a| && a[i] == p;
        var j :| 0 <= j < |b| && b[j] == d;
        assert Less((a + b)[i], (a + b)[|a| + j]);
      }
    }
  }

  // ---------------------------------------------------------------- sorting

  function Keys<T>(key: T -> Buffer, s: seq<T>): (ks: seq<Buffer>)
    ensures |ks| == |s|
    ensures forall i :: 0 <= i < |s| ==> ks[i] == key(s[i])
  {
    seq(|s|, i requires 0 <= i < |s| => key(s[i]))
  }

  ghost predicate Ascending<T>(key: T -> Buffer, s: seq<T>) {
    forall i, j :: 0 <= i < j < |s| ==> Compare(key(s[i]), key(s[j])) <= 0
  }

  /** Puts `x` behind every element that is not greater (the sort is stable). */
  function InsertSorted<T>(key: T -> Buffer, s: seq<T>, x: T): (r: seq<T>)
  {
    if s == [] || Compare(key(s[|s| - 1]), key(x)) <= 0 then s + [x]
    else InsertSorted(key, s[..|s| - 1], x) + [s[|s| - 1]]
  }

  /** `Array.prototype.sort` with a comparison of one buffer per element. */
  function SortBy<T>(key: T -> Buffer, s: seq<T>): (r: seq<T>)
  {
    if s == [] then [] else InsertSorted(key, SortBy(key, s[..|s| - 1]), s[|s| - 1])
  }

  lemma AppendAscending<T>(key: T -> Buffer, s: seq<T>, x: T)
    requires Ascending(key, s)
    requires forall y :: y in s ==> Compare(key(y), key(x)) <= 0
    ensures Ascending(key, s + [x])
  {
  }

  lemma LastIsGreatest<T>(key: T -> Buffer, s: seq<T>, y: T)
    requires Ascending(key, s) && y in s
    ensures Compare(key(y), key(s[|s| - 1])) <= 0
  {
    CompareZero(key(y), key(y));
    var i :| 0 <= i < |s| && s[i] == y;
  }

  lemma LastApart<T>(s: seq<T>)
    requires s != []
    ensures multiset(s) == multiset(s[..|s| - 1]) + multiset{s[|s| - 1]}
  {
    assert s == s[..|s| - 1] + [s[|s| - 1]];
  }

  lemma {:induction false} InsertSortedKeeps<T>(key: T -> Buffer, s: seq<T>, x: T)
    requires Ascending(key, s)
    ensures multiset(InsertSorted(key, s, x)) == multiset(s) + multiset{x}
    ensures Ascending(key, InsertSorted(key, s, x))
  {
    if s == [] {
    } else {
      var front, last := s[..|s| - 1], s[|s| - 1];
      LastApart(s);
      if Compare(key(last), key(x)) <= 0 {
        forall y | y in s ensures Compare(key(y), key(x)) <= 0 {
          LastIsGreatest(key, s, y);
          LessTransitive(key(y), key(last), key(x));
        }
        AppendAscending(key, s, x);
      } else {
        InsertSortedKeeps(key, front, x);
        InsertBelow(key, s, x);
      }
    }
  }

  lemma InsertBelow<T>(key: T -> Buffer, s: seq<T>, x: T)
    requires Ascending(key, s) && s != []
    requires Compare(key(s[|s| - 1]), key(x)) > 0
    requires var q := InsertSorted(key, s[..|s| - 1], x);
      Ascending(key, q) && multiset(q) == multiset(s[..|s| - 1]) + multiset{x}
    ensures Ascending(key, InsertSorted(key, s, x))
  {
    var front, last := s[..|s| - 1], s[|s| - 1];
    var q := InsertSorted(key, front, x);
    CompareAntisymmetric(key(last), key(x));
    forall y | y in q ensures Compare(key(y), key(last)) <= 0 {
      assert y in multiset(q);
      if y != x {
        assert y in multiset(front);
        LastIsGreatest(key, s, y);
      }
    }
    AppendAscending(key, q, last);
  }

  lemma {:induction false} SortByIsSorted<T>(key: T -> Buffer, s: seq<T>)
    ensures multiset(SortBy(key, s)) == multiset(s)
    ensures Ascending(key, SortBy(key, s))
  {
    if s != [] {
      var front := s[..|s| - 1];
      SortByIsSorted(key, front);
      InsertSortedKeeps(key, SortBy(key, front), s[|s| - 1]);
      LastApart(s);
    }
  }

  lemma SameMembers<T>(s: seq<T>, t: seq<T>)
    requires multiset(s) == multiset(t)
    ensures |s| == |t|
    ensures forall x :: x in s <==> x in t
  {
    assert |multiset(s)| == |s| && |multiset(t)| == |t|;
    forall x ensures x in s <==> x in t {
      assert x in multiset(s) <==> x in s;
      assert x in multiset(t) <==> x in t;
    }
  }

  // --------------------------------------------------- sorting distinct keys

  ghost predicate DistinctBy<T>(key: T -> Buffer, s: seq<T>) {
    forall i, j :: 0 <= i < j < |s| ==> key(s[i]) != key(s[j])
  }

  lemma RepeatedCount<T>(s: seq<T>, i: nat, j: nat)
    requires i < j < |s| && s[i] == s[j]
    ensures multiset(s)[s[i]] >= 2
  {
    var x := s[i];
    assert s == s[..j] + s[j..];
    assert s[..j][i] == x && s[j..][0] == x;
    assert x in s[..j] && x in s[j..];
    assert multiset(s) == multiset(s[..j]) + multiset(s[j..]);
  }

  lemma {:induction false} DistinctCount<T>(key: T -> Buffer, s: seq<T>, x: T)
    requires DistinctBy(key, s)
    ensures multiset(s)[x] <= 1
  {
    if s != [] {
      var front, last := s[..|s| - 1], s[|s| - 1];
      assert s == front + [last];
      DistinctCount(key, front, x);
      assert forall i :: 0 <= i < |front| ==> s[i] == front[i];
    }
  }

  lemma DistinctReordered<T>(key: T -> Buffer, s: seq<T>, t: seq<T>)
    requires DistinctBy(key, s) && multiset(s) == multiset(t)
    ensures DistinctBy(key, t)
  {
    SameMembers(s, t);
    forall i, j | 0 <= i < j < |t| ensures key(t[i]) != key(t[j]) {
      if t[i] == t[j] {
        RepeatedCount(t, i, j);
        DistinctCount(key, s, t[i]);
      } else {
        assert t[i] in t && t[j] in t;
        var a :| 0 <= a < |s| && s[a] == t[i];
        var b :| 0 <= b < |s| && s[b] == t[j];
        assert a < b || b < a;
      }
    }
  }

  /** Sorting elements with distinct keys puts the keys in strictly ascending order. */
  lemma SortDistinct<T>(key: T -> Buffer, s: seq<T>)
    requires DistinctBy(key, s)
    ensures StrictlyAscending(Keys(key, SortBy(key, s)))
  {
    var t := SortBy(key, s);
    SortByIsSorted(key, s);
    DistinctReordered(key, s, t);
    forall i, j | 0 <= i < j < |t| ensures Less(key(t[i]), key(t[j])) {
      CompareZero(key(t[i]), key(t[j]));
    }
  }
}
