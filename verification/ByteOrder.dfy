/** The order of `Buffer.compare` without recursion: at the first difference. */
module ByteOrder {
  import opened Buffers

  /** The first `n` bytes are the same, and there `a` ends or has the lower byte. */
  ghost predicate PrecedesAt(a: Buffer, b: Buffer, n: nat) {
    n <= |a| && n < |b| && a[..n] == b[..n] && (n == |a| || a[n] < b[n])
  }

  /** The lexicographic order of unsigned bytes. */
  ghost predicate Precedes(a: Buffer, b: Buffer) {
    exists n: nat :: PrecedesAt(a, b, n)
  }

  lemma {:induction false} LessIff(a: Buffer, b: Buffer)
    ensures Less(a, b) <==> Precedes(a, b)
  {
    if a == [] {
      if b != [] { assert PrecedesAt(a, b, 0); }
    } else if b != [] {
      if a[0] < b[0] { assert PrecedesAt(a, b, 0); }
      LessIff(a[1..], b[1..]);
      if n: nat :| PrecedesAt(a, b, n) {
        if n > 0 {
          assert a[0] == a[..n][0] == b[..n][0] == b[0];
          assert a[1..][..n - 1] == a[..n][1..] && b[1..][..n - 1] == b[..n][1..];
          assert PrecedesAt(a[1..], b[1..], n - 1);
        }
      }
      if n: nat :| a[0] == b[0] && PrecedesAt(a[1..], b[1..], n) {
        assert a[..n + 1] == [a[0]] + a[1..][..n] && b[..n + 1] == [b[0]] + b[1..][..n];
        assert PrecedesAt(a, b, n + 1);
      }
    }
  }
}
