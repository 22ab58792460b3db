/** The order of names. */
module Names {
  import opened Sorting

  /** Character by character; a proper prefix comes first. */
  predicate LexLess(a: string, b: string) {
    if b == [] then false
    else if a == [] then true
    else a[0] < b[0] || (a[0] == b[0] && LexLess(a[1..], b[1..]))
  }

  const NameLess: (string, string) -> bool := (a: string, b: string) => LexLess(a, b)

  /** After a common prefix of `k` characters, `a` ends or continues with a smaller character. */
  ghost predicate DiffersAt(a: string, b: string, k: int) {
    0 <= k <= |a| && k < |b| && a[..k] == b[..k] && (k == |a| || a[k] < b[k])
  }

  /** Names are ordered by the first character in which they differ, and a proper prefix comes first. */
  lemma {:induction false} LexFirstDifference(a: string, b: string)
    ensures LexLess(a, b) <==> exists k :: DiffersAt(a, b, k)
  {
    if a != [] && b != [] && a[0] == b[0] {
      LexFirstDifference(a[1..], b[1..]);
      if k :| DiffersAt(a[1..], b[1..], k) {
        assert a[..k + 1] == [a[0]] + a[1..][..k] && b[..k + 1] == [b[0]] + b[1..][..k];
        assert DiffersAt(a, b, k + 1);
      }
      if k :| DiffersAt(a, b, k) {
        assert a[1..][..k - 1] == a[..k][1..] && b[1..][..k - 1] == b[..k][1..];
        assert DiffersAt(a[1..], b[1..], k - 1);
      }
    } else if LexLess(a, b) {
      assert DiffersAt(a, b, 0);
    } else {
      assert forall k :: k > 0 && DiffersAt(a, b, k) ==> a[..k][0] == a[0] && b[..k][0] == b[0];
    }
  }

  lemma {:induction false} LexIrreflexive(a: string)
    ensures !LexLess(a, a)
  {
    if a != [] {
      LexIrreflexive(a[1..]);
    }
  }

  lemma {:induction false} LexTransitive(a: string, b: string, c: string)
    ensures LexLess(a, b) && LexLess(b, c) ==> LexLess(a, c)
  {
    if a != [] && b != [] && c != [] {
      LexTransitive(a[1..], b[1..], c[1..]);
    }
  }

  lemma {:induction false} LexTotal(a: string, b: string)
    ensures a == b || LexLess(a, b) || LexLess(b, a)
  {
    if a != [] && b != [] {
      LexTotal(a[1..], b[1..]);
      assert a == [a[0]] + a[1..] && b == [b[0]] + b[1..];
    }
  }

  lemma {:induction false} NameStrictTotal()
    ensures StrictTotal(NameLess)
  {
    forall a: string, b: string, c: string
      ensures !NameLess(a, a) && (NameLess(a, b) && NameLess(b, c) ==> NameLess(a, c))
      ensures a == b || NameLess(a, b) || NameLess(b, a)
    {
      LexIrreflexive(a);
      LexTransitive(a, b, c);
      LexTotal(a, b);
    }
  }
}
