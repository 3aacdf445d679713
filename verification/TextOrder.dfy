/** The lexicographic order on strings. */
module TextOrder {

  predicate LexLe(a: string, b: string) {
    a == [] || (b != [] && (a[0] < b[0] || (a[0] == b[0] && LexLe(a[1..], b[1..]))))
  }

  /** The strings differ first at `i`, where `a` has the smaller character or has ended. */
  predicate SmallerAt(a: string, b: string, i: nat) {
    i <= |a| && i < |b| && a[..i] == b[..i] && (i == |a| || a[i] < b[i])
  }

  /** Equal strings and those that are smaller where they first differ come first. */
  lemma {:induction false} LexMeans(a: string, b: string)
    ensures LexLe(a, b) <==> a == b || exists i :: SmallerAt(a, b, i)
  {
    if a == [] {
      assert b == [] || SmallerAt(a, b, 0);
    } else if b != [] && a[0] == b[0] {
      var s, t := a[1..], b[1..];
      LexMeans(s, t);
      assert a == b <==> s == t by {
        assert a == [a[0]] + s && b == [b[0]] + t;
      }
      if i: nat :| SmallerAt(s, t, i) {
        SmallerBehind(a, b, i);
      }
      if i: nat :| SmallerAt(a, b, i) {
        StartsAlike(a, b, i);
        assert i > 0;
        SmallerBehind(a, b, i - 1);
      }
    } else if b != [] {
      assert a[0] < b[0] ==> SmallerAt(a, b, 0);
      if i: nat :| SmallerAt(a, b, i) {
        StartsAlike(a, b, i);
      }
    }
  }

  /** Where strings that begin alike differ first is where what follows differs first. */
  lemma SmallerBehind(a: string, b: string, i: nat)
    requires a != [] && b != [] && a[0] == b[0]
    ensures SmallerAt(a, b, i + 1) <==> SmallerAt(a[1..], b[1..], i)
  {
    if i < |a| && i + 1 < |b| {
      assert a[..i + 1] == [a[0]] + a[1..][..i] && b[..i + 1] == [b[0]] + b[1..][..i];
      assert a[..i + 1][1..] == a[1..][..i] && b[..i + 1][1..] == b[1..][..i];
    }
  }

  lemma StartsAlike(a: string, b: string, i: nat)
    requires SmallerAt(a, b, i) && a != []
    ensures b != [] && (i > 0 ==> a[0] == b[0])
  {
    if i > 0 {
      assert a[..i][0] == b[..i][0];
    }
  }

  lemma {:induction false} LexTotal(a: string, b: string)
    ensures LexLe(a, b) || LexLe(b, a)
  {
    if a != [] && b != [] && a[0] == b[0] {
      LexTotal(a[1..], b[1..]);
    }
  }

  lemma {:induction false} LexTransitive(a: string, b: string, c: string)
    requires LexLe(a, b) && LexLe(b, c)
    ensures LexLe(a, c)
  {
    if a != [] && a[0] == b[0] && b[0] == c[0] {
      LexTransitive(a[1..], b[1..], c[1..]);
    }
  }

  lemma {:induction false} LexAntisymmetric(a: string, b: string)
    requires LexLe(a, b) && LexLe(b, a)
    ensures a == b
  {
    if a != [] {
      LexAntisymmetric(a[1..], b[1..]);
      assert a == [a[0]] + a[1..] && b == [b[0]] + b[1..];
    }
  }
}
