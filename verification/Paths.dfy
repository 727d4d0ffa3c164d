/** Parsed paths and their order (lib/datasync/path.c): lexicographic by key, a path before its
    extensions. `p <= q` is Dafny's prefix relation. */
module Paths {
  import opened Keys

  type Path = seq<Key>

  function PathCmp(a: Path, b: Path): int {
    if a == [] || b == [] then |a| - |b|
    else
      var c := KeyOrd(a[0], b[0]);
      if c != 0 then c else PathCmp(a[1..], b[1..])
  }

  /** `wc_datasync_path_cmp`. */
  method ComparePaths(a: Path, b: Path) returns (cmp: int)
    ensures cmp == PathCmp(a, b)
  {
    var i := 0;
    while i < |a| && i < |b|
      invariant i <= |a| && i <= |b|
      invariant PathCmp(a, b) == PathCmp(a[i..], b[i..])
    {
      cmp := KeyOrd(a[i], b[i]);
      if cmp != 0 {
        return;
      }
      i := i + 1;
    }
    cmp := |a| - |b|;
  }

  /** `wc_datasync_path_starts_with`. */
  method StartsWith(path: Path, prefix: Path) returns (yes: bool)
    ensures yes <==> prefix <= path
  {
    if |path| < |prefix| {
      return false;
    }
    var u := 0;
    while u < |prefix|
      invariant u <= |prefix| && prefix[..u] == path[..u]
    {
      if path[u] != prefix[u] {
        return false;
      }
      u := u + 1;
    }
    return true;
  }

  // ----- total order

  lemma {:induction false} PathCmpAntisymmetric(a: Path, b: Path)
    ensures PathCmp(a, b) == 0 <==> a == b
    ensures PathCmp(a, b) < 0 <==> PathCmp(b, a) > 0
    ensures PathCmp(a, b) > 0 <==> PathCmp(b, a) < 0
  {
    if a == [] || b == [] {
      assert a == b <==> |a| == |b|;
    } else {
      KeyOrdAntisymmetric(a[0], b[0]);
      PathCmpAntisymmetric(a[1..], b[1..]);
      assert a == [a[0]] + a[1..] && b == [b[0]] + b[1..];
    }
  }

  /** `a` comes before `b` at part `i`: they agree up to there, and `a` ends or has the smaller key. */
  predicate BelowAtPart(a: Path, b: Path, i: nat) {
    && i <= |a| && i < |b| && a[..i] == b[..i]
    && (i == |a| || KeyOrd(a[i], b[i]) < 0)
  }

  /** The comparison is decided at the first part that differs. */
  lemma {:induction false} PathCmpFirst(a: Path, b: Path)
    ensures PathCmp(a, b) < 0 <==> exists i: nat :: BelowAtPart(a, b, i)
  {
    hide KeyOrd;
    if a == [] || b == [] {
      assert a == [] && b != [] ==> BelowAtPart(a, b, 0);
    } else {
      KeyOrdAntisymmetric(a[0], b[0]);
      if a[0] != b[0] {
        assert KeyOrd(a[0], b[0]) < 0 ==> BelowAtPart(a, b, 0);
        assert forall i: nat :: BelowAtPart(a, b, i) && i > 0 ==> a[..i][0] == b[..i][0];
      } else {
        PathCmpFirst(a[1..], b[1..]);
        if i: nat :| BelowAtPart(a[1..], b[1..], i) {
          assert a[..i + 1] == [a[0]] + a[1..][..i] && b[..i + 1] == [b[0]] + b[1..][..i];
          assert BelowAtPart(a, b, i + 1);
        }
        if i: nat :| BelowAtPart(a, b, i) {
          assert i > 0;
          assert a[1..][..i - 1] == a[..i][1..] && b[1..][..i - 1] == b[..i][1..];
          assert BelowAtPart(a[1..], b[1..], i - 1);
        }
      }
    }
  }

  lemma {:induction false} PathCmpTransitive(a: Path, b: Path, c: Path)
    requires PathCmp(a, b) <= 0 && PathCmp(b, c) <= 0
    ensures PathCmp(a, c) <= 0
  {
    if a != [] && b != [] && c != [] {
      KeyOrdAntisymmetric(a[0], b[0]);
      KeyOrdAntisymmetric(b[0], c[0]);
      KeyOrdAntisymmetric(a[0], c[0]);
      KeyOrdTransitive(a[0], b[0], c[0]);
      if a[0] == b[0] == c[0] {
        PathCmpTransitive(a[1..], b[1..], c[1..]);
      }
    }
  }

  predicate Before(a: Path, b: Path) {
    PathCmp(a, b) < 0
  }

  lemma BeforeIsTotal(a: Path, b: Path)
    ensures a == b || Before(a, b) || Before(b, a)
    ensures !Before(a, a) && !(Before(a, b) && Before(b, a))
  {
    PathCmpAntisymmetric(a, b);
    PathCmpAntisymmetric(a, a);
  }

  lemma BeforeTransitive(a: Path, b: Path, c: Path)
    requires Before(a, b) && Before(b, c)
    ensures Before(a, c)
  {
    PathCmpTransitive(a, b, c);
    PathCmpAntisymmetric(a, c);
    PathCmpAntisymmetric(b, c);
    PathCmpAntisymmetric(a, b);
  }

  // ----- the extensions of a path form one block of the order

  lemma {:induction false} PrefixFirst(p: Path, q: Path)
    requires p <= q
    ensures PathCmp(p, q) <= 0
  {
    if p != [] {
      KeyOrdAntisymmetric(p[0], q[0]);
      PrefixFirst(p[1..], q[1..]);
    }
  }

  lemma {:induction false} ExtensionsContiguous(p: Path, r: Path, q: Path)
    requires p <= q && PathCmp(p, r) <= 0 && PathCmp(r, q) <= 0
    ensures p <= r
  {
    if p != [] && r != [] {
      KeyOrdAntisymmetric(p[0], r[0]);
      KeyOrdAntisymmetric(r[0], q[0]);
      assert p[0] == r[0];
      ExtensionsContiguous(p[1..], r[1..], q[1..]);
      assert r == [r[0]] + r[1..] && p == [p[0]] + p[1..];
    }
  }

  /** `p` is a proper prefix of `q`. */
  predicate Strict(p: Path, q: Path) {
    p <= q && p != q
  }
}
