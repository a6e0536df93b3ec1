/** `faces_from`: the faces of a tube lofted through k cross-sections of n
    points each. Vertices are numbered section by section, so point j of
    section i is vertex i*n + j. Each pair of consecutive sections is joined
    by a ring of quads, the last of which wraps from point n-1 back to point
    0; a closed tube also gets the first and last section as end caps. */
module Topology {
  import opened Wrappers

  /** A face: the vertex indices of a polygon, in order. */
  type Face = seq<int>

  datatype FaceError =
    | SizeMismatch  // the sections differ in size: an error is printed and `None` returned
    | NoSections    // no sections at all: `nix[0]` raises `IndexError`

  /** Python's `range(lo, hi)`. */
  function Range(lo: int, hi: int): (r: seq<int>)
    ensures |r| == if lo <= hi then hi - lo else 0
    ensures forall i :: 0 <= i < |r| ==> r[i] == lo + i
  {
    seq(if lo <= hi then hi - lo else 0, i => lo + i)
  }

  /** The quad joining point j to point j+1 between sections i0 and i0+1. */
  function StripQuad(n: int, i0: int, j: int): Face {
    [i0 * n + j, (i0 + 1) * n + j, (i0 + 1) * n + j + 1, i0 * n + j + 1]
  }

  /** The quad closing the ring between sections i0 and i0+1: from point
      n-1 back to point 0. */
  function WrapQuad(n: int, i0: int): Face {
    [i0 * n + n - 1, (i0 + 1) * n + n - 1, (i0 + 1) * n, i0 * n]
  }

  /** The quads between sections i0 and i0+1, in the order they are made. */
  function RingQuads(n: int, i0: int): (r: seq<Face>)
    ensures |r| == PerRing(n)
  {
    seq(if n > 0 then n - 1 else 0, j => StripQuad(n, i0, j)) + [WrapQuad(n, i0)]
  }

  /** Quads per ring: n, except that a ring of empty sections still gets its
      wrap-around quad. */
  function PerRing(n: int): nat {
    if n > 0 then n else 1
  }

  /** The quads of the first m rings. */
  function Quads(n: int, m: nat): seq<Face> {
    if m == 0 then [] else Quads(n, m - 1) + RingQuads(n, m - 1)
  }

  /** The two end caps: the first section and the last of k. */
  function Caps(k: int, n: int): seq<Face> {
    [Range(0, n), Range((k - 1) * n, (k - 1) * n + n)]
  }

  /** The face list `faces_from` returns for k sections of n points. */
  function FaceList(k: nat, n: int, closed: bool): seq<Face>
    requires k >= 1
  {
    Quads(n, k - 1) + (if closed then Caps(k, n) else [])
  }

  /** All sections have the same number of points. */
  predicate SameSize<T>(sections: seq<seq<T>>) {
    forall i, j :: 0 <= i < |sections| && 0 <= j < |sections| ==> |sections[i]| == |sections[j]|
  }

  /** `len(set(nix)) > 1` holds exactly when two sections differ in size. */
  lemma SizesCount<T>(sections: seq<seq<T>>, sizes: set<int>)
    requires sizes == set i | 0 <= i < |sections| :: |sections[i]|
    ensures |sizes| > 1 <==> !SameSize(sections)
  {
    if SameSize(sections) {
      if sections != [] {
        assert sizes == {|sections[0]|};
      } else {
        assert sizes == {};
      }
    } else {
      var i, j :| 0 <= i < |sections| && 0 <= j < |sections| && |sections[i]| != |sections[j]|;
      var a, b := |sections[i]|, |sections[j]|;
      assert a in sizes && b in sizes;
      assert b in sizes - {a};
      assert |sizes - {a}| >= 1;
    }
  }

  /** `faces_from(sections, closed)`. Fails with `SizeMismatch` exactly when
      two sections differ in size, with `NoSections` exactly when there are
      no sections, and otherwise returns `FaceList` for the k sections of n
      points given. */
  method FacesFrom<T>(sections: seq<seq<T>>, closed: bool := true) returns (r: Result<seq<Face>, FaceError>)
    ensures r == Failure(SizeMismatch) <==> !SameSize(sections)
    ensures r == Failure(NoSections) <==> sections == []
    ensures r.Success? <==> SameSize(sections) && sections != []
    ensures r.Success? ==> |sections| >= 1 && r.value == FaceList(|sections|, |sections[0]|, closed)
  {
    var nix := seq(|sections|, i requires 0 <= i < |sections| => |sections[i]|);
    var sizes := set i | 0 <= i < |nix| :: nix[i];
    assert sizes == set i | 0 <= i < |sections| :: |sections[i]| by {
      assert forall i :: 0 <= i < |nix| ==> nix[i] == |sections[i]|;
    }
    SizesCount(sections, sizes);
    if |sizes| > 1 {
      return Failure(SizeMismatch);
    }
    if |nix| == 0 {
      return Failure(NoSections);
    }
    var n := nix[0];
    var faces: seq<Face> := [];
    for i0 := 0 to |sections| - 1
      invariant faces == Quads(n, i0)
    {
      var j := 0;
      while j < n - 1
        invariant 0 <= j <= if n > 0 then n - 1 else 0
        invariant faces == Quads(n, i0) + seq(j, jj => StripQuad(n, i0, jj))
      {
        faces := faces + [[i0 * n + j, (i0 + 1) * n + j, (i0 + 1) * n + j + 1, i0 * n + j + 1]];
        j := j + 1;
      }
      faces := faces + [[i0 * n + n - 1, (i0 + 1) * n + n - 1, (i0 + 1) * n, i0 * n]];
    }
    if closed {
      faces := faces + [Range(0, n)];
      faces := faces + [Range((|sections| - 1) * n, (|sections| - 1) * n + n)];
    }
    r := Success(faces);
  }

  /** The number given to point j of section i. */
  function Vertex(n: int, i: int, j: int): int {
    i * n + j
  }

  lemma {:induction false} QuadsLength(n: int, m: nat)
    ensures |Quads(n, m)| == m * PerRing(n)
  {
    if m > 0 {
      QuadsLength(n, m - 1);
      assert (m - 1) * PerRing(n) + PerRing(n) == m * PerRing(n);
    }
  }

  /** k sections give (k-1) rings of quads, n quads to a ring (one for empty
      sections), plus the two caps when closed. */
  lemma FaceCount(k: nat, n: int, closed: bool)
    requires k >= 1
    ensures |FaceList(k, n, closed)| == (k - 1) * PerRing(n) + (if closed then 2 else 0)
    ensures n >= 1 ==> |FaceList(k, n, closed)| == (k - 1) * n + (if closed then 2 else 0)
  {
    QuadsLength(n, k - 1);
  }

  lemma {:induction false} QuadsAt(n: int, m: nat, i0: nat, j: nat)
    requires n >= 1 && i0 < m && j < n
    ensures i0 * n + j < |Quads(n, m)|
    ensures Quads(n, m)[i0 * n + j] == RingQuads(n, i0)[j]
  {
    QuadsLength(n, m);
    QuadsLength(n, m - 1);
    if i0 < m - 1 {
      QuadsAt(n, m - 1, i0, j);
    } else {
      assert i0 * n + j == |Quads(n, m - 1)| + j;
    }
  }

  /** Quad j of ring i0 joins point j and its successor (mod n) in section
      i0 to the same two points of section i0+1; for j = n-1 the successor
      is point 0, which closes the ring. */
  lemma QuadJoinsAdjacentSections(k: nat, n: int, closed: bool, i0: nat, j: nat)
    requires k >= 1 && n >= 1 && i0 < k - 1 && j < n
    ensures i0 * n + j < |FaceList(k, n, closed)|
    ensures FaceList(k, n, closed)[i0 * n + j] ==
      [Vertex(n, i0, j), Vertex(n, i0 + 1, j), Vertex(n, i0 + 1, (j + 1) % n), Vertex(n, i0, (j + 1) % n)]
  {
    QuadsAt(n, k - 1, i0, j);
    var faces := FaceList(k, n, closed);
    assert faces[i0 * n + j] == Quads(n, k - 1)[i0 * n + j];
    var ring := RingQuads(n, i0);
    if j == n - 1 {
      assert ring[j] == WrapQuad(n, i0);
      NextPoint(n, j);
    } else {
      assert ring[j] == StripQuad(n, i0, j);
      NextPoint(n, j);
    }
  }

  lemma NextPoint(n: int, j: int)
    requires 0 <= j < n
    ensures (j + 1) % n == if j == n - 1 then 0 else j + 1
  {
  }

  /** `f` is a quad whose vertices all lie in [lo, hi). */
  predicate QuadWithin(f: Face, lo: int, hi: int) {
    |f| == 4 && forall x :: x in f ==> lo <= x < hi
  }

  lemma RingInRange(n: int, i0: nat)
    requires n >= 1
    ensures forall f :: f in RingQuads(n, i0) ==> QuadWithin(f, i0 * n, i0 * n + 2 * n)
  {
    var lo := i0 * n;
    assert (i0 + 1) * n == lo + n;
    forall f | f in RingQuads(n, i0)
      ensures QuadWithin(f, lo, lo + 2 * n)
    {
      var j :| 0 <= j < |RingQuads(n, i0)| && RingQuads(n, i0)[j] == f;
      if j < n - 1 {
        assert f == [lo + j, lo + n + j, lo + n + j + 1, lo + j + 1];
      } else {
        assert f == [lo + n - 1, lo + n + n - 1, lo + n, lo];
      }
    }
  }

  lemma {:induction false} QuadsInRange(n: int, m: nat)
    requires n >= 1
    ensures forall f :: f in Quads(n, m) ==> QuadWithin(f, 0, (m + 1) * n)
  {
    if m > 0 {
      var prev, ring := Quads(n, m - 1), RingQuads(n, m - 1);
      QuadsInRange(n, m - 1);
      RingInRange(n, m - 1);
      var lo, hi := (m - 1) * n, (m + 1) * n;
      assert (m - 1 + 1) * n == m * n;
      assert lo + 2 * n == hi;
      assert 0 <= lo;
      assert m * n <= hi;
      forall f | f in Quads(n, m)
        ensures QuadWithin(f, 0, hi)
      {
        assert Quads(n, m) == prev + ring;
        if f in prev {
          assert QuadWithin(f, 0, m * n);
        } else {
          assert QuadWithin(f, lo, hi);
        }
      }
    }
  }

  /** With non-empty sections every face refers only to existing vertices:
      all indices lie in [0, k*n). Without caps every face is a quad. */
  lemma FaceIndicesInRange(k: nat, n: int, closed: bool)
    requires k >= 1 && n >= 1
    ensures forall f :: f in FaceList(k, n, closed) ==> forall x :: x in f ==> 0 <= x < k * n
    ensures !closed ==> forall f :: f in FaceList(k, n, closed) ==> |f| == 4
  {
    QuadsInRange(n, k - 1);
    assert (k - 1) * n + n == k * n;
    assert (k - 1) * n >= 0;
  }

  /** A closed tube ends with two caps: all points of the first section, in
      order, then all points of the last. An open one has no caps. */
  lemma EndCaps(k: nat, n: int)
    requires k >= 1 && n >= 1
    ensures var faces := FaceList(k, n, true);
      |faces| >= 2 &&
      faces[|faces| - 2] == seq(n, j => Vertex(n, 0, j)) &&
      faces[|faces| - 1] == seq(n, j => Vertex(n, k - 1, j))
    ensures FaceList(k, n, false) == Quads(n, k - 1)
  {
  }
}
