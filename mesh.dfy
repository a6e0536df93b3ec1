/** `ele_mesh`: the tube drawn for one element. Sections are taken at a row
    of stations along the element, centred on its middle; the vertex list
    is the sections' points, section after section, and the faces are those
    `faces_from` makes for a closed tube. Handing the lists to Blender is
    not part of this model. */
module Mesh {
  import opened Wrappers
  import opened Lattice
  import opened Topology
  import opened Sections

  /** Stations a bend is cut at, so that its curve shows. */
  const BendStations: nat := 20

  /** The positions, relative to the element's centre, at which sections
      are taken: 20 evenly spaced from -L/2 to L/2 for a bend, otherwise
      just the two ends. */
  function Stations(ele: Element): (r: seq<real>)
    ensures |r| == if ele.key == "SBEND" then BendStations else 2
    ensures r[0] == -ele.L / 2.0 && r[|r| - 1] == ele.L / 2.0
  {
    var L := ele.L;
    if ele.key == "SBEND" then
      var n := BendStations;
      seq(n, i requires 0 <= i < n => L * i as real / (n - 1) as real - L / 2.0)
    else [-L / 2.0, L / 2.0]
  }

  /** The stations are evenly spaced: neighbours are L/(count-1) apart. */
  lemma StationsEvenlySpaced(ele: Element, i: nat)
    requires i + 1 < |Stations(ele)|
    ensures Stations(ele)[i + 1] - Stations(ele)[i] == ele.L / (|Stations(ele)| - 1) as real
  {
    var L := ele.L;
    if ele.key == "SBEND" {
      var d := 19.0;
      assert Stations(ele)[i + 1] == L * (i + 1) as real / d - L / 2.0;
      assert Stations(ele)[i] == L * i as real / d - L / 2.0;
      assert L * (i + 1) as real == L * i as real + L;
      assert (L * i as real + L) / d == L * i as real / d + L / d;
    }
  }

  /** The points of all sections, section after section. */
  function Flatten<T>(ss: seq<seq<T>>): seq<T> {
    if ss == [] then [] else Flatten(ss[..|ss| - 1]) + ss[|ss| - 1]
  }

  /** All sections have `n` points. */
  predicate AllOfSize<T>(ss: seq<seq<T>>, n: nat) {
    forall i :: 0 <= i < |ss| ==> |ss[i]| == n
  }

  lemma {:induction false} FlattenLength<T>(ss: seq<seq<T>>, n: nat)
    requires AllOfSize(ss, n)
    ensures |Flatten(ss)| == |ss| * n
  {
    if ss != [] {
      FlattenLength(ss[..|ss| - 1], n);
      assert (|ss| - 1) * n + n == |ss| * n;
    }
  }

  /** Point j of section i is vertex i*n + j, the numbering `faces_from`
      assumes. */
  lemma {:induction false} FlattenAt<T>(ss: seq<seq<T>>, n: nat, i: nat, j: nat)
    requires AllOfSize(ss, n) && i < |ss| && j < n
    ensures i * n + j < |Flatten(ss)|
    ensures Flatten(ss)[i * n + j] == ss[i][j]
  {
    var init, last := ss[..|ss| - 1], ss[|ss| - 1];
    assert Flatten(ss) == Flatten(init) + last;
    assert AllOfSize(init, n);
    FlattenLength(init, n);
    if i < |init| {
      FlattenAt(init, n, i, j);
      assert ss[i] == init[i];
    } else {
      assert i == |init|;
      assert i * n + j == |Flatten(init)| + j;
    }
  }

  /** The sections `ele_mesh` takes, one per station. */
  function MeshSections(g: Trig, ele: Element): (r: seq<Section>)
    requires HasBendData(ele)
    ensures |r| == |Stations(ele)|
    ensures AllOfSize(r, SectionSize(ele.key))
  {
    var st := Stations(ele);
    seq(|st|, i requires 0 <= i < |st| => SectionOf(g, st[i], ele))
  }

  lemma SameSizeSections(ss: seq<Section>, n: nat)
    requires AllOfSize(ss, n) && |ss| >= 1
    ensures SameSize(ss) && |ss[0]| == n
  {
  }

  /** The `verts` loop of `ele_mesh`: every point of every section, in order. */
  method FlattenSections(sections: seq<Section>) returns (verts: seq<Vec3>)
    ensures verts == Flatten(sections)
  {
    verts := [];
    for i := 0 to |sections|
      invariant verts == Flatten(sections[..i])
    {
      var s := sections[i];
      for j := 0 to |s|
        invariant verts == Flatten(sections[..i]) + s[..j]
      {
        verts := verts + [s[j]];
      }
      assert sections[..i + 1][..i] == sections[..i];
    }
    assert sections[..|sections|] == sections;
  }

  /** The `sections` list of `ele_mesh`: `ele_section` at each station. */
  method TakeSections(g: Trig, ele: Element) returns (sections: seq<Section>)
    requires HasBendData(ele)
    ensures sections == MeshSections(g, ele)
  {
    var slist := Stations(ele);
    sections := [];
    for i := 0 to |slist|
      invariant sections == MeshSections(g, ele)[..i]
    {
      var sec := EleSection(g, slist[i], ele);
      sections := sections + [sec];
    }
  }

  /** `ele_mesh(ele)`, up to creating the Blender mesh: the vertices are the
      sections' points in order, as many as stations times section size, and
      the faces are a closed tube over them, every index naming one of the
      vertices. */
  method EleMesh(g: Trig, ele: Element) returns (verts: seq<Vec3>, faces: Result<seq<Face>, FaceError>)
    requires HasBendData(ele)
    ensures verts == Flatten(MeshSections(g, ele))
    ensures |verts| == |Stations(ele)| * SectionSize(ele.key)
    ensures faces == Success(FaceList(|Stations(ele)|, SectionSize(ele.key), true))
    ensures forall f :: f in faces.value ==> forall x :: x in f ==> 0 <= x < |verts|
  {
    var sections := TakeSections(g, ele);
    var n := SectionSize(ele.key);
    var k := |sections|;
    assert k >= 1;
    SameSizeSections(sections, n);
    faces := FacesFrom(sections);
    assert faces == Success(FaceList(k, n, true));
    verts := FlattenSections(sections);
    FlattenLength(sections, n);
    assert |verts| == k * n;
    FaceIndicesInRange(k, n, true);
  }
}
