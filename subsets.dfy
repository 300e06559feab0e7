/**
 * The subset remapper of `UsdRerunLogger._log_mesh`: a face-indexed geometry
 * subset takes the rows of the triangle list at the face -> triangle
 * positions of its faces, in the subset's face order.
 */
module SubsetSlicing {
  import opened Viewer
  import opened MeshFlattener

  /** The only element type a subset may have to be sliced. */
  const FaceElement: string := "face"

  /** A geometry subset: its own entity path, its element type, its face indices (None when unauthored). */
  datatype Subset = Subset(path: Path, elementType: string, indices: Option<seq<int>>)

  /** The positions recorded for one face index, or none when it names no face. */
  function PositionsOf(faceMap: seq<seq<nat>>, face: int): seq<nat> {
    if 0 <= face < |faceMap| then faceMap[face] else []
  }

  /**
   * The triangle positions of the listed faces, concatenated in the order the
   * subset lists them; an index that names no face contributes nothing.
   */
  function SubsetPositions(faceMap: seq<seq<nat>>, faces: seq<int>): seq<nat> {
    if faces == [] then []
    else SubsetPositions(faceMap, faces[..|faces| - 1]) + PositionsOf(faceMap, faces[|faces| - 1])
  }

  /** The loop that collects a subset's triangle positions. */
  method CollectSubsetPositions(faceMap: seq<seq<nat>>, faces: seq<int>) returns (positions: seq<nat>)
    ensures positions == SubsetPositions(faceMap, faces)
  {
    positions := [];
    for i := 0 to |faces|
      invariant positions == SubsetPositions(faceMap, faces[..i])
    {
      assert faces[..i + 1][..i] == faces[..i];
      var face := faces[i];
      if 0 <= face < |faceMap| {
        positions := positions + faceMap[face];
      }
    }
    assert faces[..|faces|] == faces;
  }

  /** numpy's triangles_list[positions]: the rows at the given positions, in that order. */
  function SliceRows(tris: seq<Tri>, positions: seq<nat>): (rows: seq<Tri>)
    requires forall k :: 0 <= k < |positions| ==> positions[k] < |tris|
    ensures |rows| == |positions|
    ensures forall k :: 0 <= k < |positions| ==> rows[k] == tris[positions[k]]
  {
    seq(|positions|, k requires 0 <= k < |positions| => tris[positions[k]])
  }

  lemma {:induction false} SubsetPositionsAppend(faceMap: seq<seq<nat>>, a: seq<int>, b: seq<int>)
    ensures SubsetPositions(faceMap, a + b) == SubsetPositions(faceMap, a) + SubsetPositions(faceMap, b)
    decreases |b|
  {
    if b == [] {
      assert a + b == a;
    } else {
      var b', last := b[..|b| - 1], b[|b| - 1];
      var ab := a + b;
      assert ab[..|ab| - 1] == a + b' && ab[|ab| - 1] == last;
      var sa, sb', own := SubsetPositions(faceMap, a), SubsetPositions(faceMap, b'), PositionsOf(faceMap, last);
      assert SubsetPositions(faceMap, ab) == SubsetPositions(faceMap, a + b') + own;
      SubsetPositionsAppend(faceMap, a, b');
      assert SubsetPositions(faceMap, b) == sb' + own;
      assert sa + sb' + own == sa + (sb' + own);
    }
  }

  /**
   * A position is collected for a subset iff one of the subset's faces is a
   * face of the mesh whose entry in the face map holds that position.
   */
  lemma {:induction false} SubsetMembership(faceMap: seq<seq<nat>>, faces: seq<int>, p: nat)
    ensures p in SubsetPositions(faceMap, faces) <==>
              exists i :: 0 <= i < |faces| && 0 <= faces[i] < |faceMap| && p in faceMap[faces[i]]
  {
    if faces != [] {
      var pre, last := faces[..|faces| - 1], faces[|faces| - 1];
      SubsetMembership(faceMap, pre, p);
      assert SubsetPositions(faceMap, faces) == SubsetPositions(faceMap, pre) + PositionsOf(faceMap, last);
      if p in SubsetPositions(faceMap, faces) {
        if p in SubsetPositions(faceMap, pre) {
          var i :| 0 <= i < |pre| && 0 <= pre[i] < |faceMap| && p in faceMap[pre[i]];
          assert faces[i] == pre[i];
        } else {
          assert p in PositionsOf(faceMap, last);
          assert faces[|faces| - 1] == last;
        }
      }
      if exists i :: 0 <= i < |faces| && 0 <= faces[i] < |faceMap| && p in faceMap[faces[i]] {
        var i :| 0 <= i < |faces| && 0 <= faces[i] < |faceMap| && p in faceMap[faces[i]];
        if i < |pre| {
          assert pre[i] == faces[i];
          assert p in SubsetPositions(faceMap, pre);
        } else {
          assert p in PositionsOf(faceMap, last);
        }
      }
    }
  }

  /** Every collected position is the position of a triangle of the mesh. */
  lemma SubsetPositionsInRange(counts: seq<nat>, faces: seq<int>)
    ensures forall k :: 0 <= k < |SubsetPositions(FaceMap(counts), faces)| ==>
              SubsetPositions(FaceMap(counts), faces)[k] < TriCount(counts)
  {
    var fm := FaceMap(counts);
    var ps := SubsetPositions(fm, faces);
    forall k | 0 <= k < |ps| ensures ps[k] < TriCount(counts) {
      SubsetMembership(fm, faces, ps[k]);
      var i :| 0 <= i < |faces| && 0 <= faces[i] < |fm| && ps[k] in fm[faces[i]];
      FaceEntryBounds(counts, faces[i], ps[k]);
    }
  }

  /** A position recorded for face f lies in that face's block, below the triangle count. */
  lemma FaceEntryBounds(counts: seq<nat>, f: nat, p: nat)
    requires f < |FaceMap(counts)| && p in FaceMap(counts)[f]
    ensures f < |counts|
    ensures TriCount(counts[..f]) <= p < TriCount(counts[..f + 1]) <= TriCount(counts)
  {
    FaceMapLength(counts);
    FaceBlock(counts, f);
  }

  /** The entry of face f is the block of NumTris(counts[f]) positions after the earlier faces' triangles. */
  lemma FaceBlock(counts: seq<nat>, f: nat)
    requires f < |counts|
    ensures |FaceMap(counts)| == |counts|
    ensures FaceMap(counts)[f] == Range(TriCount(counts[..f]), NumTris(counts[f]))
    ensures TriCount(counts[..f + 1]) == TriCount(counts[..f]) + NumTris(counts[f]) <= TriCount(counts)
  {
    FaceMapAt(counts);
    StepFace(counts, f);
    TriCountPrefix(counts, f + 1, |counts|);
    assert counts[..|counts|] == counts;
  }

  lemma {:induction false} TriCountPrefix(counts: seq<nat>, i: nat, j: nat)
    requires i <= j <= |counts|
    ensures TriCount(counts[..i]) <= TriCount(counts[..j])
    decreases j - i
  {
    if i < j {
      TriCountPrefix(counts, i, j - 1);
      StepFace(counts, j - 1);
    }
  }

  /** Each triangle position belongs to exactly one face. */
  lemma FaceOfPosition(counts: seq<nat>, p: nat)
    ensures |FaceMap(counts)| == |counts|
    ensures p < TriCount(counts) <==> exists f :: 0 <= f < |counts| && p in FaceMap(counts)[f]
    ensures forall f, g :: 0 <= f < |counts| && 0 <= g < |counts| && p in FaceMap(counts)[f] && p in FaceMap(counts)[g] ==> f == g
  {
    var fm := FaceMap(counts);
    FaceMapLength(counts);
    forall f, g | 0 <= f < g < |counts| && p in fm[f]
      ensures p !in fm[g]
    {
      FaceEntryBounds(counts, f, p);
      TriCountPrefix(counts, f + 1, g);
      FaceBlock(counts, g);
    }
    if p < TriCount(counts) {
      FaceMapConcat(counts);
      assert p in Range(0, TriCount(counts)) by { assert Range(0, TriCount(counts))[p] == p; }
      ConcatMember(fm, p);
    }
    if exists f :: 0 <= f < |counts| && p in fm[f] {
      var f :| 0 <= f < |counts| && p in fm[f];
      FaceEntryBounds(counts, f, p);
    }
  }

  lemma {:induction false} ConcatMember<T>(ss: seq<seq<T>>, x: T)
    requires x in Concat(ss)
    ensures exists i :: 0 <= i < |ss| && x in ss[i]
  {
    var pre := ss[..|ss| - 1];
    if x !in ss[|ss| - 1] {
      ConcatMember(pre, x);
      var i :| 0 <= i < |pre| && x in pre[i];
      assert ss[i] == pre[i];
    }
  }

  /**
   * Two subsets with no face in common that together list every face of the
   * mesh split the triangle positions between them: every triangle is
   * collected by exactly one of the two.
   */
  lemma DisjointSubsetsPartition(counts: seq<nat>, a: seq<int>, b: seq<int>)
    requires forall i, j :: 0 <= i < |a| && 0 <= j < |b| ==> a[i] != b[j]
    requires forall f :: 0 <= f < |counts| ==> f in a || f in b
    ensures forall p: nat :: p in SubsetPositions(FaceMap(counts), a) || p in SubsetPositions(FaceMap(counts), b)
              <==> p < TriCount(counts)
    ensures forall p: nat :: !(p in SubsetPositions(FaceMap(counts), a) && p in SubsetPositions(FaceMap(counts), b))
  {
    forall p: nat
      ensures (p in SubsetPositions(FaceMap(counts), a) || p in SubsetPositions(FaceMap(counts), b)) <==> p < TriCount(counts)
      ensures !(p in SubsetPositions(FaceMap(counts), a) && p in SubsetPositions(FaceMap(counts), b))
    {
      PartitionAt(counts, a, b, p);
    }
  }

  lemma PartitionAt(counts: seq<nat>, a: seq<int>, b: seq<int>, p: nat)
    requires forall i, j :: 0 <= i < |a| && 0 <= j < |b| ==> a[i] != b[j]
    requires forall f :: 0 <= f < |counts| ==> f in a || f in b
    ensures (p in SubsetPositions(FaceMap(counts), a) || p in SubsetPositions(FaceMap(counts), b)) <==> p < TriCount(counts)
    ensures !(p in SubsetPositions(FaceMap(counts), a) && p in SubsetPositions(FaceMap(counts), b))
  {
    var fm := FaceMap(counts);
    FaceOfPosition(counts, p);
    assert forall f :: 0 <= f < |fm| ==> f in a || f in b;
    PartitionOfFaces(fm, a, b, p);
    assert p < TriCount(counts) <==> exists f :: 0 <= f < |fm| && p in fm[f];
  }

  /**
   * Two disjoint subsets covering every face: a position lies in one of
   * them iff some face holds it, and, when at most one face holds it, never
   * in both.
   */
  lemma PartitionOfFaces(fm: seq<seq<nat>>, a: seq<int>, b: seq<int>, p: nat)
    requires forall i, j :: 0 <= i < |a| && 0 <= j < |b| ==> a[i] != b[j]
    requires forall f :: 0 <= f < |fm| ==> f in a || f in b
    requires forall f, g :: 0 <= f < |fm| && 0 <= g < |fm| && p in fm[f] && p in fm[g] ==> f == g
    ensures (p in SubsetPositions(fm, a) || p in SubsetPositions(fm, b)) <==> exists f :: 0 <= f < |fm| && p in fm[f]
    ensures !(p in SubsetPositions(fm, a) && p in SubsetPositions(fm, b))
  {
    SubsetMembership(fm, a, p);
    SubsetMembership(fm, b, p);
    if p in SubsetPositions(fm, a) {
      var i :| 0 <= i < |a| && 0 <= a[i] < |fm| && p in fm[a[i]];
      assert forall j :: 0 <= j < |b| && 0 <= b[j] < |fm| ==> a[i] != b[j] && p !in fm[b[j]];
    }
    if exists f :: 0 <= f < |fm| && p in fm[f] {
      var f :| 0 <= f < |fm| && p in fm[f];
      if f in a {
        var i :| 0 <= i < |a| && a[i] == f;
        assert p in SubsetPositions(fm, a);
      } else {
        var j :| 0 <= j < |b| && b[j] == f;
        assert p in SubsetPositions(fm, b);
      }
    }
  }

  /** A subset listing every face in order collects every triangle, in order. */
  lemma AllFacesSubset(counts: seq<nat>)
    ensures SubsetPositions(FaceMap(counts), Range(0, |counts|)) == Range(0, TriCount(counts))
  {
    var fm := FaceMap(counts);
    FaceMapConcat(counts);
    FaceMapLength(counts);
    AllFacesIsConcat(fm, |counts|);
    assert fm[..|counts|] == fm;
  }

  lemma {:induction false} FaceMapLength(counts: seq<nat>)
    ensures |FaceMap(counts)| == |counts|
  {
    if counts != [] {
      FaceMapLength(counts[..|counts| - 1]);
    }
  }

  lemma {:induction false} AllFacesIsConcat(fm: seq<seq<nat>>, n: nat)
    requires n <= |fm|
    ensures SubsetPositions(fm, Range(0, n)) == Concat(fm[..n])
  {
    if n > 0 {
      AllFacesIsConcat(fm, n - 1);
      assert Range(0, n)[..n - 1] == Range(0, n - 1);
      assert fm[..n][..n - 1] == fm[..n - 1];
    }
  }

  // ---------------------------------------------------------------------
  // The bound check as written
  // ---------------------------------------------------------------------

  /**
   * Python list indexing: a non-negative index below the length, or a
   * negative one counted from the end; None stands for the IndexError.
   */
  function PyIndex(length: nat, k: int): Option<nat> {
    if 0 <= k < length then Some(k)
    else if -(length as int) <= k < 0 then Some(length + k)
    else None
  }

  /**
   * The collection loop as written: only `face_idx < len(...)` is checked,
   * so a negative face index reaches Python's list indexing. None is the
   * IndexError raised by an index below -len.
   */
  function SubsetPositionsAsWritten(faceMap: seq<seq<nat>>, faces: seq<int>): Option<seq<nat>> {
    if faces == [] then Some([])
    else
      var face := faces[|faces| - 1];
      match SubsetPositionsAsWritten(faceMap, faces[..|faces| - 1])
      case None => None
      case Some(ps) =>
        if face >= |faceMap| then Some(ps)
        else match PyIndex(|faceMap|, face)
          case None => None
          case Some(k) => Some(ps + faceMap[k])
  }

  /** For non-negative face indices the code as written and the model agree. */
  lemma {:induction false} AsWrittenAgreesOnNaturals(faceMap: seq<seq<nat>>, faces: seq<int>)
    requires forall i :: 0 <= i < |faces| ==> faces[i] >= 0
    ensures SubsetPositionsAsWritten(faceMap, faces) == Some(SubsetPositions(faceMap, faces))
  {
    if faces != [] {
      var pre, face := faces[..|faces| - 1], faces[|faces| - 1];
      AsWrittenAgreesOnNaturals(faceMap, pre);
      assert SubsetPositionsAsWritten(faceMap, pre) == Some(SubsetPositions(faceMap, pre));
      var ps := SubsetPositions(faceMap, pre);
      if face < |faceMap| {
        assert PyIndex(|faceMap|, face) == Some(face);
        assert SubsetPositionsAsWritten(faceMap, faces) == Some(ps + faceMap[face]);
      } else {
        assert SubsetPositionsAsWritten(faceMap, faces) == Some(ps);
        assert ps + PositionsOf(faceMap, face) == ps;
      }
    }
  }

  /**
   * The discrepancy: in a mesh of two single-triangle faces, a subset listing
   * face -1 takes the last face's triangle as written, where an
   * out-of-range face index is meant to be ignored.
   */
  lemma NegativeFaceIndexWraps()
    ensures SubsetPositionsAsWritten(FaceMap([3, 3]), [-1]) == Some([1])
    ensures SubsetPositions(FaceMap([3, 3]), [-1]) == []
  {
    var counts: seq<nat> := [3, 3];
    assert counts[..1] == [3];
    assert counts[..1][..0] == [];
    assert FaceMap(counts[..1]) == [Range(0, 1)];
    assert TriCount(counts[..1]) == 1;
    var fm := FaceMap(counts);
    assert fm == [Range(0, 1), Range(1, 1)];
    assert Range(1, 1) == [1];
    var faces := [-1];
    assert faces[..0] == [];
    assert SubsetPositionsAsWritten(fm, faces[..0]) == Some([]);
    assert PyIndex(2, -1) == Some(1);
    assert SubsetPositions(fm, faces[..0]) == [];
    assert SubsetPositionsAsWritten(fm, faces) == Some([] + fm[1]);
    assert SubsetPositions(fm, faces) == [] + PositionsOf(fm, -1);
    assert [] + fm[1] == [1];
    assert PositionsOf(fm, -1) == [];
  }
}
