/** The nearest postal code to a horizontal position (scan.js:160-172). */
module Postal {
  import opened Wrappers
  import opened Geometry

  /** An entry of the postal-code list: its code and its position. */
  datatype PostalCode = PostalCode(code: string, x: real, y: real)

  const NoCode := "N/A"

  function Where(p: PostalCode): Point2D
  {
    Point2D(p.x, p.y)
  }

  /** The index of the entry nearest to `target`: no entry is nearer, and every entry before
      it is strictly farther, so that among entries at the same least distance the first wins. */
  function NearestIndex(ps: seq<PostalCode>, target: Point2D, dist: Distance): (r: nat)
    requires ps != []
    ensures r < |ps|
    ensures forall j :: 0 <= j < |ps| ==> dist(target, Where(ps[r])) <= dist(target, Where(ps[j]))
    ensures forall j :: 0 <= j < r ==> dist(target, Where(ps[r])) < dist(target, Where(ps[j]))
  {
    if |ps| == 1 then 0
    else
      var init := ps[..|ps| - 1];
      var k := NearestIndex(init, target, dist);
      assert forall j :: 0 <= j < |init| ==> init[j] == ps[j];
      if dist(target, Where(ps[|ps| - 1])) < dist(target, Where(ps[k])) then |ps| - 1 else k
  }

  /** `findClosestPostalCode(coord)`: "N/A" for an empty list, else the code of the nearest
      entry. */
  function ClosestCode(ps: seq<PostalCode>, target: Point2D, dist: Distance): string
  {
    if ps == [] then NoCode else ps[NearestIndex(ps, target, dist)].code
  }

  /** The two properties of `NearestIndex` single out one index. */
  lemma NearestIsUnique(ps: seq<PostalCode>, target: Point2D, dist: Distance, k: nat)
    requires k < |ps|
    requires forall j :: 0 <= j < |ps| ==> dist(target, Where(ps[k])) <= dist(target, Where(ps[j]))
    requires forall j :: 0 <= j < k ==> dist(target, Where(ps[k])) < dist(target, Where(ps[j]))
    ensures NearestIndex(ps, target, dist) == k
  {
    var r := NearestIndex(ps, target, dist);
    assert !(r < k) && !(k < r);
  }

  /** No two entries at the same distance from `target` carry different codes. */
  predicate TiesShareCode(ps: seq<PostalCode>, target: Point2D, dist: Distance)
  {
    forall i, j :: 0 <= i < |ps| && 0 <= j < |ps| && dist(target, Where(ps[i])) == dist(target, Where(ps[j])) ==>
      ps[i].code == ps[j].code
  }

  /** The order of the list does not matter when there is no tie between codes: any
      reordering of the entries gives the same code. */
  lemma ClosestOrderFree(ps: seq<PostalCode>, qs: seq<PostalCode>, target: Point2D, dist: Distance)
    requires multiset(ps) == multiset(qs)
    requires TiesShareCode(ps, target, dist)
    ensures ClosestCode(ps, target, dist) == ClosestCode(qs, target, dist)
  {
    if ps != [] {
      assert |qs| == |multiset(qs)| == |multiset(ps)| == |ps|;
      var a, b := NearestIndex(ps, target, dist), NearestIndex(qs, target, dist);
      assert ps[a] in multiset(qs);
      var j :| 0 <= j < |qs| && qs[j] == ps[a];
      assert qs[b] in multiset(ps);
      var i :| 0 <= i < |ps| && ps[i] == qs[b];
      assert dist(target, Where(ps[a])) == dist(target, Where(ps[i]));
    } else {
      assert |qs| == |multiset(qs)| == 0;
    }
  }

  /** The loop of `findClosestPostalCode`. `minDistance` starts at infinity, written `None`;
      an entry replaces the best so far only when it is strictly nearer. */
  method FindClosestPostalCode(ps: seq<PostalCode>, target: Point2D, dist: Distance) returns (code: string)
    ensures code == ClosestCode(ps, target, dist)
  {
    if |ps| == 0 {
      return NoCode;
    }
    var closest: string := "";
    var minDistance: Option<real> := None;
    ghost var best: nat := 0;
    var i := 0;
    while i < |ps|
      invariant 0 <= i <= |ps|
      invariant i == 0 <==> minDistance.None?
      invariant i > 0 ==> best < i && best == NearestIndex(ps[..i], target, dist)
      invariant i > 0 ==> minDistance == Some(dist(target, Where(ps[best]))) && closest == ps[best].code
    {
      var d := dist(target, Point2D(ps[i].x, ps[i].y));
      assert ps[..i + 1][..i] == ps[..i];
      assert ps[..i + 1][i] == ps[i];
      if i > 0 {
        assert ps[..i + 1][best] == ps[best] && ps[..i][best] == ps[best];
      }
      if minDistance.None? || d < minDistance.value {
        minDistance := Some(d);
        closest := ps[i].code;
        best := i;
      }
      i := i + 1;
    }
    assert ps[..i] == ps;
    code := closest;
  }
}
