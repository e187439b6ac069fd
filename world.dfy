/**
 * The scene of the ray tracer: a fixed list of objects, each a material and
 * a shape, and the query that finds which object a ray hits.
 *
 * Shapes, materials, rays and collision records stay abstract (type
 * parameters); the per-shape intersection test is a parameter `hit`, which
 * stands for the dispatch over the shape variant to the sphere test. The
 * query passes the same ray and the same bounds to every test.
 */
module World {
  import opened Wrappers

  /** An object of the scene: a material and a shape. */
  datatype Object<M, Sh> = Object(material: M, shape: Sh)

  /** A world of objects, in the order they were given. */
  datatype World<M, Sh> = World(objects: seq<Object<M, Sh>>)

  /** `make_world`: one slot per argument, in argument order. */
  function MakeWorld<M, Sh>(objs: seq<Object<M, Sh>>): (w: World<M, Sh>)
    ensures |w.objects| == |objs|
    ensures forall i :: 0 <= i < |objs| ==> w.objects[i] == objs[i]
  {
    World(objs)
  }

  /** Does the test report a collision of ray r with object o within [tmin, tmax]? */
  ghost predicate Hits<M, Sh, R, Info>(hit: (R, Sh, real, real) -> Option<Info>, r: R, tmin: real, tmax: real, o: Object<M, Sh>)
  {
    hit(r, o.shape, tmin, tmax).Some?
  }

  /**
   * The position of the first object, in array order, whose test reports a
   * collision; None when no test does. The first, not the nearest: an object
   * further along the ray that comes earlier in the array wins.
   */
  function FirstHitIndex<M, Sh, R, Info>(objs: seq<Object<M, Sh>>, hit: (R, Sh, real, real) -> Option<Info>, r: R, tmin: real, tmax: real): (k: Option<nat>)
    ensures k.None? <==> forall i :: 0 <= i < |objs| ==> !Hits(hit, r, tmin, tmax, objs[i])
    ensures k.Some? ==>
      && k.value < |objs|
      && Hits(hit, r, tmin, tmax, objs[k.value])
      && forall j :: 0 <= j < k.value ==> !Hits(hit, r, tmin, tmax, objs[j])
  {
    if |objs| == 0 then None
    else if hit(r, objs[0].shape, tmin, tmax).Some? then Some(0)
    else
      match FirstHitIndex(objs[1..], hit, r, tmin, tmax)
      case None => None
      case Some(k) => Some(k + 1)
  }

  /** The first hit as `collides` reports it: the test's record and the object. */
  function FirstHit<M, Sh, R, Info>(objs: seq<Object<M, Sh>>, hit: (R, Sh, real, real) -> Option<Info>, r: R, tmin: real, tmax: real): (res: Option<(Info, Object<M, Sh>)>)
    ensures res.None? <==> forall i :: 0 <= i < |objs| ==> !Hits(hit, r, tmin, tmax, objs[i])
  {
    match FirstHitIndex(objs, hit, r, tmin, tmax)
    case None => None
    case Some(k) => Some((hit(r, objs[k].shape, tmin, tmax).value, objs[k]))
  }

  /**
   * A reported hit is the record the test returned for some object k, that
   * object itself, and every object before k was missed.
   */
  lemma FirstHitIsFirst<M, Sh, R, Info>(objs: seq<Object<M, Sh>>, hit: (R, Sh, real, real) -> Option<Info>, r: R, tmin: real, tmax: real, k: nat)
    requires k < |objs|
    requires hit(r, objs[k].shape, tmin, tmax).Some?
    requires forall j :: 0 <= j < k ==> !Hits(hit, r, tmin, tmax, objs[j])
    ensures FirstHit(objs, hit, r, tmin, tmax) == Some((hit(r, objs[k].shape, tmin, tmax).value, objs[k]))
  {
    var found := FirstHitIndex(objs, hit, r, tmin, tmax);
    assert Hits(hit, r, tmin, tmax, objs[k]);
    assert found == Some(k);
  }

  /**
   * `collides`: tests the objects in array order with the same ray and the
   * same bounds and returns at the first collision.
   */
  method Collides<M, Sh, R, Info>(r: R, w: World<M, Sh>, tmin: real, tmax: real, hit: (R, Sh, real, real) -> Option<Info>)
    returns (res: Option<(Info, Object<M, Sh>)>)
    ensures res == FirstHit(w.objects, hit, r, tmin, tmax)
  {
    for i := 0 to |w.objects|
      invariant forall j :: 0 <= j < i ==> !Hits(hit, r, tmin, tmax, w.objects[j])
    {
      var obj := w.objects[i];
      var h := hit(r, obj.shape, tmin, tmax);
      if h.Some? {
        FirstHitIsFirst(w.objects, hit, r, tmin, tmax, i);
        return Some((h.value, obj));
      }
    }
    return None;
  }
}
