/** Axis-aligned boxes and their overlap, over the reals. */
module Geometry {
  import opened Reals

  datatype BoundingBox = BoundingBox(x: real, y: real, width: real, height: real)
  {
    predicate IsValid() {
      width > 0.0 && height > 0.0
    }

    function Area(): real {
      if width > 0.0 && height > 0.0 then width * height else 0.0
    }
  }

  /** The length shared by [a, a + w] and [b, b + v]. */
  function Shared(a: real, w: real, b: real, v: real): real {
    Max(0.0, Min(a + w, b + v) - Max(a, b))
  }

  function Intersection(a: BoundingBox, b: BoundingBox): real {
    Shared(a.x, a.width, b.x, b.width) * Shared(a.y, a.height, b.y, b.height)
  }

  function Union(a: BoundingBox, b: BoundingBox): real {
    a.Area() + b.Area() - Intersection(a, b)
  }

  /** Intersection over union as the detectors' suppression computes it. */
  function Iou(a: BoundingBox, b: BoundingBox): real {
    if !a.IsValid() || !b.IsValid() || Union(a, b) <= 0.0 then 0.0
    else Clamp01(Intersection(a, b) / Union(a, b))
  }

  lemma IntersectionBounds(a: BoundingBox, b: BoundingBox)
    requires a.IsValid() && b.IsValid()
    ensures 0.0 <= Intersection(a, b) <= a.Area() && Intersection(a, b) <= b.Area()
    ensures Union(a, b) > 0.0
  {
    var w, h := Shared(a.x, a.width, b.x, b.width), Shared(a.y, a.height, b.y, b.height);
    ProductBound(w, h, a.width, a.height);
    ProductBound(w, h, b.width, b.height);
    assert a.width * a.height > 0.0 && b.width * b.height > 0.0;
  }

  lemma IntersectionSymmetric(a: BoundingBox, b: BoundingBox)
    ensures Intersection(a, b) == Intersection(b, a)
  {
    assert Shared(a.x, a.width, b.x, b.width) == Shared(b.x, b.width, a.x, a.width);
    assert Shared(a.y, a.height, b.y, b.height) == Shared(b.y, b.height, a.y, a.height);
  }

  lemma IouSymmetric(a: BoundingBox, b: BoundingBox)
    ensures Iou(a, b) == Iou(b, a)
  {
    IntersectionSymmetric(a, b);
  }

  lemma SelfAreas(a: BoundingBox)
    requires a.IsValid()
    ensures Intersection(a, a) == a.Area() == Union(a, a) && a.Area() > 0.0
  {
    assert Shared(a.x, a.width, a.x, a.width) == a.width;
    assert Shared(a.y, a.height, a.y, a.height) == a.height;
    assert a.width * a.height > 0.0;
  }

  /** A valid box overlaps itself completely. */
  lemma IouSelf(a: BoundingBox)
    requires a.IsValid()
    ensures Iou(a, a) == 1.0
  {
    hide Intersection, Union, BoundingBox.Area;
    SelfAreas(a);
    var area := a.Area();
    assert area / area == 1.0;
  }
}
