/** The horizontal geometry of the later chart version: the canvas is
    stretched so that the visible fraction `[start, end]` of the timeline
    fills the container, and it is shifted left by the part before `start`. */
module Viewport {
  import opened Num

  /** The visible fraction of the whole timeline, each end in `[0, 1]`. */
  datatype Viewport = Viewport(start: real, end: real)

  /** The viewport the chart starts with: the second half of the timeline. */
  const Initial: Viewport := Viewport(0.5, 1.0)

  predicate WellFormed(v: Viewport) {
    0.0 <= v.start < v.end <= 1.0
  }

  /** calculateVirtualWidth(containerWidth, viewport):
      `containerWidth / (end - start)`. `None` is the non-finite width of an
      empty viewport. The visible width of the virtual canvas is the
      container's, so a viewport narrower than the whole timeline stretches
      the canvas beyond the container. */
  function VirtualWidth(containerWidth: real, v: Viewport): (r: Option<real>)
    ensures r.None? <==> v.end == v.start
    ensures r.Some? ==> r.value * (v.end - v.start) == containerWidth
    ensures r.Some? && 0.0 <= containerWidth && 0.0 < v.end - v.start <= 1.0 ==> containerWidth <= r.value
  {
    if v.end == v.start then None
    else
      var w := containerWidth / (v.end - v.start);
      assert w * (v.end - v.start) == containerWidth;
      assert 0.0 <= containerWidth && v.start < v.end && v.end - v.start <= 1.0 ==> containerWidth <= w by {
        if 0.0 <= containerWidth && v.start < v.end && v.end - v.start <= 1.0 {
          NonnegFactor(w, v.end - v.start);
          MulNonneg(w, 1.0 - (v.end - v.start));
          assert w * (1.0 - (v.end - v.start)) == w - w * (v.end - v.start);
        }
      }
      Some(w)
  }

  /** getViewportOffset(canvasWidth, viewportStart): the shift that brings
      the viewport's start to the left edge of the container. */
  function ViewportOffset(virtualWidth: real, start: real): real {
    -(virtualWidth * start)
  }

  /** On a well-formed viewport the canvas is shifted left (never right),
      the visible slice `[virtualWidth * start, virtualWidth * end]` lies
      inside the canvas `[0, virtualWidth]`, and it is exactly as wide as
      the container. */
  lemma VisibleSlice(containerWidth: real, v: Viewport)
    requires WellFormed(v) && 0.0 <= containerWidth
    ensures var w := VirtualWidth(containerWidth, v).value;
      && ViewportOffset(w, v.start) <= 0.0
      && 0.0 <= w * v.start <= w * v.end <= w
      && w * v.end - w * v.start == containerWidth
  {
    var w := VirtualWidth(containerWidth, v).value;
    assert w * (v.end - v.start) == containerWidth;
    assert w >= 0.0;
    MulNonneg(w, v.start);
    MulNonneg(w, v.end - v.start);
    MulNonneg(w, 1.0 - v.end);
  }

  /** The shift puts the viewport on the container: a point of the canvas
      lands at screen position 0 exactly when it is the viewport's start,
      and inside `[0, containerWidth]` exactly when it lies in the visible
      slice `[virtualWidth * start, virtualWidth * end]`. */
  lemma OffsetPlacesViewport(containerWidth: real, v: Viewport, x: real)
    requires v.start != v.end
    ensures var w := VirtualWidth(containerWidth, v).value;
      var screen := x + ViewportOffset(w, v.start);
      && (screen == 0.0 <==> x == w * v.start)
      && (v.start < v.end ==> (0.0 <= screen <= containerWidth <==> w * v.start <= x <= w * v.end))
  {
    var w := VirtualWidth(containerWidth, v).value;
    assert w * v.end - w * v.start == containerWidth;
  }

  /** Only the width of the viewport matters to the virtual width: moving
      the viewport keeps the canvas size and just changes the shift. */
  lemma MoveKeepsWidth(containerWidth: real, v: Viewport, shift: real)
    requires v.start != v.end
    ensures VirtualWidth(containerWidth, Viewport(v.start + shift, v.end + shift)) == VirtualWidth(containerWidth, v)
  {
  }
}
