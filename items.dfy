/**
 * Placed image stickers ("items") and the hit test that decides whether a
 * canvas point lies on one (app.js, `pointInItem`).
 */
module Items {

  /** A position in canvas pixels. */
  datatype Point = Point(x: real, y: real)

  /** Item identifiers. app.js draws them at random; here they come from a counter. */
  type Id = nat

  /**
   * A placed sticker: its image source, its centre (x, y), its box w × h
   * before scaling, its scale factor and its rotation in degrees.
   */
  datatype Item = Item(id: Id, src: string, x: real, y: real, w: nat, h: nat, scale: real, rotation: real)

  /**
   * The host's trigonometry: for a rotation of r degrees it gives the cosine
   * and the sine of the angle -r·π/180 (Math.cos and Math.sin in app.js).
   */
  type Trig = real -> (real, real)

  /** The host's trigonometry is exact for the angle 0. */
  predicate ExactAtZero(trig: Trig)
  {
    trig(0.0) == (1.0, 0.0)
  }

  /**
   * The host's trigonometry is close enough at a quarter turn: sin(-π/2) = -1
   * and cos(-π/2) is near 0 (a double gives about 6e-17 there, not 0).
   */
  predicate NearQuarterTurn(trig: Trig)
  {
    trig(90.0).1 == -1.0 && Abs(trig(90.0).0) <= 0.25
  }

  function Abs(r: real): (a: real)
    ensures a >= 0.0 && (a == r || a == -r)
  {
    if r < 0.0 then -r else r
  }

  /** Half the scaled width of the item's box. */
  function HalfWidth(it: Item): real
  {
    (it.w as real * it.scale) / 2.0
  }

  /** Half the scaled height of the item's box. */
  function HalfHeight(it: Item): real
  {
    (it.h as real * it.scale) / 2.0
  }

  /**
   * Whether p lies in the item's rotated, scaled box: p is moved into the
   * item's frame (translated by the centre, rotated back by the rotation) and
   * compared, bounds included, with the half extents. An item whose scale
   * makes its extents negative is hit nowhere.
   */
  predicate PointInItem(p: Point, it: Item, trig: Trig)
    ensures PointInItem(p, it, trig) ==> HalfWidth(it) >= 0.0 && HalfHeight(it) >= 0.0
  {
    var dx := p.x - it.x;
    var dy := p.y - it.y;
    var cs := trig(it.rotation);
    var rx := dx * cs.0 - dy * cs.1;
    var ry := dx * cs.1 + dy * cs.0;
    -HalfWidth(it) <= rx <= HalfWidth(it) && -HalfHeight(it) <= ry <= HalfHeight(it)
  }

  /** An unrotated item is hit exactly on its axis-aligned box, edges included. */
  lemma UnrotatedHit(p: Point, it: Item, trig: Trig)
    requires ExactAtZero(trig) && it.rotation == 0.0
    ensures PointInItem(p, it, trig) <==>
              Abs(p.x - it.x) <= HalfWidth(it) && Abs(p.y - it.y) <= HalfHeight(it)
  {
  }

  /**
   * A 100 × 40 item centred at the origin: unrotated, (49, 0) is inside and
   * (51, 0) outside; a quarter turn later, (0, 49) is inside and (0, 51) outside.
   */
  lemma QuarterTurnHit(trig: Trig, src: string)
    requires ExactAtZero(trig) && NearQuarterTurn(trig)
    ensures var it := Item(0, src, 0.0, 0.0, 100, 40, 1.0, 0.0);
            PointInItem(Point(49.0, 0.0), it, trig) && !PointInItem(Point(51.0, 0.0), it, trig)
    ensures var it := Item(0, src, 0.0, 0.0, 100, 40, 1.0, 90.0);
            PointInItem(Point(0.0, 49.0), it, trig) && !PointInItem(Point(0.0, 51.0), it, trig)
  {
  }
}
