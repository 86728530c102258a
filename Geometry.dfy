/**
 * Sprites and the axis-aligned collision test of the game (main.go, `Sprite` and `collide`).
 * Only the integer parts of a sprite are kept: the size of its frame in the sprite sheet,
 * its top-left position, its status flag and its point value. Image handles are rendering
 * state and are not modelled.
 */
module Geometry {

  /** Width and height of a sprite's frame (`size.Dx()` and `size.Dy()` of its `image.Rectangle`). */
  datatype Size = Size(w: nat, h: nat)

  /** A sprite: frame size, top-left position, status (alive / in flight) and point value. */
  datatype Sprite = Sprite(size: Size, x: int, y: int, status: bool, points: int)

  // Frame sizes of the cannon, the three alien kinds, the beam, a bomb and a barrier block
  // in the sprite sheet (main.go:131-141).
  const CannonSize := Size(18, 12)
  const Alien1Size := Size(20, 14)
  const Alien2Size := Size(20, 12)
  const Alien3Size := Size(20, 13)
  const BeamSize := Size(2, 5)
  const BombSize := Size(10, 9)
  const BarrierSize := Size(10, 10)

  function Abs(n: int): nat { if n < 0 then -n else n }

  /**
   * The collision test. Both rectangles are built with the FIRST sprite's size, so the
   * second sprite's own size plays no part; edges that only touch do not collide.
   */
  function Collide(s1: Sprite, s2: Sprite): (r: bool)
    ensures r <==> Abs(s1.x - s2.x) < s1.size.w && Abs(s1.y - s2.y) < s1.size.h
  {
    var aMinX, aMinY := s1.x, s1.y;
    var aMaxX, aMaxY := s1.x + s1.size.w, s1.y + s1.size.h;
    var bMinX, bMinY := s2.x, s2.y;
    var bMaxX, bMaxY := s2.x + s1.size.w, s2.y + s1.size.h;
    aMinX < bMaxX && aMaxX > bMinX && aMinY < bMaxY && aMaxY > bMinY
  }

  /** The result depends only on the two positions and the first sprite's size. */
  lemma CollideIgnoresSecondSize(s1: Sprite, s2: Sprite, other: Size)
    ensures Collide(s1, s2) == Collide(s1, s2.(size := other))
    ensures Collide(s1, s2) == Collide(s1, s2.(status := !s2.status, points := 0))
  {
  }

  /** Sprites whose rectangles (both of the first sprite's size) only share an edge do not collide. */
  lemma TouchingEdgesDoNotCollide(s1: Sprite, s2: Sprite)
    requires s2.x == s1.x + s1.size.w || s2.x + s1.size.w == s1.x
          || s2.y == s1.y + s1.size.h || s2.y + s1.size.h == s1.y
    ensures !Collide(s1, s2)
  {
  }

  /** With equal sizes the test is symmetric. */
  lemma CollideSymmetricForEqualSizes(s1: Sprite, s2: Sprite)
    requires s1.size == s2.size
    ensures Collide(s1, s2) == Collide(s2, s1)
  {
  }

  /**
   * With different sizes the test is not symmetric: a beam sitting 15 pixels to the right of
   * an alien collides with the alien (tested with the alien's 20-pixel width) but the alien
   * does not collide with the beam (tested with the beam's 2-pixel width).
   */
  lemma CollideAsymmetric()
    ensures var alien := Sprite(Alien1Size, 100, 30, true, 30);
            var beam := Sprite(BeamSize, 115, 30, true, 0);
            Collide(alien, beam) && !Collide(beam, alien)
  {
  }
}
