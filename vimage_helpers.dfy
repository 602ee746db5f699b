/**
  The inline VImage shorthands that only forward to another operation with
  fixed arguments.  The operations they forward to (flip, rot, rank) run in
  the native library, so each shorthand is modelled by the call it makes.
 */
module VImageHelpers {
  import opened VObjectLifecycle

  /** VipsDirection */
  datatype Direction = Horizontal | Vertical

  /** VipsAngle: a clockwise turn by a multiple of 90 degrees. */
  datatype Angle = D0 | D90 | D180 | D270

  function Degrees(a: Angle): nat
  {
    match a
    case D0 => 0
    case D90 => 90
    case D180 => 180
    case D270 => 270
  }

  /** A forwarded call, on the image held by the given handle pointer. */
  datatype Forward =
    | Flip(image: Pointer, direction: Direction)
    | Rot(image: Pointer, angle: Angle)
    | Rank(image: Pointer, width: int, height: int, index: int)

  /** A C int. */
  predicate IsInt32(x: int)
  {
    -0x8000_0000 <= x < 0x8000_0000
  }

  /** The largest size whose square still fits in a C int (46341 * 46341 does not). */
  const MaxWindow: int := 46340

  lemma MulMonotone(a: int, b: int, x: int)
    requires 0 <= a <= b && 0 <= x
    ensures a * x <= b * x
  {
    assert b * x - a * x == (b - a) * x;
  }

  /** Exactly the sizes up to MaxWindow have a square that fits in a C int. */
  lemma SquareFitsExactly(size: int)
    ensures IsInt32(size * size) <==> -MaxWindow <= size <= MaxWindow
  {
    var a := if size < 0 then -size else size;
    assert size * size == a * a;
    if a <= MaxWindow {
      MulMonotone(a, MaxWindow, a);
      MulMonotone(a, MaxWindow, MaxWindow);
      assert a * MaxWindow == MaxWindow * a;
    } else {
      MulMonotone(MaxWindow + 1, a, a);
      MulMonotone(MaxWindow + 1, a, MaxWindow + 1);
      assert a * (MaxWindow + 1) == (MaxWindow + 1) * a;
    }
  }

  /** fliphor(): mirrors left to right. */
  function FlipHor(img: Pointer): (r: Forward)
    ensures r.Flip? && r.image == img && r.direction == Horizontal
  {
    Flip(img, Horizontal)
  }

  /** flipver(): mirrors top to bottom. */
  function FlipVer(img: Pointer): (r: Forward)
    ensures r.Flip? && r.image == img && r.direction == Vertical
  {
    Flip(img, Vertical)
  }

  /** rot90() */
  function Rot90(img: Pointer): (r: Forward)
    ensures r.Rot? && r.image == img && Degrees(r.angle) == 90
  {
    Rot(img, D90)
  }

  /** rot180() */
  function Rot180(img: Pointer): (r: Forward)
    ensures r.Rot? && r.image == img && Degrees(r.angle) == 180
  {
    Rot(img, D180)
  }

  /** rot270() */
  function Rot270(img: Pointer): (r: Forward)
    ensures r.Rot? && r.image == img && Degrees(r.angle) == 270
  {
    Rot(img, D270)
  }

  /**
    median(size = 3): a rank filter over a size-by-size window that picks
    the element at index (size * size) / 2 of the sorted window.  The
    product is a C int, so it must not overflow (SquareFitsExactly); being
    non-negative, the C division truncating toward zero and Dafny's agree.
   */
  function Median(img: Pointer, size: int := 3): (r: Forward)
    requires -MaxWindow <= size <= MaxWindow
    ensures r.Rank? && r.image == img && r.width == size && r.height == size
    ensures 2 * r.index <= size * size < 2 * r.index + 2
  {
    Rank(img, size, size, (size * size) / 2)
  }

  /** The median's index lies inside any non-empty window. */
  lemma MedianIndexInWindow(img: Pointer, size: int)
    requires -MaxWindow <= size <= MaxWindow && size != 0
    ensures 0 <= Median(img, size).index < size * size
  {
    assert size * size > 0 by {
      if size < 0 {
        assert size * size == (-size) * (-size);
      }
    }
  }

  /** For an odd window as many elements lie below the median's index as above it. */
  lemma MedianIsCentre(img: Pointer, size: int)
    requires -MaxWindow <= size <= MaxWindow && size % 2 == 1
    ensures var i := Median(img, size).index; i == size * size - 1 - i
  {
    var m := size / 2;
    assert size == 2 * m + 1;
    assert size * size == 2 * (2 * m * m + 2 * m) + 1;
  }

  /** The default 3x3 window ranks at index 4, its centre. */
  lemma MedianDefault(img: Pointer)
    ensures Median(img) == Rank(img, 3, 3, 4)
  {
  }
}
