/** The `Rectangle` of the structs tutorial: a width and a height that `resize` overwrites. */
module Structs {
  import opened Numbers

  class Rectangle {
    var width: u32
    var height: u32

    /** `Rectangle::new`. */
    constructor (width: u32, height: u32)
      ensures this.width == width && this.height == height
    {
      this.width := width;
      this.height := height;
    }

    /** `area`: the u32 product, which must not overflow (a debug build panics). */
    function Area(): (a: u32)
      requires width * height <= U32_MAX
      reads this
    {
      width * height
    }

    /** `is_square`. */
    predicate IsSquare()
      reads this
    {
      width == height
    }

    /** `resize`: overwrites both sides. */
    method Resize(width: u32, height: u32)
      modifies this
      ensures this.width == width && this.height == height
      ensures IsSquare() <==> width == height
    {
      this.width := width;
      this.height := height;
    }
  }

  /** A square's area is its width squared, and only a rectangle with a zero side has zero area. */
  lemma AreaFacts(r: Rectangle)
    requires r.width * r.height <= U32_MAX
    ensures r.IsSquare() ==> r.Area() == r.width * r.width
    ensures r.Area() == 0 <==> r.width == 0 || r.height == 0
  {
    if r.width > 0 && r.height > 0 {
      assert r.width * r.height >= r.height;
    }
  }

  /** The tutorial's run: 10x20 has area 200 and is not square; after `resize(15, 15)` it is square. */
  method Scenario() returns (area: u32, square: bool, squareAfter: bool)
    ensures area == 200 && !square && squareAfter
  {
    var rect := new Rectangle(10, 20);
    area := rect.Area();
    square := rect.IsSquare();
    rect.Resize(15, 15);
    squareAfter := rect.IsSquare();
  }
}
