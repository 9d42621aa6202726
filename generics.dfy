/**
 * The generics tutorial: a generic point with a `Debug`-based description,
 * swapping two values, the larger of two values, and the largest element of
 * a slice.
 */
module Generics {
  import opened Numbers
  import opened Text

  /** `Point<T>`; `{:?}` on a coordinate is the `render` parameter. */
  datatype Point<T> = Point(x: T, y: T)
  {
    static function New(x: T, y: T): (p: Point<T>)
      ensures p.x == x && p.y == y
    {
      Point(x, y)
    }

    /** `info`: "x: <x>, y: <y>". */
    function Info(render: T -> string): string
    {
      "x: " + render(x) + ", y: " + render(y)
    }
  }

  /** The description of an integer point. */
  lemma PointInfoExample()
    ensures Point.New(3, 4).Info(IntToString) == "x: 3, y: 4"
  {
    assert IntToString(3) == "3" && IntToString(4) == "4";
  }

  /** Points with non-negative integer coordinates have distinct descriptions. */
  lemma PointInfoInjective(p: Point<nat>, q: Point<nat>)
    requires p.Info(NatToString) == q.Info(NatToString)
    ensures p == q
  {
    PieceOfInfo(p);
    PieceOfInfo(q);
    var px, qx := "x: " + NatToString(p.x), "x: " + NatToString(q.x);
    var py, qy := " y: " + NatToString(p.y), " y: " + NatToString(q.y);
    assert px == qx && py == qy;
    assert NatToString(p.x) == px[3..] && NatToString(q.x) == qx[3..];
    assert NatToString(p.y) == py[4..] && NatToString(q.y) == qy[4..];
    NatToStringInjective(p.x, q.x);
    NatToStringInjective(p.y, q.y);
  }

  /** Splitting a description on ',' gives back the two rendered coordinates. */
  lemma PieceOfInfo(p: Point<nat>)
    ensures Split(p.Info(NatToString), ',') == ["x: " + NatToString(p.x), " y: " + NatToString(p.y)]
  {
    var dx, dy := NatToString(p.x), NatToString(p.y);
    NoComma("x: ", dx);
    NoComma(" y: ", dy);
    assert p.Info(NatToString) == ("x: " + dx) + [','] + (" y: " + dy);
    SplitAfter("x: " + dx, ',', " y: " + dy);
    SplitNone(" y: " + dy, ',');
  }

  lemma NoComma(prefix: string, digits: string)
    requires ',' !in prefix && AllDigits(digits)
    ensures ',' !in prefix + digits
  {
    forall i | 0 <= i < |digits| ensures digits[i] != ',' {
      assert IsDigit(digits[i]);
    }
  }

  /** `swap_values`: the pair in the other order. */
  function SwapValues<T>(a: T, b: T): (r: (T, T))
  {
    (b, a)
  }

  /** Swapping puts each value in the other's place, and swapping back restores the pair. */
  lemma SwapValuesInvolution<T>(a: T, b: T)
    ensures SwapValues(a, b).0 == b && SwapValues(a, b).1 == a
    ensures var r := SwapValues(a, b); SwapValues(r.0, r.1) == (a, b)
  {
  }

  /** `max`: the first argument when it is at least the second, else the second. */
  function Max(a: int, b: int): (m: int)
    ensures m == a || m == b
    ensures m >= a && m >= b
  {
    if a >= b then a else b
  }

  /**
   * `find_largest`: the position of the reference returned. It starts at
   * the first element and moves only on a strictly larger one, so it is the
   * first occurrence of the maximum.
   */
  method FindLargest(slice: seq<int>) returns (largest: nat)
    requires |slice| > 0
    ensures largest < |slice|
    ensures forall j | 0 <= j < |slice| :: slice[j] <= slice[largest]
    ensures forall j | 0 <= j < largest :: slice[j] < slice[largest]
  {
    largest := 0;
    for i := 0 to |slice|
      invariant largest < |slice| && largest <= i
      invariant forall j | 0 <= j < i :: slice[j] <= slice[largest]
      invariant forall j | 0 <= j < largest :: slice[j] < slice[largest]
    {
      if slice[i] > slice[largest] {
        largest := i;
      }
    }
  }

  /** The tutorial's calls: `max(3, 7)`, `swap_values(5, 10)` and the largest of [3, 7, 2, 9, 5]. */
  method Scenario() returns (maxValue: int, swapped: (int, int), largest: int)
    ensures maxValue == 7 && swapped == (10, 5) && largest == 9
  {
    maxValue := Max(3, 7);
    swapped := SwapValues(5, 10);
    var numbers := [3, 7, 2, 9, 5];
    var k := FindLargest(numbers);
    largest := numbers[k];
    assert numbers[3] <= largest;
  }
}
