/**
 * The functions tutorial: an addition, three ways of keeping the odd
 * numbers of a list (an iterator filter, a loop that pushes, and `retain`
 * on the caller's vector), and a function returning a pair.
 */
module Functions {
  import opened Numbers

  /** `sum`: the i32 sum, for operands whose sum does not overflow. */
  function Sum(a: i32, b: i32): (r: i32)
    requires InI32(a + b)
    ensures r == a + b
  {
    a + b
  }

  /** The filter's test `n % 2 != 0`, with Rust's truncating remainder. */
  predicate IsOdd(n: int)
  {
    TruncRem(n, 2) != 0
  }

  /** `get_odds`: the odd elements in their original order. */
  function GetOdds(numbers: seq<i32>): (odds: seq<i32>)
    ensures |odds| <= |numbers|
    ensures forall k | 0 <= k < |odds| :: IsOdd(odds[k])
  {
    if numbers == [] then []
    else (if IsOdd(numbers[0]) then [numbers[0]] else []) + GetOdds(numbers[1..])
  }

  lemma {:induction false} GetOddsAppend(a: seq<i32>, b: seq<i32>)
    ensures GetOdds(a + b) == GetOdds(a) + GetOdds(b)
    decreases |a|
  {
    if a != [] {
      assert (a + b)[1..] == a[1..] + b;
      GetOddsAppend(a[1..], b);
    } else {
      assert a + b == b;
    }
  }

  /** Each value occurs in the result as often as in the input if it is odd, and not at all otherwise. */
  lemma {:induction false} GetOddsCounts(numbers: seq<i32>)
    ensures forall x: i32 :: multiset(GetOdds(numbers))[x] == if IsOdd(x) then multiset(numbers)[x] else 0
    decreases |numbers|
  {
    if numbers != [] {
      GetOddsCounts(numbers[1..]);
      assert numbers == [numbers[0]] + numbers[1..];
      assert multiset(numbers) == multiset{numbers[0]} + multiset(numbers[1..]);
    }
  }

  /** `a` is `b` with some elements left out, the rest kept in order. */
  predicate IsSubsequence(a: seq<i32>, b: seq<i32>)
    decreases |b|
  {
    a == [] || (b != [] && if a[0] == b[0] then IsSubsequence(a[1..], b[1..]) else IsSubsequence(a, b[1..]))
  }

  lemma {:induction false} SubsequenceOfTail(a: seq<i32>, b: seq<i32>)
    requires b != [] && IsSubsequence(a, b[1..])
    ensures IsSubsequence(a, b)
    decreases |b|, |a|
  {
    if a != [] && a[0] == b[0] {
      // b[0] matches a[0]: a[1..] is also a subsequence of b[1..]
      SubsequenceDropHead(a, b[1..]);
    }
  }

  lemma {:induction false} SubsequenceDropHead(a: seq<i32>, b: seq<i32>)
    requires a != [] && IsSubsequence(a, b)
    ensures IsSubsequence(a[1..], b)
    decreases |b|, |a|
  {
    if a[0] == b[0] {
      if b[1..] != [] {
        SubsequenceOfTail(a[1..], b);
      } else {
        assert a[1..] == [];
      }
    } else {
      SubsequenceDropHead(a, b[1..]);
      SubsequenceOfTail(a[1..], b);
    }
  }

  /** The relative order of the kept elements is the input's. */
  lemma {:induction false} GetOddsIsSubsequence(numbers: seq<i32>)
    ensures IsSubsequence(GetOdds(numbers), numbers)
    decreases |numbers|
  {
    if numbers != [] {
      GetOddsIsSubsequence(numbers[1..]);
      if !IsOdd(numbers[0]) {
        assert GetOdds(numbers) == GetOdds(numbers[1..]);
        SubsequenceOfTail(GetOdds(numbers), numbers);
      }
    }
  }

  /** Filtering twice keeps what filtering once kept. */
  lemma {:induction false} GetOddsIdempotent(numbers: seq<i32>)
    ensures GetOdds(GetOdds(numbers)) == GetOdds(numbers)
    decreases |numbers|
  {
    if numbers != [] {
      GetOddsIdempotent(numbers[1..]);
      var head := if IsOdd(numbers[0]) then [numbers[0]] else [];
      GetOddsAppend(head, GetOdds(numbers[1..]));
    }
  }

  /** Negative odd numbers are kept: `-3 % 2` is `-1` in Rust. */
  lemma GetOddsKeepsNegatives()
    ensures GetOdds([-3, -2, 0, 1, 4, 7]) == [-3, 1, 7]
  {
    var s: seq<i32> := [-3, -2, 0, 1, 4, 7];
    assert s[1..][1..][1..][1..][1..][1..] == [];
  }

  /** `get_odds_loop`: walks the slice and pushes each odd element; the same result as `get_odds`. */
  method GetOddsLoop(numbers: seq<i32>) returns (result: seq<i32>)
    ensures result == GetOdds(numbers)
  {
    result := [];
    for k := 0 to |numbers|
      invariant result == GetOdds(numbers[..k])
    {
      if IsOdd(numbers[k]) {
        result := result + [numbers[k]];
      }
      assert numbers[..k + 1] == numbers[..k] + [numbers[k]];
      GetOddsAppend(numbers[..k], [numbers[k]]);
    }
    assert numbers[..|numbers|] == numbers;
  }

  /** A `Vec<i32>`: a buffer whose first `len` slots are the elements. */
  class Vec {
    var buf: array<i32>
    var len: nat

    ghost predicate Valid()
      reads this
    {
      len <= buf.Length
    }

    function Contents(): seq<i32>
      requires Valid()
      reads this, buf
    {
      buf[..len]
    }

    constructor FromSeq(s: seq<i32>)
      ensures Valid() && fresh(buf) && Contents() == s
    {
      buf := new i32[|s|](i requires 0 <= i < |s| => s[i]);
      len := |s|;
    }
  }

  /**
   * `filter_odds_in_place`: `retain` keeps the odd elements in the caller's
   * vector, shifting each kept element down over the removed ones.
   */
  method FilterOddsInPlace(numbers: Vec)
    requires numbers.Valid()
    modifies numbers, numbers.buf
    ensures numbers.Valid() && numbers.buf == old(numbers.buf)
    ensures numbers.Contents() == GetOdds(old(numbers.Contents()))
  {
    ghost var before := numbers.Contents();
    var buf, len := numbers.buf, numbers.len;
    var write := 0;
    for read := 0 to len
      invariant numbers.buf == buf && numbers.len == len
      invariant write <= read
      invariant buf[..write] == GetOdds(before[..read])
      invariant forall k | read <= k < len :: buf[k] == before[k]
    {
      assert buf[read] == before[read];
      assert before[..read + 1] == before[..read] + [before[read]];
      GetOddsAppend(before[..read], [before[read]]);
      if IsOdd(buf[read]) {
        buf[write] := buf[read];
        write := write + 1;
      }
    }
    assert before[..len] == before;
    numbers.len := write;
  }

  /** `move_position`: both coordinates move by the acceleration. */
  function MovePosition(x: i32, y: i32, acceleration: i32): (p: (i32, i32))
    requires InI32(x + acceleration) && InI32(y + acceleration)
    ensures p.0 - x == acceleration && p.1 - y == acceleration
  {
    (x + acceleration, y + acceleration)
  }

  /** Two moves compose into one by the summed acceleration; a zero move stays put. */
  lemma MovePositionComposes(x: i32, y: i32, a: i32, b: i32)
    requires InI32(x + a) && InI32(y + a) && InI32(x + a + b) && InI32(y + a + b) && InI32(a + b)
    ensures var p := MovePosition(x, y, a); MovePosition(p.0, p.1, b) == MovePosition(x, y, a + b)
    ensures MovePosition(x, y, 0) == (x, y)
  {
  }
}
