/**
 * The de-duplicating draw loop of the control-flow tutorial. The random
 * generator is replaced by the sequence of values it would have drawn.
 */
module ControlFlows {
  import opened Numbers

  /** `random_range(1..=100)` only yields values in this range. */
  predicate InDrawRange(x: int) { 1 <= x <= 100 }

  predicate NoDuplicates(s: seq<i32>)
  {
    forall i, j | 0 <= i < j < |s| :: s[i] != s[j]
  }

  /**
   * The draws with every repeat of an earlier draw skipped: what the loop
   * accumulates. It holds each drawn value once.
   */
  function Dedup(draws: seq<i32>): (kept: seq<i32>)
    ensures |kept| <= |draws|
    ensures NoDuplicates(kept)
    ensures forall x :: x in kept <==> x in draws
  {
    if draws == [] then []
    else
      var kept := Dedup(draws[..|draws| - 1]);
      var x := draws[|draws| - 1];
      if x in kept then kept else kept + [x]
  }

  /** Position of the first occurrence of a value. */
  function FirstIndex(s: seq<i32>, x: i32): (k: nat)
    requires x in s
    ensures k < |s| && s[k] == x
    ensures forall j | 0 <= j < k :: s[j] != x
  {
    if s[0] == x then 0 else 1 + FirstIndex(s[1..], x)
  }

  lemma {:induction false} FirstIndexSnoc(s: seq<i32>, x: i32, y: i32)
    requires y in s
    ensures FirstIndex(s + [x], y) == FirstIndex(s, y)
  {
    var k := FirstIndex(s, y);
    var k' := FirstIndex(s + [x], y);
    assert (s + [x])[k] == y;
    assert k' <= k;
    assert s[k'] == y;
  }

  /** The kept values are in the order of their first draw. */
  lemma {:induction false} DedupFirstDrawOrder(draws: seq<i32>)
    ensures forall i, j | 0 <= i < j < |Dedup(draws)| :: FirstIndex(draws, Dedup(draws)[i]) < FirstIndex(draws, Dedup(draws)[j])
    decreases |draws|
  {
    if draws != [] {
      var init := draws[..|draws| - 1];
      var x := draws[|draws| - 1];
      assert draws == init + [x];
      DedupFirstDrawOrder(init);
      var kept := Dedup(init);
      forall y | y in kept ensures FirstIndex(draws, y) == FirstIndex(init, y) {
        FirstIndexSnoc(init, x, y);
      }
      if x !in kept {
        assert FirstIndex(draws, x) == |draws| - 1;
      }
    }
  }

  /**
   * `get_random_numbers`: `upper_limit` draws; a draw already kept is
   * skipped with `continue`, any other is pushed.
   */
  method GetRandomNumbers(draws: seq<i32>, upperLimit: u8) returns (numbers: seq<i32>)
    requires |draws| == upperLimit
    requires forall k | 0 <= k < |draws| :: InDrawRange(draws[k])
    ensures numbers == Dedup(draws)
    ensures |numbers| <= upperLimit
    ensures forall k | 0 <= k < |numbers| :: InDrawRange(numbers[k])
  {
    numbers := [];
    for i := 0 to upperLimit
      invariant numbers == Dedup(draws[..i])
    {
      var randomNumber := draws[i];
      assert draws[..i + 1][..i] == draws[..i];
      if randomNumber in numbers {
        continue;
      }
      numbers := numbers + [randomNumber];
    }
    assert draws[..upperLimit] == draws;
    forall k | 0 <= k < |numbers| ensures InDrawRange(numbers[k]) {
      assert numbers[k] in Dedup(draws);
      var j :| 0 <= j < |draws| && draws[j] == numbers[k];
    }
  }

  /** A repeated draw changes nothing; a new one is appended and nothing else changes. */
  lemma DedupStep(draws: seq<i32>, x: i32)
    ensures x in draws ==> Dedup(draws + [x]) == Dedup(draws)
    ensures x !in draws ==> Dedup(draws + [x]) == Dedup(draws) + [x]
  {
    assert (draws + [x])[..|draws|] == draws;
  }

  /** Three draws with a repeat keep two values, in draw order. */
  lemma DedupExample()
    ensures Dedup([7, 3, 7]) == [7, 3]
  {
    var s: seq<i32> := [7, 3, 7];
    assert s[..2][..1] == [7];
    assert s[..2] == [7, 3];
  }
}
