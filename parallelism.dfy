/** The sequential pipeline of the parallelism demo: keep the positive numbers and double them. */
module Parallelism {
  import opened Numbers

  /** Doubling each positive element stays within i32 (otherwise a debug build panics). */
  predicate DoublingFits(numbers: seq<i32>)
  {
    forall k | 0 <= k < |numbers| :: numbers[k] > 0 ==> 2 * numbers[k] <= I32_MAX
  }

  /**
   * `process_positive_numbers`: `filter(x > 0)` then `map(x * 2)`, in input
   * order. The doubled values are computed exactly; `ProcessFits` says when
   * they are all `i32` values, that is, when the source does not panic.
   */
  function ProcessPositiveNumbers(numbers: seq<i32>): (processed: seq<int>)
    ensures |processed| <= |numbers|
  {
    if numbers == [] then []
    else (if numbers[0] > 0 then [2 * numbers[0]] else []) + ProcessPositiveNumbers(numbers[1..])
  }

  /** Every output element is positive and even. */
  lemma {:induction false} ProcessPositiveEven(numbers: seq<i32>)
    ensures forall k | 0 <= k < |ProcessPositiveNumbers(numbers)| ::
      ProcessPositiveNumbers(numbers)[k] > 0 && ProcessPositiveNumbers(numbers)[k] % 2 == 0
    decreases |numbers|
  {
    if numbers != [] {
      ProcessPositiveEven(numbers[1..]);
    }
  }

  /** Every value of `s` is at most `i32::MAX`. */
  predicate AllFit(s: seq<int>)
  {
    forall k | 0 <= k < |s| :: s[k] <= I32_MAX
  }

  lemma AllFitAppend(a: seq<int>, b: seq<int>)
    ensures AllFit(a + b) <==> AllFit(a) && AllFit(b)
  {
    if AllFit(a + b) {
      forall k | 0 <= k < |a| ensures a[k] <= I32_MAX {
        assert a[k] == (a + b)[k];
      }
      forall k | 0 <= k < |b| ensures b[k] <= I32_MAX {
        assert b[k] == (a + b)[k + |a|];
      }
    }
  }

  /** The guard holds for a non-empty list exactly when it holds for its head and its tail. */
  lemma FitsCons(numbers: seq<i32>)
    requires numbers != []
    ensures DoublingFits(numbers) <==>
      (numbers[0] > 0 ==> 2 * (numbers[0] as int) <= I32_MAX) && DoublingFits(numbers[1..])
  {
    var rest := numbers[1..];
    if DoublingFits(numbers) {
      forall k | 0 <= k < |rest| && rest[k] > 0 ensures 2 * rest[k] <= I32_MAX {
        assert rest[k] == numbers[k + 1];
      }
    }
  }

  /** The output holds only `i32` values exactly when no doubling overflows. */
  lemma {:induction false} ProcessFits(numbers: seq<i32>)
    ensures DoublingFits(numbers) <==> AllFit(ProcessPositiveNumbers(numbers))
    decreases |numbers|
  {
    if numbers != [] {
      var rest := numbers[1..];
      ProcessFits(rest);
      FitsCons(numbers);
      var head: seq<int> := if numbers[0] > 0 then [2 * (numbers[0] as int)] else [];
      assert ProcessPositiveNumbers(numbers) == head + ProcessPositiveNumbers(rest);
      AllFitAppend(head, ProcessPositiveNumbers(rest));
    }
  }

  /** The pipeline distributes over concatenation: it processes each element on its own. */
  lemma {:induction false} ProcessAppend(a: seq<i32>, b: seq<i32>)
    ensures ProcessPositiveNumbers(a + b) == ProcessPositiveNumbers(a) + ProcessPositiveNumbers(b)
    decreases |a|
  {
    if a == [] {
      assert a + b == b;
    } else {
      var head: seq<int> := if a[0] > 0 then [2 * (a[0] as int)] else [];
      assert (a + b)[0] == a[0] && (a + b)[1..] == a[1..] + b;
      assert ProcessPositiveNumbers(a + b) == head + ProcessPositiveNumbers(a[1..] + b);
      ProcessAppend(a[1..], b);
      assert ProcessPositiveNumbers(a) == head + ProcessPositiveNumbers(a[1..]);
    }
  }

  /** Zero and negative elements, wherever they stand, contribute nothing. */
  lemma NonPositiveDropped(a: seq<i32>, x: i32, b: seq<i32>)
    requires x <= 0
    ensures ProcessPositiveNumbers(a + [x] + b) == ProcessPositiveNumbers(a + b)
  {
    var single := [x];
    assert ProcessPositiveNumbers(single) == [];
    ProcessAppend(a, single);
    assert ProcessPositiveNumbers(a + single) == ProcessPositiveNumbers(a);
    ProcessAppend(a + single, b);
    ProcessAppend(a, b);
  }

  /** The output is the doubled positive elements: each output element halves to a positive input element, counted alike. */
  lemma ProcessCounts(numbers: seq<i32>)
    ensures forall y: int | y > 0 :: multiset(ProcessPositiveNumbers(numbers))[2 * y] == multiset(numbers)[y]
    ensures forall y: int | y <= 0 || y % 2 == 1 :: multiset(ProcessPositiveNumbers(numbers))[y] == 0
  {
    ProcessDoubledCounts(numbers);
    forall y: int | y <= 0 || y % 2 == 1 ensures multiset(ProcessPositiveNumbers(numbers))[y] == 0 {
      ProcessOmits(numbers, y);
    }
  }

  /** A value that is not positive, or is odd, never appears in the output. */
  lemma ProcessOmits(numbers: seq<i32>, y: int)
    requires y <= 0 || y % 2 == 1
    ensures y !in ProcessPositiveNumbers(numbers)
  {
    var out := ProcessPositiveNumbers(numbers);
    ProcessPositiveEven(numbers);
    forall k | 0 <= k < |out| ensures out[k] != y {
      assert out[k] > 0 && out[k] % 2 == 0;
    }
  }

  lemma {:induction false} ProcessDoubledCounts(numbers: seq<i32>)
    ensures forall y: int | y > 0 :: multiset(ProcessPositiveNumbers(numbers))[2 * y] == multiset(numbers)[y]
    decreases |numbers|
  {
    if numbers != [] {
      ProcessDoubledCounts(numbers[1..]);
      assert numbers == [numbers[0]] + numbers[1..];
      assert multiset(numbers) == multiset{numbers[0]} + multiset(numbers[1..]);
    }
  }

  /** One step of the recursion, read on the suffix of `numbers` that starts at a kept element `k`. */
  lemma ProcessKeep(numbers: seq<i32>, k: nat, rest: seq<int>)
    requires k < |numbers| && numbers[k] > 0 && ProcessPositiveNumbers(numbers[k + 1..]) == rest
    ensures ProcessPositiveNumbers(numbers[k..]) == [2 * numbers[k]] + rest
  {
    assert numbers[k..][1..] == numbers[k + 1..];
  }

  /** One step of the recursion, read on the suffix of `numbers` that starts at a dropped element `k`. */
  lemma ProcessDrop(numbers: seq<i32>, k: nat, rest: seq<int>)
    requires k < |numbers| && numbers[k] <= 0 && ProcessPositiveNumbers(numbers[k + 1..]) == rest
    ensures ProcessPositiveNumbers(numbers[k..]) == rest
  {
    assert numbers[k..][1..] == numbers[k + 1..];
  }

  /** The second half of the demo's input, 6, -7, 8, 9, -10, and its output. */
  lemma ProcessExampleTail(numbers: seq<i32>)
    requires |numbers| == 10 && numbers[5] == 6 && numbers[6] == -7 && numbers[7] == 8 && numbers[8] == 9
    requires numbers[9] == -10
    ensures ProcessPositiveNumbers(numbers[5..]) == [12, 16, 18]
  {
    assert numbers[10..] == [];
    var processed: seq<int> := [];
    ProcessDrop(numbers, 9, processed);
    ProcessKeep(numbers, 8, processed);
    processed := [18] + processed;
    ProcessKeep(numbers, 7, processed);
    processed := [16] + processed;
    ProcessDrop(numbers, 6, processed);
    ProcessKeep(numbers, 5, processed);
    processed := [12] + processed;
  }

  /** The demo's input, given element by element, and its output. */
  lemma ProcessExample(numbers: seq<i32>)
    requires |numbers| == 10 && numbers[0] == 1 && numbers[1] == -2 && numbers[2] == 3 && numbers[3] == -4
    requires numbers[4] == 5 && numbers[5] == 6 && numbers[6] == -7 && numbers[7] == 8 && numbers[8] == 9
    requires numbers[9] == -10
    ensures ProcessPositiveNumbers(numbers) == [2, 6, 10, 12, 16, 18]
  {
    var processed: seq<int> := [12, 16, 18];
    ProcessExampleTail(numbers);
    ProcessKeep(numbers, 4, processed);
    processed := [10] + processed;
    ProcessDrop(numbers, 3, processed);
    ProcessKeep(numbers, 2, processed);
    processed := [6] + processed;
    ProcessDrop(numbers, 1, processed);
    ProcessKeep(numbers, 0, processed);
    processed := [2] + processed;
    assert numbers[0..] == numbers;
  }
}
