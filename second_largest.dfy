/** The largest / second-largest scan of `SecondLargest.main`, over the array it reads in.
    Both trackers start at `Integer.MIN_VALUE`, so "no such element" reads as MIN_VALUE. */
module SecondLargestScan {
  import opened JavaInt

  /** One pass: a new largest pushes the old one down to second place; a value strictly
      between the two (and not a copy of the largest) becomes the new second. The array
      is only read. */
  method SecondLargest(arr: array<int32>) returns (largest: int32, second: int32)
    ensures forall k :: 0 <= k < arr.Length ==> arr[k] <= largest
    ensures largest as int == MIN_VALUE || exists k :: 0 <= k < arr.Length && arr[k] == largest
    ensures forall k :: 0 <= k < arr.Length && arr[k] < largest ==> arr[k] <= second
    ensures second as int == MIN_VALUE || exists k :: 0 <= k < arr.Length && arr[k] == second
    ensures second < largest || (second as int == MIN_VALUE && largest as int == MIN_VALUE)
  {
    largest := MIN_VALUE as int32;
    second := MIN_VALUE as int32;
    for i := 0 to arr.Length
      invariant forall k :: 0 <= k < i ==> arr[k] <= largest
      invariant largest as int == MIN_VALUE || exists k :: 0 <= k < i && arr[k] == largest
      invariant forall k :: 0 <= k < i && arr[k] < largest ==> arr[k] <= second
      invariant second as int == MIN_VALUE || exists k :: 0 <= k < i && arr[k] == second
      invariant second < largest || (second as int == MIN_VALUE && largest as int == MIN_VALUE)
    {
      if arr[i] > largest {
        second := largest;
        largest := arr[i];
      } else if arr[i] > second && arr[i] != largest {
        second := arr[i];
      }
    }
  }

  /** Copies of the maximum never become the second largest: with 5, 9, 9 the answer is 5,
      and with all elements equal it is MIN_VALUE. */
  method RepeatedMaximum() returns (withCopies: int32, allEqual: int32)
    ensures withCopies == 5 && allEqual as int == MIN_VALUE
  {
    var a := new int32[3] [5, 9, 9];
    assert a[0] == 5 && a[1] == 9 && a[2] == 9;
    var l;
    l, withCopies := SecondLargest(a);
    assert l == 9 by { assert a[1] <= l; }
    assert a[0] < l;
    var b := new int32[2] [4, 4];
    assert b[0] == 4 && b[1] == 4;
    l, allEqual := SecondLargest(b);
    assert l == 4 by { assert b[0] <= l; }
  }
}
