/**
 * `getSequence`: the increasing-subsequence routine the keyed diff uses to decide which nodes
 * stay in place. `tails` holds, for each length, the index of the smallest known tail of an
 * increasing run of that length (found by binary search); `pred` links each index to the one
 * before it in its run; the result is read back through `pred` from the last tail.
 *
 * As written, the routine skips entries equal to 0 (not the -1 that marks a new node), starts
 * `tails` as `[0]` whatever the first entry is, and returns `[0]` for an empty input.
 */
module Sequence {

  /** Index x starts a valid backward run of `len` elements through `pred`: each element's
      predecessor lies before it with a smaller value, and every element is index 0 or holds a
      non-zero value. */
  ghost predicate Chain(arr: seq<int>, pred: seq<int>, x: int, len: nat)
    requires |pred| == |arr|
    decreases len
  {
    && 0 <= x < |arr|
    && (x == 0 || arr[x] != 0)
    && (len > 1 ==> 0 <= pred[x] < x && arr[pred[x]] < arr[x] && Chain(arr, pred, pred[x], len - 1))
  }

  /** A run only depends on the links at or below its start. */
  lemma {:induction false} ChainFrame(arr: seq<int>, pred: seq<int>, x: int, len: nat, i: nat, v: int)
    requires |pred| == |arr| && i < |arr| && Chain(arr, pred, x, len) && x < i
    ensures Chain(arr, pred[i := v], x, len)
    decreases len
  {
    if len > 1 {
      ChainFrame(arr, pred, pred[x], len - 1, i, v);
    }
  }

  /** The tails are ordered by value, and each starts a run as long as its position says. */
  ghost predicate TailsOk(arr: seq<int>, pred: seq<int>, tails: seq<int>)
    requires |pred| == |arr|
  {
    && (forall a, b :: 0 <= a < b < |tails| ==> 0 <= tails[a] < |arr| && 0 <= tails[b] < |arr| && arr[tails[a]] < arr[tails[b]])
    && (forall k :: 0 <= k < |tails| ==> Chain(arr, pred, tails[k], k + 1))
  }

  /** A strictly increasing run of positions of `arr` with strictly increasing values, none of
      them a skipped 0 other than position 0 itself. */
  ghost predicate IncreasingRun(arr: seq<int>, r: seq<int>)
  {
    && (forall k :: 0 <= k < |r| ==> 0 <= r[k] < |arr| && (r[k] == 0 || arr[r[k]] != 0))
    && (forall a, b :: 0 <= a < b < |r| ==> r[a] < r[b] && arr[r[a]] < arr[r[b]])
  }

  /** The state of the main loop before position i. */
  ghost predicate Scanned(arr: seq<int>, pred: seq<int>, tails: seq<int>, i: nat)
  {
    && 0 < |arr| && i <= |arr| && |pred| == |arr| && 1 <= |tails|
    && (forall k :: 0 <= k < |tails| ==> tails[k] < |arr| && (i > 0 ==> tails[k] < i))
    && TailsOk(arr, pred, tails)
    && (i == 0 ==> tails == [0])
    && |tails| <= (if i == 0 then 1 else i)
  }

  /** `getSequence(arr)`. */
  method GetSequence(arr: seq<int>) returns (result: seq<int>)
    ensures arr == [] ==> result == [0]
    ensures arr != [] ==> 1 <= |result| <= |arr| && IncreasingRun(arr, result)
  {
    var pred := arr;
    var tails := [0];
    if |arr| == 0 {
      return tails;
    }
    var i := 0;
    while i < |arr|
      invariant Scanned(arr, pred, tails, i)
    {
      pred, tails := Place(arr, pred, tails, i);
      i := i + 1;
    }
    result := ReadBack(arr, pred, tails);
  }

  /** One pass of the main loop: an entry of 0 is skipped; an entry above the last tail extends
      the longest run; any other entry replaces the first tail that is not below it. */
  method Place(arr: seq<int>, pred: seq<int>, tails: seq<int>, i: nat) returns (pred': seq<int>, tails': seq<int>)
    requires Scanned(arr, pred, tails, i) && i < |arr|
    ensures Scanned(arr, pred', tails', i + 1)
    ensures |tails| <= |tails'| <= |tails| + 1
  {
    pred', tails' := pred, tails;
    var current := arr[i];
    if current == 0 {
      PlaceSkip(arr, pred, tails, i);
      return;
    }
    var j := tails[|tails| - 1];
    if arr[j] < current {
      PlaceExtend(arr, pred, tails, i);
      pred' := pred[i := j];
      tails' := tails + [i];
      return;
    }
    var left := SearchTail(arr, tails, current);
    if current < arr[tails[left]] {
      PlaceReplace(arr, pred, tails, i, left);
      if left > 0 {
        var p := tails[left - 1];
        pred' := pred[i := p];
      }
      tails' := tails[left := i];
    } else {
      PlaceSkip(arr, pred, tails, i);
    }
  }

  /** A pass that changes nothing keeps the state. */
  lemma PlaceSkip(arr: seq<int>, pred: seq<int>, tails: seq<int>, i: nat)
    requires Scanned(arr, pred, tails, i) && i < |arr|
    ensures Scanned(arr, pred, tails, i + 1)
  {
  }

  /** An entry above the last tail extends the longest run. */
  lemma PlaceExtend(arr: seq<int>, pred: seq<int>, tails: seq<int>, i: nat)
    requires Scanned(arr, pred, tails, i) && i < |arr| && arr[i] != 0
    requires 0 <= tails[|tails| - 1] < |arr| && arr[tails[|tails| - 1]] < arr[i]
    ensures Scanned(arr, pred[i := tails[|tails| - 1]], tails + [i], i + 1)
  {
    var j := tails[|tails| - 1];
    forall k | 0 <= k < |tails|
      ensures Chain(arr, pred[i := j], tails[k], k + 1)
    {
      ChainFrame(arr, pred, tails[k], k + 1, i, j);
    }
    var tails' := tails + [i];
    assert forall k :: 0 <= k < |tails| ==> tails'[k] == tails[k];
    assert forall a :: 0 <= a < |tails| ==> arr[tails[a]] <= arr[j];
  }

  /** Any other non-zero entry below some tail replaces the first tail not below it. */
  lemma PlaceReplace(arr: seq<int>, pred: seq<int>, tails: seq<int>, i: nat, left: nat)
    requires Scanned(arr, pred, tails, i) && i < |arr| && arr[i] != 0
    requires left < |tails| && 0 <= tails[left] < |arr| && arr[i] < arr[tails[left]]
    requires forall p :: 0 <= p < left ==> arr[tails[p]] < arr[i]
    ensures Scanned(arr, if left > 0 then pred[i := tails[left - 1]] else pred, tails[left := i], i + 1)
  {
    if left > 0 {
      var p := tails[left - 1];
      forall k | 0 <= k < |tails|
        ensures Chain(arr, pred[i := p], tails[k], k + 1)
      {
        ChainFrame(arr, pred, tails[k], k + 1, i, p);
      }
    }
  }

  /** The binary search over the tails: the first position whose value is not below `current`. */
  method SearchTail(arr: seq<int>, tails: seq<int>, current: int) returns (left: nat)
    requires 1 <= |tails| && forall k :: 0 <= k < |tails| ==> 0 <= tails[k] < |arr|
    requires forall a, b :: 0 <= a < b < |tails| ==> arr[tails[a]] < arr[tails[b]]
    requires current <= arr[tails[|tails| - 1]]
    ensures left < |tails| && current <= arr[tails[left]]
    ensures forall p :: 0 <= p < left ==> arr[tails[p]] < current
  {
    left := 0;
    var right := |tails| - 1;
    while left < right
      invariant 0 <= left <= right < |tails|
      invariant forall p :: 0 <= p < left ==> arr[tails[p]] < current
      invariant current <= arr[tails[right]]
    {
      var middle := (left + right) / 2;
      if arr[tails[middle]] < current {
        left := middle + 1;
      } else {
        right := middle;
      }
    }
  }

  /** The final loop: walks the links back from the last tail, overwriting the tails from the
      end. */
  method ReadBack(arr: seq<int>, pred: seq<int>, tails: seq<int>) returns (result: seq<int>)
    requires Scanned(arr, pred, tails, |arr|)
    ensures |result| == |tails| && IncreasingRun(arr, result)
  {
    result := tails;
    var m := |tails|;
    var right := tails[m - 1];
    var left := m;
    while left > 0
      invariant 0 <= left <= m == |result|
      invariant left > 0 ==> Chain(arr, pred, right, left)
      invariant 0 < left < m ==> 0 <= result[left] < |arr| && right < result[left] && arr[right] < arr[result[left]]
      invariant IncreasingRun(arr, result[left..])
    {
      left := left - 1;
      result := result[left := right];
      right := pred[right];
    }
  }
}
