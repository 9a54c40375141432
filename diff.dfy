/**
 * The keyed "quick diff" of two child lists, with children reduced to their keys and the DOM
 * work recorded as a log of operations on old and new positions.
 *
 * As written: the prefix and suffix scans have no bounds checks, so running off either list
 * reads `.key` of undefined and throws (identical lists, lists where one is a prefix or suffix
 * of the other, empty lists); the anchor of the mounted range is always null; falsy keys count
 * as missing; the key index is keyed by the string form of the key, later children winning;
 * and new children are mounted only when some node has to move.
 */
module Diff {
  import opened Js
  import opened Sequence

  /** One recorded DOM step: patch old child i into new child j, mount new child j before the
      anchor (a new position, or the end), unmount old child i, move new child j before the
      anchor. */
  datatype Op =
    | Patch(oldIdx: nat, newIdx: nat)
    | Mount(newIdx: nat, anchor: Option<nat>)
    | Unmount(oldIdx: nat)
    | Move(newIdx: nat, anchor: Option<nat>)

  /** A completed diff, or one that threw part-way, with the steps taken before the throw. */
  datatype Outcome = Done(log: seq<Op>) | Thrown(log: seq<Op>)

  /** Keys that are primitives, whose string form is modelled. */
  predicate PrimitiveKey(v: JsValue)
  {
    !(v.Object? || v.Array? || v.Function?)
  }

  predicate PrimitiveKeys(keys: seq<JsValue>)
  {
    forall x :: 0 <= x < |keys| ==> PrimitiveKey(keys[x])
  }

  /** `String(key)`, the property name a key is stored under in the key index. */
  function KeyString(v: JsValue): string
    requires PrimitiveKey(v)
  {
    match v
    case Undefined => "undefined"
    case Null => "null"
    case Bool(b) => if b then "true" else "false"
    case Num(n) => if n < 0 then "-" + Decimal(-n) else Decimal(n)
    case Str(s) => s
  }

  // ---------------------------------------------------------------------------------------
  // What a log does to each position

  /** What an operation does to a position: patches it as an old or as a new child, unmounts
      it, mounts it, or moves it. */
  datatype Kind = PatchedOld | PatchedNew | Unmounted | Mounted | Moved

  /** Old positions are patched from or unmounted; the others are new positions. */
  predicate OnOld(k: Kind)
  {
    k == PatchedOld || k == Unmounted
  }

  predicate Touches(op: Op, k: Kind, x: int)
  {
    match k
    case PatchedOld => op.Patch? && op.oldIdx == x
    case PatchedNew => op.Patch? && op.newIdx == x
    case Unmounted => op.Unmount? && op.oldIdx == x
    case Mounted => op.Mount? && op.newIdx == x
    case Moved => op.Move? && op.newIdx == x
  }

  /** The log does k to position x. */
  predicate Logged(log: seq<Op>, k: Kind, x: int)
  {
    exists t :: 0 <= t < |log| && Touches(log[t], k, x)
  }

  /** Two children are matched by the diff: their keys are identical, or the old key is truthy
      and both have the same string form (the key index lookup). */
  ghost predicate SameKey(prev: seq<JsValue>, next: seq<JsValue>, i: int, j: int)
  {
    && 0 <= i < |prev| && 0 <= j < |next|
    && (prev[i] == next[j]
        || (PrimitiveKey(prev[i]) && PrimitiveKey(next[j]) && Truthy(prev[i]) && KeyString(prev[i]) == KeyString(next[j])))
  }

  /** Every patch in the log pairs an old and a new child the diff matched. */
  ghost predicate KeyedPatches(prev: seq<JsValue>, next: seq<JsValue>, log: seq<Op>)
  {
    forall t :: 0 <= t < |log| && log[t].Patch? ==> SameKey(prev, next, log[t].oldIdx, log[t].newIdx)
  }

  lemma LoggedAppend(a: seq<Op>, b: seq<Op>)
    ensures forall k, x :: Logged(a + b, k, x) <==> Logged(a, k, x) || Logged(b, k, x)
  {
    forall k, x
      ensures Logged(a + b, k, x) <==> Logged(a, k, x) || Logged(b, k, x)
    {
      if Logged(a, k, x) {
        var t :| 0 <= t < |a| && Touches(a[t], k, x);
        assert (a + b)[t] == a[t];
      }
      if Logged(b, k, x) {
        var t :| 0 <= t < |b| && Touches(b[t], k, x);
        assert (a + b)[|a| + t] == b[t];
      }
      if Logged(a + b, k, x) {
        var t :| 0 <= t < |a + b| && Touches((a + b)[t], k, x);
        if t < |a| {
          assert (a + b)[t] == a[t];
        } else {
          assert (a + b)[t] == b[t - |a|];
        }
      }
    }
  }

  /** What the log does stays logged when more steps follow. */
  lemma LoggedPrefix(a: seq<Op>, b: seq<Op>, k: Kind, x: int)
    requires Logged(a, k, x)
    ensures Logged(a + b, k, x)
  {
    var t :| 0 <= t < |a| && Touches(a[t], k, x);
    assert (a + b)[t] == a[t];
  }

  lemma KeyedAppend(prev: seq<JsValue>, next: seq<JsValue>, a: seq<Op>, b: seq<Op>)
    requires KeyedPatches(prev, next, a) && KeyedPatches(prev, next, b)
    ensures KeyedPatches(prev, next, a + b)
  {
    forall t | 0 <= t < |a + b| && (a + b)[t].Patch?
      ensures SameKey(prev, next, (a + b)[t].oldIdx, (a + b)[t].newIdx)
    {
      if t >= |a| {
        assert (a + b)[t] == b[t - |a|];
      } else {
        assert (a + b)[t] == a[t];
      }
    }
  }

  lemma LogSingle(op: Op)
    ensures forall k, x :: Logged([op], k, x) <==> Touches(op, k, x)
  {
    forall k, x | Touches(op, k, x)
      ensures Logged([op], k, x)
    {
      assert [op][0] == op;
    }
  }

  // ---------------------------------------------------------------------------------------
  // The scans from both ends

  /** Where the scan from the front stops: the first position from s on where the lists differ
      or one of them ends. */
  function PrefixStop(prev: seq<JsValue>, next: seq<JsValue>, s: nat): (e: nat)
    requires s <= |prev| && s <= |next|
    ensures s <= e <= |prev| && e <= |next|
    decreases |prev| - s
  {
    if s == |prev| || s == |next| || prev[s] != next[s] then s
    else PrefixStop(prev, next, s + 1)
  }

  /** The scan from the front passes exactly the common prefix. */
  lemma {:induction false} PrefixStopMeaning(prev: seq<JsValue>, next: seq<JsValue>, s: nat)
    requires s <= |prev| && s <= |next|
    ensures var e := PrefixStop(prev, next, s);
            (forall k :: s <= k < e ==> prev[k] == next[k]) && (e < |prev| && e < |next| ==> prev[e] != next[e])
    decreases |prev| - s
  {
    if s < |prev| && s < |next| && prev[s] == next[s] {
      PrefixStopMeaning(prev, next, s + 1);
    }
  }

  /** Where the scan from the ends oe / ne stops: the first pair, going backwards, whose keys
      differ or where one side has gone below lo. */
  function SuffixStop(prev: seq<JsValue>, next: seq<JsValue>, lo: nat, oe: int, ne: int): (r: (int, int))
    requires lo - 1 <= oe < |prev| && lo - 1 <= ne < |next|
    ensures lo - 1 <= r.0 <= oe && lo - 1 <= r.1 <= ne && oe - r.0 == ne - r.1
    decreases oe + 1
  {
    if oe < lo || ne < lo || prev[oe] != next[ne] then (oe, ne)
    else SuffixStop(prev, next, lo, oe - 1, ne - 1)
  }

  /** The scan from the ends passes exactly the common suffix above lo. */
  lemma {:induction false} SuffixStopMeaning(prev: seq<JsValue>, next: seq<JsValue>, lo: nat, oe: int, ne: int)
    requires lo - 1 <= oe < |prev| && lo - 1 <= ne < |next|
    ensures var (a, b) := SuffixStop(prev, next, lo, oe, ne);
            (forall t :: a < t <= oe ==> prev[t] == next[t + ne - oe])
            && (a >= lo && b >= lo ==> prev[a] != next[b])
    decreases oe + 1
  {
    if oe >= lo && ne >= lo && prev[oe] == next[ne] {
      SuffixStopMeaning(prev, next, lo, oe - 1, ne - 1);
    }
  }

  /** The scan from the front: patches each leading pair with equal keys and stops where
      `PrefixStop` says. */
  method ScanPrefix(prev: seq<JsValue>, next: seq<JsValue>) returns (start: nat, log: seq<Op>)
    ensures start == PrefixStop(prev, next, 0)
    ensures forall k :: 0 <= k < start ==> prev[k] == next[k]
    ensures forall k, x :: Logged(log, k, x) <==> (k == PatchedOld || k == PatchedNew) && 0 <= x < start
    ensures forall x :: 0 <= x < start ==> Patch(x, x) in log
    ensures forall t :: 0 <= t < |log| ==> log[t].Patch?
    ensures KeyedPatches(prev, next, log)
  {
    start, log := 0, [];
    while start < |prev| && start < |next| && prev[start] == next[start]
      invariant start <= |prev| && start <= |next|
      invariant PrefixStop(prev, next, 0) == PrefixStop(prev, next, start)
      invariant forall k :: 0 <= k < start ==> prev[k] == next[k]
      invariant |log| == start && forall k :: 0 <= k < start ==> log[k] == Patch(k, k)
      decreases |prev| - start
    {
      log := log + [Patch(start, start)];
      start := start + 1;
    }
    forall k, x | (k == PatchedOld || k == PatchedNew) && 0 <= x < start
      ensures Logged(log, k, x)
    {
      assert Touches(log[x], k, x);
    }
    assert forall x :: 0 <= x < start ==> log[x] == Patch(x, x);
  }

  /** The scan from the ends: patches each trailing pair with equal keys, from the ends inwards,
      while both positions are at least lo. */
  method ScanSuffix(prev: seq<JsValue>, next: seq<JsValue>, lo: nat) returns (oe: int, ne: int, log: seq<Op>)
    requires lo <= |prev| && lo <= |next|
    ensures (oe, ne) == SuffixStop(prev, next, lo, |prev| - 1, |next| - 1)
    ensures forall t :: oe < t < |prev| ==> prev[t] == next[t - oe + ne]
    ensures forall k, x :: Logged(log, k, x) <==> (k == PatchedOld && oe < x < |prev|) || (k == PatchedNew && ne < x < |next|)
    ensures forall t :: 0 <= t < |log| ==> log[t].Patch?
    ensures KeyedPatches(prev, next, log)
  {
    oe, ne, log := |prev| - 1, |next| - 1, [];
    while oe >= lo && ne >= lo && prev[oe] == next[ne]
      invariant lo - 1 <= oe < |prev| && lo - 1 <= ne < |next| && |prev| - oe == |next| - ne
      invariant SuffixStop(prev, next, lo, |prev| - 1, |next| - 1) == SuffixStop(prev, next, lo, oe, ne)
      invariant forall t :: oe < t < |prev| ==> prev[t] == next[t - oe + ne]
      invariant |log| == |prev| - 1 - oe
      invariant forall k :: 0 <= k < |log| ==> log[k] == Patch(|prev| - 1 - k, |next| - 1 - k)
      decreases oe
    {
      log := log + [Patch(oe, ne)];
      oe, ne := oe - 1, ne - 1;
    }
    forall k, x | (k == PatchedOld && oe < x < |prev|) || (k == PatchedNew && ne < x < |next|)
      ensures Logged(log, k, x)
    {
      var t := if k == PatchedOld then |prev| - 1 - x else |next| - 1 - x;
      assert Touches(log[t], k, x);
    }
    forall t | 0 <= t < |log| && log[t].Patch?
      ensures SameKey(prev, next, log[t].oldIdx, log[t].newIdx)
    {
      var o := |prev| - 1 - t;
      assert prev[o] == next[o - oe + ne];
    }
  }

  // ---------------------------------------------------------------------------------------
  // The branch the diff takes

  /** The branch taken after both scans: a scan ran off a list and threw; only new children
      are left (mounted); only old children are left (unmounted); the general case would
      allocate an array of negative length and throws; or the general case. */
  datatype Plan =
    | ScanThrows
    | Adds(s: nat, ne: int)
    | Removes(s: nat, oe: int)
    | CountThrows
    | General(s: nat, oe: int, ne: int)

  /** The branch the diff takes. `bounded` selects scans that stop at the ends of the lists
      and do not let the two scans overlap; without it the scans run as written. */
  function PlanOf(prev: seq<JsValue>, next: seq<JsValue>, bounded: bool): Plan
  {
    var s := PrefixStop(prev, next, 0);
    if !bounded && (s == |prev| || s == |next|) then ScanThrows
    else
      var (oe, ne) := SuffixStop(prev, next, if bounded then s else 0, |prev| - 1, |next| - 1);
      if !bounded && (oe < 0 || ne < 0) then ScanThrows
      else if s > oe && s <= ne then Adds(s, ne)
      else if s > ne && s <= oe then Removes(s, oe)
      else if ne - s + 1 < 0 then CountThrows
      else General(s, oe, ne)
  }

  /** As written, the scans throw exactly when one key list is a prefix of the other or one is
      a suffix of the other (equal lists and empty lists included). */
  lemma ScanThrowsIff(prev: seq<JsValue>, next: seq<JsValue>)
    ensures PlanOf(prev, next, false).ScanThrows? <==>
              (forall k :: 0 <= k < |prev| && k < |next| ==> prev[k] == next[k])
              || (forall t :: 0 <= t < |prev| && 0 <= t + |next| - |prev| ==> prev[t] == next[t + |next| - |prev|])
  {
    var s := PrefixStop(prev, next, 0);
    var r := SuffixStop(prev, next, 0, |prev| - 1, |next| - 1);
    assert PlanOf(prev, next, false).ScanThrows? <==> s == |prev| || s == |next| || r.0 < 0 || r.1 < 0;
    PrefixAll(prev, next);
    SuffixAll(prev, next);
  }

  /** The scan from the front reaches an end exactly when one list is a prefix of the other. */
  lemma PrefixAll(prev: seq<JsValue>, next: seq<JsValue>)
    ensures var s := PrefixStop(prev, next, 0);
            (s == |prev| || s == |next|) <==> forall k :: 0 <= k < |prev| && k < |next| ==> prev[k] == next[k]
  {
    PrefixStopMeaning(prev, next, 0);
  }

  /** The scan from the ends goes below 0 exactly when one list is a suffix of the other. */
  lemma SuffixAll(prev: seq<JsValue>, next: seq<JsValue>)
    ensures var r := SuffixStop(prev, next, 0, |prev| - 1, |next| - 1);
            (r.0 < 0 || r.1 < 0) <==> forall t :: 0 <= t < |prev| && 0 <= t + |next| - |prev| ==> prev[t] == next[t + |next| - |prev|]
  {
    var r := SuffixStop(prev, next, 0, |prev| - 1, |next| - 1);
    if r.0 >= 0 && r.1 >= 0 {
      SuffixMismatch(prev, next, r.0, r.1);
      assert prev[r.0] != next[r.0 + |next| - |prev|];
    } else {
      SuffixMatches(prev, next, r.0, r.1);
    }
  }

  /** Where the scan from the ends stops inside both lists, it names a pair of keys at the same
      distance from the ends that differ. */
  lemma SuffixMismatch(prev: seq<JsValue>, next: seq<JsValue>, a: int, b: int)
    requires (a, b) == SuffixStop(prev, next, 0, |prev| - 1, |next| - 1) && a >= 0 && b >= 0
    ensures 0 <= a < |prev| && b == a + |next| - |prev| && 0 <= b < |next| && prev[a] != next[b]
  {
    SuffixStopDiffers(prev, next, 0, |prev| - 1, |next| - 1);
  }

  /** Where the scan from the ends stops inside both lists, the keys differ. */
  lemma {:induction false} SuffixStopDiffers(prev: seq<JsValue>, next: seq<JsValue>, lo: nat, oe: int, ne: int)
    requires lo - 1 <= oe < |prev| && lo - 1 <= ne < |next|
    ensures var r := SuffixStop(prev, next, lo, oe, ne);
            r.0 >= lo && r.1 >= lo ==> prev[r.0] != next[r.1]
    decreases oe + 1
  {
    if oe >= lo && ne >= lo && prev[oe] == next[ne] {
      SuffixStopDiffers(prev, next, lo, oe - 1, ne - 1);
    }
  }

  lemma SuffixMatches(prev: seq<JsValue>, next: seq<JsValue>, a: int, b: int)
    requires (a, b) == SuffixStop(prev, next, 0, |prev| - 1, |next| - 1) && (a < 0 || b < 0)
    ensures forall t :: 0 <= t < |prev| && 0 <= t + |next| - |prev| ==> prev[t] == next[t + |next| - |prev|]
  {
    forall t | 0 <= t < |prev| && 0 <= t + |next| - |prev|
      ensures prev[t] == next[t + |next| - |prev|]
    {
      assert a < t;
      SuffixStopAgreesAt(prev, next, 0, |prev| - 1, |next| - 1, t);
    }
  }

  /** Above where the scan from the ends stops, the keys agree. */
  lemma {:induction false} SuffixStopAgreesAt(prev: seq<JsValue>, next: seq<JsValue>, lo: nat, oe: int, ne: int, t: int)
    requires lo - 1 <= oe < |prev| && lo - 1 <= ne < |next|
    requires SuffixStop(prev, next, lo, oe, ne).0 < t <= oe
    ensures 0 <= t + ne - oe < |next| && prev[t] == next[t + ne - oe]
    decreases oe + 1
  {
    if oe >= lo && ne >= lo && prev[oe] == next[ne] && t < oe {
      SuffixStopAgreesAt(prev, next, lo, oe - 1, ne - 1, t);
    }
  }




  /** With bounded scans the diff never throws. */
  lemma BoundedNeverThrows(prev: seq<JsValue>, next: seq<JsValue>)
    ensures !PlanOf(prev, next, true).ScanThrows? && !PlanOf(prev, next, true).CountThrows?
  {
  }

  /** Duplicate keys let the unbounded scans overlap, and the general case then asks for an
      array of length -1. */
  lemma DuplicateKeysThrow()
    ensures PlanOf([Str("p"), Str("q"), Str("q"), Str("x")], [Str("p"), Str("q"), Str("q"), Str("q"), Str("x")], false)
            == CountThrows
  {
    var prev := [Str("p"), Str("q"), Str("q"), Str("x")];
    var next := [Str("p"), Str("q"), Str("q"), Str("q"), Str("x")];
    assert PrefixStop(prev, next, 0) == 3;
    assert SuffixStop(prev, next, 0, 3, 4) == (0, 1);
  }

  // ---------------------------------------------------------------------------------------
  // The simple cases

  /** Mounts the new children s..ne in order before the given anchor. */
  method MountRange(s: nat, ne: int, anchor: Option<nat>) returns (log: seq<Op>)
    ensures forall k, x :: Logged(log, k, x) <==> k == Mounted && s <= x <= ne
    ensures forall t :: 0 <= t < |log| ==> log[t].Mount? && log[t].anchor == anchor
  {
    log := [];
    var i := s;
    while i <= ne
      invariant s <= i <= (if ne >= s then ne + 1 else s)
      invariant |log| == i - s && forall k :: 0 <= k < |log| ==> log[k] == Mount(s + k, anchor)
      decreases ne - i
    {
      log := log + [Mount(i, anchor)];
      i := i + 1;
    }
    forall k, x | k == Mounted && s <= x <= ne
      ensures Logged(log, k, x)
    {
      assert Touches(log[x - s], k, x);
    }
  }

  /** Unmounts the old children s..oe in order. */
  method UnmountRange(s: nat, oe: int) returns (log: seq<Op>)
    ensures forall k, x :: Logged(log, k, x) <==> k == Unmounted && s <= x <= oe
    ensures forall t :: 0 <= t < |log| ==> log[t].Unmount?
  {
    log := [];
    var i := s;
    while i <= oe
      invariant s <= i <= (if oe >= s then oe + 1 else s)
      invariant |log| == i - s && forall k :: 0 <= k < |log| ==> log[k] == Unmount(s + k)
      decreases oe - i
    {
      log := log + [Unmount(i)];
      i := i + 1;
    }
    forall k, x | k == Unmounted && s <= x <= oe
      ensures Logged(log, k, x)
    {
      assert Touches(log[x - s], k, x);
    }
  }

  // ---------------------------------------------------------------------------------------
  // The general case

  /** The key index entry for property name k: the last new position in s..hi whose key has
      that string form. */
  function LastWithKey(next: seq<JsValue>, s: nat, hi: int, k: string): (j: Option<nat>)
    requires hi < |next| && PrimitiveKeys(next)
    ensures j.Some? ==> s <= j.value <= hi && KeyString(next[j.value]) == k
    ensures j.Some? ==> forall x :: j.value < x <= hi ==> KeyString(next[x]) != k
    ensures j.None? ==> forall x :: s <= x <= hi ==> KeyString(next[x]) != k
    decreases hi - s + 1
  {
    if hi < s then None
    else if KeyString(next[hi]) == k then Some(hi)
    else LastWithKey(next, s, hi - 1, k)
  }

  /** `keyIndex` maps the string form of each key among the new children s..ne to the last
      position holding it. */
  ghost predicate IndexesKeys(keyIndex: map<string, nat>, next: seq<JsValue>, s: nat, ne: int)
    requires ne < |next| && PrimitiveKeys(next)
  {
    && (forall k :: k in keyIndex ==> LastWithKey(next, s, ne, k).Some? && keyIndex[k] == LastWithKey(next, s, ne, k).value)
    && (forall k :: LastWithKey(next, s, ne, k).Some? ==> k in keyIndex)
  }

  /** Builds `keyIndex` over the new children s..ne. */
  method BuildKeyIndex(next: seq<JsValue>, s: nat, ne: int) returns (keyIndex: map<string, nat>)
    requires ne < |next| && s <= |next| && PrimitiveKeys(next)
    ensures keyIndex == KeyIndex(next, s, ne) && IndexesKeys(keyIndex, next, s, ne)
  {
    KeyIndexIndexes(next, s, ne);
    keyIndex := map[];
    var i := s;
    while i <= ne
      invariant s <= i <= (if ne >= s then ne + 1 else s)
      invariant keyIndex == KeyIndex(next, s, i - 1)
      decreases ne - i
    {
      keyIndex := keyIndex[KeyString(next[i]) := i];
      i := i + 1;
    }
  }

  /** The key index over new positions s..hi: later positions overwrite earlier ones. */
  function KeyIndex(next: seq<JsValue>, s: nat, hi: int): map<string, nat>
    requires hi < |next| && PrimitiveKeys(next)
    decreases hi - s + 1
  {
    if hi < s then map[] else KeyIndex(next, s, hi - 1)[KeyString(next[hi]) := hi]
  }

  /** The key index maps each key to its last position. */
  lemma {:induction false} KeyIndexIndexes(next: seq<JsValue>, s: nat, hi: int)
    requires hi < |next| && PrimitiveKeys(next)
    ensures IndexesKeys(KeyIndex(next, s, hi), next, s, hi)
    decreases hi - s + 1
  {
    if hi >= s {
      KeyIndexIndexes(next, s, hi - 1);
      var m := KeyIndex(next, s, hi);
      forall k
        ensures (k in m ==> LastWithKey(next, s, hi, k).Some? && m[k] == LastWithKey(next, s, hi, k).value)
        ensures (LastWithKey(next, s, hi, k).Some? ==> k in m)
      {
        if k != KeyString(next[hi]) {
          assert LastWithKey(next, s, hi, k) == LastWithKey(next, s, hi - 1, k);
        }
      }
    } else {
      forall k
        ensures LastWithKey(next, s, hi, k).None?
      {
      }
    }
  }


  /** Some later patch lands before an earlier one in the new order. */
  ghost predicate Inverted(log: seq<Op>)
  {
    exists p, q :: 0 <= p < q < |log| && log[p].Patch? && log[q].Patch? && log[q].newIdx < log[p].newIdx
  }

  function PatchCount(log: seq<Op>): nat
  {
    if log == [] then 0 else PatchCount(log[..|log| - 1]) + (if log[|log| - 1].Patch? then 1 else 0)
  }

  lemma InvertedSnoc(log: seq<Op>, op: Op, lastIndex: nat)
    requires forall t :: 0 <= t < |log| && log[t].Patch? ==> log[t].newIdx <= lastIndex
    requires lastIndex == 0 || exists t :: 0 <= t < |log| && log[t].Patch? && log[t].newIdx == lastIndex
    ensures !op.Patch? ==> (Inverted(log + [op]) <==> Inverted(log))
    ensures op.Patch? ==> (Inverted(log + [op]) <==> Inverted(log) || op.newIdx < lastIndex)
  {
    var log' := log + [op];
    if Inverted(log') {
      var p, q :| 0 <= p < q < |log'| && log'[p].Patch? && log'[q].Patch? && log'[q].newIdx < log'[p].newIdx;
      if q < |log| {
        assert log[p] == log'[p] && log[q] == log'[q];
      } else {
        assert log[p] == log'[p];
      }
    }
    if Inverted(log) {
      var p, q :| 0 <= p < q < |log| && log[p].Patch? && log[q].Patch? && log[q].newIdx < log[p].newIdx;
      assert log'[p] == log[p] && log'[q] == log[q];
    }
    if op.Patch? && op.newIdx < lastIndex {
      var t :| 0 <= t < |log| && log[t].Patch? && log[t].newIdx == lastIndex;
      assert log'[t] == log[t] && log'[|log|] == op;
    }
  }

  /** What the pass over the old children records for old position i, given the number of
      patches made before it: a truthy key found in the key index is patched into that new
      position while at most `count` patches have been made; anything else is unmounted. */
  function MatchOp(prev: seq<JsValue>, next: seq<JsValue>, s: nat, ne: int, i: nat, patched: nat): Op
    requires i < |prev| && ne < |next| && PrimitiveKeys(prev) && PrimitiveKeys(next)
  {
    if Truthy(prev[i]) && patched <= ne - s + 1 && LastWithKey(next, s, ne, KeyString(prev[i])).Some? then
      Patch(i, LastWithKey(next, s, ne, KeyString(prev[i])).value)
    else Unmount(i)
  }

  /** The steps the pass over the old children takes for old positions s..i-1. */
  function MatchPass(prev: seq<JsValue>, next: seq<JsValue>, s: nat, ne: int, i: nat): (log: seq<Op>)
    requires i <= |prev| && ne < |next| && PrimitiveKeys(prev) && PrimitiveKeys(next)
    ensures |log| == if i <= s then 0 else i - s
    decreases i
  {
    if i <= s then []
    else
      var log := MatchPass(prev, next, s, ne, i - 1);
      log + [MatchOp(prev, next, s, ne, i - 1, PatchCount(log))]
  }

  /** The entry of `source` for new position j. */
  function SourceAt(source: seq<int>, s: nat, j: int): int
    requires s <= j < s + |source|
  {
    source[j - s]
  }

  /** Every old position recorded in `source` was patched into that new position. */
  ghost predicate SourceRecorded(s: nat, ne: int, source: seq<int>, log: seq<Op>)
  {
    && |source| == ne - s + 1
    && forall j :: s <= j <= ne ==>
         SourceAt(source, s, j) == -1 || (s <= SourceAt(source, s, j) && Patch(SourceAt(source, s, j), j) in log)
  }

  /** Every patched new position lies in s..ne, is recorded in `source`, and is at most
      `lastIndex`. */
  ghost predicate PatchesRecorded(s: nat, ne: int, source: seq<int>, lastIndex: nat, log: seq<Op>)
  {
    && |source| == ne - s + 1
    && forall t :: 0 <= t < |log| && log[t].Patch? ==>
         s <= log[t].newIdx <= ne && SourceAt(source, s, log[t].newIdx) != -1 && log[t].newIdx <= lastIndex
  }

  /** `lastIndex` is 0 or the new position of some patch. */
  ghost predicate LastReached(lastIndex: nat, log: seq<Op>)
  {
    lastIndex == 0 || exists t :: 0 <= t < |log| && log[t].Patch? && log[t].newIdx == lastIndex
  }

  /** What the pass keeps about `source`, `lastIndex` and `moved` against the steps taken so
      far; `moved` says whether some patch landed before an earlier one. */
  ghost predicate Tracked(s: nat, ne: int, source: seq<int>, moved: bool, lastIndex: nat, log: seq<Op>)
  {
    && SourceRecorded(s, ne, source, log)
    && PatchesRecorded(s, ne, source, lastIndex, log)
    && LastReached(lastIndex, log)
    && (moved <==> Inverted(log))
  }

  lemma SourceRecordedGrow(s: nat, ne: int, source: seq<int>, log: seq<Op>, op: Op)
    requires SourceRecorded(s, ne, source, log)
    ensures SourceRecorded(s, ne, source, log + [op])
  {
    assert forall o :: o in log ==> o in log + [op];
  }

  lemma SourceRecordedPatch(s: nat, ne: int, source: seq<int>, log: seq<Op>, i: nat, j: nat)
    requires SourceRecorded(s, ne, source, log) && s <= i && s <= j <= ne
    ensures SourceRecorded(s, ne, source[j - s := i], log + [Patch(i, j)])
  {
    var log' := log + [Patch(i, j)];
    var source' := source[j - s := i];
    forall k | s <= k <= ne
      ensures SourceAt(source', s, k) == -1 || (s <= SourceAt(source', s, k) && Patch(SourceAt(source', s, k), k) in log')
    {
      if k == j {
        assert log'[|log|] == Patch(i, j);
      } else {
        assert SourceAt(source', s, k) == SourceAt(source, s, k);
      }
    }
  }

  lemma PatchesRecordedPatch(s: nat, ne: int, source: seq<int>, lastIndex: nat, log: seq<Op>, i: nat, j: nat)
    requires PatchesRecorded(s, ne, source, lastIndex, log) && s <= i && s <= j <= ne
    ensures PatchesRecorded(s, ne, source[j - s := i], if j < lastIndex then lastIndex else j, log + [Patch(i, j)])
  {
    var log' := log + [Patch(i, j)];
    var source' := source[j - s := i];
    var lastIndex' := if j < lastIndex then lastIndex else j;
    forall t | 0 <= t < |log'| && log'[t].Patch?
      ensures s <= log'[t].newIdx <= ne && SourceAt(source', s, log'[t].newIdx) != -1 && log'[t].newIdx <= lastIndex'
    {
      if t < |log| {
        assert log'[t] == log[t];
        assert SourceAt(source', s, log[t].newIdx) == SourceAt(source, s, log[t].newIdx) || log[t].newIdx == j;
      } else {
        assert log'[t] == Patch(i, j);
      }
    }
  }

  lemma PatchesRecordedUnmount(s: nat, ne: int, source: seq<int>, lastIndex: nat, log: seq<Op>, i: nat)
    requires PatchesRecorded(s, ne, source, lastIndex, log)
    ensures PatchesRecorded(s, ne, source, lastIndex, log + [Unmount(i)])
  {
    var log' := log + [Unmount(i)];
    forall t | 0 <= t < |log'| && log'[t].Patch?
      ensures s <= log'[t].newIdx <= ne && SourceAt(source, s, log'[t].newIdx) != -1 && log'[t].newIdx <= lastIndex
    {
      assert t < |log| && log'[t] == log[t];
    }
  }

  lemma LastReachedGrow(lastIndex: nat, log: seq<Op>, op: Op)
    requires LastReached(lastIndex, log)
    ensures LastReached(lastIndex, log + [op])
    ensures op.Patch? ==> LastReached(op.newIdx, log + [op])
  {
    var log' := log + [op];
    if lastIndex != 0 {
      var t :| 0 <= t < |log| && log[t].Patch? && log[t].newIdx == lastIndex;
      assert log'[t] == log[t];
    }
    assert log'[|log|] == op;
  }

  lemma TrackPatch(s: nat, ne: int, source: seq<int>, moved: bool, lastIndex: nat, log: seq<Op>, i: nat, j: nat)
    requires Tracked(s, ne, source, moved, lastIndex, log) && s <= i && s <= j <= ne
    ensures Tracked(s, ne, source[j - s := i], moved || j < lastIndex, if j < lastIndex then lastIndex else j,
                    log + [Patch(i, j)])
  {
    InvertedSnoc(log, Patch(i, j), lastIndex);
    SourceRecordedPatch(s, ne, source, log, i, j);
    PatchesRecordedPatch(s, ne, source, lastIndex, log, i, j);
    LastReachedGrow(lastIndex, log, Patch(i, j));
  }

  lemma TrackUnmount(s: nat, ne: int, source: seq<int>, moved: bool, lastIndex: nat, log: seq<Op>, i: nat)
    requires Tracked(s, ne, source, moved, lastIndex, log)
    ensures Tracked(s, ne, source, moved, lastIndex, log + [Unmount(i)])
  {
    InvertedSnoc(log, Unmount(i), lastIndex);
    SourceRecordedGrow(s, ne, source, log, Unmount(i));
    PatchesRecordedUnmount(s, ne, source, lastIndex, log, i);
    LastReachedGrow(lastIndex, log, Unmount(i));
  }

  lemma PatchCountSnoc(log: seq<Op>, op: Op)
    ensures PatchCount(log + [op]) == PatchCount(log) + (if op.Patch? then 1 else 0)
  {
    assert (log + [op])[..|log|] == log;
  }

  /** The state of the pass before old position i: the steps so far are `MatchPass`,
      `patched` counts their patches, and the rest is `Tracked`. */
  ghost predicate PassState(prev: seq<JsValue>, next: seq<JsValue>, s: nat, ne: int, i: nat,
                            source: seq<int>, moved: bool, lastIndex: nat, patched: nat, log: seq<Op>)
  {
    && s <= i <= |prev| && ne < |next| && PrimitiveKeys(prev) && PrimitiveKeys(next)
    && log == MatchPass(prev, next, s, ne, i) && patched == PatchCount(log)
    && Tracked(s, ne, source, moved, lastIndex, log)
  }

  lemma PassStart(prev: seq<JsValue>, next: seq<JsValue>, s: nat, ne: int, source: seq<int>)
    requires s <= |prev| && ne < |next| && PrimitiveKeys(prev) && PrimitiveKeys(next)
    requires |source| == ne - s + 1 && forall x :: 0 <= x < |source| ==> source[x] == -1
    ensures PassState(prev, next, s, ne, s, source, false, 0, 0, [])
  {
    assert !Inverted([]);
  }

  /** One turn of the pass over the old children. */
  method MatchOne(prev: seq<JsValue>, next: seq<JsValue>, s: nat, ne: int, keyIndex: map<string, nat>, i: nat,
                  source: seq<int>, moved: bool, lastIndex: nat, patched: nat, log: seq<Op>)
      returns (source': seq<int>, moved': bool, lastIndex': nat, patched': nat, log': seq<Op>)
    requires i < |prev| && ne < |next| && PrimitiveKeys(next) && keyIndex == KeyIndex(next, s, ne)
    requires PassState(prev, next, s, ne, i, source, moved, lastIndex, patched, log)
    ensures PassState(prev, next, s, ne, i + 1, source', moved', lastIndex', patched', log')
  {
    source', moved', lastIndex', patched' := source, moved, lastIndex, patched;
    KeyIndexIndexes(next, s, ne);
    var key := prev[i];
    var op: Op;
    if Truthy(key) && patched <= |source| && KeyString(key) in keyIndex {
      var j := keyIndex[KeyString(key)];
      op := Patch(i, j);
      TrackPatch(s, ne, source, moved, lastIndex, log, i, j);
      patched' := patched + 1;
      source' := source[j - s := i];
      if j < lastIndex {
        moved' := true;
      } else {
        lastIndex' := j;
      }
    } else {
      op := Unmount(i);
      TrackUnmount(s, ne, source, moved, lastIndex, log, i);
    }
    log' := log + [op];
    PatchCountSnoc(log, op);
    assert op == MatchOp(prev, next, s, ne, i, patched);
  }

  /** The pass over the old children s..oe. `source` records, for each new position, the old
      position patched into it; `moved` is set exactly when some node lands before another
      node patched earlier. */
  method MatchOld(prev: seq<JsValue>, next: seq<JsValue>, s: nat, oe: int, ne: int)
      returns (source: seq<int>, moved: bool, lastIndex: nat, patched: nat, log: seq<Op>)
    requires oe < |prev| && ne < |next| && s <= |prev| && s <= |next| && ne - s + 1 >= 0
    requires PrimitiveKeys(prev) && PrimitiveKeys(next)
    ensures PassState(prev, next, s, ne, if oe >= s then oe + 1 else s, source, moved, lastIndex, patched, log)
  {
    source := Unset(ne - s + 1);
    moved, lastIndex, patched, log := false, 0, 0, [];
    PassStart(prev, next, s, ne, source);
    if oe < s {
      return;
    }
    var keyIndex := BuildKeyIndex(next, s, ne);
    source, moved, lastIndex, patched, log := MatchRange(prev, next, s, oe, ne, keyIndex, s, source, false, 0, 0, []);
  }

  /** `new Array(count).fill(-1)`. */
  function Unset(n: nat): (r: seq<int>)
    ensures |r| == n && forall x :: 0 <= x < n ==> r[x] == -1
  {
    if n == 0 then [] else Unset(n - 1) + [-1]
  }

  /** The loop of the pass over the old children, from old position `from` on. */
  method MatchRange(prev: seq<JsValue>, next: seq<JsValue>, s: nat, oe: int, ne: int, keyIndex: map<string, nat>,
                    from: nat, source0: seq<int>, moved0: bool, lastIndex0: nat, patched0: nat, log0: seq<Op>)
      returns (source: seq<int>, moved: bool, lastIndex: nat, patched: nat, log: seq<Op>)
    requires from <= oe + 1 && oe < |prev| && ne < |next| && PrimitiveKeys(next)
    requires keyIndex == KeyIndex(next, s, ne)
    requires PassState(prev, next, s, ne, from, source0, moved0, lastIndex0, patched0, log0)
    ensures PassState(prev, next, s, ne, oe + 1, source, moved, lastIndex, patched, log)
  {
    source, moved, lastIndex, patched, log := source0, moved0, lastIndex0, patched0, log0;
    var i := from;
    while i <= oe
      invariant from <= i <= oe + 1
      invariant PassState(prev, next, s, ne, i, source, moved, lastIndex, patched, log)
      decreases oe - i
    {
      source, moved, lastIndex, patched, log := MatchOne(prev, next, s, ne, keyIndex, i, source, moved, lastIndex, patched, log);
      i := i + 1;
    }
  }


  /** The anchor of new position `pos` in the final loop: the next new child, or the end. */
  function AnchorAfter(pos: nat, newLen: nat): (a: Option<nat>)
    ensures a.Some? ==> pos < a.value < newLen
    ensures a.None? ==> pos + 1 >= newLen
  {
    if pos + 1 < newLen then Some(pos + 1) else None
  }

  /** The final loop, from the last unmatched new position down: a node with no old
      counterpart is mounted; a node on the increasing run `sq` stays, every other node is
      moved before its successor. */
  method Reorder(newLen: nat, s: nat, source: seq<int>, sq: seq<int>) returns (log: seq<Op>)
    requires s + |source| <= newLen
    requires forall k :: 0 <= k < |sq| ==> 0 <= sq[k] < |source|
    requires forall a, b :: 0 <= a < b < |sq| ==> sq[a] < sq[b]
    ensures forall k, x :: Logged(log, k, x) ==> (k == Mounted || k == Moved) && s <= x < s + |source|
    ensures forall x :: s <= x < s + |source| ==> (Logged(log, Mounted, x) <==> SourceAt(source, s, x) == -1)
    ensures forall x :: s <= x < s + |source| ==> (Logged(log, Moved, x) <==> (x - s) !in sq)
    ensures forall t :: 0 <= t < |log| ==>
              (log[t].Mount? || log[t].Move?) && log[t].anchor == AnchorAfter(log[t].newIdx, newLen)
  {
    log := [];
    var seqEnd := |sq| - 1;
    var i := |source| - 1;
    while i >= 0
      invariant -1 <= i < |source| && -1 <= seqEnd < |sq|
      invariant forall k :: 0 <= k <= seqEnd ==> sq[k] <= i
      invariant forall k :: seqEnd < k < |sq| ==> sq[k] > i
      invariant forall k, x :: Logged(log, k, x) ==> (k == Mounted || k == Moved) && s + i < x < s + |source|
      invariant forall x :: s + i < x < s + |source| ==> (Logged(log, Mounted, x) <==> SourceAt(source, s, x) == -1)
      invariant forall x :: s + i < x < s + |source| ==> (Logged(log, Moved, x) <==> (x - s) !in sq)
      invariant forall t :: 0 <= t < |log| ==>
                  (log[t].Mount? || log[t].Move?) && log[t].anchor == AnchorAfter(log[t].newIdx, newLen)
      decreases i
    {
      var pos := i + s;
      var anchor := AnchorAfter(pos, newLen);
      if source[i] == -1 {
        LoggedAppend(log, [Mount(pos, anchor)]);
        LogSingle(Mount(pos, anchor));
        log := log + [Mount(pos, anchor)];
      }
      if seqEnd < 0 || i != sq[seqEnd] {
        assert i !in sq by {
          forall k | 0 <= k < |sq| ensures sq[k] != i {
            if k <= seqEnd {
              assert sq[k] <= sq[seqEnd];
            }
          }
        }
        LoggedAppend(log, [Move(pos, anchor)]);
        LogSingle(Move(pos, anchor));
        log := log + [Move(pos, anchor)];
      } else {
        seqEnd := seqEnd - 1;
      }
      i := i - 1;
    }
  }

  /** The mount pass of the corrected diff when nothing moves: every new position with no old
      counterpart is mounted before its successor. */
  method MountUnmatched(newLen: nat, s: nat, source: seq<int>) returns (log: seq<Op>)
    requires s + |source| <= newLen
    ensures forall k, x :: Logged(log, k, x) ==> k == Mounted && s <= x < s + |source|
    ensures forall x :: s <= x < s + |source| ==> (Logged(log, Mounted, x) <==> SourceAt(source, s, x) == -1)
    ensures forall t :: 0 <= t < |log| ==> log[t].Mount? && log[t].anchor == AnchorAfter(log[t].newIdx, newLen)
  {
    log := [];
    var i := |source| - 1;
    while i >= 0
      invariant -1 <= i < |source|
      invariant forall k, x :: Logged(log, k, x) ==> k == Mounted && s + i < x < s + |source|
      invariant forall x :: s + i < x < s + |source| ==> (Logged(log, Mounted, x) <==> SourceAt(source, s, x) == -1)
      invariant forall t :: 0 <= t < |log| ==> log[t].Mount? && log[t].anchor == AnchorAfter(log[t].newIdx, newLen)
      decreases i
    {
      var pos := i + s;
      if source[i] == -1 {
        var op := Mount(pos, AnchorAfter(pos, newLen));
        LoggedAppend(log, [op]);
        LogSingle(op);
        log := log + [op];
      }
      i := i - 1;
    }
  }

  /** The pass over old positions s..i-1 patches each of them or unmounts it, touches nothing
      else than those and new positions s..ne, and pairs only matched keys. */
  lemma MatchPassLogged(prev: seq<JsValue>, next: seq<JsValue>, s: nat, ne: int, i: nat)
    requires s <= i <= |prev| && ne < |next| && PrimitiveKeys(prev) && PrimitiveKeys(next)
    ensures KeyedPatches(prev, next, MatchPass(prev, next, s, ne, i))
    ensures forall x :: s <= x < i ==>
              Logged(MatchPass(prev, next, s, ne, i), PatchedOld, x) || Logged(MatchPass(prev, next, s, ne, i), Unmounted, x)
    ensures forall k, x :: Logged(MatchPass(prev, next, s, ne, i), k, x) ==>
              (OnOld(k) && s <= x < i) || (k == PatchedNew && s <= x <= ne)
    ensures forall t :: 0 <= t < i - s ==> MatchPass(prev, next, s, ne, i)[t].Patch? || MatchPass(prev, next, s, ne, i)[t].Unmount?
  {
    MatchPassKeyed(prev, next, s, ne, i);
    MatchPassCovers(prev, next, s, ne, i);
    MatchPassBounds(prev, next, s, ne, i);
    MatchPassKinds(prev, next, s, ne, i);
  }

  lemma {:induction false} MatchPassKeyed(prev: seq<JsValue>, next: seq<JsValue>, s: nat, ne: int, i: nat)
    requires s <= i <= |prev| && ne < |next| && PrimitiveKeys(prev) && PrimitiveKeys(next)
    ensures KeyedPatches(prev, next, MatchPass(prev, next, s, ne, i))
    decreases i
  {
    if i > s {
      MatchPassKeyed(prev, next, s, ne, i - 1);
      KeyedStep(prev, next, s, ne, i);
    }
  }

  lemma KeyedStep(prev: seq<JsValue>, next: seq<JsValue>, s: nat, ne: int, i: nat)
    requires s < i <= |prev| && ne < |next| && PrimitiveKeys(prev) && PrimitiveKeys(next)
    requires KeyedPatches(prev, next, MatchPass(prev, next, s, ne, i - 1))
    ensures KeyedPatches(prev, next, MatchPass(prev, next, s, ne, i))
  {
    var log := MatchPass(prev, next, s, ne, i - 1);
    var op := MatchOp(prev, next, s, ne, i - 1, PatchCount(log));
    assert MatchPass(prev, next, s, ne, i) == log + [op];
    MatchOpKeyed(prev, next, s, ne, i - 1, PatchCount(log));
    KeyedAppend(prev, next, log, [op]);
  }

  /** A single step of the pass pairs only matched keys. */
  lemma MatchOpKeyed(prev: seq<JsValue>, next: seq<JsValue>, s: nat, ne: int, i: nat, patched: nat)
    requires i < |prev| && ne < |next| && PrimitiveKeys(prev) && PrimitiveKeys(next)
    ensures KeyedPatches(prev, next, [MatchOp(prev, next, s, ne, i, patched)])
  {
    var op := MatchOp(prev, next, s, ne, i, patched);
    if op.Patch? {
      assert [op][0] == op && SameKey(prev, next, op.oldIdx, op.newIdx);
    }
  }

  lemma {:induction false} MatchPassCovers(prev: seq<JsValue>, next: seq<JsValue>, s: nat, ne: int, i: nat)
    requires s <= i <= |prev| && ne < |next| && PrimitiveKeys(prev) && PrimitiveKeys(next)
    ensures forall x :: s <= x < i ==>
              Logged(MatchPass(prev, next, s, ne, i), PatchedOld, x) || Logged(MatchPass(prev, next, s, ne, i), Unmounted, x)
    decreases i
  {
    if i > s {
      MatchPassCovers(prev, next, s, ne, i - 1);
      CoversStep(prev, next, s, ne, i, MatchPass(prev, next, s, ne, i - 1));
    }
  }

  lemma CoversStep(prev: seq<JsValue>, next: seq<JsValue>, s: nat, ne: int, i: nat, log: seq<Op>)
    requires s < i <= |prev| && ne < |next| && PrimitiveKeys(prev) && PrimitiveKeys(next)
    requires log == MatchPass(prev, next, s, ne, i - 1)
    requires forall x :: s <= x < i - 1 ==> Logged(log, PatchedOld, x) || Logged(log, Unmounted, x)
    ensures forall x :: s <= x < i ==>
              Logged(MatchPass(prev, next, s, ne, i), PatchedOld, x) || Logged(MatchPass(prev, next, s, ne, i), Unmounted, x)
  {
    var op := MatchOp(prev, next, s, ne, i - 1, PatchCount(log));
    assert MatchPass(prev, next, s, ne, i) == log + [op];
    forall x | s <= x < i
      ensures Logged(log + [op], PatchedOld, x) || Logged(log + [op], Unmounted, x)
    {
      if x < i - 1 {
        if Logged(log, PatchedOld, x) {
          LoggedPrefix(log, [op], PatchedOld, x);
        } else {
          LoggedPrefix(log, [op], Unmounted, x);
        }
      } else {
        assert (log + [op])[|log|] == op;
        assert Touches(op, if op.Patch? then PatchedOld else Unmounted, x);
      }
    }
  }

  lemma {:induction false} MatchPassBounds(prev: seq<JsValue>, next: seq<JsValue>, s: nat, ne: int, i: nat)
    requires s <= i <= |prev| && ne < |next| && PrimitiveKeys(prev) && PrimitiveKeys(next)
    ensures forall k, x :: Logged(MatchPass(prev, next, s, ne, i), k, x) ==>
              (OnOld(k) && s <= x < i) || (k == PatchedNew && s <= x <= ne)
    decreases i
  {
    if i > s {
      MatchPassBounds(prev, next, s, ne, i - 1);
      BoundsStep(prev, next, s, ne, i, MatchPass(prev, next, s, ne, i - 1));
    }
  }

  lemma BoundsStep(prev: seq<JsValue>, next: seq<JsValue>, s: nat, ne: int, i: nat, log: seq<Op>)
    requires s < i <= |prev| && ne < |next| && PrimitiveKeys(prev) && PrimitiveKeys(next)
    requires log == MatchPass(prev, next, s, ne, i - 1)
    requires forall k, x :: Logged(log, k, x) ==> (OnOld(k) && s <= x < i - 1) || (k == PatchedNew && s <= x <= ne)
    ensures forall k, x :: Logged(MatchPass(prev, next, s, ne, i), k, x) ==>
              (OnOld(k) && s <= x < i) || (k == PatchedNew && s <= x <= ne)
  {
    var op := MatchOp(prev, next, s, ne, i - 1, PatchCount(log));
    assert MatchPass(prev, next, s, ne, i) == log + [op];
    LoggedAppend(log, [op]);
    LogSingle(op);
  }

  lemma {:induction false} MatchPassKinds(prev: seq<JsValue>, next: seq<JsValue>, s: nat, ne: int, i: nat)
    requires s <= i <= |prev| && ne < |next| && PrimitiveKeys(prev) && PrimitiveKeys(next)
    ensures forall t :: 0 <= t < i - s ==> MatchPass(prev, next, s, ne, i)[t].Patch? || MatchPass(prev, next, s, ne, i)[t].Unmount?
    decreases i
  {
    if i > s {
      var log := MatchPass(prev, next, s, ne, i - 1);
      MatchPassKinds(prev, next, s, ne, i - 1);
      var op := MatchOp(prev, next, s, ne, i - 1, PatchCount(log));
      assert MatchPass(prev, next, s, ne, i) == log + [op];
    }
  }


  /** The pass over old positions s..oe finds some node landing before one patched earlier. */
  ghost predicate MatchInverted(prev: seq<JsValue>, next: seq<JsValue>, s: nat, oe: int, ne: int)
  {
    && s <= oe < |prev| && ne < |next| && PrimitiveKeys(prev) && PrimitiveKeys(next)
    && Inverted(MatchPass(prev, next, s, ne, oe + 1))
  }

  /** The steps after the pass over the old children: the final loop when some node moved,
      the corrected mount pass when `mountAlways`, nothing otherwise. */
  method FinishGeneral(newLen: nat, s: nat, source: seq<int>, moved: bool, mountAlways: bool) returns (tail: seq<Op>)
    requires s + |source| <= newLen && (moved ==> |source| > 0)
    ensures forall k, x :: Logged(tail, k, x) ==> (k == Mounted || k == Moved) && s <= x < s + |source|
    ensures forall x :: s <= x < s + |source| ==>
              (Logged(tail, Mounted, x) <==> (moved || mountAlways) && SourceAt(source, s, x) == -1)
    ensures forall t :: 0 <= t < |tail| ==>
              (tail[t].Mount? || tail[t].Move?) && tail[t].anchor == AnchorAfter(tail[t].newIdx, newLen)
  {
    tail := [];
    if moved {
      var sq := GetSequence(source);
      tail := Reorder(newLen, s, source, sq);
    } else if mountAlways {
      tail := MountUnmatched(newLen, s, source);
    }
  }

  /** What the log of the general case says, from what the pass and the final steps say. */
  lemma JoinGeneral(prev: seq<JsValue>, next: seq<JsValue>, s: nat, oe: int, ne: int, source: seq<int>,
                    lastIndex: nat, mounts: bool, matchLog: seq<Op>, tail: seq<Op>)
    requires |source| == ne - s + 1
    requires KeyedPatches(prev, next, matchLog)
    requires forall x :: s <= x <= oe ==> Logged(matchLog, PatchedOld, x) || Logged(matchLog, Unmounted, x)
    requires forall k, x :: Logged(matchLog, k, x) ==> (OnOld(k) && s <= x <= oe) || (k == PatchedNew && s <= x <= ne)
    requires forall t :: 0 <= t < |matchLog| ==> matchLog[t].Patch? || matchLog[t].Unmount?
    requires SourceRecorded(s, ne, source, matchLog) && PatchesRecorded(s, ne, source, lastIndex, matchLog)
    requires forall k, x :: Logged(tail, k, x) ==> (k == Mounted || k == Moved) && s <= x <= ne
    requires forall x :: s <= x <= ne ==> (Logged(tail, Mounted, x) <==> mounts && SourceAt(source, s, x) == -1)
    requires forall t :: 0 <= t < |tail| ==>
               (tail[t].Mount? || tail[t].Move?) && tail[t].anchor == AnchorAfter(tail[t].newIdx, |next|)
    ensures KeyedPatches(prev, next, matchLog + tail)
    ensures forall x :: s <= x <= oe ==> Logged(matchLog + tail, PatchedOld, x) || Logged(matchLog + tail, Unmounted, x)
    ensures forall k, x :: Logged(matchLog + tail, k, x) ==> (OnOld(k) && s <= x <= oe) || (!OnOld(k) && s <= x <= ne)
    ensures forall x :: Logged(matchLog + tail, Mounted, x) ==> !Logged(matchLog + tail, PatchedNew, x)
    ensures forall t :: 0 <= t < |matchLog + tail| && ((matchLog + tail)[t].Mount? || (matchLog + tail)[t].Move?) ==>
              (matchLog + tail)[t].anchor == AnchorAfter((matchLog + tail)[t].newIdx, |next|)
    ensures mounts ==> forall x :: s <= x <= ne ==> Logged(matchLog + tail, PatchedNew, x) || Logged(matchLog + tail, Mounted, x)
    ensures !mounts ==> forall x :: !Logged(matchLog + tail, Mounted, x)
  {
    var log := matchLog + tail;
    assert KeyedPatches(prev, next, tail);
    KeyedAppend(prev, next, matchLog, tail);
    LoggedAppend(matchLog, tail);
    forall x | Logged(matchLog, PatchedNew, x)
      ensures s <= x <= ne && SourceAt(source, s, x) != -1
    {
      var t :| 0 <= t < |matchLog| && Touches(matchLog[t], PatchedNew, x);
    }
    forall x | s <= x <= ne && SourceAt(source, s, x) != -1
      ensures Logged(matchLog, PatchedNew, x)
    {
      var t :| 0 <= t < |matchLog| && matchLog[t] == Patch(SourceAt(source, s, x), x);
      assert Touches(matchLog[t], PatchedNew, x);
    }
    forall t | 0 <= t < |log| && (log[t].Mount? || log[t].Move?)
      ensures log[t].anchor == AnchorAfter(log[t].newIdx, |next|)
    {
      assert t >= |matchLog| && log[t] == tail[t - |matchLog|];
    }
  }

  /** The general case over old s..oe and new s..ne: the pass over the old children, then,
      when some node moved, the final loop over the increasing run of `source`. As written the
      unmatched new children are mounted only in that loop; `mountAlways` selects the
      corrected behaviour, which mounts them when nothing moves too. */
  method GeneralCase(prev: seq<JsValue>, next: seq<JsValue>, s: nat, oe: int, ne: int, mountAlways: bool)
      returns (log: seq<Op>)
    requires oe < |prev| && ne < |next| && s <= |prev| && s <= |next| && ne - s + 1 >= 0
    requires PrimitiveKeys(prev) && PrimitiveKeys(next)
    ensures KeyedPatches(prev, next, log)
    ensures forall x :: s <= x <= oe ==> Logged(log, PatchedOld, x) || Logged(log, Unmounted, x)
    ensures forall k, x :: Logged(log, k, x) ==> (OnOld(k) && s <= x <= oe) || (!OnOld(k) && s <= x <= ne)
    ensures forall x :: Logged(log, Mounted, x) ==> !Logged(log, PatchedNew, x)
    ensures forall t :: 0 <= t < |log| && (log[t].Mount? || log[t].Move?) ==>
              log[t].anchor == AnchorAfter(log[t].newIdx, |next|)
    ensures mountAlways || MatchInverted(prev, next, s, oe, ne) ==>
              forall x :: s <= x <= ne ==> Logged(log, PatchedNew, x) || Logged(log, Mounted, x)
    ensures !mountAlways && !MatchInverted(prev, next, s, oe, ne) ==> forall x :: !Logged(log, Mounted, x)
  {
    var source, moved, lastIndex, patched, matchLog := MatchOld(prev, next, s, oe, ne);
    MatchPassLogged(prev, next, s, ne, if oe >= s then oe + 1 else s);
    assert moved <==> MatchInverted(prev, next, s, oe, ne);
    if moved {
      assert |source| > 0 by {
        var p, q :| 0 <= p < q < |matchLog| && matchLog[p].Patch? && matchLog[q].Patch? && matchLog[q].newIdx < matchLog[p].newIdx;
        assert s <= matchLog[p].newIdx <= ne;
      }
    }
    var tail := FinishGeneral(|next|, s, source, moved, mountAlways);
    JoinGeneral(prev, next, s, oe, ne, source, lastIndex, moved || mountAlways, matchLog, tail);
    log := matchLog + tail;
  }

  // ---------------------------------------------------------------------------------------
  // The corrected diff

  /** A mount or move lands in the right place: before a later new child with only freshly
      mounted children between, or at the end with only freshly mounted children after it. */
  ghost predicate AnchorSound(log: seq<Op>, op: Op, newLen: nat)
    requires op.Mount? || op.Move?
  {
    match op.anchor
    case Some(a) => op.newIdx < a < newLen && forall y :: op.newIdx < y < a ==> Logged(log, Mounted, y)
    case None => forall y :: op.newIdx < y < newLen ==> Logged(log, Mounted, y)
  }

  /** Everything between the scans, with bounded scans: every old position in s..oe is
      patched or unmounted, every new position in s..ne patched or mounted, never both, and
      every insertion is anchored soundly. */
  method Middle(prev: seq<JsValue>, next: seq<JsValue>, s: nat, oe: int, ne: int) returns (log: seq<Op>)
    requires s <= |prev| && s <= |next| && s - 1 <= oe < |prev| && s - 1 <= ne < |next|
    requires PrimitiveKeys(prev) && PrimitiveKeys(next)
    ensures KeyedPatches(prev, next, log)
    ensures forall k, x :: Logged(log, k, x) ==> (OnOld(k) && s <= x <= oe) || (!OnOld(k) && s <= x <= ne)
    ensures forall x :: s <= x <= oe ==> Logged(log, PatchedOld, x) || Logged(log, Unmounted, x)
    ensures forall x :: s <= x <= ne ==> Logged(log, PatchedNew, x) || Logged(log, Mounted, x)
    ensures forall x :: Logged(log, Mounted, x) ==> !Logged(log, PatchedNew, x)
    ensures forall t :: 0 <= t < |log| && (log[t].Mount? || log[t].Move?) ==> AnchorSound(log, log[t], |next|)
    ensures s > oe && s <= ne ==>
              forall t :: 0 <= t < |log| && log[t].Mount? ==> log[t].anchor == AnchorAfter(ne, |next|)
  {
    if s > oe && s <= ne {
      log := MountRange(s, ne, AnchorAfter(ne, |next|));
      forall t | 0 <= t < |log|
        ensures AnchorSound(log, log[t], |next|)
      {
        var x := log[t].newIdx;
        assert Touches(log[t], Mounted, x) && Logged(log, Mounted, x);
        assert forall y :: x < y <= ne ==> Logged(log, Mounted, y);
      }
    } else if s > ne && s <= oe {
      log := UnmountRange(s, oe);
    } else {
      log := GeneralCase(prev, next, s, oe, ne, true);
    }
  }

  /** The whole log of a diff, from what the scans and the middle say. `oldDone` and
      `newDone` say whether the middle accounts for all its old and all its new positions. */
  lemma JoinScans(prev: seq<JsValue>, next: seq<JsValue>, s: nat, oe: int, ne: int,
                  log1: seq<Op>, log2: seq<Op>, log3: seq<Op>, oldDone: bool, newDone: bool)
    requires s <= |prev| && s <= |next| && oe < |prev| && ne < |next|
    requires KeyedPatches(prev, next, log1) && KeyedPatches(prev, next, log2) && KeyedPatches(prev, next, log3)
    requires forall k, x :: Logged(log1, k, x) <==> (k == PatchedOld || k == PatchedNew) && 0 <= x < s
    requires forall k, x :: Logged(log2, k, x) <==> (k == PatchedOld && oe < x < |prev|) || (k == PatchedNew && ne < x < |next|)
    requires forall k, x :: Logged(log3, k, x) ==> (OnOld(k) && s <= x <= oe) || (!OnOld(k) && s <= x <= ne)
    requires oldDone ==> forall x :: s <= x <= oe ==> Logged(log3, PatchedOld, x) || Logged(log3, Unmounted, x)
    requires newDone ==> forall x :: s <= x <= ne ==> Logged(log3, PatchedNew, x) || Logged(log3, Mounted, x)
    requires forall x :: Logged(log3, Mounted, x) ==> !Logged(log3, PatchedNew, x)
    ensures KeyedPatches(prev, next, log1 + log2 + log3)
    ensures forall k, x :: Logged(log1 + log2 + log3, k, x) <==> Logged(log1, k, x) || Logged(log2, k, x) || Logged(log3, k, x)
    ensures forall k, x :: Logged(log1 + log2 + log3, k, x) ==> 0 <= x < (if OnOld(k) then |prev| else |next|)
    ensures oldDone ==>
              forall x :: 0 <= x < |prev| ==> Logged(log1 + log2 + log3, PatchedOld, x) || Logged(log1 + log2 + log3, Unmounted, x)
    ensures newDone ==>
              forall x :: 0 <= x < |next| ==> Logged(log1 + log2 + log3, PatchedNew, x) || Logged(log1 + log2 + log3, Mounted, x)
    ensures forall x :: Logged(log1 + log2 + log3, Mounted, x) ==> !Logged(log1 + log2 + log3, PatchedNew, x)
  {
    KeyedAppend(prev, next, log1, log2);
    KeyedAppend(prev, next, log1 + log2, log3);
    LoggedAppend(log1, log2);
    LoggedAppend(log1 + log2, log3);
  }

  /** The scans only patch, so every insertion in a diff comes from the middle. */
  lemma InsertsInMiddle(log1: seq<Op>, log2: seq<Op>, log3: seq<Op>)
    requires forall t :: 0 <= t < |log1| ==> log1[t].Patch?
    requires forall t :: 0 <= t < |log2| ==> log2[t].Patch?
    ensures forall t :: 0 <= t < |log1 + log2 + log3| && ((log1 + log2 + log3)[t].Mount? || (log1 + log2 + log3)[t].Move?) ==>
              |log1 + log2| <= t && (log1 + log2 + log3)[t] == log3[t - |log1 + log2|]
  {
    var log := log1 + log2 + log3;
    forall t | 0 <= t < |log| && (log[t].Mount? || log[t].Move?)
      ensures |log1 + log2| <= t && log[t] == log3[t - |log1 + log2|]
    {
      if t >= |log1 + log2| {
        assert log[t] == log3[t - |log1 + log2|];
      }
    }
  }

  /** The diff with the scans bounded by the ends of the lists and by each other, the anchor
      of a mounted range taken from the node after it, and unmatched new children mounted
      whether or not anything moves. It never throws, patches the common prefix in place,
      accounts for every old and every new child exactly once, and anchors every insertion
      soundly. */
  method Diff(prev: seq<JsValue>, next: seq<JsValue>) returns (log: seq<Op>)
    requires PrimitiveKeys(prev) && PrimitiveKeys(next)
    ensures KeyedPatches(prev, next, log)
    ensures forall x :: 0 <= x < PrefixStop(prev, next, 0) ==> Patch(x, x) in log
    ensures forall k, x :: Logged(log, k, x) ==> 0 <= x < (if OnOld(k) then |prev| else |next|)
    ensures forall x :: 0 <= x < |prev| ==> Logged(log, PatchedOld, x) || Logged(log, Unmounted, x)
    ensures forall x :: 0 <= x < |next| ==> Logged(log, PatchedNew, x) || Logged(log, Mounted, x)
    ensures forall x :: Logged(log, Mounted, x) ==> !Logged(log, PatchedNew, x)
    ensures forall t :: 0 <= t < |log| && (log[t].Mount? || log[t].Move?) ==> AnchorSound(log, log[t], |next|)
    ensures PlanOf(prev, next, true).Adds? ==>
              forall t :: 0 <= t < |log| && log[t].Mount? ==> log[t].anchor == AnchorAfter(PlanOf(prev, next, true).ne, |next|)
  {
    var start, log1 := ScanPrefix(prev, next);
    var oe, ne, log2 := ScanSuffix(prev, next, start);
    var log3 := Middle(prev, next, start, oe, ne);
    JoinScans(prev, next, start, oe, ne, log1, log2, log3, true, true);
    InsertsInMiddle(log1, log2, log3);
    log := log1 + log2 + log3;
  }

  // ---------------------------------------------------------------------------------------
  // The diff as written

  /** As written, the general case runs the final loop, and so mounts anything, exactly when
      the pass over the old children finds a node out of order. */
  ghost predicate Reorders(prev: seq<JsValue>, next: seq<JsValue>)
  {
    var p := PlanOf(prev, next, false);
    p.General? && MatchInverted(prev, next, p.s, p.oe, p.ne)
  }

  /** Everything between the scans as written: the range to mount goes to the end of the list;
      a negative count throws before any step; new children are mounted only by the final
      loop. */
  method MiddleAsWritten(prev: seq<JsValue>, next: seq<JsValue>, s: nat, oe: int, ne: int) returns (out: Outcome)
    requires s <= |prev| && s <= |next| && oe < |prev| && ne < |next|
    requires PrimitiveKeys(prev) && PrimitiveKeys(next)
    ensures out.Thrown? <==> !(s > oe && s <= ne) && !(s > ne && s <= oe) && ne - s + 1 < 0
    ensures out.Thrown? ==> out.log == []
    ensures KeyedPatches(prev, next, out.log)
    ensures forall k, x :: Logged(out.log, k, x) ==> (OnOld(k) && s <= x <= oe) || (!OnOld(k) && s <= x <= ne)
    ensures out.Done? ==> forall x :: s <= x <= oe ==> Logged(out.log, PatchedOld, x) || Logged(out.log, Unmounted, x)
    ensures out.Done? && ((s > oe && s <= ne) || (s > ne && s <= oe) || MatchInverted(prev, next, s, oe, ne)) ==>
              forall x :: s <= x <= ne ==> Logged(out.log, PatchedNew, x) || Logged(out.log, Mounted, x)
    ensures forall x :: Logged(out.log, Mounted, x) ==> !Logged(out.log, PatchedNew, x)
    ensures forall x :: Logged(out.log, Mounted, x) ==>
              (s > oe && s <= ne) || (!(s > ne && s <= oe) && MatchInverted(prev, next, s, oe, ne))
    ensures s > oe && s <= ne ==> forall t :: 0 <= t < |out.log| && out.log[t].Mount? ==> out.log[t].anchor.None?
  {
    if s > oe && s <= ne {
      var log := MountRange(s, ne, None);
      out := Done(log);
    } else if s > ne && s <= oe {
      var log := UnmountRange(s, oe);
      out := Done(log);
    } else if ne - s + 1 < 0 {
      out := Thrown([]);
    } else {
      var log := GeneralCase(prev, next, s, oe, ne, false);
      out := Done(log);
    }
  }

  /** `diff(oldChildren, newChildren)` as written. It throws exactly where the plan says
      (running off a list in either scan, or a negative count); the steps it does take pair
      only matched keys, stay within the lists and never both patch and mount a new child.
      When it completes, every old child is patched or unmounted, but a new child with no old
      counterpart is mounted only in the range case or when some node moves; in the range
      case every mount goes to the end of the parent. */
  method DiffAsWritten(prev: seq<JsValue>, next: seq<JsValue>) returns (out: Outcome)
    requires PrimitiveKeys(prev) && PrimitiveKeys(next)
    ensures out.Thrown? <==> PlanOf(prev, next, false).ScanThrows? || PlanOf(prev, next, false).CountThrows?
    ensures KeyedPatches(prev, next, out.log)
    ensures forall k, x :: Logged(out.log, k, x) ==> 0 <= x < (if OnOld(k) then |prev| else |next|)
    ensures out.Done? ==> forall x :: 0 <= x < |prev| ==> Logged(out.log, PatchedOld, x) || Logged(out.log, Unmounted, x)
    ensures out.Done? && (!PlanOf(prev, next, false).General? || Reorders(prev, next)) ==>
              forall x :: 0 <= x < |next| ==> Logged(out.log, PatchedNew, x) || Logged(out.log, Mounted, x)
    ensures forall x :: Logged(out.log, Mounted, x) ==> !Logged(out.log, PatchedNew, x)
    ensures forall x :: Logged(out.log, Mounted, x) ==> PlanOf(prev, next, false).Adds? || Reorders(prev, next)
    ensures PlanOf(prev, next, false).Adds? ==>
              forall x :: Logged(out.log, Mounted, x) ==> PlanOf(prev, next, false).s <= x <= PlanOf(prev, next, false).ne
    ensures PlanOf(prev, next, false).Adds? ==>
              forall t :: 0 <= t < |out.log| && out.log[t].Mount? ==> out.log[t].anchor.None?
  {
    var start, log1 := ScanPrefix(prev, next);
    if start == |prev| || start == |next| {
      out := Thrown(log1);
      return;
    }
    var oe, ne, log2 := ScanSuffix(prev, next, 0);
    if oe < 0 || ne < 0 {
      JoinScans(prev, next, start, oe, ne, log1, log2, [], false, false);
      assert log1 + log2 + [] == log1 + log2;
      out := Thrown(log1 + log2);
      return;
    }
    var middle := MiddleAsWritten(prev, next, start, oe, ne);
    var log3 := middle.log;
    var newDone := middle.Done? && ((start > oe && start <= ne) || (start > ne && start <= oe) || MatchInverted(prev, next, start, oe, ne));
    JoinScans(prev, next, start, oe, ne, log1, log2, log3, middle.Done?, newDone);
    InsertsInMiddle(log1, log2, log3);
    var log := log1 + log2 + log3;
    out := if middle.Done? then Done(log) else Thrown(log);
  }

  // ---------------------------------------------------------------------------------------
  // Inputs on which the diff as written and the corrected diff part ways

  /** Re-rendering an unchanged list throws: the scan from the front runs off both lists. */
  method UnchangedListThrows() returns (out: Outcome)
    ensures out.Thrown?
  {
    ScanThrowsIff([Str("a")], [Str("a")]);
    out := DiffAsWritten([Str("a")], [Str("a")]);
  }

  /** The corrected diff patches the unchanged child in place. */
  method UnchangedListPatched() returns (log: seq<Op>)
    ensures Patch(0, 0) in log
  {
    assert PrefixStop([Str("a")], [Str("a")], 0) == 1;
    log := Diff([Str("a")], [Str("a")]);
  }

  /** Replacing the middle child by a new one: nothing moves, so the new child is neither
      patched nor mounted. */
  method ReplacedChildSkipped() returns (out: Outcome)
    ensures out.Done? && !Logged(out.log, PatchedNew, 1) && !Logged(out.log, Mounted, 1)
  {
    var prev := [Str("a"), Str("b"), Str("c")];
    var next := [Str("a"), Str("d"), Str("c")];
    assert PrefixStop(prev, next, 0) == 1;
    assert SuffixStop(prev, next, 0, 2, 2) == (1, 1);
    assert MatchPass(prev, next, 1, 1, 2) == [Unmount(1)];
    out := DiffAsWritten(prev, next);
    assert !Logged(out.log, PatchedNew, 1) by {
      forall t | 0 <= t < |out.log| && out.log[t].Patch? ensures out.log[t].newIdx != 1 {
        assert SameKey(prev, next, out.log[t].oldIdx, out.log[t].newIdx);
      }
    }
  }

  /** The corrected diff mounts it. */
  method ReplacedChildMounted() returns (log: seq<Op>)
    ensures Logged(log, Mounted, 1)
  {
    var prev := [Str("a"), Str("b"), Str("c")];
    var next := [Str("a"), Str("d"), Str("c")];
    log := Diff(prev, next);
    assert !Logged(log, PatchedNew, 1) by {
      forall t | 0 <= t < |log| && log[t].Patch? ensures log[t].newIdx != 1 {
        assert SameKey(prev, next, log[t].oldIdx, log[t].newIdx);
      }
    }
  }

  /** Inserting a child in the middle: it is mounted at the end of the parent, after the
      child that should follow it. */
  method InsertedChildAppended() returns (out: Outcome)
    ensures Mount(1, None) in out.log && !AnchorSound(out.log, Mount(1, None), 3)
  {
    var prev := [Str("a"), Str("c")];
    var next := [Str("a"), Str("b"), Str("c")];
    assert PrefixStop(prev, next, 0) == 1;
    assert SuffixStop(prev, next, 0, 1, 2) == (0, 1);
    assert PlanOf(prev, next, false) == Adds(1, 1);
    out := DiffAsWritten(prev, next);
    assert !Logged(out.log, Mounted, 2);
    assert !Logged(out.log, PatchedNew, 1) by {
      forall t | 0 <= t < |out.log| && out.log[t].Patch? ensures out.log[t].newIdx != 1 {
        assert SameKey(prev, next, out.log[t].oldIdx, out.log[t].newIdx);
      }
    }
    var t :| 0 <= t < |out.log| && Touches(out.log[t], Mounted, 1);
    assert out.log[t] == Mount(1, None);
  }

  /** The corrected diff mounts it before the child that follows it. */
  method InsertedChildAnchored() returns (log: seq<Op>)
    ensures Mount(1, Some(2)) in log
  {
    var prev := [Str("a"), Str("c")];
    var next := [Str("a"), Str("b"), Str("c")];
    assert PrefixStop(prev, next, 0) == 1;
    assert SuffixStop(prev, next, 1, 1, 2) == (0, 1);
    log := Diff(prev, next);
    assert !Logged(log, PatchedNew, 1) by {
      forall t | 0 <= t < |log| && log[t].Patch? ensures log[t].newIdx != 1 {
        assert SameKey(prev, next, log[t].oldIdx, log[t].newIdx);
      }
    }
    var t :| 0 <= t < |log| && Touches(log[t], Mounted, 1);
    assert log[t] == Mount(1, Some(2));
  }
}
