/**
 * Renderer prop helpers: the class-value serialiser `normalize`, the `resolveProps` partition of
 * the data given to a component into props and attrs, and `shouldSetAsDomProps`.
 */
module Props {
  import opened Js

  // ---------------------------------------------------------------------------------------
  // shouldSetAsDomProps

  /** `shouldSetAsDomProps(el, key)` for an element with tag name `tagName` whose properties
      (own and inherited) are `elKeys`: `form` on an INPUT is set as an attribute because the
      DOM property is read-only; any other key is a DOM property exactly when the element has
      it. */
  predicate ShouldSetAsDomProps(tagName: string, elKeys: set<string>, key: string)
  {
    !(key == "form" && tagName == "INPUT") && key in elKeys
  }

  /** The two directions of the rule, with the read-only `form` exception spelled out. */
  lemma ShouldSetAsDomPropsRule(tagName: string, elKeys: set<string>, key: string)
    ensures key == "form" && tagName == "INPUT" ==> !ShouldSetAsDomProps(tagName, elKeys, key)
    ensures key !in elKeys ==> !ShouldSetAsDomProps(tagName, elKeys, key)
    ensures key != "form" ==> (ShouldSetAsDomProps(tagName, elKeys, key) <==> key in elKeys)
    ensures tagName != "INPUT" ==> (ShouldSetAsDomProps(tagName, elKeys, key) <==> key in elKeys)
  {
  }

  // ---------------------------------------------------------------------------------------
  // Class strings

  /** `Array.prototype.join(" ")`. */
  function Join(ws: seq<string>): (s: string)
    ensures ws == [] ==> s == ""
    ensures |ws| == 1 ==> s == ws[0]
  {
    if ws == [] then "" else if |ws| == 1 then ws[0] else ws[0] + " " + Join(ws[1..])
  }

  /** A class token: non-empty and free of spaces. */
  predicate IsToken(w: string)
  {
    w != [] && ' ' !in w
  }

  /** Splits a string at single spaces, the inverse of `Join` on tokens. */
  function Split(s: string): (ws: seq<string>)
    decreases |s|
  {
    if ' ' !in s then [s]
    else
      var i := FirstSpace(s);
      [s[..i]] + Split(s[i + 1..])
  }

  function FirstSpace(s: string): (i: nat)
    requires ' ' in s
    ensures i < |s| && s[i] == ' ' && ' ' !in s[..i]
  {
    if s[0] == ' ' then 0 else
      assert s == [s[0]] + s[1..];
      1 + FirstSpace(s[1..])
  }

  lemma FirstSpaceOf(w: string, rest: string)
    requires ' ' !in w
    ensures ' ' in w + " " + rest && FirstSpace(w + " " + rest) == |w|
    decreases |w|
  {
    var s := w + " " + rest;
    assert s[|w|] == ' ';
    if w != [] {
      assert s[1..] == w[1..] + " " + rest;
      FirstSpaceOf(w[1..], rest);
    }
  }

  /** The class string of a list of class tokens splits back into the same tokens, so the
      element receives exactly the classes that were switched on, in order. */
  lemma {:induction false} SplitJoin(ws: seq<string>)
    requires ws != [] && forall w :: w in ws ==> IsToken(w)
    ensures Split(Join(ws)) == ws
    decreases |ws|
  {
    assert ws[0] in ws;
    if |ws| == 1 {
      assert ' ' !in ws[0];
    } else {
      var w, rest := ws[0], Join(ws[1..]);
      assert ' ' !in w;
      assert forall x :: x in ws[1..] ==> x in ws;
      FirstSpaceOf(w, rest);
      var s := w + " " + rest;
      assert s[..|w|] == w && s[|w| + 1..] == rest;
      SplitJoin(ws[1..]);
    }
  }

  /** The keys whose value is the boolean `true`, in key order. Other boolean values are
      skipped silently, non-boolean ones with a logged error. */
  function TrueKeys(r: Record): (ks: seq<string>)
  {
    if r == [] then []
    else TrueKeys(r[..|r| - 1]) + (if r[|r| - 1].1 == Bool(true) then [r[|r| - 1].0] else [])
  }

  /** A key is listed exactly when it is set to `true`. */
  lemma {:induction false} TrueKeysMembers(r: Record)
    ensures forall k :: k in TrueKeys(r) <==> (k, Bool(true)) in r
  {
    if r != [] {
      var init := r[..|r| - 1];
      TrueKeysMembers(init);
      assert r == init + [r[|r| - 1]];
    }
  }

  /** A well-formed record lists each key at most once. */
  lemma {:induction false} TrueKeysNoDup(r: Record)
    requires WellFormed(r)
    ensures NoDup(TrueKeys(r))
  {
    if r != [] {
      var init := r[..|r| - 1];
      var last := r[|r| - 1];
      assert WellFormed(init);
      TrueKeysNoDup(init);
      if last.1 == Bool(true) {
        TrueKeysMembers(init);
        forall k | k in TrueKeys(init)
          ensures k != last.0
        {
          var i :| 0 <= i < |init| && init[i] == (k, Bool(true));
          assert r[i].0 == k;
        }
        NoDupAppend(TrueKeys(init), [last.0]);
      }
    }
  }

  /** `normalizeObject`: collects the keys set to `true` and joins them with spaces. */
  method NormalizeObject(r: Record) returns (s: string)
    ensures s == Join(TrueKeys(r))
  {
    var objectString: seq<string> := [];
    var i := 0;
    while i < |r|
      invariant 0 <= i <= |r|
      invariant objectString == TrueKeys(r[..i])
    {
      assert r[..i + 1][..i] == r[..i];
      if r[i].1 == Bool(true) {
        objectString := objectString + [r[i].0];
      }
      i := i + 1;
    }
    assert r[..i] == r;
    s := Join(objectString);
  }

  /** The objects and arrays a class value can point to. */
  datatype ClassHeap = ClassHeap(objects: map<nat, Record>, arrays: map<nat, seq<JsValue>>)

  /** Every object and array mentioned is present in the heap. */
  predicate InHeap(heap: ClassHeap, v: JsValue)
  {
    (v.Object? ==> v.oid in heap.objects) && (v.Array? ==> v.aid in heap.arrays)
  }

  /** An array seen as a plain object: its indices, in decimal, as keys. */
  function IndexRecord(items: seq<JsValue>): (r: Record)
    ensures |r| == |items|
    ensures forall i :: 0 <= i < |r| ==> r[i] == (Decimal(i), items[i])
  {
    if items == [] then [] else IndexRecord(items[..|items| - 1]) + [(Decimal(|items| - 1), items[|items| - 1])]
  }

  /** What one array item contributes inside `normalizeArray`: a string as it is, an object
      (an array counting as an object keyed by index) its normalisation when that is not
      empty, anything else nothing. `None` is the TypeError of `Object.keys(null)`. */
  function ItemPart(heap: ClassHeap, item: JsValue): (p: Option<seq<string>>)
    requires InHeap(heap, item)
    ensures p.None? <==> item == Null
  {
    match item
    case Str(s) => Some([s])
    case Null => None
    case Object(o) =>
      var c := Join(TrueKeys(heap.objects[o]));
      Some(if c == "" then [] else [c])
    case Array(a) =>
      var c := Join(TrueKeys(IndexRecord(heap.arrays[a])));
      Some(if c == "" then [] else [c])
    case _ => Some([])
  }

  /** The parts of a whole array, in order, or `None` when some item is null. */
  function ArrayParts(heap: ClassHeap, items: seq<JsValue>): (p: Option<seq<string>>)
    requires forall x :: x in items ==> InHeap(heap, x)
  {
    if items == [] then Some([])
    else
      var init := ArrayParts(heap, items[..|items| - 1]);
      var last := ItemPart(heap, items[|items| - 1]);
      if init.None? || last.None? then None else Some(init.value + last.value)
  }

  /** An array of class names fails exactly when it holds a null, and otherwise contributes
      no empty object normalisation; the parts of a concatenation are the concatenated parts. */
  lemma {:induction false} ArrayPartsProperties(heap: ClassHeap, items: seq<JsValue>)
    requires forall x :: x in items ==> InHeap(heap, x)
    ensures ArrayParts(heap, items).None? <==> Null in items
    ensures ArrayParts(heap, items).Some? ==>
              forall w :: w in ArrayParts(heap, items).value ==> w != "" || Str("") in items
  {
    if items != [] {
      var init := items[..|items| - 1];
      var last := items[|items| - 1];
      assert items == init + [last];
      assert forall x :: x in init ==> x in items;
      ArrayPartsProperties(heap, init);
      assert Null in items <==> Null in init || last == Null;
      assert forall x :: x in init ==> x in items;
      if ArrayParts(heap, items).Some? {
        assert ArrayParts(heap, items).value == ArrayParts(heap, init).value + ItemPart(heap, last).value;
        assert last.Str? && last.s == "" ==> Str("") in items;
      }
    }
  }

  lemma {:induction false} ArrayPartsAppend(heap: ClassHeap, a: seq<JsValue>, b: seq<JsValue>)
    requires forall x :: x in a + b ==> InHeap(heap, x)
    ensures ArrayParts(heap, a + b) ==
              if ArrayParts(heap, a).None? || ArrayParts(heap, b).None? then None
              else Some(ArrayParts(heap, a).value + ArrayParts(heap, b).value)
    decreases |b|
  {
    if b == [] {
      assert a + b == a;
      assert ArrayParts(heap, a).Some? ==> ArrayParts(heap, a).value + [] == ArrayParts(heap, a).value;
    } else {
      var b', last := b[..|b| - 1], b[|b| - 1];
      assert (a + b)[..|a + b| - 1] == a + b';
      assert (a + b)[|a + b| - 1] == last;
      assert forall x :: x in a + b' ==> x in a + b;
      assert forall x :: x in b ==> x in a + b;
      ArrayPartsAppend(heap, a, b');
      var L := ItemPart(heap, last);
      assert ArrayParts(heap, b) == if ArrayParts(heap, b').None? || L.None? then None else Some(ArrayParts(heap, b').value + L.value);
      assert ArrayParts(heap, a + b) == if ArrayParts(heap, a + b').None? || L.None? then None else Some(ArrayParts(heap, a + b').value + L.value);
      if ArrayParts(heap, a).Some? && ArrayParts(heap, b').Some? && L.Some? {
        var A, B := ArrayParts(heap, a).value, ArrayParts(heap, b').value;
        assert (A + B) + L.value == A + (B + L.value);
      }
    }
  }

  /** What `normalize` returns: the class string, `undefined`, or a thrown TypeError. */
  datatype ClassName = ClassString(s: string) | NoClass | ClassTypeError

  /** `normalizeArray`: a loop over the items pushing each item's part; a null item throws. */
  method NormalizeArray(heap: ClassHeap, items: seq<JsValue>) returns (r: ClassName)
    requires forall x :: x in items ==> InHeap(heap, x)
    ensures r == if ArrayParts(heap, items).None? then ClassTypeError
                 else ClassString(Join(ArrayParts(heap, items).value))
  {
    var className: seq<string> := [];
    var i := 0;
    while i < |items|
      invariant 0 <= i <= |items|
      invariant ArrayParts(heap, items[..i]) == Some(className)
    {
      assert items[..i + 1][..i] == items[..i];
      var item := items[i];
      assert item in items;
      assert items[..i + 1][i] == item;
      assert className + [] == className;
      assert ArrayParts(heap, items[..i + 1]) ==
        if ItemPart(heap, item).None? then None else Some(className + ItemPart(heap, item).value);
      match item {
        case Str(s) =>
          className := className + [s];
        case Null =>
          ArrayPartsAppend(heap, items[..i + 1], items[i + 1..]);
          assert items[..i + 1] + items[i + 1..] == items;
          return ClassTypeError;
        case Object(o) =>
          var c := NormalizeObject(heap.objects[o]);
          if c != "" {
            className := className + [c];
          }
        case Array(a) =>
          var c := NormalizeObject(IndexRecord(heap.arrays[a]));
          if c != "" {
            className := className + [c];
          }
        case _ =>
      }
      i := i + 1;
    }
    assert items[..i] == items;
    r := ClassString(Join(className));
  }

  /** `normalize(classSeries)`: a string is returned unchanged; null reaches
      `Object.keys(null)`; a non-array object and an array go to their normalisers; any other
      type gives undefined. */
  method Normalize(heap: ClassHeap, v: JsValue) returns (r: ClassName)
    requires InHeap(heap, v)
    requires v.Array? ==> forall x :: x in heap.arrays[v.aid] ==> InHeap(heap, x)
    ensures v.Str? ==> r == ClassString(v.s)
    ensures v == Null ==> r == ClassTypeError
    ensures v.Object? ==> r == ClassString(Join(TrueKeys(heap.objects[v.oid])))
    ensures v.Array? ==> r == if ArrayParts(heap, heap.arrays[v.aid]).None? then ClassTypeError
                              else ClassString(Join(ArrayParts(heap, heap.arrays[v.aid]).value))
    ensures v.Undefined? || v.Bool? || v.Num? || v.Function? ==> r == NoClass
  {
    match v {
      case Str(s) => r := ClassString(s);
      case Null => r := ClassTypeError;
      case Object(o) =>
        var s := NormalizeObject(heap.objects[o]);
        r := ClassString(s);
      case Array(a) => r := NormalizeArray(heap, heap.arrays[a]);
      case _ => r := NoClass;
    }
  }

  // ---------------------------------------------------------------------------------------
  // resolveProps

  /** `key in options || key.startsWith("on")`; `options` is the set of declared prop names. */
  predicate IsProp(options: set<string>, key: string)
  {
    key in options || StartsWith(key, "on")
  }

  /** The entries of `r` whose key satisfies (or, with `keep` false, fails) `IsProp`. */
  function Partition(options: set<string>, r: Record, keep: bool): (r': Record)
    ensures |r'| <= |r|
  {
    if r == [] then []
    else
      var last := r[|r| - 1];
      Partition(options, r[..|r| - 1], keep) + (if IsProp(options, last.0) == keep then [last] else [])
  }

  /** Every entry of the data lands, with its value, in exactly one of props and attrs: props
      when its key is declared or starts with "on", attrs otherwise; both stay well-formed. */
  lemma PartitionExact(options: set<string>, r: Record)
    ensures forall p :: p in Partition(options, r, true) <==> p in r && IsProp(options, p.0)
    ensures forall p :: p in Partition(options, r, false) <==> p in r && !IsProp(options, p.0)
    ensures |Partition(options, r, true)| + |Partition(options, r, false)| == |r|
    ensures WellFormed(r) ==> WellFormed(Partition(options, r, true)) && WellFormed(Partition(options, r, false))
  {
    PartitionMembers(options, r, true);
    PartitionMembers(options, r, false);
    PartitionSize(options, r);
    if WellFormed(r) {
      PartitionWellFormed(options, r, true);
      PartitionWellFormed(options, r, false);
    }
  }

  lemma {:induction false} PartitionMembers(options: set<string>, r: Record, keep: bool)
    ensures forall p :: p in Partition(options, r, keep) <==> p in r && IsProp(options, p.0) == keep
  {
    if r != [] {
      var init := r[..|r| - 1];
      assert r == init + [r[|r| - 1]];
      PartitionMembers(options, init, keep);
    }
  }

  lemma {:induction false} PartitionSize(options: set<string>, r: Record)
    ensures |Partition(options, r, true)| + |Partition(options, r, false)| == |r|
  {
    if r != [] {
      PartitionSize(options, r[..|r| - 1]);
    }
  }

  lemma {:induction false} PartitionWellFormed(options: set<string>, r: Record, keep: bool)
    requires WellFormed(r)
    ensures WellFormed(Partition(options, r, keep))
  {
    if r != [] {
      var init := r[..|r| - 1];
      var last := r[|r| - 1];
      assert WellFormed(init);
      PartitionWellFormed(options, init, keep);
      PartitionMembers(options, init, keep);
      forall p | p in Partition(options, init, keep)
        ensures p.0 != last.0
      {
        var i :| 0 <= i < |init| && init[i] == p;
        assert r[i] == p;
      }
      var part := Partition(options, init, keep);
      forall a, b | 0 <= a < b < |part| + (if IsProp(options, last.0) == keep then 1 else 0)
        ensures Partition(options, r, keep)[a].0 != Partition(options, r, keep)[b].0
      {
        if b == |part| {
          assert part[a] in part;
        }
      }
    }
  }

  /** The key at position i is not yet in either half built from the entries before it, so
      assigning it appends. */
  lemma PartitionFresh(options: set<string>, r: Record, i: nat)
    requires WellFormed(r) && i < |r|
    ensures !HasKey(Partition(options, r[..i], true), r[i].0)
    ensures !HasKey(Partition(options, r[..i], false), r[i].0)
  {
    var prefix := r[..i];
    PartitionExact(options, prefix);
    forall p | p in prefix
      ensures p.0 != r[i].0
    {
      var j :| 0 <= j < |prefix| && prefix[j] == p;
      assert r[j] == p;
    }
    forall keep: bool, j | 0 <= j < |Partition(options, prefix, keep)|
      ensures Partition(options, prefix, keep)[j].0 != r[i].0
    {
      assert Partition(options, prefix, keep)[j] in Partition(options, prefix, keep);
    }
  }

  /** What `resolveProps` returns, or a TypeError: with `options` undefined the `in` test throws
      on the first key of the data. */
  datatype Resolved = Resolved(props: Record, attrs: Record) | ResolveTypeError

  /** `resolveProps(options, propsData)`: one pass over the data, assigning each entry to props
      or attrs. */
  method ResolveProps(options: Option<set<string>>, propsData: Record) returns (r: Resolved)
    requires WellFormed(propsData)
    ensures r.ResolveTypeError? <==> options.None? && propsData != []
    ensures r.Resolved? ==> r.props == Partition(if options.Some? then options.value else {}, propsData, true)
    ensures r.Resolved? ==> r.attrs == Partition(if options.Some? then options.value else {}, propsData, false)
  {
    var props: Record := [];
    var attrs: Record := [];
    var opts := if options.Some? then options.value else {};
    var i := 0;
    while i < |propsData|
      invariant 0 <= i <= |propsData|
      invariant options.None? ==> i == 0
      invariant props == Partition(opts, propsData[..i], true)
      invariant attrs == Partition(opts, propsData[..i], false)
    {
      var (key, value) := propsData[i];
      if options.None? {
        return ResolveTypeError;
      }
      assert propsData[..i + 1][..i] == propsData[..i];
      PartitionFresh(opts, propsData, i);
      if IsProp(opts, key) {
        props := Set(props, key, value);
      } else {
        attrs := Set(attrs, key, value);
      }
      i := i + 1;
    }
    assert propsData[..i] == propsData;
    r := Resolved(props, attrs);
  }
}
