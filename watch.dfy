/**
 * `watch(source, callback, options)` and the cycle-safe `traverse`.
 *
 * The lazy effect and its scheduler come from the option-taking `watchEffect` of the core
 * index, which is not part of this model: running the getter is represented by the value it
 * returns, passed in as a parameter, and the user callback by the invalidate function it
 * registers during its call (if any). The `flush: 'post'` microtask is an explicit pending
 * count drained by `RunDeferred`.
 */
module Watch {
  import opened Js

  /** The composite values `traverse` descends into (`typeof v === 'object'`, not null). */
  predicate IsComposite(v: JsValue)
  {
    v.Object? || v.Array?
  }

  /** The reachable part of the heap: each object or array with its enumerable property
      values, in `for ... in` order. Every composite value it mentions is in it. */
  type Heap = map<JsValue, seq<JsValue>>

  ghost predicate Closed(heap: Heap)
  {
    && (forall o :: o in heap ==> IsComposite(o))
    && (forall o, f :: o in heap && f in heap[o] && IsComposite(f) ==> f in heap)
  }

  /** Every composite field of o is in vs. */
  ghost predicate FieldsIn(heap: Heap, o: JsValue, vs: set<JsValue>)
    requires o in heap
  {
    forall f :: f in heap[o] && IsComposite(f) ==> f in vs
  }

  /** `traverse(value, traversed)`. Returns the grown visited set and the order in which new
      objects were visited. Primitives, null, functions and visited objects stop the descent;
      each object is visited at most once, so cyclic structures terminate; and every object
      visited here has all its composite fields visited by the end. */
  method Traverse(heap: Heap, value: JsValue, visited: set<JsValue>) returns (visited': set<JsValue>, order: seq<JsValue>)
    requires Closed(heap) && (IsComposite(value) ==> value in heap) && visited <= heap.Keys
    decreases heap.Keys - visited
    ensures visited' == visited + set x | x in order
    ensures NoDup(order) && (forall x :: x in order ==> x !in visited && x in heap)
    ensures !IsComposite(value) || value in visited ==> order == [] && visited' == visited
    ensures IsComposite(value) && value !in visited ==> |order| > 0 && order[0] == value
    ensures forall o :: o in order ==> FieldsIn(heap, o, visited')
  {
    if !IsComposite(value) || value in visited {
      return visited, [];
    }
    visited' := visited + {value};
    order := [value];
    var fields := heap[value];
    var i := 0;
    while i < |fields|
      invariant 0 <= i <= |fields|
      invariant value in visited' && visited' <= heap.Keys
      invariant visited' == visited + set x | x in order
      invariant NoDup(order) && order[0] == value
      invariant forall x :: x in order ==> x !in visited && x in heap
      invariant forall j :: 0 <= j < i && IsComposite(fields[j]) ==> fields[j] in visited'
      invariant forall o :: o in order && o != value ==> FieldsIn(heap, o, visited')
    {
      ghost var before := visited';
      var more, ord := Traverse(heap, fields[i], visited');
      assert forall x :: x in ord ==> x !in before;
      NoDupAppend(order, ord);
      forall o | o in order && o != value
        ensures FieldsIn(heap, o, more)
      {
        assert FieldsIn(heap, o, before);
      }
      order := order + ord;
      visited' := more;
      i := i + 1;
    }
  }

  /** A call the watcher makes: the stored invalidate function, the getter, the callback. */
  datatype WatchCall = CallInvalidate(fid: nat) | RunGetter | Callback(newVal: JsValue, oldVal: JsValue)

  /** The getter `watch` builds: a function source is used unchanged; for any other source the
      getter calls `traverse` and returns nothing. */
  function GetterResult(sourceIsFunction: bool, userResult: JsValue): (r: JsValue)
    ensures !sourceIsFunction ==> r == Undefined
  {
    if sourceIsFunction then userResult else Undefined
  }

  class Watcher {
    const sourceIsFunction: bool
    const flushPost: bool
    var oldVal: JsValue
    var expired: Option<nat>
    var pending: nat
    ghost var log: seq<WatchCall>

    /** Runs `schedule`: the stored invalidate function first (it is not cleared), then the
        getter, then the callback with (new, previous old); the new value becomes the old one.
        `registered` is what the callback passes to `onInvalidate` during the call, if any. */
    method Schedule(userResult: JsValue, registered: Option<nat>)
      modifies this
      ensures var newVal := GetterResult(sourceIsFunction, userResult);
        && log == old(log) + (if old(expired).Some? then [CallInvalidate(old(expired).value)] else [])
                           + [RunGetter, Callback(newVal, old(oldVal))]
        && oldVal == newVal
      ensures expired == if registered.Some? then registered else old(expired)
      ensures pending == old(pending)
    {
      if expired.Some? {
        log := log + [CallInvalidate(expired.value)];
      }
      var newVal := GetterResult(sourceIsFunction, userResult);
      log := log + [RunGetter, Callback(newVal, oldVal)];
      if registered.Some? {
        OnInvalidate(registered.value);
      }
      oldVal := newVal;
    }

    /** `onInvalidate(fn)`: only the most recently registered function is kept. */
    method OnInvalidate(fid: nat)
      modifies this
      ensures expired == Some(fid)
      ensures oldVal == old(oldVal) && pending == old(pending) && log == old(log)
    {
      expired := Some(fid);
    }

    /** Setup. With `immediate` the callback runs once, with an undefined old value; otherwise
        the getter runs once into `oldVal` and the callback does not run. */
    constructor (sourceIsFunction: bool, immediate: bool, flushPost: bool,
                 userResult: JsValue, registered: Option<nat>)
      ensures this.sourceIsFunction == sourceIsFunction && this.flushPost == flushPost
      ensures pending == 0
      ensures oldVal == GetterResult(sourceIsFunction, userResult)
      ensures immediate ==> (log == [RunGetter, Callback(GetterResult(sourceIsFunction, userResult), Undefined)]
                             && expired == registered)
      ensures !immediate ==> log == [RunGetter] && expired == None
    {
      this.sourceIsFunction := sourceIsFunction;
      this.flushPost := flushPost;
      oldVal := Undefined;
      expired := None;
      pending := 0;
      log := [];
      new;
      if immediate {
        Schedule(userResult, registered);
      } else {
        log := log + [RunGetter];
        oldVal := GetterResult(sourceIsFunction, userResult);
      }
    }

    /** The effect's scheduler: `flush: 'post'` defers `schedule` by one microtask; any other
        value runs it at once. */
    method SchedulerFired(userResult: JsValue, registered: Option<nat>)
      modifies this
      ensures flushPost ==> (pending == old(pending) + 1 && log == old(log)
                             && oldVal == old(oldVal) && expired == old(expired))
      ensures !flushPost ==> var newVal := GetterResult(sourceIsFunction, userResult);
        && log == old(log) + (if old(expired).Some? then [CallInvalidate(old(expired).value)] else [])
                           + [RunGetter, Callback(newVal, old(oldVal))]
        && oldVal == newVal
        && expired == (if registered.Some? then registered else old(expired))
        && pending == old(pending)
    {
      if flushPost {
        pending := pending + 1;
      } else {
        Schedule(userResult, registered);
      }
    }

    /** One deferred `schedule` microtask runs. */
    method RunDeferred(userResult: JsValue, registered: Option<nat>)
      requires pending > 0
      modifies this
      ensures pending == old(pending) - 1
      ensures var newVal := GetterResult(sourceIsFunction, userResult);
        && log == old(log) + (if old(expired).Some? then [CallInvalidate(old(expired).value)] else [])
                           + [RunGetter, Callback(newVal, old(oldVal))]
        && oldVal == newVal
      ensures expired == if registered.Some? then registered else old(expired)
    {
      pending := pending - 1;
      Schedule(userResult, registered);
    }
  }
}
