/** JavaScript values and plain-object records as the rest of the model sees them. */
module Js {

  datatype Option<+T> = None | Some(value: T)

  /** A JavaScript value. Objects, arrays and functions are compared by identity. */
  datatype JsValue =
    | Undefined
    | Null
    | Bool(b: bool)
    | Num(n: int)
    | Str(s: string)
    | Object(oid: nat)
    | Array(aid: nat)
    | Function(fid: nat)

  /** JavaScript truthiness (NaN is not modelled). */
  predicate Truthy(v: JsValue)
  {
    match v
    case Undefined => false
    case Null => false
    case Bool(b) => b
    case Num(n) => n != 0
    case Str(s) => s != ""
    case _ => true
  }

  /** A plain object: its own enumerable string keys in insertion order, each with its value. */
  type Record = seq<(string, JsValue)>

  function KeysOf(r: Record): (ks: seq<string>)
    ensures |ks| == |r|
    ensures forall i :: 0 <= i < |r| ==> ks[i] == r[i].0
  {
    if r == [] then [] else [r[0].0] + KeysOf(r[1..])
  }

  /** Every key occurs once, as in a JavaScript object. */
  predicate WellFormed(r: Record)
  {
    forall i, j :: 0 <= i < j < |r| ==> r[i].0 != r[j].0
  }

  predicate HasKey(r: Record, k: string)
  {
    exists i :: 0 <= i < |r| && r[i].0 == k
  }

  /** `obj[k]`: the value of key k, or undefined when the key is absent. */
  function Get(r: Record, k: string): (v: JsValue)
    ensures !HasKey(r, k) ==> v == Undefined
    ensures forall i :: 0 <= i < |r| && r[i].0 == k && (forall j :: 0 <= j < i ==> r[j].0 != k) ==> v == r[i].1
  {
    if r == [] then Undefined
    else if r[0].0 == k then r[0].1
    else Get(r[1..], k)
  }

  /** `obj[k] = v`: overwrite in place when present, append otherwise. */
  function Set(r: Record, k: string, v: JsValue): (r': Record)
    ensures HasKey(r, k) ==> |r'| == |r|
    ensures !HasKey(r, k) ==> r' == r + [(k, v)]
    ensures forall i :: 0 <= i < |r| ==> r'[i] == (if r[i].0 == k then (k, v) else r[i])
  {
    if !HasKey(r, k) then r + [(k, v)] else Replace(r, k, v)
  }

  function Replace(r: Record, k: string, v: JsValue): (r': Record)
    ensures |r'| == |r|
    ensures forall i :: 0 <= i < |r| ==> r'[i] == (if r[i].0 == k then (k, v) else r[i])
  {
    if r == [] then [] else [if r[0].0 == k then (k, v) else r[0]] + Replace(r[1..], k, v)
  }

  /** `delete obj[k]`. */
  function Delete(r: Record, k: string): (r': Record)
    ensures !HasKey(r', k)
    ensures forall p :: p in r' <==> p in r && p.0 != k
    ensures |r'| <= |r|
  {
    if r == [] then []
    else if r[0].0 == k then Delete(r[1..], k)
    else [r[0]] + Delete(r[1..], k)
  }

  lemma GetFound(r: Record, k: string, i: nat)
    requires WellFormed(r) && i < |r| && r[i].0 == k
    ensures Get(r, k) == r[i].1
  {
  }

  lemma HasKeyIsIn(r: Record, k: string)
    ensures HasKey(r, k) <==> k in KeysOf(r)
  {
    if HasKey(r, k) {
      var i :| 0 <= i < |r| && r[i].0 == k;
      assert KeysOf(r)[i] == k;
    }
  }

  /** In a well-formed record, each entry is what `Get` returns for its key. */
  lemma GetMember(r: Record, p: (string, JsValue))
    requires WellFormed(r) && p in r
    ensures HasKey(r, p.0) && Get(r, p.0) == p.1
  {
    var i :| 0 <= i < |r| && r[i] == p;
    GetFound(r, p.0, i);
  }

  /** Assignment keeps a record well-formed, makes the key hold the value, and leaves every
      other key as it was. */
  lemma SetFacts(r: Record, k: string, v: JsValue)
    requires WellFormed(r)
    ensures WellFormed(Set(r, k, v))
    ensures Get(Set(r, k, v), k) == v
    ensures forall k' :: HasKey(Set(r, k, v), k') <==> HasKey(r, k') || k' == k
    ensures forall k' :: k' != k ==> Get(Set(r, k, v), k') == Get(r, k')
  {
    var r' := Set(r, k, v);
    assert forall i :: 0 <= i < |r'| ==> r'[i].0 == (if i < |r| then r[i].0 else k);
    assert WellFormed(r');
    forall k' | HasKey(r', k')
      ensures HasKey(r, k') || k' == k
      ensures Get(r', k') == if k' == k then v else Get(r, k')
    {
      var i :| 0 <= i < |r'| && r'[i].0 == k';
      GetFound(r', k', i);
      if i < |r| {
        assert r[i].0 == k';
        if k' != k {
          GetFound(r, k', i);
        }
      }
    }
    forall k' | HasKey(r, k')
      ensures HasKey(r', k')
    {
      var i :| 0 <= i < |r| && r[i].0 == k';
      assert r'[i].0 == k';
    }
    assert HasKey(r', k) by {
      if HasKey(r, k) {
        var i :| 0 <= i < |r| && r[i].0 == k;
        assert r'[i].0 == k;
      } else {
        assert r'[|r|].0 == k;
      }
    }
  }

  /** `delete` keeps a record well-formed, removes the key, and leaves every other key as it
      was. */
  lemma {:induction false} DeleteFacts(r: Record, k: string)
    requires WellFormed(r)
    ensures WellFormed(Delete(r, k))
    ensures forall k' :: HasKey(Delete(r, k), k') <==> HasKey(r, k') && k' != k
    ensures forall k' :: k' != k ==> Get(Delete(r, k), k') == Get(r, k')
  {
    var r' := Delete(r, k);
    if r != [] {
      assert WellFormed(r[1..]);
      DeleteFacts(r[1..], k);
      if r[0].0 != k {
        forall p | p in Delete(r[1..], k)
          ensures p.0 != r[0].0
        {
          assert p in r[1..];
          var i :| 0 <= i < |r[1..]| && r[1..][i] == p;
          assert r[i + 1] == p;
        }
      }
    }
    forall k' | HasKey(r', k')
      ensures HasKey(r, k') && k' != k
    {
      var i :| 0 <= i < |r'| && r'[i].0 == k';
      assert r'[i] in r';
    }
    forall k' | HasKey(r, k') && k' != k
      ensures HasKey(r', k') && Get(r', k') == Get(r, k')
    {
      var i :| 0 <= i < |r| && r[i].0 == k';
      assert r[i] in r;
      GetMember(r, r[i]);
      GetMember(r', r[i]);
    }
  }

  /** Enumerating a record one more entry adds exactly that entry's key, which a well-formed
      record has not enumerated before. */
  lemma HasKeyPrefix(r: Record, i: nat)
    requires i < |r|
    ensures forall k :: HasKey(r[..i + 1], k) <==> HasKey(r[..i], k) || k == r[i].0
    ensures WellFormed(r) ==> !HasKey(r[..i], r[i].0)
  {
    forall k | HasKey(r[..i + 1], k)
      ensures HasKey(r[..i], k) || k == r[i].0
    {
      var j :| 0 <= j < i + 1 && r[..i + 1][j].0 == k;
      if j < i {
        assert r[..i][j].0 == k;
      }
    }
    forall k | HasKey(r[..i], k)
      ensures HasKey(r[..i + 1], k)
    {
      var j :| 0 <= j < i && r[..i][j].0 == k;
      assert r[..i + 1][j].0 == k;
    }
    assert r[..i + 1][i].0 == r[i].0;
  }

  /** A sequence without repetitions, such as the iteration order of a JavaScript `Set`. */
  predicate NoDup<T(==)>(s: seq<T>)
  {
    forall i, j :: 0 <= i < j < |s| ==> s[i] != s[j]
  }

  lemma NoDupAppend<T>(a: seq<T>, b: seq<T>)
    requires NoDup(a) && NoDup(b) && forall x :: x in a ==> x !in b
    ensures NoDup(a + b)
  {
    forall i, j | 0 <= i < j < |a + b|
      ensures (a + b)[i] != (a + b)[j]
    {
      if i < |a| && j >= |a| {
        assert (a + b)[i] in a && (a + b)[j] in b;
      }
    }
  }

  /** Decimal form of a natural number, as `String(n)` writes it. */
  function Decimal(n: nat): (s: string)
    ensures s != []
  {
    if n < 10 then ["0123456789"[n]] else Decimal(n / 10) + ["0123456789"[n % 10]]
  }

  predicate StartsWith(s: string, prefix: string)
  {
    |prefix| <= |s| && s[..|prefix|] == prefix
  }
}
