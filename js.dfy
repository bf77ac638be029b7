/** JavaScript values as the application's code sees them (decoded JSON, form
    data, attribute values), and the few JavaScript operations on them that the
    catalog's logic relies on. Numbers are integers here. */
module Js {
  import opened Text
  import Seqs

  datatype Value =
    | Undefined
    | Null
    | Bool(b: bool)
    | Num(n: int)
    | Str(s: string)
    | Arr(items: seq<Value>)
    | Obj(fields: map<string, Value>)

  /** The outcome of an expression that may raise a TypeError
      (a property read of null, a call of a missing method). */
  datatype Result<T> = Ok(value: T) | TypeError {
    predicate IsFailure() { TypeError? }
    function PropagateFailure<U>(): Result<U>
      requires TypeError?
    {
      TypeError
    }
    function Extract(): T
      requires Ok?
    {
      value
    }
  }

  /** JavaScript truthiness: undefined, null, false, 0 and "" are falsy. */
  predicate Truthy(v: Value) {
    match v
    case Undefined => false
    case Null => false
    case Bool(b) => b
    case Num(n) => n != 0
    case Str(s) => s != ""
    case _ => true
  }

  predicate Nullish(v: Value) {
    v.Undefined? || v.Null?
  }

  /** `typeof v === 'object'` (true for null, arrays and objects). */
  predicate IsObjectType(v: Value) {
    v.Null? || v.Arr? || v.Obj?
  }

  /** `a || b` */
  function Or(a: Value, b: Value): (r: Value)
    ensures Truthy(r) <==> Truthy(a) || Truthy(b)
  {
    if Truthy(a) then a else b
  }

  /** The property read `v.key` on a value that is not null or undefined:
      only objects carry the fields this application reads. */
  function Get(v: Value, key: string): Value {
    if v.Obj? && key in v.fields then v.fields[key] else Undefined
  }

  /** `v?.key`: undefined when v is null or undefined. */
  function GetOpt(v: Value, key: string): Value {
    if Nullish(v) then Undefined else Get(v, key)
  }

  /** The property read `v.key`, which throws when v is null or undefined. */
  function Member(v: Value, key: string): (r: Result<Value>)
    ensures r.TypeError? <==> Nullish(v)
  {
    if Nullish(v) then TypeError else Ok(Get(v, key))
  }

  /** `{ ...o, key: x }` */
  function Put(o: Value, key: string, x: Value): (r: Value)
    ensures Get(r, key) == x
    ensures forall k :: k != key ==> Get(r, k) == Get(o, k)
  {
    match o
    case Obj(m) => Obj(m[key := x])
    case _ => Obj(map[key := x])
  }

  /** `String(v)`, also a template literal's conversion. */
  function ToStr(v: Value): string
    decreases v, 1, 0
  {
    match v
    case Undefined => "undefined"
    case Null => "null"
    case Bool(b) => if b then "true" else "false"
    case Num(n) => IntToString(n)
    case Str(s) => s
    case Arr(items) => JoinItems(items, 0)
    case Obj(_) => "[object Object]"
  }

  /** `items.slice(i).join(',')` as `String(array)` performs it: null and undefined become "". */
  function JoinItems(items: seq<Value>, i: nat): string
    requires i <= |items|
    decreases Arr(items), 0, |items| - i
  {
    if i == |items| then ""
    else
      var head := if Nullish(items[i]) then "" else ToStr(items[i]);
      if i + 1 == |items| then head else head + "," + JoinItems(items, i + 1)
  }

  /** `Number(v)` for the values this application converts; None stands for NaN. */
  function ToNumber(v: Value): (r: Option<int>)
    ensures v.Num? ==> r == Some(v.n)
  {
    match v
    case Undefined => None
    case Null => Some(0)
    case Bool(b) => Some(if b then 1 else 0)
    case Num(n) => Some(n)
    case Str(s) => ParseNumber(s)
    case Arr(_) => ParseNumber(ToStr(v))
    case Obj(_) => None
  }

  /** `s.map(f)` with a callback that may throw: the first throw ends the call. */
  function MapResult<T, U>(s: seq<T>, f: T -> Result<U>): (r: Result<seq<U>>)
    ensures r.Ok? <==> forall i :: 0 <= i < |s| ==> f(s[i]).Ok?
    ensures r.Ok? ==> |r.value| == |s| && forall i :: 0 <= i < |s| ==> r.value[i] == f(s[i]).value
  {
    if s == [] then Ok([])
    else
      var x :- f(s[0]);
      var rest :- MapResult(s[1..], f);
      Ok([x] + rest)
  }

  /** The elements a throwing filter callback keeps: those it answers true for. */
  function Kept<T>(p: T -> Result<bool>): T -> bool {
    x => p(x) == Ok(true)
  }

  /** `s.filter(p)` with a callback that may throw: the first throw ends the call. */
  function FilterResult<T>(s: seq<T>, p: T -> Result<bool>): (r: Result<seq<T>>)
    ensures r.Ok? <==> forall i :: 0 <= i < |s| ==> p(s[i]).Ok?
    ensures r.Ok? ==> r.value == Seqs.Filter(s, Kept(p))
  {
    if s == [] then Ok([])
    else
      var keep :- p(s[0]);
      var rest :- FilterResult(s[1..], p);
      Ok((if keep then [s[0]] else []) + rest)
  }
  /** A filter that did not throw kept exactly the elements answered true. */
  lemma FilterResultMember<T>(s: seq<T>, p: T -> Result<bool>, x: T)
    requires FilterResult(s, p).Ok?
    ensures x in FilterResult(s, p).value <==> x in s && p(x) == Ok(true)
  {
    var r := FilterResult(s, p).value;
    if x in r {
      var i :| 0 <= i < |r| && r[i] == x;
      assert Kept(p)(r[i]);
    }
    if x in s && p(x) == Ok(true) {
      var i :| 0 <= i < |s| && s[i] == x;
      assert Kept(p)(s[i]);
    }
  }

  /** `s.some(p)` with a callback that may throw: true at the first element
      answered true; a throw before that ends the call. */
  function SomeResult<T>(s: seq<T>, p: T -> Result<bool>): (r: Result<bool>)
    ensures r == Ok(false) <==> forall i :: 0 <= i < |s| ==> p(s[i]) == Ok(false)
    ensures r == Ok(true) ==> exists i :: 0 <= i < |s| && p(s[i]) == Ok(true)
    ensures r.Ok? ==> (r.value <==> exists i :: 0 <= i < |s| && p(s[i]) == Ok(true))
    ensures (forall i :: 0 <= i < |s| ==> p(s[i]).Ok?) ==> r.Ok?
  {
    if s == [] then Ok(false)
    else
      var b :- p(s[0]);
      if b then Ok(true)
      else
        var r := SomeResult(s[1..], p);
        assert forall i :: 0 < i < |s| ==> s[i] == s[1..][i - 1];
        r
  }

  /** `s.find(p)` with a callback that may throw: the first element answered
      true, None (undefined) when there is none. */
  function FindResult<T>(s: seq<T>, p: T -> Result<bool>): (r: Result<Option<T>>)
    ensures r == Ok(None) <==> forall i :: 0 <= i < |s| ==> p(s[i]) == Ok(false)
    ensures r.Ok? && r.value.Some? ==>
              exists i :: 0 <= i < |s| && s[i] == r.value.value && p(s[i]) == Ok(true)
    ensures (forall i :: 0 <= i < |s| ==> p(s[i]).Ok?) ==> r.Ok?
  {
    if s == [] then Ok(None)
    else
      var b :- p(s[0]);
      if b then Ok(Some(s[0]))
      else
        var r := FindResult(s[1..], p);
        assert forall i :: 0 < i < |s| ==> s[i] == s[1..][i - 1];
        r
  }

  /** `a === b` on the primitive values compared here; two objects or arrays
      are never taken to be the same reference. */
  predicate StrictEq(a: Value, b: Value) {
    a == b && !a.Arr? && !a.Obj?
  }
}
