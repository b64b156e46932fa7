/** A plain JavaScript object (`{}`) used as a string-keyed dictionary.

    The model keeps the own keys in creation order and a map from key to value.
    Enumeration (`Object.keys`, `Object.values`) follows the ECMAScript abstract
    operation OrdinaryOwnPropertyKeys: keys that are array indices first, in
    ascending numeric order, then every other string key in creation order.
 */
module JsObject {

  /** `undefined`/`null` (None) or a string value (Some). */
  datatype Option<+T> = None | Some(value: T)

  /** A value that a JavaScript expression can also throw instead of producing. */
  datatype Outcome<+T> = Ok(value: T) | Thrown(error: string)

  /** JavaScript truthiness of an optional string: `undefined`, `null` and "" are falsy. */
  predicate Truthy(v: Option<string>) {
    v.Some? && v.value != ""
  }

  /** `a || b`: the left operand when it is truthy, otherwise the right one. */
  function Or(a: Option<string>, b: Option<string>): (r: Option<string>)
    ensures Truthy(a) ==> r == a
    ensures !Truthy(a) ==> r == b
    ensures Truthy(r) <==> Truthy(a) || Truthy(b)
  {
    if Truthy(a) then a else b
  }

  /** The names a plain object inherits from Object.prototype. Reading any of
      them on an object that lacks an own property of that name yields a truthy
      value (a function, or Object.prototype itself for `__proto__`) that is not
      an array. */
  const InheritedNames: set<string> := {
    "constructor", "__defineGetter__", "__defineSetter__", "hasOwnProperty",
    "__lookupGetter__", "__lookupSetter__", "isPrototypeOf", "propertyIsEnumerable",
    "toString", "valueOf", "__proto__", "toLocaleString"
  }

  datatype Obj<V> = Obj(keys: seq<string>, vals: map<string, V>)

  predicate Distinct(s: seq<string>) {
    forall i, j :: 0 <= i < j < |s| ==> s[i] != s[j]
  }

  /** The own keys are listed once each, and exactly the keys of the value map. */
  ghost predicate Valid<V>(o: Obj<V>) {
    Distinct(o.keys) && forall k :: k in o.vals <==> k in o.keys
  }

  function Empty<V>(): (o: Obj<V>)
    ensures Valid(o) && o.keys == [] && o.vals == map[]
  {
    Obj([], map[])
  }

  /** `o[k] = v` creating or overwriting an own data property: a new key goes
      last, an existing key keeps its place. */
  function Put<V>(o: Obj<V>, k: string, v: V): (r: Obj<V>)
    requires Valid(o)
    ensures Valid(r)
    ensures r.vals == o.vals[k := v]
    ensures k in o.vals ==> r.keys == o.keys
    ensures k !in o.vals ==> r.keys == o.keys + [k]
  {
    if k in o.vals then Obj(o.keys, o.vals[k := v]) else Obj(o.keys + [k], o.vals[k := v])
  }

  predicate IsDigit(c: char) {
    '0' <= c <= '9'
  }

  predicate AllDigits(s: string) {
    forall i :: 0 <= i < |s| ==> IsDigit(s[i])
  }

  /** The decimal value of a string of digits. */
  function DigitsValue(s: string): nat
    requires AllDigits(s)
  {
    if s == [] then 0 else DigitsValue(s[..|s| - 1]) * 10 + (s[|s| - 1] as int - '0' as int)
  }

  /** 2^32 - 2, the largest array index. */
  const MaxArrayIndex: nat := 4294967294

  /** A canonical decimal numeral (no sign, no leading zero) of an integer in [0, 2^32 - 2]. */
  predicate IsArrayIndex(s: string) {
    && |s| > 0
    && AllDigits(s)
    && (s[0] == '0' ==> |s| == 1)
    && DigitsValue(s) <= MaxArrayIndex
  }

  predicate AllIndices(s: seq<string>) {
    forall i :: 0 <= i < |s| ==> IsArrayIndex(s[i])
  }

  /** Ascending by numeric value. */
  predicate SortedIndices(s: seq<string>)
    requires AllIndices(s)
  {
    forall i, j :: 0 <= i < j < |s| ==> DigitsValue(s[i]) <= DigitsValue(s[j])
  }

  function IndexKeys(s: seq<string>): (r: seq<string>)
    ensures AllIndices(r)
  {
    if s == [] then []
    else if IsArrayIndex(s[|s| - 1]) then IndexKeys(s[..|s| - 1]) + [s[|s| - 1]]
    else IndexKeys(s[..|s| - 1])
  }

  function OtherKeys(s: seq<string>): (r: seq<string>)
    ensures forall i :: 0 <= i < |r| ==> !IsArrayIndex(r[i])
  {
    if s == [] then []
    else if IsArrayIndex(s[|s| - 1]) then OtherKeys(s[..|s| - 1])
    else OtherKeys(s[..|s| - 1]) + [s[|s| - 1]]
  }

  lemma {:induction false} SplitKeys(s: seq<string>)
    ensures multiset(IndexKeys(s)) + multiset(OtherKeys(s)) == multiset(s)
  {
    if s != [] {
      SplitKeys(s[..|s| - 1]);
      assert s == s[..|s| - 1] + [s[|s| - 1]];
    }
  }

  lemma {:induction false} NoIndexKeys(s: seq<string>)
    ensures (forall i :: 0 <= i < |s| ==> !IsArrayIndex(s[i])) ==> IndexKeys(s) == [] && OtherKeys(s) == s
  {
    if s != [] && forall i :: 0 <= i < |s| ==> !IsArrayIndex(s[i]) {
      NoIndexKeys(s[..|s| - 1]);
      assert s == s[..|s| - 1] + [s[|s| - 1]];
    }
  }

  /** Places an array index into a list sorted by numeric value. */
  function InsertIndex(k: string, s: seq<string>): (r: seq<string>)
    requires IsArrayIndex(k) && AllIndices(s) && SortedIndices(s)
    ensures AllIndices(r) && SortedIndices(r)
    ensures multiset(r) == multiset(s) + multiset{k}
    ensures |r| > 0 && (r[0] == k || (s != [] && r[0] == s[0]))
  {
    if s == [] then [k]
    else if DigitsValue(k) <= DigitsValue(s[0]) then
      SortedCons(k, s);
      [k] + s
    else
      var rest := InsertIndex(k, s[1..]);
      assert s == [s[0]] + s[1..];
      SortedCons(s[0], rest);
      [s[0]] + rest
  }

  /** A sorted list stays sorted under a new head no larger than its first element. */
  lemma {:induction false} SortedCons(x: string, r: seq<string>)
    requires IsArrayIndex(x) && AllIndices(r) && SortedIndices(r)
    requires r != [] ==> DigitsValue(x) <= DigitsValue(r[0])
    ensures AllIndices([x] + r) && SortedIndices([x] + r)
  {
    var t := [x] + r;
    forall i, j | 0 <= i < j < |t| ensures DigitsValue(t[i]) <= DigitsValue(t[j]) {
      if i == 0 {
        assert t[j] == r[j - 1];
      } else {
        assert t[i] == r[i - 1] && t[j] == r[j - 1];
      }
    }
  }

  /** Sorts array indices by numeric value, keeping every occurrence. */
  function SortIndices(s: seq<string>): (r: seq<string>)
    requires AllIndices(s)
    ensures AllIndices(r) && SortedIndices(r)
    ensures multiset(r) == multiset(s)
  {
    if s == [] then []
    else
      assert s == s[..|s| - 1] + [s[|s| - 1]];
      InsertIndex(s[|s| - 1], SortIndices(s[..|s| - 1]))
  }

  lemma {:induction false} DistinctMultiset(a: seq<string>, b: seq<string>)
    requires multiset(a) == multiset(b) && Distinct(a)
    ensures Distinct(b)
  {
    forall i, j | 0 <= i < j < |b|
      ensures b[i] != b[j]
    {
      DistinctCount(a, b[i]);
      TwoOccurrences(b, i, j);
    }
  }

  /** A value found at two positions occurs at least twice. */
  lemma {:induction false} TwoOccurrences(b: seq<string>, i: nat, j: nat)
    requires i < j < |b|
    ensures b[i] == b[j] ==> multiset(b)[b[i]] >= 2
  {
    var x := b[i];
    assert b == b[..j] + [b[j]] + b[j + 1..];
    assert b[..j][i] == x;
    assert x in multiset(b[..j]);
  }

  lemma {:induction false} DistinctCount(a: seq<string>, x: string)
    requires Distinct(a)
    ensures multiset(a)[x] <= 1
  {
    if a != [] {
      assert Distinct(a[..|a| - 1]);
      DistinctCount(a[..|a| - 1], x);
      assert a == a[..|a| - 1] + [a[|a| - 1]];
      if a[|a| - 1] == x {
        assert x !in a[..|a| - 1];
      }
    }
  }

  /** `Object.keys(o)`: array indices ascending, then the other keys in
      creation order (see `EnumerationOrder`). */
  function OwnKeys<V>(o: Obj<V>): (r: seq<string>)
    requires Valid(o)
    ensures |r| == |o.keys| && Distinct(r)
    ensures forall k :: k in r <==> k in o.vals
  {
    var r := SortIndices(IndexKeys(o.keys)) + OtherKeys(o.keys);
    OwnKeysPermutation(o.keys);
    DistinctMultiset(o.keys, r);
    assert forall k :: k in r <==> k in multiset(o.keys);
    r
  }

  /** `Object.keys` lists every own key once; array indices come first, in
      ascending numeric order; the other keys follow in creation order; so
      without array-index keys it is exactly the creation order. */
  lemma {:induction false} EnumerationOrder<V>(o: Obj<V>)
    requires Valid(o)
    ensures multiset(OwnKeys(o)) == multiset(o.keys)
    ensures forall i, j :: 0 <= i < j < |OwnKeys(o)| && IsArrayIndex(OwnKeys(o)[j]) ==>
              IsArrayIndex(OwnKeys(o)[i]) && DigitsValue(OwnKeys(o)[i]) <= DigitsValue(OwnKeys(o)[j])
    ensures OtherKeys(OwnKeys(o)) == OtherKeys(o.keys)
    ensures (forall i :: 0 <= i < |o.keys| ==> !IsArrayIndex(o.keys[i])) ==> OwnKeys(o) == o.keys
  {
    OwnKeysPermutation(o.keys);
    OwnKeysOrder(o.keys);
  }

  lemma {:induction false} OwnKeysPermutation(s: seq<string>)
    ensures multiset(SortIndices(IndexKeys(s)) + OtherKeys(s)) == multiset(s)
    ensures |SortIndices(IndexKeys(s)) + OtherKeys(s)| == |s|
  {
    var r := SortIndices(IndexKeys(s)) + OtherKeys(s);
    SplitKeys(s);
    assert |r| == |multiset(r)| == |multiset(s)| == |s|;
  }

  lemma {:induction false} OwnKeysOrder(s: seq<string>)
    ensures var r := SortIndices(IndexKeys(s)) + OtherKeys(s);
      && (forall i, j :: 0 <= i < j < |r| && IsArrayIndex(r[j]) ==>
            IsArrayIndex(r[i]) && DigitsValue(r[i]) <= DigitsValue(r[j]))
      && OtherKeys(r) == OtherKeys(s)
      && ((forall i :: 0 <= i < |s| ==> !IsArrayIndex(s[i])) ==> r == s)
  {
    var sorted := SortIndices(IndexKeys(s));
    var others := OtherKeys(s);
    var r := sorted + others;
    forall i, j | 0 <= i < j < |r| && IsArrayIndex(r[j])
      ensures IsArrayIndex(r[i]) && DigitsValue(r[i]) <= DigitsValue(r[j])
    {
      assert j < |sorted|;
    }
    OtherKeysOfIndices(sorted);
    OtherKeysAppend(sorted, others);
    NoIndexKeys(others);
    NoIndexKeys(s);
  }

  lemma {:induction false} OtherKeysAppend(a: seq<string>, b: seq<string>)
    ensures OtherKeys(a + b) == OtherKeys(a) + OtherKeys(b)
  {
    if b != [] {
      OtherKeysAppend(a, b[..|b| - 1]);
      assert (a + b)[..|a + b| - 1] == a + b[..|b| - 1];
    } else {
      assert a + b == a;
    }
  }

  lemma {:induction false} OtherKeysOfIndices(s: seq<string>)
    requires AllIndices(s)
    ensures OtherKeys(s) == []
  {
    if s != [] {
      OtherKeysOfIndices(s[..|s| - 1]);
    }
  }

  /** `Object.values(o)`: the values in `Object.keys` order. */
  function Values<V>(o: Obj<V>): (r: seq<V>)
    requires Valid(o)
    ensures |r| == |o.keys|
    ensures forall i :: 0 <= i < |r| ==> r[i] == o.vals[OwnKeys(o)[i]]
  {
    var ks := OwnKeys(o);
    seq(|ks|, i requires 0 <= i < |ks| => o.vals[ks[i]])
  }

  /** An object with one key that is not an array index enumerates that one value. */
  lemma {:induction false} SingleKeyValues<V>(o: Obj<V>)
    requires Valid(o) && |o.keys| == 1 && !IsArrayIndex(o.keys[0])
    ensures OwnKeys(o) == o.keys
    ensures Values(o) == [o.vals[o.keys[0]]]
  {
    EnumerationOrder(o);
    var vs := Values(o);
    assert |vs| == 1 && vs[0] == o.vals[o.keys[0]];
  }
}
