/**
 * A plain JavaScript object used as a dictionary, `Record<string, string>`,
 * for keys that are ordinary property names: its own properties in insertion
 * order, each key at most once. Assigning `o[k] = v` overwrites the value in
 * place when `k` is already a key and appends the property otherwise.
 * Array-index keys (such as "2020"), which JavaScript enumerates first in
 * numeric order, and the `__proto__` setter are not modelled.
 */
module JsObject {
  import opened Wrappers

  datatype Entry = Entry(key: string, value: string)

  type Object = seq<Entry>

  /** `Object.keys(o)`, in insertion order. */
  function Keys(o: Object): (ks: seq<string>)
    ensures |ks| == |o| && forall i :: 0 <= i < |o| ==> ks[i] == o[i].key
  {
    if o == [] then [] else [o[0].key] + Keys(o[1..])
  }

  /** No key is held twice: true of every object JavaScript can build. */
  ghost predicate DistinctKeys(o: Object) {
    forall i, j :: 0 <= i < j < |o| ==> Keys(o)[i] != Keys(o)[j]
  }

  /** `o[k]`, with `None` for `undefined`. */
  function Get(o: Object, k: string): (r: Option<string>)
    ensures r.Some? <==> k in Keys(o)
  {
    if o == [] then None
    else if o[0].key == k then Some(o[0].value)
    else Get(o[1..], k)
  }

  /** In an object whose keys are distinct, reading a key gives the value stored with it. */
  lemma {:induction false} GetEntry(o: Object, i: nat)
    requires DistinctKeys(o) && i < |o|
    ensures Get(o, o[i].key) == Some(o[i].value)
  {
    if i > 0 {
      assert o[0].key != o[i].key by { assert Keys(o)[0] != Keys(o)[i]; }
      assert Keys(o[1..]) == Keys(o)[1..];
      GetEntry(o[1..], i - 1);
    }
  }

  /** `o[k] = v`: the key keeps its place if it is there already and is appended otherwise. */
  function Set(o: Object, k: string, v: string): Object
  {
    if o == [] then [Entry(k, v)]
    else if o[0].key == k then [Entry(k, v)] + o[1..]
    else [o[0]] + Set(o[1..], k, v)
  }

  /** Assigning a property keeps the order of the keys and appends a new key at the end. */
  lemma {:induction false} SetKeys(o: Object, k: string, v: string)
    ensures Keys(Set(o, k, v)) == if k in Keys(o) then Keys(o) else Keys(o) + [k]
  {
    if o != [] && o[0].key != k {
      var r := Set(o, k, v);
      assert r[1..] == Set(o[1..], k, v);
      SetKeys(o[1..], k, v);
      assert Keys(o) == [o[0].key] + Keys(o[1..]);
      assert Keys(r) == [o[0].key] + Keys(r[1..]);
    }
  }

  /** Assigning a property keeps the keys distinct. */
  lemma SetKeepsDistinct(o: Object, k: string, v: string)
    requires DistinctKeys(o)
    ensures DistinctKeys(Set(o, k, v))
  {
    SetKeys(o, k, v);
  }

  /** After `o[k] = v`, `k` reads `v` and every other key reads what it read before. */
  lemma {:induction false} GetSet(o: Object, k: string, v: string, k': string)
    ensures Get(Set(o, k, v), k') == if k' == k then Some(v) else Get(o, k')
  {
    if o != [] && o[0].key != k {
      var r := Set(o, k, v);
      assert r[1..] == Set(o[1..], k, v);
      GetSet(o[1..], k, v, k');
    }
  }

  /** Reading an object with one more property appended at the end. */
  lemma {:induction false} GetAppend(o: Object, e: Entry, k: string)
    ensures Get(o + [e], k) == if k in Keys(o) then Get(o, k) else if k == e.key then Some(e.value) else None
  {
    if o != [] {
      assert (o + [e])[1..] == o[1..] + [e];
      assert Keys(o) == [o[0].key] + Keys(o[1..]);
      GetAppend(o[1..], e, k);
    }
  }

  /** Assigning a key the object does not hold appends it. */
  lemma {:induction false} SetAbsent(o: Object, k: string, v: string)
    requires k !in Keys(o)
    ensures Set(o, k, v) == o + [Entry(k, v)]
  {
    if o != [] {
      assert Keys(o) == [o[0].key] + Keys(o[1..]);
      SetAbsent(o[1..], k, v);
      assert [o[0]] + (o[1..] + [Entry(k, v)]) == o + [Entry(k, v)];
    }
  }

  /** Assigning a new key twice appends it once, with the second value. */
  lemma SetAbsentTwice(o: Object, k: string, v: string, w: string)
    requires k !in Keys(o)
    ensures Set(Set(o, k, v), k, w) == o + [Entry(k, w)]
  {
    SetAbsent(o, k, v);
    var stored := o + [Entry(k, v)];
    forall j | 0 <= j < |o| ensures stored[j].key != k {
      assert stored[j].key == Keys(o)[j];
    }
    SetPresent(stored, k, w, |o|);
    assert stored[|o| := Entry(k, w)] == o + [Entry(k, w)];
  }

  /** Assigning a key first held at index `i` overwrites that property in place. */
  lemma {:induction false} SetPresent(o: Object, k: string, v: string, i: nat)
    requires i < |o| && o[i].key == k
    requires forall j :: 0 <= j < i ==> o[j].key != k
    ensures Set(o, k, v) == o[i := Entry(k, v)]
  {
    var e := Entry(k, v);
    if i == 0 {
      assert Set(o, k, v) == [e] + o[1..];
      assert |[e] + o[1..]| == |o[0 := e]|;
      assert forall j :: 0 <= j < |o| ==> ([e] + o[1..])[j] == o[0 := e][j];
    } else {
      var tail := Set(o[1..], k, v);
      assert o[0].key != k;
      assert Set(o, k, v) == [o[0]] + tail;
      SetPresent(o[1..], k, v, i - 1);
      assert tail == o[1..][i - 1 := e];
      assert |[o[0]] + tail| == |o[i := e]|;
      assert forall j :: 0 <= j < |o| ==> ([o[0]] + tail)[j] == o[i := e][j];
    }
  }

  /** The keys of an object with one more property appended. */
  lemma KeysAppend(o: Object, e: Entry)
    ensures Keys(o + [e]) == Keys(o) + [e.key]
  {
  }

  /** Keys stay distinct under appending exactly when the new key is new. */
  lemma DistinctKeysAppend(o: Object, e: Entry)
    ensures DistinctKeys(o + [e]) <==> DistinctKeys(o) && e.key !in Keys(o)
  {
    var ks := Keys(o + [e]);
    KeysAppend(o, e);
    if DistinctKeys(o + [e]) {
      forall i, j | 0 <= i < j < |o| ensures Keys(o)[i] != Keys(o)[j] {
        assert ks[i] != ks[j];
      }
      forall i | 0 <= i < |o| ensures Keys(o)[i] != e.key {
        assert ks[i] != ks[|o|];
      }
    }
    if DistinctKeys(o) && e.key !in Keys(o) {
      forall i, j | 0 <= i < j < |o| + 1 ensures ks[i] != ks[j] {
        assert ks[i] == Keys(o)[i];
      }
    }
  }
}
