/** A plain JavaScript object used as a dictionary: its own string keys in
    insertion order, each with a value.  For keys that are neither array
    indices nor `Object.prototype` property names, as the model ids are,
    that is the order `Object.entries` lists them in, and a lookup finds
    only what was stored. */
module JsObject {
  import opened Wrappers

  datatype Entry<V> = Entry(key: string, value: V)

  /** `Object.keys(obj)`, in insertion order. */
  function Keys<V>(es: seq<Entry<V>>): (ks: seq<string>)
    ensures |ks| == |es|
    ensures forall i :: 0 <= i < |es| ==> ks[i] == es[i].key
  {
    seq(|es|, i requires 0 <= i < |es| => es[i].key)
  }

  /** An object never lists the same key twice. */
  predicate DistinctKeys<V>(es: seq<Entry<V>>)
  {
    forall i, j :: 0 <= i < j < |es| ==> es[i].key != es[j].key
  }

  /** `obj[key]`: the value stored under `key`, or `undefined` (None). */
  function Get<V>(es: seq<Entry<V>>, key: string): (r: Option<V>)
    ensures r.Some? <==> key in Keys(es)
    ensures r.Some? ==> Entry(key, r.value) in es
  {
    if |es| == 0 then None
    else if es[0].key == key then Some(es[0].value)
    else
      var rest := Get(es[1..], key);
      assert Keys(es) == [es[0].key] + Keys(es[1..]);
      rest
  }

  /** In an object, reading the key of an entry gives that entry's value. */
  lemma {:induction false} GetAt<V>(es: seq<Entry<V>>, i: int)
    requires DistinctKeys(es) && 0 <= i < |es|
    ensures Get(es, es[i].key) == Some(es[i].value)
  {
    if i > 0 {
      assert es[0].key != es[i].key;
      assert es[1..][i - 1] == es[i];
      GetAt(es[1..], i - 1);
    }
  }

  /** The property assignment `obj[key] = value`: an existing key keeps its
      position and gets the new value; a new key is appended. */
  function Put<V>(es: seq<Entry<V>>, key: string, value: V): (r: seq<Entry<V>>)
    ensures key !in Keys(es) ==> r == es + [Entry(key, value)]
    ensures key in Keys(es) ==> Keys(r) == Keys(es)
    ensures forall i :: 0 <= i < |es| && es[i].key != key ==> r[i] == es[i]
    ensures forall i :: 0 <= i < |es| && es[i].key == key ==> r[i] == Entry(key, value)
  {
    if key in Keys(es) then
      seq(|es|, i requires 0 <= i < |es| => if es[i].key == key then Entry(key, value) else es[i])
    else
      es + [Entry(key, value)]
  }
}
