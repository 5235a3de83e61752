/**
  Python's built-in `dict` restricted to string keys and string values, as the
  content records of the portfolio use it: an insertion-ordered association list.
  Looking a key up finds its entry; assigning `d[k] = v` overwrites the entry of
  an existing key in place and appends a new key at the end.
 */
module Dict {

  datatype Option<+T> = None | Some(value: T)

  datatype Entry = Entry(key: string, value: string)

  /** A dict value; the order of the sequence is the dict's insertion order. */
  type StrDict = seq<Entry>

  /** The keys in iteration order, as `d.keys()` yields them. */
  function Keys(d: StrDict): (ks: seq<string>)
    ensures |ks| == |d|
    ensures forall i :: 0 <= i < |d| ==> ks[i] == d[i].key
  {
    if d == [] then [] else [d[0].key] + Keys(d[1..])
  }

  /** No key occurs twice: every value a Python dict can hold. */
  predicate DistinctKeys(d: StrDict)
  {
    forall i, j :: 0 <= i < j < |d| ==> d[i].key != d[j].key
  }

  /** Two dicts whose entries have the same keys position by position have the same key sequence. */
  lemma {:induction false} SameKeys(a: StrDict, b: StrDict)
    requires |a| == |b|
    requires forall i :: 0 <= i < |a| ==> a[i].key == b[i].key
    ensures Keys(a) == Keys(b)
  {
    if a != [] {
      SameKeys(a[1..], b[1..]);
    }
  }

  /** In a dict without repeated keys, the key at position `i` does not occur before it. */
  lemma FreshKey(d: StrDict, i: nat)
    requires DistinctKeys(d)
    requires i < |d|
    ensures d[i].key !in Keys(d[..i])
  {
  }

  /** `d.get(key)`: the value stored under `key`, if any. */
  function Get(d: StrDict, key: string): (r: Option<string>)
    ensures r.None? <==> key !in Keys(d)
  {
    if d == [] then None
    else if d[0].key == key then Some(d[0].value)
    else Get(d[1..], key)
  }

  /** In a dict without repeated keys, looking up the key at position `i` finds the value there. */
  lemma {:induction false} GetAt(d: StrDict, i: nat)
    requires DistinctKeys(d)
    requires i < |d|
    ensures Get(d, d[i].key) == Some(d[i].value)
  {
    if i > 0 {
      GetAt(d[1..], i - 1);
    }
  }

  /** `d[key] = value`: the order of the keys is kept, and a new key goes last. */
  function Put(d: StrDict, key: string, value: string): (r: StrDict)
    ensures Keys(r) == if key in Keys(d) then Keys(d) else Keys(d) + [key]
    ensures key !in Keys(d) ==> r == d + [Entry(key, value)]
  {
    if d == [] then [Entry(key, value)]
    else if d[0].key == key then [Entry(key, value)] + d[1..]
    else [d[0]] + Put(d[1..], key, value)
  }

  /** After `d[key] = value`, `key` maps to `value` and every other key to what it did before. */
  lemma {:induction false} PutGet(d: StrDict, key: string, value: string, k: string)
    ensures Get(Put(d, key, value), k) == if k == key then Some(value) else Get(d, k)
  {
    if d != [] && d[0].key != key {
      var rest := Put(d[1..], key, value);
      assert Put(d, key, value)[1..] == rest;
      PutGet(d[1..], key, value, k);
    } else if d != [] {
      assert Put(d, key, value)[1..] == d[1..];
    }
  }
}
