/**
 * JavaScript objects and `Map`s with string keys, as the sequence of their
 * entries in enumeration order: a new key is appended, an existing key keeps its
 * place. (`Object.keys` lists integer-like keys first; the keys this system
 * uses are file names, node paths and column names, and are taken to be listed
 * in insertion order.)
 */
module JsObject {
  import opened Wrappers

  /** No key is listed twice. */
  predicate UniqueKeys<V>(o: seq<(string, V)>) {
    forall i, j :: 0 <= i < j < |o| ==> o[i].0 != o[j].0
  }

  predicate HasKey<V>(o: seq<(string, V)>, key: string) {
    exists i :: 0 <= i < |o| && o[i].0 == key
  }

  /** `Object.keys(o)`. */
  function Keys<V>(o: seq<(string, V)>): (ks: seq<string>)
    ensures |ks| == |o| && forall i :: 0 <= i < |o| ==> ks[i] == o[i].0
  {
    seq(|o|, i requires 0 <= i < |o| => o[i].0)
  }

  /** `Object.values(o)`. */
  function Values<V>(o: seq<(string, V)>): (vs: seq<V>)
    ensures |vs| == |o| && forall i :: 0 <= i < |o| ==> vs[i] == o[i].1
  {
    seq(|o|, i requires 0 <= i < |o| => o[i].1)
  }

  /** `o[key]`, with `None` for a missing key: the value of the first entry with that key. */
  function Get<V>(o: seq<(string, V)>, key: string): (r: Option<V>)
    ensures r.Some? <==> HasKey(o, key)
    ensures r.Some? ==> exists i :: 0 <= i < |o| && o[i] == (key, r.value) && forall j :: 0 <= j < i ==> o[j].0 != key
  {
    if o == [] then None
    else if o[0].0 == key then Some(o[0].1)
    else
      var r := Get(o[1..], key);
      assert r.Some? ==> exists i :: 0 <= i < |o| && o[i] == (key, r.value) && forall j :: 0 <= j < i ==> o[j].0 != key by {
        if r.Some? {
          var i :| 0 <= i < |o[1..]| && o[1..][i] == (key, r.value) && forall j :: 0 <= j < i ==> o[1..][j].0 != key;
          assert o[i + 1] == (key, r.value);
          forall j | 0 <= j < i + 1 ensures o[j].0 != key {
            if j > 0 { assert o[j] == o[1..][j - 1]; }
          }
        }
      }
      assert HasKey(o[1..], key) <==> HasKey(o, key) by {
        if HasKey(o, key) {
          var i :| 0 <= i < |o| && o[i].0 == key;
          assert i > 0 && o[1..][i - 1].0 == key;
        }
        if HasKey(o[1..], key) {
          var i :| 0 <= i < |o[1..]| && o[1..][i].0 == key;
          assert o[i + 1].0 == key;
        }
      }
      r
  }

  /** `o[key] = value`: a new key is appended; an existing key keeps its place and takes the value. */
  function Set<V>(o: seq<(string, V)>, key: string, value: V): (r: seq<(string, V)>)
    ensures !HasKey(o, key) ==> r == o + [(key, value)]
    ensures HasKey(o, key) ==> |r| == |o| && forall i :: 0 <= i < |o| ==> r[i].0 == o[i].0
  {
    if o == [] then [(key, value)]
    else if o[0].0 == key then [(key, value)] + o[1..]
    else
      var t := Set(o[1..], key, value);
      var r := [o[0]] + t;
      assert HasKey(o[1..], key) <==> HasKey(o, key) by {
        if HasKey(o, key) {
          var i :| 0 <= i < |o| && o[i].0 == key;
          assert i > 0 && o[1..][i - 1].0 == key;
        }
        if HasKey(o[1..], key) {
          var i :| 0 <= i < |o[1..]| && o[1..][i].0 == key;
          assert o[i + 1].0 == key;
        }
      }
      assert r[1..] == t;
      r
  }

  /** After `o[key] = value`, `o[key]` is `value` and every other key reads as before. */
  lemma {:induction false} SetGet<V>(o: seq<(string, V)>, key: string, value: V, k: string)
    ensures Get(Set(o, key, value), k) == if k == key then Some(value) else Get(o, k)
  {
    if o != [] && o[0].0 != key {
      SetGet(o[1..], key, value, k);
      assert Set(o, key, value)[1..] == Set(o[1..], key, value);
    }
  }

  /** Setting a key keeps the keys unique. */
  lemma SetUnique<V>(o: seq<(string, V)>, key: string, value: V)
    requires UniqueKeys(o)
    ensures UniqueKeys(Set(o, key, value))
  {
    var r := Set(o, key, value);
    if !HasKey(o, key) {
      forall i, j | 0 <= i < j < |r| ensures r[i].0 != r[j].0 {
        if j == |o| {
          assert r[i].0 == o[i].0;
        }
      }
    }
  }

  /** The keys after setting one: the old keys, followed by the key when it was new. */
  lemma SetKeys<V>(o: seq<(string, V)>, key: string, value: V)
    ensures Keys(Set(o, key, value)) == Keys(o) + (if HasKey(o, key) then [] else [key])
  {
  }

  /** A unique-keyed object maps each of its listed keys to the value listed with it. */
  lemma GetListed<V>(o: seq<(string, V)>, i: int)
    requires UniqueKeys(o) && 0 <= i < |o|
    ensures Get(o, o[i].0) == Some(o[i].1)
  {
    var r := Get(o, o[i].0);
    var k :| 0 <= k < |o| && o[k] == (o[i].0, r.value) && forall j :: 0 <= j < k ==> o[j].0 != o[i].0;
  }

  /** Every entry after setting a key is the new entry or an entry that was there. */
  lemma {:induction false} SetEntries<V>(o: seq<(string, V)>, key: string, value: V)
    ensures forall e :: e in Set(o, key, value) ==> e == (key, value) || e in o
  {
    if o != [] && o[0].0 != key {
      SetEntries(o[1..], key, value);
      assert Set(o, key, value) == [o[0]] + Set(o[1..], key, value);
    }
  }

  /** Appending an entry for another key does not change what a key reads. */
  lemma {:induction false} GetAppendOther<V>(o: seq<(string, V)>, entry: (string, V), key: string)
    requires entry.0 != key
    ensures Get(o + [entry], key) == Get(o, key)
  {
    if o != [] {
      assert (o + [entry])[1..] == o[1..] + [entry];
      GetAppendOther(o[1..], entry, key);
    }
  }
}
