// `Array.prototype.findIndex` by a key and `splice(index, 1)`, shared by the
// habit store and the toast store.
module Lookup {
  import opened Wrappers

  /** The index of the first occurrence of `key`, or `None` when there is none (`findIndex` giving -1). */
  function IndexOf(keys: seq<string>, key: string): (r: Option<nat>)
    ensures r.None? <==> forall i :: 0 <= i < |keys| ==> keys[i] != key
    ensures r.Some? ==> r.value < |keys| && keys[r.value] == key && forall i :: 0 <= i < r.value ==> keys[i] != key
  {
    if keys == [] then None
    else if keys[0] == key then Some(0)
    else match IndexOf(keys[1..], key)
      case None => None
      case Some(j) => Some(j + 1)
  }

  /** The key of every element, in order. */
  function KeysOf<T>(s: seq<T>, key: T -> string): (ks: seq<string>)
    ensures |ks| == |s| && forall i :: 0 <= i < |s| ==> ks[i] == key(s[i])
  {
    seq(|s|, i requires 0 <= i < |s| => key(s[i]))
  }

  /** `findIndex(x => key(x) === k)`: the index of the first element with key `k`, or `None`. */
  function FindBy<T>(s: seq<T>, key: T -> string, k: string): (r: Option<nat>)
    ensures r.None? <==> forall i :: 0 <= i < |s| ==> key(s[i]) != k
    ensures r.Some? ==> r.value < |s| && key(s[r.value]) == k && forall i :: 0 <= i < r.value ==> key(s[i]) != k
  {
    IndexOf(KeysOf(s, key), k)
  }

  /** `splice(k, 1)`: the sequence without its element at `k`, the others in their order. */
  function RemoveAt<T>(s: seq<T>, k: nat): (r: seq<T>)
    requires k < |s|
    ensures |r| == |s| - 1
    ensures forall i :: 0 <= i < k ==> r[i] == s[i]
    ensures forall i :: k <= i < |r| ==> r[i] == s[i + 1]
  {
    s[..k] + s[k + 1..]
  }

  /** Removing one element takes exactly that element out of the multiset. */
  lemma RemoveAtMultiset<T>(s: seq<T>, k: nat)
    requires k < |s|
    ensures multiset(RemoveAt(s, k)) + multiset{s[k]} == multiset(s)
  {
    assert s == s[..k] + [s[k]] + s[k + 1..];
  }
}
