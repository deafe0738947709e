/**
 * Request parameter values and Ruby's `Hash` of them. A top-level
 * parameter hash is an association list whose order stands for whatever
 * order `hash.keys` yields; nested hashes, which the core only looks up
 * and updates, are plain maps.
 */
module Values {

  /** A parameter value: `nil`, a `String`, a nested `Hash`, or anything else (an upload, an array, a number). */
  datatype Value = Nil | Str(s: string) | Hash(entries: map<string, Value>) | Other(kind: string)

  /** A Ruby `Hash` with string keys; the order of the pairs stands for the order `hash.keys` yields. */
  type Pairs = seq<(string, Value)>

  /** `hash.keys` */
  function KeysOf(h: Pairs): (ks: seq<string>)
    ensures |ks| == |h|
    ensures forall i {:trigger ks[i]} :: 0 <= i < |h| ==> ks[i] == h[i].0
  {
    if h == [] then [] else [h[0].0] + KeysOf(h[1..])
  }

  /** `hash[k]`: the value stored under `k`, or `nil` when there is none. */
  function Get(h: Pairs, k: string): (v: Value)
    ensures k !in KeysOf(h) ==> v == Nil
  {
    if h == [] then Nil else if h[0].0 == k then h[0].1 else Get(h[1..], k)
  }

  /** `hash[k] = v`: an existing key keeps its position, a new key goes last. */
  function Put(h: Pairs, k: string, v: Value): (r: Pairs)
    ensures k in KeysOf(h) ==> KeysOf(r) == KeysOf(h)
    ensures k !in KeysOf(h) ==> KeysOf(r) == KeysOf(h) + [k]
    ensures Get(r, k) == v
    ensures forall j {:trigger Get(r, j)} :: j != k ==> Get(r, j) == Get(h, j)
  {
    if h == [] then [(k, v)]
    else if h[0].0 == k then [(k, v)] + h[1..]
    else
      var t := Put(h[1..], k, v);
      assert KeysOf([h[0]] + t) == [h[0].0] + KeysOf(t);
      [h[0]] + t
  }

  /** `h.merge!(g)`: every pair of `g`, in order, stored into `h`. */
  function Merge(h: Pairs, g: Pairs): (r: Pairs)
    decreases |g|
  {
    if g == [] then h else Merge(Put(h, g[0].0, g[0].1), g[1..])
  }

  predicate NoDuplicateKeys(h: Pairs)
  {
    forall i, j :: 0 <= i < j < |h| ==> h[i].0 != h[j].0
  }

  /**
   * After `merge!`, a key of `g` reads `g`'s value (captured values win),
   * every other key reads what it read before, and no key is lost.
   */
  lemma {:induction false} MergeOverrides(h: Pairs, g: Pairs, k: string)
    requires NoDuplicateKeys(g)
    ensures k in KeysOf(g) ==> Get(Merge(h, g), k) == Get(g, k)
    ensures k !in KeysOf(g) ==> Get(Merge(h, g), k) == Get(h, k)
    ensures k in KeysOf(h) ==> k in KeysOf(Merge(h, g))
    decreases |g|
  {
    if g != [] {
      var h' := Put(h, g[0].0, g[0].1);
      MergeOverrides(h', g[1..], k);
      assert KeysOf(g) == [g[0].0] + KeysOf(g[1..]);
      if k == g[0].0 {
        assert k !in KeysOf(g[1..]) by {
          forall i | 0 <= i < |g[1..]| ensures KeysOf(g[1..])[i] != k {
            assert g[1..][i] == g[i + 1];
          }
        }
      }
    }
  }
}
