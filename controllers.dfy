/**
 * Parameter destructuring in `Waves::Controllers::Mixin`: flat request
 * parameters named `a.b` become nested hashes, `params[a][b]`.
 */
module Controllers {
  import opened Wrappers
  import opened Strings
  import opened Values
  import opened Http

  /**
   * Why destructuring raises: a key with no segment at all (such as `""`
   * or `"."`) calls `intern` on `nil`, and a key that descends into a
   * value that is neither absent nor a hash indexes a non-hash.
   */
  datatype DestructureError = EmptyKey | NotAHash(segment: string)

  /** What a leaf receives: a string stripped, a hash as it is, anything else `nil`. */
  function Leaf(v: Value): (r: Value)
    ensures v.Str? ==> r == Str(Strip(v.s))
    ensures v.Hash? ==> r == v
    ensures !v.Str? && !v.Hash? ==> r == Nil
  {
    match v
    case Str(s) => Str(Strip(s))
    case Hash(_) => v
    case _ => Nil
  }

  /**
   * `destructure_with_array_keys(hash, prefix, keys, rval)`, on values: the
   * updated `rval`. A one-segment list stores the leaf read from
   * `hash[prefix + key]`; a longer one reuses (or creates, with `||=`) the
   * nested hash under its first segment and recurses with that segment and
   * a dot as the new prefix.
   */
  function Insert(hash: Pairs, prefix: string, keys: seq<string>, node: map<string, Value>): (r: Result<map<string, Value>, DestructureError>)
    ensures r.Ok? ==> |keys| >= 1 && r.value.Keys == node.Keys + {keys[0]}
    ensures r.Ok? ==> forall k :: k in node && k != keys[0] ==> r.value[k] == node[k]
    ensures keys == [] ==> r == Err(EmptyKey)
    decreases |keys|
  {
    if |keys| == 1 then Ok(node[keys[0] := Leaf(Get(hash, prefix + keys[0]))])
    else if |keys| == 0 then Err(EmptyKey)
    else
      var k := keys[0];
      var child := if k in node && !node[k].Nil? then node[k] else Hash(map[]);
      if !child.Hash? then Err(NotAHash(k))
      else match Insert(hash, k + ".", keys[1..], child.entries)
        case Ok(sub) => Ok(node[k := Hash(sub)])
        case Err(e) => Err(e)
  }

  /** The value reached by following `path` down nested hashes, if any. */
  function Follow(node: map<string, Value>, path: seq<string>): Option<Value>
    requires |path| >= 1
    decreases |path|
  {
    if path[0] !in node then None
    else if |path| == 1 then Some(node[path[0]])
    else if node[path[0]].Hash? then Follow(node[path[0]].entries, path[1..])
    else None
  }

  /**
   * The key a leaf is read from. With the top-level prefix `""` a one- or
   * two-segment key reads itself, but a longer key reads only its last two
   * segments, because each recursive call passes just the segment it
   * consumed, plus a dot, as the prefix.
   */
  function LeafKey(prefix: string, keys: seq<string>): string
    requires |keys| >= 1
  {
    if |keys| == 1 then prefix + keys[0] else keys[|keys| - 2] + "." + keys[|keys| - 1]
  }

  lemma {:induction false} InsertStoresLeaf(hash: Pairs, prefix: string, keys: seq<string>, node: map<string, Value>)
    requires Insert(hash, prefix, keys, node).Ok?
    ensures |keys| >= 1
    ensures Follow(Insert(hash, prefix, keys, node).value, keys) == Some(Leaf(Get(hash, LeafKey(prefix, keys))))
    decreases |keys|
  {
    if |keys| > 1 {
      var k := keys[0];
      var child := if k in node && !node[k].Nil? then node[k] else Hash(map[]);
      InsertStoresLeaf(hash, k + ".", keys[1..], child.entries);
      var rest := keys[1..];
      if |keys| == 2 {
        assert LeafKey(k + ".", rest) == k + "." + keys[1];
      } else {
        assert rest[|rest| - 2] == keys[|keys| - 2] && rest[|rest| - 1] == keys[|keys| - 1];
      }
    }
  }

  /** `a.b` is read from `hash["a.b"]` and stored as `result[a][b]`. */
  lemma TwoSegmentKey(hash: Pairs, a: string, b: string, node: map<string, Value>)
    requires Insert(hash, "", [a, b], node).Ok?
    ensures Follow(Insert(hash, "", [a, b], node).value, [a, b]) == Some(Leaf(Get(hash, a + "." + b)))
  {
    InsertStoresLeaf(hash, "", [a, b], node);
  }

  /** `a.b.c` is stored as `result[a][b][c]` but read from `hash["b.c"]`, not `hash["a.b.c"]`. */
  lemma ThreeSegmentKey(hash: Pairs, a: string, b: string, c: string, node: map<string, Value>)
    requires Insert(hash, "", [a, b, c], node).Ok?
    ensures Follow(Insert(hash, "", [a, b, c], node).value, [a, b, c]) == Some(Leaf(Get(hash, b + "." + c)))
  {
    InsertStoresLeaf(hash, "", [a, b, c], node);
  }

  /**
   * Keys that share a first segment share one nested hash: inserting a
   * deeper key keeps every entry already in the nested hash under that
   * segment except the one it descends into.
   */
  lemma NestedHashReused(hash: Pairs, keys: seq<string>, node: map<string, Value>)
    requires |keys| >= 2 && keys[0] in node && node[keys[0]].Hash?
    requires Insert(hash, "", keys, node).Ok?
    ensures var r := Insert(hash, "", keys, node).value;
      r[keys[0]].Hash? &&
      forall k :: k in node[keys[0]].entries && k != keys[1] ==>
        k in r[keys[0]].entries && r[keys[0]].entries[k] == node[keys[0]].entries[k]
  {
  }

  /**
   * Inserting succeeds whenever there is a segment and the first one has
   * nothing under it yet (absent, or `nil`, which `||=` replaces), or is
   * the last segment: every deeper level is then a fresh hash.
   */
  lemma {:induction false} InsertSucceeds(hash: Pairs, prefix: string, keys: seq<string>, node: map<string, Value>)
    requires |keys| >= 1
    requires |keys| == 1 || keys[0] !in node || node[keys[0]].Nil?
    ensures Insert(hash, prefix, keys, node).Ok?
    decreases |keys|
  {
    if |keys| > 1 {
      InsertSucceeds(hash, keys[0] + ".", keys[1..], map[]);
    }
  }

  /**
   * Descending into a value that is there and is neither `nil` nor a hash
   * (a string stored by an earlier one-segment key, say) raises.
   */
  lemma NotAHashRaises(hash: Pairs, prefix: string, keys: seq<string>, node: map<string, Value>)
    requires |keys| >= 2 && keys[0] in node && !node[keys[0]].Nil? && !node[keys[0]].Hash?
    ensures Insert(hash, prefix, keys, node) == Err(NotAHash(keys[0]))
  {
  }

  /**
   * Every hash `Insert` would descend into along `keys` is absent, `nil`
   * (which `||=` replaces with a new hash) or a hash whose own path is
   * clear: exactly when inserting succeeds (`InsertOkIff`).
   */
  predicate PathClear(node: map<string, Value>, keys: seq<string>)
    decreases |keys|
  {
    |keys| >= 1 &&
    (|keys| == 1 || keys[0] !in node || node[keys[0]].Nil? ||
     (node[keys[0]].Hash? && PathClear(node[keys[0]].entries, keys[1..])))
  }

  /** Inserting succeeds exactly when the path is clear, at whatever depth existing hashes are reused. */
  lemma {:induction false} InsertOkIff(hash: Pairs, prefix: string, keys: seq<string>, node: map<string, Value>)
    ensures Insert(hash, prefix, keys, node).Ok? <==> PathClear(node, keys)
    decreases |keys|
  {
    if |keys| > 1 {
      var k := keys[0];
      if k !in node || node[k].Nil? {
        InsertSucceeds(hash, prefix, keys, node);
      } else if node[k].Hash? {
        InsertOkIff(hash, k + ".", keys[1..], node[k].entries);
      }
    }
  }

  /**
   * Inserting `s` keeps the path of any other key `t` clear, unless `s`
   * is a proper prefix of `t`: then `t` would descend into the leaf `s`
   * just stored.
   */
  lemma {:induction false} InsertKeepsClear(hash: Pairs, prefix: string, s: seq<string>, node: map<string, Value>, t: seq<string>)
    requires PathClear(node, s) && PathClear(node, t) && !ProperPrefix(s, t)
    ensures Insert(hash, prefix, s, node).Ok? && PathClear(Insert(hash, prefix, s, node).value, t)
    decreases |s|
  {
    InsertOkIff(hash, prefix, s, node);
    var r := Insert(hash, prefix, s, node).value;
    if |t| > 1 && t[0] == s[0] {
      var k := s[0];
      var child := if k in node && !node[k].Nil? then node[k] else Hash(map[]);
      assert PathClear(child.entries, t[1..]);
      InsertKeepsClear(hash, k + ".", s[1..], child.entries, t[1..]);
    }
  }

  /** The segment before the first dot of a key, when `split` leaves one. */
  function FirstSegment(key: string): Option<string>
  {
    var parts := RubySplit(key, '.');
    if |parts| > 0 then Some(parts[0]) else None
  }

  /** The first segments of the keys, for every key that has one. */
  function FirstSegments(ks: seq<string>): set<string>
  {
    if ks == [] then {}
    else (if FirstSegment(ks[0]).Some? then {FirstSegment(ks[0]).value} else {}) + FirstSegments(ks[1..])
  }

  /** The `each` over `hash.keys` in `destructure`, as a fold from `acc`. */
  function Fold(hash: Pairs, ks: seq<string>, acc: map<string, Value>): Result<map<string, Value>, DestructureError>
    decreases |ks|
  {
    if ks == [] then Ok(acc)
    else match Insert(hash, "", RubySplit(ks[0], '.'), acc)
      case Ok(acc') => Fold(hash, ks[1..], acc')
      case Err(e) => Err(e)
  }

  /** `destructure(hash)`: the specification of the loop. */
  function Destructured(hash: Pairs): Result<map<string, Value>, DestructureError>
  {
    Fold(hash, KeysOf(hash), map[])
  }

  /** `p` is a proper prefix of `q`: `q` continues below where `p` ends. */
  predicate ProperPrefix(p: seq<string>, q: seq<string>)
  {
    |p| < |q| && q[..|p|] == p
  }

  /**
   * The fold succeeds when every remaining key has a clear path in the
   * accumulator and no key's segments are a proper prefix of a later key's
   * (a later key would then descend into the leaf the earlier one stored).
   */
  lemma {:induction false} FoldSucceeds(hash: Pairs, ks: seq<string>, acc: map<string, Value>)
    requires forall i :: 0 <= i < |ks| ==> PathClear(acc, RubySplit(ks[i], '.'))
    requires forall i, j :: 0 <= i < j < |ks| ==> !ProperPrefix(RubySplit(ks[i], '.'), RubySplit(ks[j], '.'))
    ensures Fold(hash, ks, acc).Ok?
    decreases |ks|
  {
    if ks != [] {
      var parts := RubySplit(ks[0], '.');
      InsertOkIff(hash, "", parts, acc);
      var next := Insert(hash, "", parts, acc).value;
      FoldHead(hash, ks, acc);
      var tail := ks[1..];
      forall i | 0 <= i < |tail|
        ensures PathClear(next, RubySplit(tail[i], '.'))
      {
        assert tail[i] == ks[i + 1];
        InsertKeepsClear(hash, "", parts, acc, RubySplit(tail[i], '.'));
      }
      forall i, j | 0 <= i < j < |tail|
        ensures !ProperPrefix(RubySplit(tail[i], '.'), RubySplit(tail[j], '.'))
      {
        assert tail[i] == ks[i + 1] && tail[j] == ks[j + 1];
      }
      FoldSucceeds(hash, tail, next);
    }
  }

  /**
   * `destructure` succeeds when every key has a segment and no key's
   * segments are a proper prefix of a later key's. Keys may share any
   * number of leading segments: `entry.title` and `entry.body` fill one
   * nested hash.
   */
  lemma DestructuredSucceeds(hash: Pairs)
    requires forall i :: 0 <= i < |hash| ==> RubySplit(hash[i].0, '.') != []
    requires forall i, j :: 0 <= i < j < |hash| ==> !ProperPrefix(RubySplit(hash[i].0, '.'), RubySplit(hash[j].0, '.'))
    ensures Destructured(hash).Ok?
  {
    var ks := KeysOf(hash);
    forall i | 0 <= i < |ks| ensures PathClear(map[], RubySplit(ks[i], '.')) {
      assert ks[i] == hash[i].0;
    }
    FoldSucceeds(hash, ks, map[]);
  }

  /** Two keys below one first segment destructure into one nested hash holding both leaves. */
  lemma SharedFirstSegment(a: string, b: string, c: string, x: Value, y: Value)
    requires a != "" && b != "" && c != "" && b != c
    requires '.' !in a && '.' !in b && '.' !in c
    ensures Destructured([(a + "." + b, x), (a + "." + c, y)]) ==
      Ok(map[a := Hash(map[b := Leaf(x), c := Leaf(y)])])
  {
    var kb, kc := a + "." + b, a + "." + c;
    assert kb != kc by {
      assert kb[|a| + 1..] == b && kc[|a| + 1..] == c;
    }
    var hash := [(kb, x), (kc, y)];
    TwoSegments(a, b);
    TwoSegments(a, c);
    TwoPairs(kb, kc, x, y);
    TwoSegmentInsert(hash, a, b, map[]);
    var first := map[a := Hash(map[b := Leaf(x)])];
    assert map[][a := Hash(map[][b := Leaf(x)])] == first;
    TwoSegmentInsert(hash, a, c, first);
    assert first[a := Hash(map[b := Leaf(x)][c := Leaf(y)])] == map[a := Hash(map[b := Leaf(x), c := Leaf(y)])];
    FoldHead(hash, [kb, kc], map[]);
    assert [kb, kc][1..] == [kc];
    FoldHead(hash, [kc], first);
  }

  /** A hash of two distinct keys lists them in order and gives back each one's value. */
  lemma TwoPairs(k1: string, k2: string, x: Value, y: Value)
    requires k1 != k2
    ensures KeysOf([(k1, x), (k2, y)]) == [k1, k2]
    ensures Get([(k1, x), (k2, y)], k1) == x && Get([(k1, x), (k2, y)], k2) == y
  {
    assert [(k1, x), (k2, y)][1..] == [(k2, y)];
  }

  /** A two-segment key `a.b` adds `b` to the hash under `a`, or to a new one, with the leaf read from `a.b`. */
  lemma TwoSegmentInsert(hash: Pairs, a: string, b: string, node: map<string, Value>)
    requires a !in node || node[a].Nil? || node[a].Hash?
    ensures var child := if a in node && !node[a].Nil? then node[a].entries else map[];
      Insert(hash, "", [a, b], node) == Ok(node[a := Hash(child[b := Leaf(Get(hash, a + "." + b))])])
  {
    assert [a, b][1..] == [b];
  }

  /**
   * The documented example: parameters `entry.title` and `entry.body`
   * become `params[entry][title]` and `params[entry][body]`, as leaves.
   */
  lemma EntryTitleAndBody(title: Value, body: Value)
    ensures Destructured([("entry.title", title), ("entry.body", body)]) ==
      Ok(map["entry" := Hash(map["title" := Leaf(title), "body" := Leaf(body)])])
  {
    EntryWords();
    SharedFirstSegment("entry", "title", "body", title, body);
  }

  lemma EntryWords()
    ensures '.' !in "entry" && '.' !in "title" && '.' !in "body"
    ensures "entry" + "." + "title" == "entry.title" && "entry" + "." + "body" == "entry.body"
  {
  }

  /** `split('.')` of two dot-free, non-empty words joined by a dot gives the two words. */
  lemma TwoSegments(a: string, b: string)
    requires a != "" && b != "" && '.' !in a && '.' !in b
    ensures RubySplit(a + "." + b, '.') == [a, b]
  {
    assert a + "." + b == a + ['.'] + b;
    FieldsOfPlain(b, '.');
    FieldsOfPrefixed(a, b, '.');
  }

  /**
   * A key `a` stored before a key `a.b` leaves a string under `a`, so
   * `destructure` raises when it descends into it.
   */
  lemma StringThenNestedRaises(x: Value, y: Value)
    requires x.Str?
    ensures Destructured([("a", x), ("a.b", y)]) == Err(NotAHash("a"))
  {
    var hash := [("a", x), ("a.b", y)];
    FieldsOfPlainKey("a");
    assert Fields("a.b", '.') == ["a", "b"] by {
      assert "a.b" == "a" + ['.'] + "b";
      FieldsOfPlain("b", '.');
      FieldsOfPrefixed("a", "b", '.');
    }
    assert RubySplit("a.b", '.') == ["a", "b"];
    assert KeysOf(hash) == ["a", "a.b"];
    var first := map["a" := Leaf(x)];
    assert Insert(hash, "", ["a"], map[]) == Ok(first);
    FoldHead(hash, ["a", "a.b"], map[]);
    assert ["a", "a.b"][1..] == ["a.b"];
    FoldHead(hash, ["a.b"], first);
    NotAHashRaises(hash, "", ["a", "b"], first);
  }

  /**
   * The top-level keys of the result are exactly the first segments of the
   * input keys: each key contributes its first segment and nothing else
   * appears.
   */
  lemma {:induction false} FoldKeys(hash: Pairs, ks: seq<string>, acc: map<string, Value>)
    requires Fold(hash, ks, acc).Ok?
    ensures Fold(hash, ks, acc).value.Keys == acc.Keys + FirstSegments(ks)
    decreases |ks|
  {
    if ks != [] {
      var r := Insert(hash, "", RubySplit(ks[0], '.'), acc);
      FoldKeys(hash, ks[1..], r.value);
    }
  }

  lemma DestructuredKeys(hash: Pairs)
    requires Destructured(hash).Ok?
    ensures Destructured(hash).value.Keys == FirstSegments(KeysOf(hash))
  {
    FoldKeys(hash, KeysOf(hash), map[]);
  }

  /** A key made of dots only (or empty) makes destructuring raise. */
  lemma {:induction false} EmptyKeyRaises(hash: Pairs, ks: seq<string>, acc: map<string, Value>, i: nat)
    requires i < |ks| && RubySplit(ks[i], '.') == []
    ensures Fold(hash, ks, acc).Err?
    decreases |ks|
  {
    FoldHead(hash, ks, acc);
    if i > 0 {
      var r := Insert(hash, "", RubySplit(ks[0], '.'), acc);
      if r.Ok? {
        assert ks[1..][i - 1] == ks[i];
        EmptyKeyRaises(hash, ks[1..], r.value, i - 1);
      }
    }
  }

  /** An entry that no later key starts with survives the rest of the loop unchanged. */
  lemma {:induction false} FoldLastWriteWins(hash: Pairs, ks: seq<string>, acc: map<string, Value>, a: string)
    requires Fold(hash, ks, acc).Ok?
    requires a !in FirstSegments(ks) && a in acc
    ensures a in Fold(hash, ks, acc).value && Fold(hash, ks, acc).value[a] == acc[a]
    decreases |ks|
  {
    if ks != [] {
      var r := Insert(hash, "", RubySplit(ks[0], '.'), acc);
      FoldLastWriteWins(hash, ks[1..], r.value, a);
    }
  }

  /**
   * A one-segment key that no other key starts with stores the leaf of its
   * own value: a string stripped, a hash as it is, anything else `nil`.
   */
  lemma OneSegmentKey(hash: Pairs, i: nat)
    requires i < |hash| && Destructured(hash).Ok?
    requires '.' !in hash[i].0 && hash[i].0 != ""
    requires forall j :: 0 <= j < |hash| && j != i ==> FirstSegment(hash[j].0) != Some(hash[i].0)
    ensures hash[i].0 in Destructured(hash).value
    ensures Destructured(hash).value[hash[i].0] == Leaf(Get(hash, hash[i].0))
  {
    var key := hash[i].0;
    var ks := KeysOf(hash);
    FieldsOfPlainKey(key);
    SplitFold(hash, ks, map[], i);
  }

  lemma FieldsOfPlainKey(key: string)
    requires '.' !in key && key != ""
    ensures RubySplit(key, '.') == [key]
  {
    FieldsOfPlain(key, '.');
  }

  lemma {:induction false} SplitFold(hash: Pairs, ks: seq<string>, acc: map<string, Value>, i: nat)
    requires i < |ks| && Fold(hash, ks, acc).Ok?
    requires RubySplit(ks[i], '.') == [ks[i]]
    requires forall j :: 0 <= j < |ks| && j != i ==> FirstSegment(ks[j]) != Some(ks[i])
    ensures ks[i] in Fold(hash, ks, acc).value
    ensures Fold(hash, ks, acc).value[ks[i]] == Leaf(Get(hash, ks[i]))
    decreases |ks|
  {
    var r := Insert(hash, "", RubySplit(ks[0], '.'), acc);
    assert r.Ok? && Fold(hash, ks, acc) == Fold(hash, ks[1..], r.value);
    if i == 0 {
      assert "" + ks[0] == ks[0];
      assert r.value == acc[ks[0] := Leaf(Get(hash, ks[0]))];
      NotInLaterSegments(ks, 0);
      FoldLastWriteWins(hash, ks[1..], r.value, ks[0]);
    } else {
      SplitFoldTail(ks, i);
      SplitFold(hash, ks[1..], r.value, i - 1);
    }
  }

  lemma SplitFoldTail(ks: seq<string>, i: nat)
    requires 0 < i < |ks|
    requires forall j :: 0 <= j < |ks| && j != i ==> FirstSegment(ks[j]) != Some(ks[i])
    ensures forall j :: 0 <= j < |ks[1..]| && j != i - 1 ==> FirstSegment(ks[1..][j]) != Some(ks[1..][i - 1])
  {
    forall j | 0 <= j < |ks[1..]| && j != i - 1 ensures FirstSegment(ks[1..][j]) != Some(ks[1..][i - 1]) {
      assert ks[1..][j] == ks[j + 1];
    }
  }

  lemma {:induction false} NotInLaterSegments(ks: seq<string>, i: nat)
    requires i < |ks|
    requires forall j :: 0 <= j < |ks| && j != i ==> FirstSegment(ks[j]) != Some(ks[i])
    ensures ks[i] !in FirstSegments(ks[i + 1..])
  {
    SegmentsOfTail(ks, i + 1, ks[i]);
  }

  lemma {:induction false} SegmentsOfTail(ks: seq<string>, from: nat, a: string)
    requires from <= |ks|
    requires forall j :: from <= j < |ks| ==> FirstSegment(ks[j]) != Some(a)
    ensures a !in FirstSegments(ks[from..])
    decreases |ks| - from
  {
    if from < |ks| {
      SegmentsOfTail(ks, from + 1, a);
      assert ks[from..][1..] == ks[from + 1..];
    }
  }

  /** One turn of the fold: insert the first key's segments, stopping at the first error. */
  lemma FoldHead(hash: Pairs, ks: seq<string>, acc: map<string, Value>)
    requires ks != []
    ensures var step := Insert(hash, "", RubySplit(ks[0], '.'), acc);
      Fold(hash, ks, acc) == if step.Ok? then Fold(hash, ks[1..], step.value) else Err(step.error)
  {
  }

  /** `FoldHead` at position `i` of the key list. */
  lemma FoldStep(hash: Pairs, ks: seq<string>, i: nat, acc: map<string, Value>)
    requires i < |ks|
    ensures var step := Insert(hash, "", RubySplit(ks[i], '.'), acc);
      Fold(hash, ks[i..], acc) == if step.Ok? then Fold(hash, ks[i + 1..], step.value) else Err(step.error)
  {
    FoldHead(hash, ks[i..], acc);
    assert ks[i..][1..] == ks[i + 1..];
  }

  /** `destructure(hash)`: build the nested result key by key, in the hash's key order. */
  method Destructure(hash: Pairs) returns (r: Result<map<string, Value>, DestructureError>)
    ensures r == Destructured(hash)
  {
    var ks := KeysOf(hash);
    var rval: map<string, Value> := map[];
    var i := 0;
    while i < |ks|
      invariant i <= |ks|
      invariant Fold(hash, ks, map[]) == Fold(hash, ks[i..], rval)
    {
      FoldStep(hash, ks, i, rval);
      var step := Insert(hash, "", RubySplit(ks[i], '.'), rval);
      if step.Err? {
        return Err(step.error);
      }
      rval := step.value;
      i := i + 1;
    }
    r := Ok(rval);
  }

  /** A controller: the request it serves and the memoised destructured parameters. */
  class Controller {
    const request: Request
    var memo: Option<map<string, Value>>

    constructor (request: Request)
      ensures this.request == request && memo == None
    {
      this.request := request;
      memo := None;
    }

    /**
     * `params`: destructure `request.params` the first time and remember the
     * result; later calls return the remembered value. The request's
     * parameters are only read.
     */
    method Params() returns (r: Result<map<string, Value>, DestructureError>)
      modifies this
      ensures old(memo).Some? ==> r == Ok(old(memo).value) && memo == old(memo)
      ensures old(memo).None? ==> r == Destructured(request.params)
      ensures old(memo).None? ==> memo == (if r.Ok? then Some(r.value) else None)
    {
      if memo.Some? {
        return Ok(memo.value);
      }
      r := Destructure(request.params);
      if r.Ok? {
        memo := Some(r.value);
      }
    }
  }
}
