/**
 * Reverse path generation (`Waves::Mapping::Paths`): a route's token list
 * and a list of arguments become a path string. The multi-dispatch
 * `generate` functor is an explicit case over `Token`, and the argument
 * list that Ruby shifts in place is threaded through as the remaining
 * arguments.
 */
module Paths {
  import opened Wrappers
  import opened Strings

  /** An argument passed to a path generator. */
  datatype Arg = Nil | Bool(b: bool) | Text(s: string) | Dict(entries: seq<(string, string)>)

  /**
   * A route token: a literal string, a symbol (a placeholder, or one of the
   * reserved `:resource` / `:resources`), a regexp placeholder, or a hash
   * `{ name => default }` placeholder.
   */
  datatype Token = Literal(text: string) | Symbol(name: string) | Regexp(source: string) | HashToken(defaults: seq<(string, Arg)>)

  /** The singular and plural names of the resource that owns the generator. */
  datatype ResourceNames = ResourceNames(singular: string, plural: string)

  /** Ruby's `to_s` (a `Hash` prints as its keys and values run together, as Ruby 1.8 does). */
  function ToS(a: Arg): string
  {
    match a
    case Nil => ""
    case Bool(b) => if b then "true" else "false"
    case Text(s) => s
    case Dict(es) => Flatten(es)
  }

  function Flatten(es: seq<(string, string)>): string
  {
    if es == [] then "" else es[0].0 + es[0].1 + Flatten(es[1..])
  }

  /** Only `nil` and `false` are false in Ruby. */
  predicate Truthy(a: Arg)
  {
    !(a.Nil? || a == Bool(false))
  }

  predicate Reserved(name: string)
  {
    name == "resource" || name == "resources"
  }

  /** Whether generating this token shifts an argument off the list. */
  predicate Consumes(t: Token)
  {
    match t
    case Literal(_) => false
    case Symbol(n) => !Reserved(n)
    case Regexp(_) => true
    case HashToken(_) => true
  }

  /** `vals.shift`: the first argument and the others; `nil` and no change on an empty list. */
  function Shift(args: seq<Arg>): (r: (Arg, seq<Arg>))
  {
    if args == [] then (Nil, []) else (args[0], args[1..])
  }

  /** What one token emits (`None` is Ruby's `nil`, which `compact` drops) and the arguments left. */
  datatype Step = Step(out: Option<string>, rest: seq<Arg>)

  function GenerateToken(names: ResourceNames, t: Token, args: seq<Arg>): (r: Step)
    ensures r.rest == if Consumes(t) && |args| > 0 then args[1..] else args
    ensures t.Literal? ==> r.out == Some(t.text)
    ensures t == Symbol("resource") ==> r.out == Some(names.singular)
    ensures t == Symbol("resources") ==> r.out == Some(names.plural)
    ensures (t.Regexp? || (t.Symbol? && !Reserved(t.name))) ==>
      r.out == Some(if args == [] then "" else ToS(args[0]))
    ensures t.HashToken? && |args| > 0 && Truthy(args[0]) ==> r.out == Some(ToS(args[0]))
    ensures t.HashToken? && (args == [] || !Truthy(args[0])) ==>
      r.out == (if |t.defaults| == 0 || t.defaults[0].1 == Nil then None else Some(ToS(t.defaults[0].1)))
  {
    match t
    case Literal(s) => Step(Some(s), args)
    case Symbol(n) =>
      if n == "resource" then Step(Some(names.singular), args)
      else if n == "resources" then Step(Some(names.plural), args)
      else var (v, rest) := Shift(args); Step(Some(ToS(v)), rest)
    case Regexp(_) => var (v, rest) := Shift(args); Step(Some(ToS(v)), rest)
    case HashToken(defaults) =>
      var (v, rest) := Shift(args);
      var chosen := if Truthy(v) then v else if |defaults| == 0 then Nil else defaults[0].1;
      Step(if chosen == Nil then None else Some(ToS(chosen)), rest)
  }

  /** Every token's output, in order, and the arguments left once all have run. */
  datatype Emitted = Emitted(outs: seq<Option<string>>, rest: seq<Arg>)

  function Outputs(names: ResourceNames, toks: seq<Token>, args: seq<Arg>): (r: Emitted)
    ensures |r.outs| == |toks|
    decreases |toks|
  {
    if toks == [] then Emitted([], args)
    else
      var s := GenerateToken(names, toks[0], args);
      var e := Outputs(names, toks[1..], s.rest);
      Emitted([s.out] + e.outs, e.rest)
  }

  /** `compact`: the outputs that are not `nil`. */
  function Compact(outs: seq<Option<string>>): (r: seq<string>)
    ensures |r| <= |outs|
    ensures (forall i :: 0 <= i < |outs| ==> outs[i].Some?) ==> |r| == |outs|
  {
    if outs == [] then []
    else if outs[0].Some? then [outs[0].value] + Compact(outs[1..])
    else Compact(outs[1..])
  }

  /** The `k=v` assignments of a query hash, in order. */
  function Assignments(es: seq<(string, string)>): (r: seq<string>)
    ensures |r| == |es|
  {
    if es == [] then [] else [es[0].0 + "=" + es[0].1] + Assignments(es[1..])
  }

  /** The query string appended when the first unconsumed argument is a hash. */
  function Query(rest: seq<Arg>): string
  {
    if |rest| > 0 && rest[0].Dict? then "?" + Join(Assignments(rest[0].entries), '&') else ""
  }

  /** `generate(keys, vals)` for a whole token list. */
  function Generate(names: ResourceNames, toks: seq<Token>, args: seq<Arg>): (path: string)
    ensures |path| >= 1 && path[0] == '/'
  {
    var e := Outputs(names, toks, args);
    "/" + Join(Compact(e.outs), '/') + Query(e.rest)
  }

  /** How many tokens of the list take an argument. */
  function CountConsuming(toks: seq<Token>): nat
  {
    if toks == [] then 0 else (if Consumes(toks[0]) then 1 else 0) + CountConsuming(toks[1..])
  }

  /** The arguments left after `n` shifts. */
  function Drop(args: seq<Arg>, n: nat): seq<Arg>
  {
    if n >= |args| then [] else args[n..]
  }

  /**
   * Generation removes exactly one argument per consuming token (Symbol,
   * Regexp, Hash) for as long as there are arguments, and nothing else.
   */
  lemma {:induction false} ConsumedCount(names: ResourceNames, toks: seq<Token>, args: seq<Arg>)
    ensures Outputs(names, toks, args).rest == Drop(args, CountConsuming(toks))
    decreases |toks|
  {
    if toks != [] {
      var s := GenerateToken(names, toks[0], args);
      ConsumedCount(names, toks[1..], s.rest);
      var n := CountConsuming(toks[1..]);
      if Consumes(toks[0]) && |args| > 0 {
        assert Drop(args[1..], n) == Drop(args, n + 1);
      }
    }
  }

  lemma {:induction false} CountAppend(a: seq<Token>, b: seq<Token>)
    ensures CountConsuming(a + b) == CountConsuming(a) + CountConsuming(b)
  {
    if a != [] {
      CountAppend(a[1..], b);
      assert (a + b)[1..] == a[1..] + b;
    } else {
      assert a + b == b;
    }
  }

  /**
   * Tokens see the arguments in FIFO order: token `i` runs on the argument
   * list with one argument shifted off for each consuming token before it.
   */
  lemma {:induction false} OutputAt(names: ResourceNames, toks: seq<Token>, args: seq<Arg>, i: nat)
    requires i < |toks|
    ensures Outputs(names, toks, args).outs[i] == GenerateToken(names, toks[i], Drop(args, CountConsuming(toks[..i]))).out
    decreases i
  {
    if i == 0 {
      assert toks[..0] == [];
    } else {
      var s := GenerateToken(names, toks[0], args);
      OutputAt(names, toks[1..], s.rest, i - 1);
      assert toks[1..][i - 1] == toks[i];
      CountHead(toks, i);
      DropAfterStep(names, toks[0], args, CountConsuming(toks[1..][..i - 1]));
    }
  }

  /** Counting the consuming tokens of a prefix: the first token, then the rest of the prefix. */
  lemma CountHead(toks: seq<Token>, i: nat)
    requires 0 < i <= |toks|
    ensures CountConsuming(toks[..i]) == (if Consumes(toks[0]) then 1 else 0) + CountConsuming(toks[1..][..i - 1])
  {
    assert toks[..i] == [toks[0]] + toks[1..][..i - 1];
    CountAppend([toks[0]], toks[1..][..i - 1]);
    assert [toks[0]][1..] == [];
  }

  /** Dropping `n` more arguments after one token ran drops its own shift as well. */
  lemma DropAfterStep(names: ResourceNames, t: Token, args: seq<Arg>, n: nat)
    ensures Drop(GenerateToken(names, t, args).rest, n) == Drop(args, (if Consumes(t) then 1 else 0) + n)
  {
    if Consumes(t) && |args| > 0 {
      assert Drop(args[1..], n) == Drop(args, n + 1);
    }
  }

  /**
   * The placeholder at position `i` emits the string form of argument
   * number `n`, where `n` counts the consuming tokens before it, or the
   * empty string (`nil.to_s`) when the arguments have run out.
   */
  lemma PlaceholderTakesArgument(names: ResourceNames, toks: seq<Token>, args: seq<Arg>, i: nat)
    requires i < |toks| && (toks[i].Regexp? || (toks[i].Symbol? && !Reserved(toks[i].name)))
    ensures var n := CountConsuming(toks[..i]);
      Outputs(names, toks, args).outs[i] == Some(if n < |args| then ToS(args[n]) else "")
  {
    OutputAt(names, toks, args, i);
  }

  /** `compact` drops only the outputs of hash tokens with no argument and a `nil` default. */
  lemma OnlyHashTokensDropped(names: ResourceNames, toks: seq<Token>, args: seq<Arg>, i: nat)
    requires i < |toks| && Outputs(names, toks, args).outs[i].None?
    ensures toks[i].HashToken?
  {
    OutputAt(names, toks, args, i);
  }

  /** Whether `c` occurs in no string a generator could emit for these inputs. */
  predicate CharFree(c: char, names: ResourceNames, toks: seq<Token>, args: seq<Arg>)
  {
    && c !in names.singular && c !in names.plural
    && (forall t :: t in toks && t.Literal? ==> c !in t.text)
    && (forall t :: t in toks && t.HashToken? && |t.defaults| > 0 ==> c !in ToS(t.defaults[0].1))
    && (forall a :: a in args ==> c !in ToS(a))
  }

  lemma {:induction false} OutputsCharFree(c: char, names: ResourceNames, toks: seq<Token>, args: seq<Arg>)
    requires CharFree(c, names, toks, args)
    ensures forall o :: o in Outputs(names, toks, args).outs && o.Some? ==> c !in o.value
    ensures forall a :: a in Outputs(names, toks, args).rest ==> a in args
    decreases |toks|
  {
    if toks != [] {
      var s := GenerateToken(names, toks[0], args);
      assert toks[0] in toks;
      assert forall a :: a in s.rest ==> a in args;
      assert CharFree(c, names, toks[1..], s.rest) by {
        assert forall t :: t in toks[1..] ==> t in toks;
      }
      OutputsCharFree(c, names, toks[1..], s.rest);
      if args != [] { assert args[0] in args; }
    }
  }

  lemma {:induction false} CompactCharFree(c: char, outs: seq<Option<string>>)
    requires forall o :: o in outs && o.Some? ==> c !in o.value
    ensures forall x :: x in Compact(outs) ==> c !in x
  {
    if outs != [] {
      assert outs[0] in outs;
      assert forall o :: o in outs[1..] ==> o in outs;
      CompactCharFree(c, outs[1..]);
    }
  }

  lemma {:induction false} JoinCharFree(c: char, xs: seq<string>, sep: char)
    requires sep != c && forall x :: x in xs ==> c !in x
    ensures c !in Join(xs, sep)
  {
    if |xs| > 1 {
      assert xs[0] in xs;
      assert forall x :: x in xs[1..] ==> x in xs;
      JoinCharFree(c, xs[1..], sep);
    } else if |xs| == 1 {
      assert xs[0] in xs;
    }
  }

  /**
   * When no emitted string contains `?`, the generated path has a `?`
   * exactly when the first argument left over is a hash.
   */
  lemma QueryOnlyForTrailingHash(names: ResourceNames, toks: seq<Token>, args: seq<Arg>)
    requires CharFree('?', names, toks, args)
    ensures var rest := Outputs(names, toks, args).rest;
      '?' in Generate(names, toks, args) <==> |rest| > 0 && rest[0].Dict?
  {
    var e := Outputs(names, toks, args);
    OutputsCharFree('?', names, toks, args);
    CompactCharFree('?', e.outs);
    JoinCharFree('?', Compact(e.outs), '/');
    var body := "/" + Join(Compact(e.outs), '/');
    assert '?' !in body;
    if |e.rest| > 0 && e.rest[0].Dict? {
      assert Generate(names, toks, args)[|body|] == '?';
    } else {
      assert Generate(names, toks, args) == body;
    }
  }

  /**
   * The emitted segments are recovered by splitting the generated path on
   * `/` when no segment contains `/` and no query was appended.
   */
  lemma SegmentsRecoverable(names: ResourceNames, toks: seq<Token>, args: seq<Arg>)
    requires var e := Outputs(names, toks, args);
      |Compact(e.outs)| > 0 && Query(e.rest) == "" &&
      forall x :: x in Compact(e.outs) ==> '/' !in x
    ensures var e := Outputs(names, toks, args);
      Fields(Generate(names, toks, args)[1..], '/') == Compact(e.outs)
  {
    var e := Outputs(names, toks, args);
    var segs := Compact(e.outs);
    assert Generate(names, toks, args)[1..] == Join(segs, '/');
    forall i | 0 <= i < |segs| ensures '/' !in segs[i] { assert segs[i] in segs; }
    FieldsJoin(segs, '/');
  }

  /**
   * The named path generators of every resource (`Paths.define_path`), keyed
   * by resource and route name.
   */
  class PathTable {
    var generators: map<(string, string), seq<Token>>

    constructor ()
      ensures generators == map[]
    {
      generators := map[];
    }

    /** The path the generator `name` of `resource` builds from `args`, if there is one. */
    function PathFor(resource: string, names: ResourceNames, name: string, args: seq<Arg>): (r: Option<string>)
      reads this
    {
      if (resource, name) in generators then Some(Generate(names, generators[(resource, name)], args)) else None
    }

    /** `define_path(name, tokens)`: from now on `name` generates from `tokens`; other generators stay. */
    method DefinePath(resource: string, name: string, tokens: seq<Token>)
      modifies this
      ensures generators == old(generators)[(resource, name) := tokens]
      ensures forall names, args :: PathFor(resource, names, name, args) == Some(Generate(names, tokens, args))
    {
      generators := generators[(resource, name) := tokens];
    }
  }
}
