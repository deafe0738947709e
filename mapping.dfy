/**
 * Route entries (`Waves::Mapping::Action`) and match results
 * (`Waves::Mapping::Binding`). Pattern matching and constraint checking
 * belong to `Pattern` and `Constraints`, whose code is not part of this
 * model: they are passed in as functions.
 */
module Mapping {
  import opened Wrappers
  import opened Values
  import opened Http
  import Paths

  /** The resource that receives registrations when a route names none. */
  const DefaultResource: string := "default"

  /** A handler body given with a route (an opaque reference to user code). */
  datatype Block = Block(id: nat)

  /** The options a route is declared with. */
  datatype Options = Options(
    name: Option<string>,
    resource: Option<string>,
    block: Option<Block>,
    path: seq<Paths.Token>,
    threaded: bool)

  /** `Pattern.new(options)`, `Constraints.new(options)`, `Descriptors.new(options)`. */
  datatype Pattern = Pattern(options: Options)
  datatype Constraints = Constraints(options: Options)
  datatype Descriptors = Descriptors(threaded: bool)

  /** The resource an action is invoked on: a named one, or the dispatching proxy. */
  datatype ResourceRef = Named(id: string) | Proxy

  /** What `Action#call` does: send a method to a new resource, evaluate a block in it, or nothing. */
  datatype Invocation = Send(target: ResourceRef, selector: string) | Evaluate(target: ResourceRef, block: Block) | Nothing

  /** The resource whose registries a route's declaration updates. */
  function RegistrationTarget(opts: Options): (r: string)
    ensures opts.resource.Some? ==> r == opts.resource.value
    ensures opts.resource.None? ==> r == DefaultResource
  {
    if opts.resource.Some? then opts.resource.value else DefaultResource
  }

  datatype Action = Action(
    name: Option<string>,
    pattern: Pattern,
    constraints: Constraints,
    descriptors: Descriptors,
    block: Option<Block>,
    resource: ResourceRef)
  {
    /**
     * `bind(request)`: a Binding exactly when the constraints hold and the
     * pattern matches, holding this action and the captured parameters.
     */
    function Bind(line: RequestLine,
                  satisfy: (Constraints, RequestLine) -> bool,
                  matches: (Pattern, RequestLine) -> Option<Pairs>): (r: Option<Binding>)
      ensures r.Some? <==> satisfy(constraints, line) && matches(pattern, line).Some?
      ensures r.Some? ==> r.value.action == this && r.value.params == matches(pattern, line).value
    {
      if !satisfy(constraints, line) then None
      else match matches(pattern, line)
        case None => None
        case Some(params) => Some(Binding(this, params))
    }

    /** `call(request)`: a named action sends its name even when it also has a block. */
    function Call(): (r: Invocation)
      ensures name.Some? ==> r == Send(resource, name.value)
      ensures name.None? && block.Some? ==> r == Evaluate(resource, block.value)
      ensures name.None? && block.None? ==> r == Nothing
    {
      if name.Some? then Send(resource, name.value)
      else if block.Some? then Evaluate(resource, block.value)
      else Nothing
    }

    function Threaded(): bool
    {
      descriptors.threaded
    }
  }

  /** A successful match: the action and the parameters its pattern captured. */
  datatype Binding = Binding(action: Action, params: Pairs)
  {
    /**
     * `call(request)`: merge the captured parameters into the request's
     * (captured values win) and then call the action.
     */
    method Call(req: Request) returns (inv: Invocation)
      modifies req
      ensures req.params == Merge(old(req.params), params)
      ensures inv == action.Call()
    {
      req.params := Merge(req.params, params);
      inv := action.Call();
    }

    /** Forwarded to the action. */
    function Threaded(): bool
    {
      action.Threaded()
    }
  }

  /** When the constraints fail the result is the same whatever the pattern would say. */
  lemma PatternNotConsultedWhenUnsatisfied(a: Action, line: RequestLine,
                                           satisfy: (Constraints, RequestLine) -> bool,
                                           m1: (Pattern, RequestLine) -> Option<Pairs>,
                                           m2: (Pattern, RequestLine) -> Option<Pairs>)
    requires !satisfy(a.constraints, line)
    ensures a.Bind(line, satisfy, m1) == a.Bind(line, satisfy, m2) == None
  {
  }

  /** A binding reports the threading flag of the action it was bound from. */
  lemma BindingForwardsThreaded(a: Action, line: RequestLine,
                                satisfy: (Constraints, RequestLine) -> bool,
                                matches: (Pattern, RequestLine) -> Option<Pairs>)
    requires a.Bind(line, satisfy, matches).Some?
    ensures a.Bind(line, satisfy, matches).value.Threaded() == a.Threaded()
  {
  }

  /** The actions that route declarations define on resources (`define_action`), by resource and name. */
  class ResourceTable {
    var actions: map<(string, string), Block>

    constructor ()
      ensures actions == map[]
    {
      actions := map[];
    }

    method DefineAction(resource: string, name: string, block: Block)
      modifies this
      ensures actions == old(actions)[(resource, name) := block]
    {
      actions := actions[(resource, name) := block];
    }
  }

  /**
   * `Action.new(options)`: builds the action and, for a named route,
   * registers its path generator and (when a block is given) its block on
   * the target resource, which is the named one or else the default.
   */
  method NewAction(opts: Options, resources: ResourceTable, paths: Paths.PathTable) returns (a: Action)
    modifies resources, paths
    ensures a.name == opts.name && a.block == opts.block
    ensures a.pattern == Pattern(opts) && a.constraints == Constraints(opts)
    ensures a.Threaded() == opts.threaded
    ensures a.resource == if opts.resource.Some? then Named(opts.resource.value) else Proxy
    ensures var target := RegistrationTarget(opts);
      paths.generators ==
        if opts.name.Some? then old(paths.generators)[(target, opts.name.value) := opts.path]
        else old(paths.generators)
    ensures var target := RegistrationTarget(opts);
      resources.actions ==
        if opts.name.Some? && opts.block.Some? then old(resources.actions)[(target, opts.name.value) := opts.block.value]
        else old(resources.actions)
  {
    var resource: ResourceRef;
    var target: string;
    if opts.resource.Some? {
      target := opts.resource.value;
      resource := Named(target);
    } else {
      target := DefaultResource;
      resource := Proxy;
    }
    a := Action(opts.name, Pattern(opts), Constraints(opts), Descriptors(opts.threaded), opts.block, resource);
    if opts.name.Some? {
      if opts.block.Some? {
        resources.DefineAction(target, opts.name.value, opts.block.value);
      }
      paths.DefinePath(target, opts.name.value, opts.path);
    }
  }
}
