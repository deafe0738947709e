# Waves routing and dispatch core, modelled in Dafny

This project models the request-routing core of the Waves Ruby web framework and proves properties of the model. Where Ruby's own behaviour matters (`strip`, `split`, `Hash#to_s`, `intern`), the model follows Ruby 1.8. It covers five parts:

- **Reverse path generation** (`Waves::Mapping::Paths`). A route's token list and a list of arguments become a path such as `/blog/entry/hello?draft=1`.
- **Route entries** (`Waves::Mapping::Action`). An entry is declared from options. It registers a named path generator and, when given a block, a named action on its resource. It binds a request when its constraints hold and its pattern matches. It is called by sending its name to the resource or by evaluating its block.
- **Bindings** (`Waves::Mapping::Binding`). A binding merges the captured parameters into the request's parameters and calls its action.
- **The default dispatcher** (`Waves::Dispatchers::Default#safe` and `Base#_call`). It runs NotFound, the before filters, the first action, the after filters (in an `ensure`), the exception-handler table (in a `rescue`) and the always filters (each one rescued). A Redirect that escapes sets the response's status and location.
- **Parameter destructuring** (`Waves::Controllers::Mixin#destructure` and the memoised `params`). Flat `a.b` request parameters become nested hashes.

Modules, one file each:

- `wrappers.dfy`: `Option` and `Result`.
- `strings.dfy`: Ruby's `join`, `split` (which drops trailing empty fields) and `strip` (whose `rstrip` half removes trailing NULs first and then trailing whitespace, as Ruby 1.8 does), with their round-trip lemmas.
- `values.dfy`: parameter values and Ruby's `Hash` as a list of pairs (`Get`, `Put`, `merge!`). Ruby 1.8 does not fix the order of a hash's keys, so the order of the pairs stands for whatever order `hash.keys` yields.
- `http.dfy`: the `Request` and `Response` classes.
- `paths.dfy`: `Token`, `Generate`, and the `PathTable` registry of named generators.
- `mapping.dfy`: `Action`, `Binding`, the `ResourceTable` registry and `NewAction`.
- `dispatchers.dfy`: the pipeline specification `Pipeline`, the imperative `Safe`, `Dispatch` (`_call`) and `Call`, and the module `PipelineProperties` with the ordering and cleanup lemmas.
- `controllers.dfy`: `Insert` (`destructure_with_array_keys`), the `Destructure` loop and the memoising `Controller`.

Collaborators whose code is not part of this model are inputs:

- `Pattern#match` and `Constraints#satisfy?` are function parameters of `Bind`.
- The mapping lookup `Waves.mapping[request]` is the `Lookup` value: the bound actions (absent when no route matched) and the filters that apply.
- Running a filter or action is the function `run`, which returns a value or raises.
- `Waves.mapping.handle` is the function `handle`. It returns a `Verdict`: it accepts the exception, declines it, or raises one of its own.
- The MIME-type table is a map.
- A resource's singular and plural names are given strings.

The dynamically defined methods become explicit registries: `PathTable.generators` and `ResourceTable.actions`, keyed by resource and route name.

Behaviour of the code worth knowing:

- **Redirect is an ordinary exception inside `safe`.** `Redirect < Exception` (lib/dispatchers/base.rb:7), so the `ensure` at lib/dispatchers/default.rb:44-46 still runs the after filters. The `rescue Exception` at line 48 also offers the redirect to `handle`. `RedirectRunsAfterFilters` states this.
- **Running short of arguments is not an error.** A placeholder with no argument left emits `nil.to_s`, the empty string (lib/mapping/paths.rb:23,25). `PlaceholderTakesArgument` states this.
- **The query hash is the first argument left over, not necessarily the last one given.** It is whatever argument remains after every token has run (lib/mapping/paths.rb:17). A hash argument can also be taken by a placeholder and printed as a path segment.
- **An empty action list is not NotFound.** `[]` is truthy in Ruby, so `mapping[:action].first.call` raises NoMethodError after the before filters have run, and the after filters still run (`EmptyActionListRaises`).
- **Deep keys are read from their last two segments.** A key `a.b.c` is stored at `params[a][b][c]` but read from `hash["b.c"]` (lib/controllers/mixin.rb:154). `ThreeSegmentKey` and `InsertStoresLeaf` state this.
- **An exception from the handler table replaces the one it was handling.** `raise e unless Waves.mapping.handle(e)` (lib/dispatchers/default.rb:50) lets an exception raised inside `handle` escape instead of `e`, after the always filters. If that exception is a Redirect, `_call` still catches it.
- **Ruby 1.8's `strip` is not idempotent.** `rstrip` removes trailing NULs and then trailing whitespace, so `"a\0 "` strips to `"a\0"`, and stripping that gives `"a"` (`StripNotIdempotent`).

## Model

| member | source | states |
|---|---|---|
| Strings.JoinFields | lib/mapping/paths.rb:16 | joining the fields of a string with the separator gives the string back |
| Strings.FieldsJoin | lib/mapping/paths.rb:16 | splitting the join of separator-free parts gives the parts back |
| Strings.RubySplit | lib/controllers/mixin.rb:139 | `split('.')` gives dot-free fields: the fields of the key, in order, minus a run of trailing fields that are all empty, and the last field kept is non-empty |
| Strings.SplitUndoesJoin | lib/controllers/mixin.rb:139 | `split` undoes `join` when the last part is non-empty and no part contains the separator |
| Strings.EmptySplit | lib/controllers/mixin.rb:139 | a key splits into no segment exactly when it consists of dots only, `""` and `"."` included |
| Strings.LStrip | lib/controllers/mixin.rb:149 | the leading part of `strip`: removes exactly the run of whitespace at the start, so what is left is a suffix that does not start with whitespace |
| Strings.RStrip | lib/controllers/mixin.rb:149 | the trailing part of `strip` in Ruby 1.8: removes exactly the run of NULs at the end and then the run of whitespace before it, so what is left is a prefix that does not end in whitespace |
| Strings.DropTrailingNul | lib/controllers/mixin.rb:149 | the first step of `rstrip`: removes exactly the run of NULs at the end |
| Strings.DropTrailingSpace | lib/controllers/mixin.rb:149 | the second step of `rstrip`: removes exactly the run of whitespace at the end |
| Strings.StripIdempotent | lib/controllers/mixin.rb:149 | stripping twice is stripping once when the first strip does not leave a NUL at the end |
| Strings.StripNotIdempotent | lib/controllers/mixin.rb:149 | without that condition it fails: `"a\0 "` strips to `"a\0"`, which strips to `"a"` |
| Values.Put | lib/mapping/action.rb:49 | storing a key makes it read the new value, leaves every other key's value, keeps an existing key's position and appends a new key last |
| Values.MergeOverrides | lib/mapping/action.rb:49 | after `merge!` a captured key reads the captured value, every other key reads what it read before, and no key is lost |
| Values.Merge | lib/mapping/action.rb:49 | `merge!`: definition, no contract; specified through `MergeOverrides` |
| Paths.GenerateToken | lib/mapping/paths.rb:20-29 | a String emits itself; `:resource`/`:resources` emit the singular/plural name; Symbol and Regexp emit the next argument's string form (or "" when none is left); a Hash token emits a truthy next argument, or else its first default, or `nil` when that default is nil; only Symbol, Regexp and Hash tokens remove an argument |
| Paths.Outputs | lib/mapping/paths.rb:16 | the `map` over the tokens with the shared argument list: one output per token; specified through `OutputAt` and `ConsumedCount` |
| Paths.Compact | lib/mapping/paths.rb:16 | `compact`: never longer than its input, and as long when nothing is `nil`; specified through `OnlyHashTokensDropped` and `SegmentsRecoverable` |
| Paths.Query | lib/mapping/paths.rb:17 | the query suffix: definition, no contract; specified through `QueryOnlyForTrailingHash` |
| Paths.Generate | lib/mapping/paths.rb:15-19 | every generated path starts with `/` |
| Paths.ConsumedCount | lib/mapping/paths.rb:20-29 | after generation the remaining arguments are the given ones minus one per Symbol, Regexp and Hash token, taken from the front |
| Paths.OutputAt | lib/mapping/paths.rb:16 | token `i` is generated against the arguments left after one shift per consuming token before it (FIFO order) |
| Paths.PlaceholderTakesArgument | lib/mapping/paths.rb:23-27 | the Symbol or Regexp placeholder preceded by `n` consuming tokens emits the string form of argument `n`, or "" when there are not that many arguments; the regexp is never applied |
| Paths.OnlyHashTokensDropped | lib/mapping/paths.rb:16 | only a Hash token can yield `nil`, so only such outputs are dropped by `compact` |
| Paths.QueryOnlyForTrailingHash | lib/mapping/paths.rb:17 | when nothing emitted contains `?`, the path contains `?` exactly when the first unconsumed argument is a hash |
| Paths.SegmentsRecoverable | lib/mapping/paths.rb:16 | without a query and with no `/` inside a segment, splitting the path after its leading `/` gives back the emitted segments in order |
| Paths.PathTable.DefinePath | lib/mapping/paths.rb:9-10 | after `define_path(name, tokens)` the generator `name` produces `generate(tokens, args)` for every argument list, and other generators are unchanged |
| Mapping.RegistrationTarget | lib/mapping/action.rb:11-16 | registrations go to the resource named by `:resource`, or to the default resource without one |
| Mapping.NewAction | lib/mapping/action.rb:7-21 | the action keeps the declared name, block and threading flag, and targets the named resource or the proxy; a named route registers its path generator from `options[:path]` on the target resource, and also its block as an action when one is given; an unnamed route registers nothing |
| Mapping.ResourceTable.DefineAction | lib/mapping/action.rb:18 | defines the named action on the resource and leaves every other definition |
| Mapping.Action.Bind | lib/mapping/action.rb:23-25 | a Binding is returned exactly when the constraints hold and the pattern yields parameters, and it holds this action and exactly those parameters |
| Mapping.PatternNotConsultedWhenUnsatisfied | lib/mapping/action.rb:23-25 | when the constraints fail, `bind` gives no binding whatever the pattern would answer |
| Mapping.Action.Call | lib/mapping/action.rb:28-33 | a named action sends its name to the resource even when it has a block; an unnamed one evaluates its block; with neither nothing is invoked |
| Mapping.Action.Threaded | lib/mapping/action.rb:36-38 | `threaded?` reads the descriptors: definition, no contract; specified through `NewAction` (it reports the declared flag) |
| Mapping.Binding.Call | lib/mapping/action.rb:48-51 | the request's parameters become the old ones merged with the captured ones, and the bound action's call follows |
| Mapping.Binding.Threaded | lib/mapping/action.rb:53-54 | `threaded?` forwarded by `method_missing`: definition, no contract; specified through `BindingForwardsThreaded` |
| Mapping.BindingForwardsThreaded | lib/mapping/action.rb:53-54 | a binding answers `threaded?` as the action it was bound from (its `call` forwards as `Binding.Call` states) |
| Dispatchers.NewRedirect | lib/dispatchers/base.rb:9-12 | a Redirect keeps its path, and its status is `'302'` unless one is given |
| Dispatchers.RunChain | lib/dispatchers/default.rb:40 | the filters run in order up to and including the first that raises, whose exception is the one reported; with none raising, all run |
| Dispatchers.RunFilters | lib/dispatchers/default.rb:45 | the `each` loop runs exactly the filters `RunChain` says, recording each in order |
| Dispatchers.Guarded | lib/dispatchers/default.rb:39-46 | the begin block: definition, no contract; specified through `StagesOfRun`, `NotFoundBeforeAnyFilter`, `BeforeFilterRaiseSkipsAction`, `ActionThenAfterFilters` and `EmptyActionListRaises` |
| Dispatchers.Pipeline | lib/dispatchers/default.rb:37-62 | an exception escapes exactly when one was raised and `handle` does not accept it; it is the raised exception when `handle` declines it and `handle`'s own when `handle` raises; the always filters are the last events of every run |
| Dispatchers.Rescued | lib/dispatchers/default.rb:48-50 | the rescue clause: definition, no contract; specified through `Pipeline` |
| Dispatchers.RunGuarded | lib/dispatchers/default.rb:39-46 | the begin block does what `Guarded` specifies, appends the action's value to the body when it returns one, and leaves status and location alone |
| Dispatchers.Safe | lib/dispatchers/default.rb:28-64 | sets the content type to the MIME type for the path or `text/html`, writes the action's value, and returns exactly the escaping exception and the events that `Pipeline` specifies |
| Dispatchers.ContentType | lib/dispatchers/default.rb:33 | the MIME type for the path or `text/html`: definition, no contract; specified through `Safe` |
| Dispatchers.Dispatch | lib/dispatchers/base.rb:42-55 | an escaping Redirect sets the response status and location to its status and path and the finished response is returned; any other escaping exception propagates; otherwise the finished response is returned unchanged in status and location |
| Dispatchers.Call | lib/dispatchers/base.rb:25-31 | with or without the synchronize wrapper, the result is exactly that of `_call` |
| PipelineProperties.StagesOfRun | lib/dispatchers/default.rb:37-60 | the handlers run in each stage: the before filters up to the first raise, the first action and the after filters only once the before filters passed, and all always filters |
| PipelineProperties.NotFoundBeforeAnyFilter | lib/dispatchers/default.rb:39 | with no action, NotFound is raised before any filter, nothing is written, only the always filters run, something escapes exactly when `handle` does not accept NotFound, and NotFound itself escapes when `handle` declines it |
| PipelineProperties.BeforeFilterRaiseSkipsAction | lib/dispatchers/default.rb:40-46 | when before filter `i` is the first to raise, filters `0..i` ran in order, the action and all after filters are skipped, nothing is written and that exception is raised |
| PipelineProperties.ActionThenAfterFilters | lib/dispatchers/default.rb:42-46 | once the before filters pass, only the first action is called, its return value is what is written, and the after filters run whatever the action did; an after filter's exception replaces the action's |
| PipelineProperties.EmptyActionListRaises | lib/dispatchers/default.rb:43 | an empty action list calls no action, still runs the after filters, and raises NoMethodError |
| PipelineProperties.AlwaysFiltersRunLast | lib/dispatchers/default.rb:52-60 | every always filter runs exactly once, in order, and none runs before the other stages are over |
| PipelineProperties.AlwaysFiltersContained | lib/dispatchers/default.rb:54-60 | what the always filters raise never changes what was written, raised or escapes |
| PipelineProperties.RedirectRunsAfterFilters | lib/dispatchers/default.rb:42-50 | a Redirect raised by the action still runs every after filter and the always filters and is the exception raised; something escapes `safe` exactly when `handle` does not accept it, and the Redirect itself when `handle` declines it |
| Controllers.Leaf | lib/controllers/mixin.rb:148-151 | a String is stored stripped, a Hash unchanged, anything else as nil |
| Controllers.Insert | lib/controllers/mixin.rb:145-156 | on success the key list was non-empty, the first segment is added to the hash's keys and every other entry is kept; an empty key list raises; `InsertOkIff` says exactly when it succeeds |
| Controllers.InsertOkIff | lib/controllers/mixin.rb:145-156 | inserting succeeds exactly when every value it descends into is absent, `nil` or a hash, at every depth, so an existing nested hash is reused rather than an error |
| Controllers.InsertKeepsClear | lib/controllers/mixin.rb:153-154 | inserting one key leaves the path of any other key clear unless the first is a proper prefix of the second |
| Controllers.InsertSucceeds | lib/controllers/mixin.rb:145-156 | a non-empty key list whose first segment has nothing (or `nil`) under it, or is the only segment, is always inserted |
| Controllers.NotAHashRaises | lib/controllers/mixin.rb:153-154 | descending into a value that is there and is neither `nil` nor a hash raises for that segment |
| Controllers.InsertStoresLeaf | lib/controllers/mixin.rb:145-156 | following the segments of the key reaches the leaf read from `prefix + key` for one segment and from the last two segments joined by `.` otherwise |
| Controllers.TwoSegmentKey | lib/controllers/mixin.rb:145-156 | `a.b` yields `result[a][b]` from `hash["a.b"]` |
| Controllers.ThreeSegmentKey | lib/controllers/mixin.rb:154 | `a.b.c` yields `result[a][b][c]` from `hash["b.c"]`, because only the last segment read plus `.` is passed on as the prefix |
| Controllers.NestedHashReused | lib/controllers/mixin.rb:153 | an existing nested hash under the first segment is reused: its other entries stay (the insert succeeds when `InsertOkIff` says so) |
| Controllers.DestructuredKeys | lib/controllers/mixin.rb:139-140 | the top-level keys of the result are exactly the first segments of the input keys |
| Controllers.EmptyKeyRaises | lib/controllers/mixin.rb:139-140 | a key that splits into no segment (such as `""` or `"."`) makes destructuring raise |
| Controllers.Fold | lib/controllers/mixin.rb:139-141 | the `each` over the split keys: definition, no contract; specified through `FoldKeys`, `EmptyKeyRaises`, `FoldSucceeds` and `FoldLastWriteWins` |
| Controllers.Destructured | lib/controllers/mixin.rb:137-143 | `destructure` on values: definition, no contract; specified through `Destructure`, `DestructuredKeys`, `DestructuredSucceeds`, `SharedFirstSegment`, `OneSegmentKey` and `StringThenNestedRaises` |
| Controllers.FoldSucceeds | lib/controllers/mixin.rb:139-141 | the loop succeeds when every remaining key has a clear path in the hash built so far and no key's segments are a proper prefix of a later key's |
| Controllers.DestructuredSucceeds | lib/controllers/mixin.rb:137-143 | destructuring succeeds when every key has a segment and no key's segments are a proper prefix of a later key's; keys may share leading segments |
| Controllers.SharedFirstSegment | lib/controllers/mixin.rb:137-156 | two keys `a.b` and `a.c` destructure into one nested hash under `a` holding both leaves |
| Controllers.EntryTitleAndBody | lib/controllers/mixin.rb:24-25 | the documented `entry.title` and `entry.body` become `params[entry][title]` and `params[entry][body]` |
| Controllers.StringThenNestedRaises | lib/controllers/mixin.rb:148-154 | a string under `a` followed by the key `a.b` makes destructuring raise for `a` |
| Controllers.OneSegmentKey | lib/controllers/mixin.rb:146-151 | a one-segment key that no other key starts with stores its own value, stripped if it is a String, unchanged if a Hash, nil otherwise |
| Controllers.Destructure | lib/controllers/mixin.rb:137-143 | the loop over the hash's keys builds exactly the result `Destructured` specifies, or raises as it does |
| Controllers.Controller.Params | lib/controllers/mixin.rb:117 | the first call destructures `request.params` and remembers a successful result; later calls return the remembered result; the request is only read |
| Http.Response.Write | lib/dispatchers/default.rb:43 | `response.write`: appends the text to the body and changes nothing else |
| Http.Response.Finish | lib/dispatchers/base.rb:54 | `response.finish`: definition, no contract; specified through `Dispatch` |

## Left out

- Pattern matching, constraint checking, descriptors, the mapping lookup `Waves.mapping[request]` and the exception-handler table `handle` are not part of this model. Their code is not in these files, so they are inputs. So are the first-registered-wins route lookup and the generate/match round trip, which need the matching algorithm.
- `Base#deferred?` and the mutex of `Runtime#synchronize` are concurrency. `deferred?` only forwards to the mapping's `threaded?`, which is not part of this model. `Call` takes the synchronize switch and behaves as `_call` either way.
- Benchmark timing and `Waves::Logger` output are clock and I/O. The always filters' rescued exceptions are discarded rather than logged.
- The debug-mode reload in `safe` is left out.
- Side effects of user code are not modelled. Filters, actions and the handler table may change the response (a 404 status, say) or other state. Each handler's outcome is a fixed function of the handler, and the handler table's verdict a fixed function of the exception.
- The `Response` class (lib/runtime/response.rb) is not part of this model. `Response` keeps status, content type, location and body parts, and `Finish` returns them.
- The resource proxy's choice of resource from `resource`/`resources` parameters, `define_method` on resource classes, and inheritance of path generators from a parent resource's `Paths` (lib/resources/mixin.rb) are not modelled. Registries are explicit maps.
- `model`, `model_name`, `attributes` and the string inflections are left out. Resource singular and plural names are given.
- Ruby object identity is not modelled: `destructure` works on values. In Ruby, a Hash parameter stored into the result is the same object as in the request. A deeper key under it then adds entries to the request's own nested hash. The model does not capture that aliasing.
- `intern` is the identity on segment names. Symbols and strings are not distinguished, and the error Ruby 1.8 raises when interning an empty segment (`a..b`) is not modelled.
- Ruby 1.8 leaves the order of a hash's keys unspecified. The model fixes one order, the order of the pairs, so claims about position (`Values.Put` appends a new key last) describe the model's order. `destructure`, where a later key can overwrite an earlier one, is stated for that order.
- `Hash#to_s` for a hash argument printed as a path segment follows Ruby 1.8: keys and values run together. Query values are taken as already-converted strings, and neither is percent-encoded.
- Token kinds other than String, Symbol, Regexp and Hash are not modelled. An integer token has no matching `generate` case.
- `Action.new` raising ArgumentError for an unnamed route without a block happens in the mapping declaration API, which is not part of this model.
- Strings.StripIdempotent: holds only when the first strip does not leave a NUL at the end. Ruby 1.8's `rstrip` removes NULs before whitespace, so in general stripping twice can remove more than stripping once (`StripNotIdempotent`).
