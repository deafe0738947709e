/**
 * The request pipeline of `Waves::Dispatchers::Default#safe` and the
 * redirect handling around it in `Waves::Dispatchers::Base`. Route lookup,
 * the filters, the action and the exception-handler table are not part of
 * this model; their results come in as `Lookup`, `run` and `handle`.
 * Handlers may themselves raise, so `handle` answers with a `Verdict`.
 */
module Dispatchers {
  import opened Wrappers
  import opened Http

  /** The exceptions the pipeline distinguishes. */
  datatype Exc = NotFoundError | Redirect(path: string, status: string) | Failure(kind: string)

  /** What calling a method on `nil` raises. */
  const NoMethodError: Exc := Failure("NoMethodError")

  /** `Redirect.new(path, status = '302')` */
  function NewRedirect(path: string, status: Option<string>): (r: Exc)
    ensures r.Redirect? && r.path == path
    ensures status.None? ==> r.status == "302"
    ensures status.Some? ==> r.status == status.value
  {
    Redirect(path, if status.Some? then status.value else "302")
  }

  /** A callable the pipeline runs: a filter or a bound action (an opaque reference). */
  datatype Handler = Handler(id: nat)

  /** What running a handler does: return a value, or raise. */
  datatype Outcome = Returned(value: string) | Raised(error: Exc)

  /**
   * `Waves.mapping[request]`: the bound actions (absent when no route
   * matched) and the before, after and always filters that apply.
   */
  datatype Lookup = Lookup(action: Option<seq<Handler>>, before: seq<Handler>, after: seq<Handler>, always: seq<Handler>)

  datatype Stage = BeforeStage | ActionStage | AfterStage | AlwaysStage

  /** One handler being run, in the stage that ran it. */
  datatype Event = Ran(stage: Stage, handler: Handler)

  /** The events of running every handler of `hs`, in order, in stage `st`. */
  function Tag(st: Stage, hs: seq<Handler>): (r: seq<Event>)
    ensures |r| == |hs|
    ensures forall i :: 0 <= i < |hs| ==> r[i] == Ran(st, hs[i])
  {
    if hs == [] then [] else Tag(st, hs[..|hs| - 1]) + [Ran(st, hs[|hs| - 1])]
  }

  /** The handlers that ran in stage `st`, in order. */
  function OfStage(trace: seq<Event>, st: Stage): seq<Handler>
  {
    if trace == [] then []
    else (if trace[0].stage == st then [trace[0].handler] else []) + OfStage(trace[1..], st)
  }

  /** How far a `hs.each { |h| h.call(request) }` loop got: how many ran, and what the last one raised. */
  datatype Chain = Chain(ran: nat, raised: Option<Exc>)

  /** Running handlers in order until the first one raises. */
  function RunChain(hs: seq<Handler>, run: Handler -> Outcome): (c: Chain)
    ensures c.ran <= |hs|
    ensures c.raised.None? ==> c.ran == |hs| && forall i :: 0 <= i < |hs| ==> run(hs[i]).Returned?
    ensures c.raised.Some? ==> 1 <= c.ran && run(hs[c.ran - 1]) == Raised(c.raised.value)
    ensures c.raised.Some? ==> forall i :: 0 <= i < c.ran - 1 ==> run(hs[i]).Returned?
  {
    if hs == [] then Chain(0, None)
    else match run(hs[0])
      case Raised(e) => Chain(1, Some(e))
      case Returned(_) =>
        var c := RunChain(hs[1..], run);
        assert forall i :: 1 <= i < |hs| ==> hs[i] == hs[1..][i - 1];
        Chain(c.ran + 1, c.raised)
  }

  /** The first-raise characterisation determines the chain. */
  lemma RunChainUnique(hs: seq<Handler>, run: Handler -> Outcome, ran: nat, raised: Option<Exc>)
    requires ran <= |hs|
    requires raised.None? ==> ran == |hs| && forall i :: 0 <= i < |hs| ==> run(hs[i]).Returned?
    requires raised.Some? ==> 1 <= ran && run(hs[ran - 1]) == Raised(raised.value)
    requires raised.Some? ==> forall i :: 0 <= i < ran - 1 ==> run(hs[i]).Returned?
    ensures RunChain(hs, run) == Chain(ran, raised)
  {
  }

  /**
   * The begin block of `safe` (lines 39-46): what it ran, what it wrote,
   * and what escaped from it.
   */
  datatype Attempt = Attempt(trace: seq<Event>, written: Option<string>, raised: Option<Exc>)

  function Guarded(m: Lookup, run: Handler -> Outcome): (a: Attempt)
  {
    if m.action.None? then Attempt([], None, Some(NotFoundError))
    else
      var b := RunChain(m.before, run);
      if b.raised.Some? then Attempt(Tag(BeforeStage, m.before[..b.ran]), None, b.raised)
      else
        var acts := m.action.value;
        var outcome := if |acts| == 0 then Raised(NoMethodError) else run(acts[0]);
        var entered := if |acts| == 0 then [] else [Ran(ActionStage, acts[0])];
        var after := RunChain(m.after, run);
        Attempt(Tag(BeforeStage, m.before) + entered + Tag(AfterStage, m.after[..after.ran]),
                if outcome.Returned? then Some(outcome.value) else None,
                if after.raised.Some? then after.raised
                else if outcome.Raised? then Some(outcome.error) else None)
  }

  /**
   * What `Waves.mapping.handle(e)` does with an exception: accept it (a
   * truthy answer), decline it (a falsy answer, so `raise e` re-raises it),
   * or raise an exception of its own, which then escapes instead.
   */
  datatype Verdict = Accepted | Declined | HandlerRaised(error: Exc)

  /** A whole run of `safe`: the events, the text written, the exception raised inside and the one that escapes. */
  datatype Run = Run(trace: seq<Event>, written: Option<string>, raised: Option<Exc>, escaped: Option<Exc>)

  /**
   * The specification of `safe`: an exception escapes exactly when one was
   * raised and the handler table does not accept it; it is the raised one
   * when the table declines it and the table's own when the table raises;
   * and the always filters run last, every one of them.
   */
  function Pipeline(m: Lookup, run: Handler -> Outcome, handle: Exc -> Verdict): (r: Run)
    ensures r.escaped.Some? <==> r.raised.Some? && !handle(r.raised.value).Accepted?
    ensures r.raised.Some? && handle(r.raised.value).Declined? ==> r.escaped == r.raised
    ensures r.raised.Some? && handle(r.raised.value).HandlerRaised? ==> r.escaped == Some(handle(r.raised.value).error)
    ensures |r.trace| >= |m.always| && r.trace[|r.trace| - |m.always|..] == Tag(AlwaysStage, m.always)
  {
    var a := Guarded(m, run);
    var escaped := Rescued(a.raised, handle);
    var trace := a.trace + Tag(AlwaysStage, m.always);
    assert trace[|a.trace|..] == Tag(AlwaysStage, m.always);
    Run(trace, a.written, a.raised, escaped)
  }

  /** `raise e unless Waves.mapping.handle(e)`: what escapes the rescue clause. */
  function Rescued(raised: Option<Exc>, handle: Exc -> Verdict): Option<Exc>
  {
    if raised.None? then None
    else match handle(raised.value)
      case Accepted => None
      case Declined => raised
      case HandlerRaised(e) => Some(e)
  }

  /** The content type `safe` sets: the MIME type for the path, else `text/html`. */
  function ContentType(mime: map<string, string>, path: string): string
  {
    if path in mime then mime[path] else "text/html"
  }

  /** One `hs.each { |h| h.call(request) }` loop, stopping at the first handler that raises. */
  method RunFilters(hs: seq<Handler>, st: Stage, run: Handler -> Outcome) returns (ran: nat, raised: Option<Exc>, events: seq<Event>)
    ensures Chain(ran, raised) == RunChain(hs, run)
    ensures ran <= |hs| && events == Tag(st, hs[..ran])
  {
    ran, raised, events := 0, None, [];
    while ran < |hs| && raised.None?
      invariant ran <= |hs|
      invariant events == Tag(st, hs[..ran])
      invariant raised.None? ==> forall i :: 0 <= i < ran ==> run(hs[i]).Returned?
      invariant raised.Some? ==> 1 <= ran && run(hs[ran - 1]) == Raised(raised.value)
      invariant raised.Some? ==> forall i :: 0 <= i < ran - 1 ==> run(hs[i]).Returned?
    {
      var outcome := run(hs[ran]);
      if outcome.Raised? {
        raised := Some(outcome.error);
      }
      events := events + [Ran(st, hs[ran])];
      ran := ran + 1;
    }
    RunChainUnique(hs, run, ran, raised);
  }

  /**
   * The begin block of `safe` (lines 39-46): NotFound when no route matched,
   * the before filters, the first action with its return value written to
   * the response, and, in an `ensure`, the after filters.
   */
  method RunGuarded(m: Lookup, run: Handler -> Outcome, resp: Response)
    returns (trace: seq<Event>, ghost written: Option<string>, raised: Option<Exc>)
    modifies resp
    ensures Attempt(trace, written, raised) == Guarded(m, run)
    ensures resp.body == old(resp.body) + (if written.Some? then [written.value] else [])
    ensures resp.status == old(resp.status) && resp.location == old(resp.location)
    ensures resp.contentType == old(resp.contentType)
  {
    trace, written, raised := [], None, None;
    if m.action.None? {
      raised := Some(NotFoundError);
      return;
    }
    var ran, events;
    ran, raised, events := RunFilters(m.before, BeforeStage, run);
    trace := events;
    if raised.Some? {
      return;
    }
    assert m.before[..ran] == m.before;
    var acts := m.action.value;
    var outcome: Outcome;
    if |acts| == 0 {
      outcome := Raised(NoMethodError);
    } else {
      outcome := run(acts[0]);
      trace := trace + [Ran(ActionStage, acts[0])];
      if outcome.Returned? {
        resp.Write(outcome.value);
        written := Some(outcome.value);
      }
    }
    var afterRaised;
    ran, afterRaised, events := RunFilters(m.after, AfterStage, run);
    trace := trace + events;
    raised := if afterRaised.Some? then afterRaised
              else if outcome.Raised? then Some(outcome.error) else None;
  }

  /**
   * `Default#safe`: set the content type, run the guarded block, hand any
   * exception to the handler table and re-raise it unless accepted (or let
   * the table's own exception escape), and
   * finally run every always filter, swallowing what they raise.
   */
  method Safe(path: string, mime: map<string, string>, m: Lookup, run: Handler -> Outcome,
              handle: Exc -> Verdict, resp: Response) returns (escaped: Option<Exc>, trace: seq<Event>)
    modifies resp
    ensures resp.contentType == ContentType(mime, path)
    ensures var p := Pipeline(m, run, handle);
      escaped == p.escaped && trace == p.trace &&
      resp.body == old(resp.body) + (if p.written.Some? then [p.written.value] else [])
    ensures resp.status == old(resp.status) && resp.location == old(resp.location)
  {
    resp.contentType := ContentType(mime, path);
    var raised;
    ghost var written;
    trace, written, raised := RunGuarded(m, run, resp);
    escaped := Rescued(raised, handle);
    ghost var attempted := trace;
    var k := 0;
    while k < |m.always|
      invariant k <= |m.always|
      invariant trace == attempted + Tag(AlwaysStage, m.always[..k])
    {
      var _ := run(m.always[k]);
      trace := trace + [Ran(AlwaysStage, m.always[k])];
      k := k + 1;
    }
    assert m.always[..k] == m.always;
  }

  /**
   * `Base#_call`: run `safe`; a Redirect that escapes sets the response's
   * status and location, any other escaping exception propagates, and
   * otherwise the finished response is returned.
   */
  method Dispatch(path: string, mime: map<string, string>, m: Lookup, run: Handler -> Outcome,
                  handle: Exc -> Verdict, resp: Response) returns (r: Result<Finished, Exc>, trace: seq<Event>)
    modifies resp
    ensures var p := Pipeline(m, run, handle);
      trace == p.trace && resp.contentType == ContentType(mime, path) &&
      resp.body == old(resp.body) + (if p.written.Some? then [p.written.value] else [])
    ensures var p := Pipeline(m, run, handle);
      p.escaped.None? ==> r == Ok(resp.Finish()) && resp.status == old(resp.status) && resp.location == old(resp.location)
    ensures var p := Pipeline(m, run, handle);
      p.escaped.Some? && p.escaped.value.Redirect? ==>
        resp.status == p.escaped.value.status && resp.location == Some(p.escaped.value.path) && r == Ok(resp.Finish())
    ensures var p := Pipeline(m, run, handle);
      p.escaped.Some? && !p.escaped.value.Redirect? ==> r == Err(p.escaped.value)
  {
    var escaped;
    escaped, trace := Safe(path, mime, m, run, handle, resp);
    if escaped.Some? && escaped.value.Redirect? {
      resp.status := escaped.value.status;
      resp.location := Some(escaped.value.path);
      r := Ok(resp.Finish());
    } else if escaped.Some? {
      r := Err(escaped.value);
    } else {
      r := Ok(resp.Finish());
    }
  }

  /** `Base#call`: the same as `_call`, with or without the serialising lock (which is not modelled). */
  method Call(synchronize: bool, path: string, mime: map<string, string>, m: Lookup, run: Handler -> Outcome,
              handle: Exc -> Verdict, resp: Response) returns (r: Result<Finished, Exc>, trace: seq<Event>)
    modifies resp
    ensures var p := Pipeline(m, run, handle);
      trace == p.trace && resp.contentType == ContentType(mime, path) &&
      resp.body == old(resp.body) + (if p.written.Some? then [p.written.value] else [])
    ensures var p := Pipeline(m, run, handle);
      p.escaped.None? ==> r == Ok(resp.Finish()) && resp.status == old(resp.status) && resp.location == old(resp.location)
    ensures var p := Pipeline(m, run, handle);
      p.escaped.Some? && p.escaped.value.Redirect? ==>
        resp.status == p.escaped.value.status && resp.location == Some(p.escaped.value.path) && r == Ok(resp.Finish())
    ensures var p := Pipeline(m, run, handle);
      p.escaped.Some? && !p.escaped.value.Redirect? ==> r == Err(p.escaped.value)
  {
    if synchronize {
      r, trace := Dispatch(path, mime, m, run, handle, resp);
    } else {
      r, trace := Dispatch(path, mime, m, run, handle, resp);
    }
  }
}

/** What the pipeline promises, stated over its specification `Pipeline`. */
module PipelineProperties {
  import opened Wrappers
  import opened Dispatchers

  lemma {:induction false} OfStageAppend(a: seq<Event>, b: seq<Event>, st: Stage)
    ensures OfStage(a + b, st) == OfStage(a, st) + OfStage(b, st)
  {
    if a == [] {
      assert a + b == b;
    } else {
      calc {
        OfStage(a + b, st);
        (if a[0].stage == st then [a[0].handler] else []) + OfStage((a + b)[1..], st);
        { assert (a + b)[1..] == a[1..] + b; }
        (if a[0].stage == st then [a[0].handler] else []) + OfStage(a[1..] + b, st);
        { OfStageAppend(a[1..], b, st); }
        (if a[0].stage == st then [a[0].handler] else []) + (OfStage(a[1..], st) + OfStage(b, st));
      }
    }
  }

  /** A stage's own events give back its handlers; other stages' events give nothing. */
  lemma {:induction false} OfStageTag(hs: seq<Handler>, st: Stage, other: Stage)
    ensures OfStage(Tag(st, hs), st) == hs
    ensures other != st ==> OfStage(Tag(st, hs), other) == []
  {
    if hs != [] {
      var init := hs[..|hs| - 1];
      OfStageTag(init, st, other);
      OfStageAppend(Tag(st, init), [Ran(st, hs[|hs| - 1])], st);
      OfStageAppend(Tag(st, init), [Ran(st, hs[|hs| - 1])], other);
      assert init + [hs[|hs| - 1]] == hs;
    }
  }

  /** The handlers the guarded block (the part of `safe` before the handler table) runs in stage `st`. */
  function GuardedRan(m: Lookup, run: Handler -> Outcome, st: Stage): seq<Handler>
  {
    var b := RunChain(m.before, run);
    var entered := m.action.Some? && b.raised.None?;
    match st
    case BeforeStage => if m.action.None? then [] else m.before[..b.ran]
    case ActionStage => if entered && |m.action.value| > 0 then [m.action.value[0]] else []
    case AfterStage => if entered then m.after[..RunChain(m.after, run).ran] else []
    case AlwaysStage => []
  }

  /** The stages of a trace made of before filters, at most one action, and after filters. */
  lemma EnteredTrace(before: seq<Handler>, action: seq<Handler>, after: seq<Handler>, st: Stage)
    requires |action| <= 1
    ensures OfStage(Tag(BeforeStage, before) + Tag(ActionStage, action) + Tag(AfterStage, after), st) ==
      (if st == BeforeStage then before else []) + (if st == ActionStage then action else []) +
      (if st == AfterStage then after else [])
  {
    var t1 := Tag(BeforeStage, before);
    var t2 := Tag(ActionStage, action);
    OfStageAppend(t1 + t2, Tag(AfterStage, after), st);
    OfStageAppend(t1, t2, st);
    OfStageTag(before, BeforeStage, st);
    OfStageTag(action, ActionStage, st);
    OfStageTag(after, AfterStage, st);
  }

  /** The events of the guarded block once the before filters have all passed. */
  lemma EnteredGuarded(m: Lookup, run: Handler -> Outcome)
    requires m.action.Some? && RunChain(m.before, run).raised.None?
    ensures var acts := m.action.value;
      Guarded(m, run).trace ==
        Tag(BeforeStage, m.before) + Tag(ActionStage, if |acts| == 0 then [] else [acts[0]]) +
        Tag(AfterStage, m.after[..RunChain(m.after, run).ran])
  {
    var acts := m.action.value;
    assert Tag(ActionStage, if |acts| == 0 then [] else [acts[0]]) == if |acts| == 0 then [] else [Ran(ActionStage, acts[0])];
  }

  lemma GuardedStage(m: Lookup, run: Handler -> Outcome, st: Stage)
    ensures OfStage(Guarded(m, run).trace, st) == GuardedRan(m, run, st)
  {
    if m.action.Some? {
      var b := RunChain(m.before, run);
      if b.raised.Some? {
        assert Guarded(m, run).trace == Tag(BeforeStage, m.before[..b.ran]);
        OfStageTag(m.before[..b.ran], BeforeStage, st);
      } else {
        EnteredStage(m, run, st);
      }
    }
  }

  lemma EnteredStage(m: Lookup, run: Handler -> Outcome, st: Stage)
    requires m.action.Some? && RunChain(m.before, run).raised.None?
    ensures OfStage(Guarded(m, run).trace, st) == GuardedRan(m, run, st)
  {
    var acts := m.action.value;
    var action := if |acts| == 0 then [] else [acts[0]];
    var after := m.after[..RunChain(m.after, run).ran];
    EnteredGuarded(m, run);
    EnteredTrace(m.before, action, after, st);
    EnteredRan(m, run, st);
  }

  lemma EnteredRan(m: Lookup, run: Handler -> Outcome, st: Stage)
    requires m.action.Some? && RunChain(m.before, run).raised.None?
    ensures var acts := m.action.value;
      GuardedRan(m, run, st) ==
      (if st == BeforeStage then m.before else []) + (if st == ActionStage then (if |acts| == 0 then [] else [acts[0]]) else []) +
      (if st == AfterStage then m.after[..RunChain(m.after, run).ran] else [])
  {
    var acts := m.action.value;
    var action := if |acts| == 0 then [] else [acts[0]];
    var after := m.after[..RunChain(m.after, run).ran];
    match st
    case BeforeStage =>
      assert m.before[..RunChain(m.before, run).ran] == m.before;
      assert m.before + [] + [] == m.before;
    case ActionStage =>
      assert [] + action + [] == action;
    case AfterStage =>
      assert [] + [] + after == after;
    case AlwaysStage =>
  }

  /** One stage of a whole run: what the guarded block ran, then the always filters. */
  lemma RunStage(m: Lookup, run: Handler -> Outcome, handle: Exc -> Verdict, st: Stage)
    ensures OfStage(Pipeline(m, run, handle).trace, st) ==
      if st == AlwaysStage then m.always else GuardedRan(m, run, st)
  {
    var g := Guarded(m, run);
    assert Pipeline(m, run, handle).trace == g.trace + Tag(AlwaysStage, m.always);
    OfStageAppend(g.trace, Tag(AlwaysStage, m.always), st);
    OfStageTag(m.always, AlwaysStage, st);
    GuardedStage(m, run, st);
    if st == AlwaysStage {
      assert [] + m.always == m.always;
    } else {
      assert GuardedRan(m, run, st) + [] == GuardedRan(m, run, st);
    }
  }

  /** The handlers each stage ran in one pipeline run. */
  lemma StagesOfRun(m: Lookup, run: Handler -> Outcome, handle: Exc -> Verdict)
    ensures var p := Pipeline(m, run, handle);
      var b := RunChain(m.before, run);
      var entered := m.action.Some? && b.raised.None?;
      && OfStage(p.trace, AlwaysStage) == m.always
      && OfStage(p.trace, BeforeStage) == (if m.action.None? then [] else m.before[..b.ran])
      && OfStage(p.trace, ActionStage) ==
           (if entered && |m.action.value| > 0 then [m.action.value[0]] else [])
      && OfStage(p.trace, AfterStage) == (if entered then m.after[..RunChain(m.after, run).ran] else [])
  {
    RunStage(m, run, handle, AlwaysStage);
    RunStage(m, run, handle, BeforeStage);
    RunStage(m, run, handle, ActionStage);
    RunStage(m, run, handle, AfterStage);
  }

  /** Without a route, NotFound is raised and only the always filters run. */
  lemma NotFoundBeforeAnyFilter(m: Lookup, run: Handler -> Outcome, handle: Exc -> Verdict)
    requires m.action.None?
    ensures var p := Pipeline(m, run, handle);
      && p.raised == Some(NotFoundError)
      && p.written == None
      && p.trace == Tag(AlwaysStage, m.always)
      && (p.escaped.None? <==> handle(NotFoundError).Accepted?)
      && (handle(NotFoundError).Declined? ==> p.escaped == Some(NotFoundError))
  {
  }

  /**
   * Before filters run in list order up to and including the first that
   * raises; when one raises, the action and every after filter are skipped
   * and nothing is written.
   */
  lemma BeforeFilterRaiseSkipsAction(m: Lookup, run: Handler -> Outcome, handle: Exc -> Verdict, i: nat)
    requires m.action.Some? && i < |m.before| && run(m.before[i]).Raised?
    requires forall j :: 0 <= j < i ==> run(m.before[j]).Returned?
    ensures var p := Pipeline(m, run, handle);
      && OfStage(p.trace, BeforeStage) == m.before[..i + 1]
      && OfStage(p.trace, ActionStage) == []
      && OfStage(p.trace, AfterStage) == []
      && p.written == None
      && p.raised == Some(run(m.before[i]).error)
  {
    RunChainUnique(m.before, run, i + 1, Some(run(m.before[i]).error));
    StagesOfRun(m, run, handle);
  }

  /**
   * Once the before filters pass, only the first bound action is called,
   * its return value is what gets written, and the after filters run
   * whatever the action did; an after filter's exception replaces the
   * action's.
   */
  lemma ActionThenAfterFilters(m: Lookup, run: Handler -> Outcome, handle: Exc -> Verdict)
    requires m.action.Some? && |m.action.value| > 0
    requires forall j :: 0 <= j < |m.before| ==> run(m.before[j]).Returned?
    ensures var p := Pipeline(m, run, handle);
      var first := m.action.value[0];
      var a := RunChain(m.after, run);
      && OfStage(p.trace, BeforeStage) == m.before
      && OfStage(p.trace, ActionStage) == [first]
      && OfStage(p.trace, AfterStage) == m.after[..a.ran]
      && p.written == (if run(first).Returned? then Some(run(first).value) else None)
      && p.raised == (if a.raised.Some? then a.raised else if run(first).Raised? then Some(run(first).error) else None)
  {
    RunChainUnique(m.before, run, |m.before|, None);
    assert m.before[..|m.before|] == m.before;
    StagesOfRun(m, run, handle);
  }

  /** An empty action list is still entered: calling its missing first element raises NoMethodError. */
  lemma EmptyActionListRaises(m: Lookup, run: Handler -> Outcome, handle: Exc -> Verdict)
    requires m.action == Some([])
    requires forall j :: 0 <= j < |m.before| ==> run(m.before[j]).Returned?
    requires forall j :: 0 <= j < |m.after| ==> run(m.after[j]).Returned?
    ensures var p := Pipeline(m, run, handle);
      && OfStage(p.trace, ActionStage) == []
      && OfStage(p.trace, AfterStage) == m.after
      && p.raised == Some(NoMethodError)
  {
    RunChainUnique(m.before, run, |m.before|, None);
    RunChainUnique(m.after, run, |m.after|, None);
    assert m.after[..|m.after|] == m.after;
    StagesOfRun(m, run, handle);
  }

  /**
   * Always filters run once each, in order, at the very end of every run,
   * whatever happened before them.
   */
  lemma AlwaysFiltersRunLast(m: Lookup, run: Handler -> Outcome, handle: Exc -> Verdict)
    ensures var p := Pipeline(m, run, handle);
      && OfStage(p.trace, AlwaysStage) == m.always
      && OfStage(p.trace[..|p.trace| - |m.always|], AlwaysStage) == []
  {
    var p := Pipeline(m, run, handle);
    var g := Guarded(m, run);
    StagesOfRun(m, run, handle);
    assert p.trace[..|p.trace| - |m.always|] == g.trace;
    OfStageAppend(g.trace, Tag(AlwaysStage, m.always), AlwaysStage);
    OfStageTag(m.always, AlwaysStage, AlwaysStage);
  }

  /**
   * What the always filters raise never matters: the written text and the
   * raised and escaping exceptions are those of the same run with any other
   * always filters.
   */
  lemma AlwaysFiltersContained(m: Lookup, run: Handler -> Outcome, handle: Exc -> Verdict, others: seq<Handler>)
    ensures var p := Pipeline(m, run, handle);
      var q := Pipeline(m.(always := others), run, handle);
      p.written == q.written && p.raised == q.raised && p.escaped == q.escaped
  {
    assert Guarded(m, run) == Guarded(m.(always := others), run);
  }

  /**
   * A Redirect raised by the action is an ordinary exception inside `safe`:
   * the after filters and the always filters still run, and the handler
   * table decides whether it escapes to `_call`.
   */
  lemma RedirectRunsAfterFilters(m: Lookup, run: Handler -> Outcome, handle: Exc -> Verdict, path: string, status: string)
    requires m.action.Some? && |m.action.value| > 0
    requires run(m.action.value[0]) == Raised(Redirect(path, status))
    requires forall j :: 0 <= j < |m.before| ==> run(m.before[j]).Returned?
    requires forall j :: 0 <= j < |m.after| ==> run(m.after[j]).Returned?
    ensures var p := Pipeline(m, run, handle);
      && OfStage(p.trace, AfterStage) == m.after
      && OfStage(p.trace, AlwaysStage) == m.always
      && p.raised == Some(Redirect(path, status))
      && (p.escaped.None? <==> handle(Redirect(path, status)).Accepted?)
      && (handle(Redirect(path, status)).Declined? ==> p.escaped == Some(Redirect(path, status)))
  {
    RunChainUnique(m.after, run, |m.after|, None);
    assert m.after[..|m.after|] == m.after;
    ActionThenAfterFilters(m, run, handle);
    StagesOfRun(m, run, handle);
  }
}
