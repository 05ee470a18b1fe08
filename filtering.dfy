/** The filter pipeline. Each filter sees a request head (or a response head)
    and answers with an action: go on to the next filter, consume the event,
    or reject it with a response for the client. A chain runs its filters in
    order and stops at the first action that consumes or rejects. */
module Filtering {
  import opened Wrappers
  import opened Message

  // The three action kinds.
  const NEXT_FILTER := 0
  const CONSUME := 1
  const REJECT := 2

  /** What a filter decided, and the response to send when it rejects. The
      kind is any integer; only CONSUME and REJECT have a meaning of their own. */
  datatype FilterAction = FilterAction(kind: int, response: Option<Response>)
  {
    predicate IsConsuming() {
      kind == CONSUME
    }

    predicate IsRejecting() {
      kind == REJECT
    }
  }

  /** Each kind has its own test, and no action both consumes and rejects. */
  lemma ActionKinds(a: FilterAction)
    ensures a.IsConsuming() <==> a.kind == CONSUME
    ensures a.IsRejecting() <==> a.kind == REJECT
    ensures !(a.IsConsuming() && a.IsRejecting())
  {
  }

  /** An action that ends the run of a chain. */
  predicate Decisive(a: FilterAction) {
    a.IsConsuming() || a.IsRejecting()
  }

  /** The response a rejection carries when the filter gave none: version
      1.1, status 400 and a Content-Length of 0. */
  const DefaultRejectResponse := Response("1.1", Code(400), [Header("Content-Length", ["0"])])

  /** Pass the event on to the next filter. */
  function PassEvent(): (a: FilterAction)
    ensures !Decisive(a) && a.response == None
  {
    FilterAction(NEXT_FILTER, None)
  }

  /** Stop the chain and let the message through. */
  function Consume(): (a: FilterAction)
    ensures a.IsConsuming() && !a.IsRejecting() && a.response == None
  {
    FilterAction(CONSUME, None)
  }

  /** Stop the chain and answer the client with the given response, or with
      the default one when none is given. */
  function Reject(response: Option<Response>): (a: FilterAction)
    ensures a.IsRejecting() && !a.IsConsuming()
    ensures response.Some? ==> a.response == response
    ensures response.None? ==> a.response == Some(DefaultRejectResponse)
  {
    FilterAction(REJECT, if response.Some? then response else Some(DefaultRejectResponse))
  }

  /** What calling one hook of a filter produced: it raised, it returned
      nothing (or anything false), or it returned an action. */
  datatype Outcome = Raise | NoAction | Act(action: FilterAction)

  /** A filter: its request hook and its response hook. */
  datatype Filter = Filter(onRequest: Request -> Outcome, onResponse: Response -> Outcome)

  /** A filter that keeps both default hooks. */
  function DefaultFilter(): Filter {
    Filter(_ => Act(PassEvent()), _ => Act(PassEvent()))
  }

  /** The action an outcome stands for: a raised exception counts as a
      rejection with the default response, and no action stands for nothing. */
  function Effective(o: Outcome): Option<FilterAction> {
    match o
    case Raise => Some(Reject(None))
    case NoAction => None
    case Act(a) => Some(a)
  }

  predicate StopsChain(o: Outcome) {
    Effective(o).Some? && Decisive(Effective(o).value)
  }

  /** The action a chain returns, given the outcomes of its filters in order
      and the action in hand before them. */
  function Decide(os: seq<Outcome>, last: FilterAction): FilterAction {
    if os == [] then last
    else if Effective(os[0]).None? then Decide(os[1..], last)
    else if Decisive(Effective(os[0]).value) then Effective(os[0]).value
    else Decide(os[1..], Effective(os[0]).value)
  }

  /** How many filters a chain calls: up to and including the first one that
      stops it, or all of them. */
  function Consulted(os: seq<Outcome>): nat {
    if os == [] then 0
    else if StopsChain(os[0]) then 1
    else 1 + Consulted(os[1..])
  }

  /** The last action among the outcomes, or last when there is none. */
  function LastAction(os: seq<Outcome>, last: FilterAction): FilterAction {
    if os == [] then last
    else if Effective(os[|os| - 1]).Some? then Effective(os[|os| - 1]).value
    else LastAction(os[..|os| - 1], last)
  }

  function RequestOutcomes(fs: seq<Filter>, r: Request): seq<Outcome> {
    seq(|fs|, i requires 0 <= i < |fs| => fs[i].onRequest(r))
  }

  function ResponseOutcomes(fs: seq<Filter>, r: Response): seq<Outcome> {
    seq(|fs|, i requires 0 <= i < |fs| => fs[i].onResponse(r))
  }

  /** A pipeline of filters, element 0 first to receive events. */
  class HttpFilterChain {
    var chain: seq<Filter>

    constructor()
      ensures chain == []
    {
      chain := [];
    }

    /** Appends a filter at the end; the filters already there keep their order. */
    method AddFilter(f: Filter)
      modifies this
      ensures chain == old(chain) + [f]
    {
      chain := chain + [f];
    }

    /** Runs the request hooks in order; returns the chain's action and how
        many hooks were called. */
    method OnRequest(request: Request) returns (action: FilterAction, invoked: nat)
      ensures action == Decide(RequestOutcomes(chain, request), PassEvent())
      ensures invoked == Consulted(RequestOutcomes(chain, request))
    {
      ghost var os := RequestOutcomes(chain, request);
      action := PassEvent();
      invoked := 0;
      var i := 0;
      while i < |chain|
        invariant 0 <= i <= |chain| && invoked == i
        invariant Decide(os[i..], action) == Decide(os, PassEvent())
        invariant Consulted(os) == i + Consulted(os[i..])
      {
        var o := chain[i].onRequest(request);
        invoked := invoked + 1;
        if o.Raise? {
          o := Act(Reject(None));
        }
        if o.Act? {
          action := o.action;
          if action.IsConsuming() || action.IsRejecting() {
            return;
          }
        }
        i := i + 1;
      }
    }

    /** Runs the response hooks in order, the same way. */
    method OnResponse(response: Response) returns (action: FilterAction, invoked: nat)
      ensures action == Decide(ResponseOutcomes(chain, response), PassEvent())
      ensures invoked == Consulted(ResponseOutcomes(chain, response))
    {
      ghost var os := ResponseOutcomes(chain, response);
      action := PassEvent();
      invoked := 0;
      var i := 0;
      while i < |chain|
        invariant 0 <= i <= |chain| && invoked == i
        invariant Decide(os[i..], action) == Decide(os, PassEvent())
        invariant Consulted(os) == i + Consulted(os[i..])
      {
        var o := chain[i].onResponse(response);
        invoked := invoked + 1;
        if o.Raise? {
          o := Act(Reject(None));
        }
        if o.Act? {
          action := o.action;
          if action.IsConsuming() || action.IsRejecting() {
            return;
          }
        }
        i := i + 1;
      }
    }
  }

  /** The first filter to consume or reject decides: the chain returns exactly
      its action, calls no filter after it, and what later filters would do
      does not matter. */
  lemma {:induction false} FirstDecisiveWins(os: seq<Outcome>, last: FilterAction, i: nat)
    requires i < |os| && StopsChain(os[i])
    requires forall j :: 0 <= j < i ==> !StopsChain(os[j])
    ensures Decide(os, last) == Effective(os[i]).value
    ensures Consulted(os) == i + 1
    ensures Decide(os[..i + 1], last) == Decide(os, last)
  {
    if i > 0 {
      assert !StopsChain(os[0]);
      assert os[..i + 1][1..] == os[1..][..i];
      FirstDecisiveWins(os[1..], if Effective(os[0]).Some? then Effective(os[0]).value else last, i - 1);
    }
  }

  /** A filter that raises, when no earlier filter stopped the chain, makes the
      chain reject with the default response. */
  lemma RaiseRejects(os: seq<Outcome>, last: FilterAction, i: nat)
    requires i < |os| && os[i] == Raise
    requires forall j :: 0 <= j < i ==> !StopsChain(os[j])
    ensures Decide(os, last).IsRejecting()
    ensures Decide(os, last).response == Some(DefaultRejectResponse)
    ensures Consulted(os) == i + 1
  {
    FirstDecisiveWins(os, last, i);
  }

  /** When no filter consumes or rejects, every filter is called and the chain
      returns the last action any of them gave, or the action it started with. */
  lemma {:induction false} NoDecisiveYieldsLast(os: seq<Outcome>, last: FilterAction)
    requires forall j :: 0 <= j < |os| ==> !StopsChain(os[j])
    ensures Decide(os, last) == LastAction(os, last)
    ensures Consulted(os) == |os|
  {
    if os != [] {
      var next := if Effective(os[0]).Some? then Effective(os[0]).value else last;
      NoDecisiveYieldsLast(os[1..], next);
      LastActionFront(os, last);
    }
  }

  /** LastAction can be taken from the front: the first outcome only matters
      when none after it gives an action. */
  lemma {:induction false} LastActionFront(os: seq<Outcome>, last: FilterAction)
    requires os != []
    ensures LastAction(os, last)
         == LastAction(os[1..], if Effective(os[0]).Some? then Effective(os[0]).value else last)
    decreases |os|
  {
    if |os| > 1 {
      var init := os[..|os| - 1];
      assert init[1..] == os[1..][..|os[1..]| - 1];
      if Effective(os[|os| - 1]).None? {
        LastActionFront(init, last);
      }
    }
  }

  /** A chain of filters that keep their default hooks passes every request
      and every response, after calling all of them. */
  lemma DefaultFiltersPass(fs: seq<Filter>, request: Request, response: Response)
    requires forall j :: 0 <= j < |fs| ==> fs[j] == DefaultFilter()
    ensures Decide(RequestOutcomes(fs, request), PassEvent()) == PassEvent()
    ensures Decide(ResponseOutcomes(fs, response), PassEvent()) == PassEvent()
    ensures Consulted(RequestOutcomes(fs, request)) == |fs|
  {
    var rq := RequestOutcomes(fs, request);
    var rs := ResponseOutcomes(fs, response);
    NoDecisiveYieldsLast(rq, PassEvent());
    NoDecisiveYieldsLast(rs, PassEvent());
  }
}
