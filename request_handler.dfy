/** The university's chain of responsibility. Each concrete handler claims one
    action; a request travels down the chain until the first handler whose action
    value equals its request type runs the matching database operation, records
    the result under the request's correlation id and, for add and remove on
    success, notifies the target researcher. Past the last handler the answer is
    None.

    The database is abstract: an operation from the action, the request, the
    parsed end date of an account creation and a database state of any type to
    a response or an exception, and the new state. An exception raised on the
    way propagates out of the chain, and nothing is recorded. The record and
    the notification are emitted as events. */
module RequestHandlers {
  import opened Wrappers
  import opened Enums
  import opened Dates
  import opened Json
  import opened ResponseCodec

  /** The base handler, which only forwards, and the seven concrete handlers. */
  datatype HandlerKind =
    | BaseHandler
    | CreateAccountHandler
    | WithdrawHandler
    | AddResearcherHandler
    | RemoveResearcherHandler
    | GetDetailsHandler
    | ListTransactionsHandler
    | ResearcherProposalHandler

  /** The action a handler answers to; the base handler answers to none. */
  function Claim(kind: HandlerKind): (r: Option<Action>)
    ensures r.None? <==> kind == BaseHandler
  {
    match kind
    case BaseHandler => None
    case CreateAccountHandler => Some(CreateAccount)
    case WithdrawHandler => Some(Withdraw)
    case AddResearcherHandler => Some(AddResearcher)
    case RemoveResearcherHandler => Some(RemoveResearcher)
    case GetDetailsHandler => Some(GetDetails)
    case ListTransactionsHandler => Some(ListTransactions)
    case ResearcherProposalHandler => Some(NotifyResearcherProposal)
  }

  /** The handler's test: request_type equals the value of its action, that is,
      the type names exactly the handler's action. */
  predicate Claims(kind: HandlerKind, requestType: string)
    ensures Claims(kind, requestType) <==> Claim(kind).Some? && ActionOf(requestType) == Claim(kind)
  {
    if Claim(kind).Some? then
      ActionOfInverse(requestType, Claim(kind).value);
      ActionValue(Claim(kind).value) == requestType
    else false
  }

  /** A request dictionary: the three keys the chain reads itself, and the
      whole dictionary, which the database operations read (researcher, amount,
      end_date and the rest). */
  datatype Request = Request(requestType: string, correlationId: string, targetResearcher: string, fields: Dict)

  /** What a handler does besides answering: record the result, or notify a
      researcher with a command and an account title. */
  datatype Event =
    | Recorded(correlationId: string, result: Response, requestType: string)
    | Notified(target: string, command: Action, account: Option<string>)

  /** The abstract database operation selected by an action. It is given the
      request and, for account creation, the parsed end date; it answers with a
      response or raises, and in both cases leaves a database state behind, since
      Python keeps whatever the operation changed before it raised. */
  type Operation<!S> = (Action, Request, Option<Date>, S) -> (Result<Response, PyError>, S)

  /** The end_date value, parsed with strptime as the create-account handler
      does before calling the database: KeyError when it is missing, TypeError
      when it is not a string, ValueError when it is not a 'dd-mm-yyyy' date. */
  function EndDateOf(fields: Dict): (r: Result<Date, PyError>)
    ensures r.Success? <==> "end_date" in fields && fields["end_date"].JStr? && ParseDate(fields["end_date"].s).Some?
    ensures r.Success? ==> r.value == ParseDate(fields["end_date"].s).value
    ensures "end_date" !in fields ==> r == Failure(KeyError("end_date"))
  {
    match Lookup(fields, "end_date")
    case Failure(e) => Failure(e)
    case Success(v) => ParseTimestamp(v)
  }

  /** The extra argument a claiming handler computes before it calls the
      database: the parsed end date for account creation, nothing otherwise. */
  function OperationInput(kind: HandlerKind, req: Request): Result<Option<Date>, PyError>
  {
    if kind == CreateAccountHandler then
      match EndDateOf(req.fields)
      case Failure(e) => Failure(e)
      case Success(d) => Success(Some(d))
    else Success(None)
  }

  /** A claiming handler at work: compute the operation's input, run the
      operation for its action, notify the target when an add or a remove
      succeeded, and record the result, last. Anything that raises on the way
      propagates, and nothing is recorded. */
  function Run<S>(kind: HandlerKind, req: Request, op: Operation<S>, s: S): (r: (Result<Response, PyError>, S, seq<Event>))
    requires Claim(kind).Some?
    ensures OperationInput(kind, req).Failure? ==> r == (Failure(OperationInput(kind, req).error), s, [])
    ensures OperationInput(kind, req).Success? ==> (r.0, r.1) == op(Claim(kind).value, req, OperationInput(kind, req).value, s)
    ensures r.0.Failure? ==> r.2 == []
    ensures r.0.Success? ==> 1 <= |r.2| <= 2 && r.2[|r.2| - 1] == Recorded(req.correlationId, r.0.value, req.requestType)
    ensures r.0.Success? ==>
              (|r.2| == 2 <==>
                 (kind == AddResearcherHandler || kind == RemoveResearcherHandler) && r.0.value.status == StatusValue(Succeeded))
    ensures |r.2| == 2 ==>
              r.2[0] == Notified(req.targetResearcher,
                                 if kind == AddResearcherHandler then AddResearchAccount else RemoveResearchAccount,
                                 r.0.value.account)
  {
    match OperationInput(kind, req)
    case Failure(e) => (Failure(e), s, [])
    case Success(input) =>
      var (outcome, s') := op(Claim(kind).value, req, input, s);
      match outcome
      case Failure(e) => (Failure(e), s', [])
      case Success(result) =>
        var notes :=
          if kind == AddResearcherHandler && result.status == StatusValue(Succeeded) then
            [Notified(req.targetResearcher, AddResearchAccount, result.account)]
          else if kind == RemoveResearcherHandler && result.status == StatusValue(Succeeded) then
            [Notified(req.targetResearcher, RemoveResearchAccount, result.account)]
          else [];
        (Success(result), s', notes + [Recorded(req.correlationId, result, req.requestType)])
  }

  /** A handler's outcome as the chain returns it: the response, or the exception. */
  function Answer<S>(r: (Result<Response, PyError>, S, seq<Event>)): (Result<Option<Response>, PyError>, S, seq<Event>)
  {
    match r.0
    case Success(result) => (Success(Some(result)), r.1, r.2)
    case Failure(e) => (Failure(e), r.1, r.2)
  }

  /** execute_request along a chain of handler kinds: a handler that claims the
      request runs, any other forwards it, and the end of the chain gives None
      with nothing done. An answer of None always means that nothing was done. */
  function Execute<S>(chain: seq<HandlerKind>, req: Request, op: Operation<S>, s: S): (r: (Result<Option<Response>, PyError>, S, seq<Event>))
    ensures r.0 == Success(None) ==> r.1 == s && r.2 == []
    decreases |chain|
  {
    if chain == [] then (Success(None), s, [])
    else if Claims(chain[0], req.requestType) then Answer(Run(chain[0], req, op, s))
    else Execute(chain[1..], req, op, s)
  }

  /** The position of the first handler that claims the request type, if any. */
  function FirstMatch(chain: seq<HandlerKind>, requestType: string): (i: Option<nat>)
    ensures i.Some? ==> i.value < |chain| && Claims(chain[i.value], requestType)
    ensures i.Some? ==> forall j :: 0 <= j < i.value ==> !Claims(chain[j], requestType)
    ensures i.None? ==> forall j :: 0 <= j < |chain| ==> !Claims(chain[j], requestType)
    decreases |chain|
  {
    if chain == [] then None
    else if Claims(chain[0], requestType) then Some(0)
    else match FirstMatch(chain[1..], requestType)
         case None => None
         case Some(i) => Some(i + 1)
  }

  /** Dispatch is first-match-wins: the chain answers exactly as its first
      claiming handler does on its own, exception included, and with None, an
      unchanged database and no events when no handler claims the request. */
  lemma {:induction false} ExecuteIsFirstMatch<S>(chain: seq<HandlerKind>, req: Request, op: Operation<S>, s: S)
    ensures match FirstMatch(chain, req.requestType)
            case None => Execute(chain, req, op, s) == (Success(None), s, [])
            case Some(i) => Execute(chain, req, op, s) == Answer(Run(chain[i], req, op, s))
    decreases |chain|
  {
    if chain != [] && !Claims(chain[0], req.requestType) {
      ExecuteIsFirstMatch(chain[1..], req, op, s);
      match FirstMatch(chain[1..], req.requestType)
      case None =>
      case Some(i) =>
        assert chain[1..][i] == chain[i + 1];
    }
  }

  /** The seven action values are distinct, so at most one kind of handler
      claims any request type. */
  lemma AtMostOneKindClaims(k1: HandlerKind, k2: HandlerKind, requestType: string)
    requires Claims(k1, requestType) && Claims(k2, requestType)
    ensures k1 == k2
  {
    ActionValueInjective(Claim(k1).value, Claim(k2).value);
  }

  /** Whatever the chain, a request is answered or raises exactly when a
      handler of its kind is in the chain, and then exactly as that handler does
      on its own. */
  lemma DispatchReachesClaimant<S>(chain: seq<HandlerKind>, req: Request, op: Operation<S>, s: S, a: Action)
    requires req.requestType == ActionValue(a)
    ensures Execute(chain, req, op, s).0 != Success(None) <==> exists k :: k in chain && Claim(k) == Some(a)
    ensures forall k :: k in chain && Claim(k) == Some(a) ==> Execute(chain, req, op, s) == Answer(Run(k, req, op, s))
  {
    ExecuteIsFirstMatch(chain, req, op, s);
    match FirstMatch(chain, req.requestType)
    case None =>
      forall k | k in chain ensures Claim(k) != Some(a) {
        var j :| 0 <= j < |chain| && chain[j] == k;
        assert !Claims(chain[j], req.requestType);
      }
    case Some(i) =>
      ActionValueInjective(Claim(chain[i]).value, a);
      assert chain[i] in chain;
      forall k | k in chain && Claim(k) == Some(a) ensures k == chain[i] {
        AtMostOneKindClaims(k, chain[i], req.requestType);
      }
  }

  /** Request types that no handler claims, such as a research proposal or its
      response, fall off the end of any chain. */
  lemma UnclaimedTypeFallsThrough<S>(chain: seq<HandlerKind>, req: Request, op: Operation<S>, s: S)
    requires req.requestType in {ActionValue(ResearchProposal), ActionValue(ResponseResearchProposal),
                                 ActionValue(AddResearchAccount), ActionValue(RemoveResearchAccount)}
    ensures Execute(chain, req, op, s) == (Success(None), s, [])
  {
    ExecuteIsFirstMatch(chain, req, op, s);
    match FirstMatch(chain, req.requestType)
    case None =>
    case Some(i) =>
      assert false;
  }

  /** The kinds along a chain of linked handlers. */
  function Kinds(chain: seq<Handler>): (kinds: seq<HandlerKind>)
    ensures |kinds| == |chain|
    ensures forall i :: 0 <= i < |chain| ==> kinds[i] == chain[i].kind
  {
    if chain == [] then [] else [chain[0].kind] + Kinds(chain[1..])
  }

  /** The handlers form a chain: each links to the next and the last to none. */
  ghost predicate Linked(chain: seq<Handler>)
    reads set i | 0 <= i < |chain| :: chain[i]
  {
    && |chain| >= 1
    && (forall i :: 0 <= i < |chain| - 1 ==> chain[i].next == chain[i + 1])
    && chain[|chain| - 1].next == null
  }

  class Handler {
    const kind: HandlerKind
    var next: Handler?

    constructor (kind: HandlerKind)
      ensures this.kind == kind && next == null
    {
      this.kind := kind;
      next := null;
    }

    /** set_next_handler: link to the handler and return that same handler, so
        that links can be written one after another. */
    method SetNextHandler(handler: Handler) returns (r: Handler)
      modifies this
      ensures next == handler && r == handler
    {
      next := handler;
      r := handler;
    }

    /** execute_request: answer a claimed request here, otherwise forward to the
        next handler, and give None past the last one. */
    method ExecuteRequest<S>(req: Request, op: Operation<S>, s: S, ghost chain: seq<Handler>)
      returns (result: Result<Option<Response>, PyError>, after: S, events: seq<Event>)
      requires Linked(chain) && chain[0] == this
      ensures (result, after, events) == Execute(Kinds(chain), req, op, s)
      decreases |chain|
    {
      if Claims(kind, req.requestType) {
        var (r, s', ev) := Answer(Run(kind, req, op, s));
        return r, s', ev;
      }
      if next == null {
        return Success(None), s, [];
      }
      assert Linked(chain[1..]) && chain[1..][0] == next;
      assert Kinds(chain)[1..] == Kinds(chain[1..]);
      result, after, events := next.ExecuteRequest(req, op, s, chain[1..]);
    }
  }
}
