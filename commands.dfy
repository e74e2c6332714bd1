/** The driver's command line: '|'-separated segments, each a ':'-separated list
    of fields 'researcher:command[:argument...]', turned into the command messages
    sent to the researchers. A malformed segment raises, and the whole line then
    yields nothing. */
module CommandLine {
  import opened Wrappers
  import opened Enums
  import opened Text

  /** The fields a command message carries besides its routing key and command;
      every value is a stripped string, amounts included. */
  datatype Payload =
    | ProposalFields(projectId: string, title: string, description: string, amount: string)
    | AmountField(amount: string)
    | ResearcherField(researcher: string)
    | NoFields

  /** One command message: the researcher's queue, the command value and its fields. */
  datatype Command = Command(routingKey: string, command: string, payload: Payload)

  const RoutingPrefix: string := "Researcher-"

  /** The number of ':' fields a segment naming this command must have. */
  function Arity(name: string): nat
  {
    if name == "proposal" then 6
    else if name == "withdraw" || name == "add" || name == "remove" then 3
    else 2
  }

  /** The command value sent for a command name: the action's value for the six
      known names, the name itself for any other. */
  function CommandValue(name: string): string
  {
    if name == "proposal" then ActionValue(ResearchProposal)
    else if name == "withdraw" then ActionValue(Withdraw)
    else if name == "add" then ActionValue(AddResearcher)
    else if name == "remove" then ActionValue(RemoveResearcher)
    else if name == "transactions" then ActionValue(ListTransactions)
    else if name == "details" then ActionValue(GetDetails)
    else name
  }

  /** The ValueError of unpacking the wrong number of fields. */
  function UnpackError(got: nat, expected: nat): PyError
  {
    if got > expected then ValueError("too many values to unpack") else ValueError("not enough values to unpack")
  }

  /** One segment: the command name is the stripped second field (IndexError when
      there is none); the field count must match the name's arity (ValueError
      otherwise); the routing key, and for add and remove the target, get the
      "Researcher-" prefix. */
  function ParseSegment(segment: string): (r: Result<Command, PyError>)
    ensures r.Failure? ==> r.error.IndexError? || r.error.ValueError?
    ensures r.Success? ==> |r.value.routingKey| >= |RoutingPrefix| && r.value.routingKey[..|RoutingPrefix|] == RoutingPrefix
  {
    var fields := Split(segment, ':');
    if |fields| < 2 then Failure(IndexError)
    else
      var name := Strip(fields[1]);
      if |fields| != Arity(name) then Failure(UnpackError(|fields|, Arity(name)))
      else
        var payload :=
          if name == "proposal" then ProposalFields(Strip(fields[2]), Strip(fields[3]), Strip(fields[4]), Strip(fields[5]))
          else if name == "withdraw" then AmountField(Strip(fields[2]))
          else if name == "add" || name == "remove" then ResearcherField(RoutingPrefix + Strip(fields[2]))
          else NoFields;
        Success(Command(RoutingPrefix + Strip(fields[0]), CommandValue(name), payload))
  }

  /** A segment with fewer than two fields raises IndexError; otherwise it parses
      exactly when its field count is the arity of its command name, fails with
      ValueError when not, and yields the prefixed routing key and the command
      value of the stripped name. */
  lemma ParseSegmentShape(segment: string)
    ensures var fields := Split(segment, ':');
            var r := ParseSegment(segment);
            && (|fields| < 2 ==> r == Failure(IndexError))
            && (|fields| >= 2 ==> (r.Success? <==> |fields| == Arity(Strip(fields[1]))))
            && (|fields| >= 2 && r.Failure? ==> r.error.ValueError?)
            && (r.Success? ==> r.value.routingKey == RoutingPrefix + Strip(fields[0])
                               && r.value.command == CommandValue(Strip(fields[1])))
  {
  }

  /** Each segment's own outcome under a per-segment parser, in order. */
  function Parsed(parse: string -> Result<Command, PyError>, segments: seq<string>): (results: seq<Result<Command, PyError>>)
    ensures |results| == |segments|
    decreases |segments|
  {
    if segments == [] then [] else [parse(segments[0])] + Parsed(parse, segments[1..])
  }

  /** The i-th outcome is the i-th segment's. */
  lemma {:induction false} ParsedAt(parse: string -> Result<Command, PyError>, segments: seq<string>, i: nat)
    requires i < |segments|
    ensures Parsed(parse, segments)[i] == parse(segments[i])
    decreases |segments|
  {
    if i > 0 {
      ParsedAt(parse, segments[1..], i - 1);
    }
  }

  /** Python's left-to-right loop over the outcomes: all the commands, or the
      error of the first failure. */
  function Collect(results: seq<Result<Command, PyError>>): Result<seq<Command>, PyError>
    decreases |results|
  {
    if results == [] then Success([])
    else
      match results[0]
      case Failure(e) => Failure(e)
      case Success(c) =>
        match Collect(results[1..])
        case Failure(e) => Failure(e)
        case Success(cs) => Success([c] + cs)
  }

  /** get_commands on a line: one command per '|'-separated segment, in order, or
      the error of the first segment that fails. */
  function ParseCommands(line: string): (r: Result<seq<Command>, PyError>)
    ensures r.Success? ==> |r.value| == |Split(line, '|')|
    ensures r.Failure? ==> r.error.IndexError? || r.error.ValueError?
  {
    CommandsPerSegment(ParseSegment, Split(line, '|'));
    Collect(Parsed(ParseSegment, Split(line, '|')))
  }

  /** The position of the first failure, or the number of outcomes when there is
      none. */
  function FirstFailure(results: seq<Result<Command, PyError>>): (i: nat)
    ensures i <= |results|
    ensures forall j :: 0 <= j < i ==> results[j].Success?
    ensures i < |results| ==> results[i].Failure?
    decreases |results|
  {
    if results == [] || results[0].Failure? then 0
    else 1 + FirstFailure(results[1..])
  }

  /** Collecting succeeds exactly when no outcome failed; the i-th command is
      then the i-th outcome's; otherwise the error is that of the first failure. */
  lemma {:induction false} CollectPerOutcome(results: seq<Result<Command, PyError>>)
    ensures Collect(results).Success? <==> FirstFailure(results) == |results|
    ensures Collect(results).Success? ==>
              && |Collect(results).value| == |results|
              && forall i :: 0 <= i < |results| ==> Collect(results).value[i] == results[i].value
    ensures Collect(results).Failure? ==> Collect(results).error == results[FirstFailure(results)].error
    decreases |results|
  {
    if results != [] && results[0].Success? {
      CollectPerOutcome(results[1..]);
      if Collect(results).Success? {
        var cs := Collect(results).value;
        forall i | 0 <= i < |results|
          ensures cs[i] == results[i].value
        {
          if i > 0 { assert results[1..][i - 1] == results[i]; }
        }
      }
    }
  }

  /** The segments yield commands exactly when every one parses; the i-th
      command is then the i-th segment's; otherwise the error is that of the
      first segment that fails, every segment before it having parsed. With
      ParseSegment as the parser and Split(line, '|') as the segments this is
      get_commands on a line. */
  lemma CommandsPerSegment(parse: string -> Result<Command, PyError>, segments: seq<string>)
    ensures var r := Collect(Parsed(parse, segments));
            && (r.Success? <==> forall i :: 0 <= i < |segments| ==> parse(segments[i]).Success?)
            && (r.Success? ==> |r.value| == |segments|
                               && forall i :: 0 <= i < |segments| ==> r.value[i] == parse(segments[i]).value)
            && (r.Failure? ==> var i := FirstFailure(Parsed(parse, segments));
                               && i < |segments| && parse(segments[i]).Failure? && r.error == parse(segments[i]).error
                               && forall j :: 0 <= j < i ==> parse(segments[j]).Success?)
  {
    var results := Parsed(parse, segments);
    CollectPerOutcome(results);
    forall i | 0 <= i < |segments| ensures results[i] == parse(segments[i]) {
      ParsedAt(parse, segments, i);
    }
  }

  /** Every routing key is "Researcher-" followed by a researcher id with no white
      space at either end; an add or remove target is formed the same way. */
  lemma RoutingKeyShape(segment: string)
    requires ParseSegment(segment).Success?
    ensures var key := ParseSegment(segment).value.routingKey;
            |key| >= |RoutingPrefix| && key[..|RoutingPrefix|] == RoutingPrefix
            && Strip(key[|RoutingPrefix|..]) == key[|RoutingPrefix|..]
    ensures ParseSegment(segment).value.payload.ResearcherField? ==>
              var target := ParseSegment(segment).value.payload.researcher;
              |target| >= |RoutingPrefix| && target[..|RoutingPrefix|] == RoutingPrefix
              && Strip(target[|RoutingPrefix|..]) == target[|RoutingPrefix|..]
  {
    ParseSegmentShape(segment);
    var fields := Split(segment, ':');
    var key := ParseSegment(segment).value.routingKey;
    assert key[|RoutingPrefix|..] == Strip(fields[0]);
    StripIdempotent(fields[0]);
    if ParseSegment(segment).value.payload.ResearcherField? {
      var target := ParseSegment(segment).value.payload.researcher;
      assert target[|RoutingPrefix|..] == Strip(fields[2]);
      StripIdempotent(fields[2]);
    }
  }

  /** A segment written as its fields joined by ':' (fields free of ':') parses
      back into the command those fields describe. */
  lemma ParseJoinedFields(fields: seq<string>)
    requires |fields| >= 2 && forall i :: 0 <= i < |fields| ==> ':' !in fields[i]
    requires |fields| == Arity(Strip(fields[1]))
    ensures var name := Strip(fields[1]);
            ParseSegment(Join(fields, ':')) == Success(Command(
              RoutingPrefix + Strip(fields[0]),
              CommandValue(name),
              if name == "proposal" then ProposalFields(Strip(fields[2]), Strip(fields[3]), Strip(fields[4]), Strip(fields[5]))
              else if name == "withdraw" then AmountField(Strip(fields[2]))
              else if name == "add" || name == "remove" then ResearcherField(RoutingPrefix + Strip(fields[2]))
              else NoFields))
  {
    SplitJoin(fields, ':');
  }

  /** get_commands: split the line on '|' and parse the segments one after
      another, appending each command; the first bad segment ends it with its
      error. */
  method GetCommands(line: string) returns (r: Result<seq<Command>, PyError>)
    ensures r == ParseCommands(line)
  {
    var segments := Split(line, '|');
    var commands: seq<Command> := [];
    var i := 0;
    LoopEntry(Parsed(ParseSegment, segments));
    while i < |segments|
      invariant 0 <= i <= |segments|
      invariant LoopState(Parsed(ParseSegment, segments), i, commands)
    {
      var c := ParseSegment(segments[i]);
      ParsedAt(ParseSegment, segments, i);
      LoopStep(Parsed(ParseSegment, segments), i, commands, c);
      if c.Failure? {
        return Failure(c.error);
      }
      commands := commands + [c.value];
      i := i + 1;
    }
    LoopExit(Parsed(ParseSegment, segments), commands);
    r := Success(commands);
  }

  /** The loop's invariant: the outcome of the whole line is the outcome of the
      segments not yet parsed, behind the commands already collected. */
  ghost predicate LoopState(results: seq<Result<Command, PyError>>, i: nat, commands: seq<Command>)
  {
    i <= |results| && Collect(results) == Prepend(commands, Collect(results[i..]))
  }

  lemma LoopEntry(results: seq<Result<Command, PyError>>)
    ensures LoopState(results, 0, [])
  {
    assert results[0..] == results;
    match Collect(results) {
      case Failure(_) =>
      case Success(cs) => assert [] + cs == cs;
    }
  }

  /** One pass of the loop: a failing outcome decides the result, a successful
      one moves its command behind those already collected. */
  lemma LoopStep(results: seq<Result<Command, PyError>>, i: nat, commands: seq<Command>, c: Result<Command, PyError>)
    requires i < |results| && LoopState(results, i, commands) && c == results[i]
    ensures c.Failure? ==> Collect(results) == Failure(c.error)
    ensures c.Success? ==> LoopState(results, i + 1, commands + [c.value])
  {
    assert results[i..][1..] == results[i + 1..];
    if c.Success? {
      match Collect(results[i + 1..])
      case Failure(_) =>
      case Success(cs) =>
        assert commands + ([c.value] + cs) == commands + [c.value] + cs;
    }
  }

  lemma LoopExit(results: seq<Result<Command, PyError>>, commands: seq<Command>)
    requires LoopState(results, |results|, commands)
    ensures Collect(results) == Success(commands)
  {
    assert results[|results|..] == [];
    assert commands + [] == commands;
  }

  /** The outcome of the rest of a line, behind the commands already parsed. */
  function Prepend(commands: seq<Command>, rest: Result<seq<Command>, PyError>): Result<seq<Command>, PyError>
  {
    match rest
    case Failure(e) => Failure(e)
    case Success(cs) => Success(commands + cs)
  }
}
