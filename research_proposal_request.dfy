/** The message a researcher sends to the funding agency to propose a project,
    and its JSON form. */
module ProposalCodec {
  import opened Wrappers
  import opened Json

  /** A research proposal: the proposer's id, the project title and description,
      and the amount asked for. */
  datatype ProposalRequest = ProposalRequest(id: string, title: string, description: string, amount: int)

  /** to_json: exactly the four keys id, title, description and amount. */
  function ToJson(p: ProposalRequest): (d: Dict)
    ensures d.Keys == {"id", "title", "description", "amount"}
  {
    map["id" := JStr(p.id), "title" := JStr(p.title), "description" := JStr(p.description), "amount" := JInt(p.amount)]
  }

  /** from_json_data: reads id, title, description and amount in that order; the
      first missing key raises KeyError. A value of the wrong kind is refused
      with TypeError. */
  function FromJson(d: Dict): (r: Result<ProposalRequest, PyError>)
    ensures r.Success? ==> "id" in d && "title" in d && "description" in d && "amount" in d
    ensures r.Success? ==> d["amount"] == JInt(r.value.amount)
  {
    match (Lookup(d, "id"), Lookup(d, "title"), Lookup(d, "description"), Lookup(d, "amount"))
    case (Failure(e), _, _, _) => Failure(e)
    case (_, Failure(e), _, _) => Failure(e)
    case (_, _, Failure(e), _) => Failure(e)
    case (_, _, _, Failure(e)) => Failure(e)
    case (Success(id), Success(title), Success(description), Success(amount)) =>
      if id.JStr? && title.JStr? && description.JStr? && amount.JInt? then
        Success(ProposalRequest(id.s, title.s, description.s, amount.i))
      else Failure(TypeError("proposal field"))
  }

  /** Decoding the encoding gives back all four fields. */
  lemma RoundTrip(p: ProposalRequest)
    ensures FromJson(ToJson(p)) == Success(p)
  {
    var d := ToJson(p);
    assert d["id"] == JStr(p.id) && d["title"] == JStr(p.title);
    assert d["description"] == JStr(p.description) && d["amount"] == JInt(p.amount);
  }

  /** Decoding fails with KeyError when any of the four keys is missing, naming
      the first missing one in reading order. */
  lemma MissingKeyFails(d: Dict)
    ensures "id" !in d ==> FromJson(d) == Failure(KeyError("id"))
    ensures "id" in d && "title" !in d ==> FromJson(d) == Failure(KeyError("title"))
    ensures "id" in d && "title" in d && "description" !in d ==> FromJson(d) == Failure(KeyError("description"))
    ensures "id" in d && "title" in d && "description" in d && "amount" !in d ==> FromJson(d) == Failure(KeyError("amount"))
  {
  }

  /** Decoding succeeds exactly on maps that hold the four keys with values of the
      right kind, and then it reads each field from its key. */
  lemma DecodeSucceedsExactly(d: Dict)
    ensures FromJson(d).Success? <==>
              && "id" in d && d["id"].JStr?
              && "title" in d && d["title"].JStr?
              && "description" in d && d["description"].JStr?
              && "amount" in d && d["amount"].JInt?
    ensures FromJson(d).Success? ==>
              FromJson(d).value == ProposalRequest(d["id"].s, d["title"].s, d["description"].s, d["amount"].i)
  {
  }

  /** Encoding after decoding gives back the map, when it held only the four keys. */
  lemma EncodeDecoded(d: Dict)
    requires FromJson(d).Success? && d.Keys == {"id", "title", "description", "amount"}
    ensures ToJson(FromJson(d).value) == d
  {
    DecodeSucceedsExactly(d);
  }
}
