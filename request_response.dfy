/** The uniform reply every university handler produces, and its JSON form with
    the timestamp written as 'dd-mm-yyyy'. */
module ResponseCodec {
  import opened Wrappers
  import opened Dates
  import opened Json

  /** A reply: status and message, the responder's date, and the account and
      action, which default to None when left out. */
  datatype Response = Response(
    status: string,
    message: string,
    timestamp: Date,
    account: Option<string> := None,
    action: Option<string> := None)

  /** The constructor stores what it is given and leaves the omitted account and
      action as None. */
  lemma ConstructorDefaults(status: string, message: string, timestamp: Date)
    ensures Response(status, message, timestamp).account == None
    ensures Response(status, message, timestamp).action == None
    ensures Response(status, message, timestamp).status == status
    ensures Response(status, message, timestamp).message == message
    ensures Response(status, message, timestamp).timestamp == timestamp
  {
  }

  /** to_json: exactly the keys status, message, account, timestamp and action. */
  function ToJson(r: Response): (d: Dict)
    requires ValidDate(r.timestamp)
    ensures d.Keys == {"status", "message", "account", "timestamp", "action"}
    ensures d["timestamp"] == JStr(FormatDate(r.timestamp))
  {
    map["status" := JStr(r.status),
        "message" := JStr(r.message),
        "account" := OptionalString(r.account),
        "timestamp" := JStr(FormatDate(r.timestamp)),
        "action" := OptionalString(r.action)]
  }

  /** The timestamp field: a string in 'dd-mm-yyyy' form naming a real date. */
  function ParseTimestamp(v: Value): (r: Result<Date, PyError>)
    ensures r.Success? <==> v.JStr? && ParseDate(v.s).Some?
    ensures r.Success? ==> r.value == ParseDate(v.s).value
  {
    if !v.JStr? then Failure(TypeError("strptime() argument 1 must be str"))
    else match ParseDate(v.s)
      case None => Failure(ValueError("time data does not match format '%d-%m-%Y'"))
      case Some(date) => Success(date)
  }

  /** from_json_data: reads status, message and account, then reads and parses
      the timestamp, then reads action; the first missing key raises KeyError, a
      timestamp that is not a 'dd-mm-yyyy' date raises ValueError before action
      is read. A status, message, account or action of the wrong kind is refused
      with TypeError once everything has been read. */
  function FromJson(d: Dict): (r: Result<Response, PyError>)
    ensures r.Success? ==> "status" in d && "message" in d && "account" in d && "timestamp" in d && "action" in d
    ensures r.Success? ==> d["timestamp"].JStr? && ParseDate(d["timestamp"].s) == Some(r.value.timestamp)
    ensures r.Success? ==> d["status"] == JStr(r.value.status) && d["message"] == JStr(r.value.message)
    ensures r.Success? ==> d["account"] == OptionalString(r.value.account) && d["action"] == OptionalString(r.value.action)
  {
    match Lookup(d, "status")
    case Failure(e) => Failure(e)
    case Success(status) =>
      match Lookup(d, "message")
      case Failure(e) => Failure(e)
      case Success(message) =>
        match Lookup(d, "account")
        case Failure(e) => Failure(e)
        case Success(account) =>
          match Lookup(d, "timestamp")
          case Failure(e) => Failure(e)
          case Success(timestamp) =>
            match ParseTimestamp(timestamp)
            case Failure(e) => Failure(e)
            case Success(t) =>
              match Lookup(d, "action")
              case Failure(e) => Failure(e)
              case Success(action) =>
                match (AsString(status, "status"), AsString(message, "message"),
                       AsOptionalString(account, "account"), AsOptionalString(action, "action"))
                case (Success(s), Success(m), Success(a), Success(x)) => Success(Response(s, m, t, a, x))
                case (Failure(e), _, _, _) => Failure(e)
                case (_, Failure(e), _, _) => Failure(e)
                case (_, _, Failure(e), _) => Failure(e)
                case (_, _, _, Failure(e)) => Failure(e)
  }

  /** Decoding the encoding gives back the same status, message, account, action
      and date, for dates with a four-digit year. */
  lemma RoundTrip(r: Response)
    requires ValidDate(r.timestamp) && 1000 <= r.timestamp.year <= 9999
    ensures FromJson(ToJson(r)) == Success(r)
  {
    ParseFormatDate(r.timestamp);
    var d := ToJson(r);
    assert d["status"] == JStr(r.status) && d["message"] == JStr(r.message);
    assert d["account"] == OptionalString(r.account) && d["action"] == OptionalString(r.action);
  }

  /** A timestamp that is not in 'dd-mm-yyyy' form makes decoding fail, whatever
      the other fields hold; when status, message and account are present the
      failure is the timestamp's own, raised before action is read. */
  lemma MalformedTimestampFails(d: Dict)
    requires "timestamp" in d
    requires !d["timestamp"].JStr? || ParseDate(d["timestamp"].s).None?
    ensures FromJson(d).Failure?
    ensures "status" in d && "message" in d && "account" in d ==>
              FromJson(d).error == ParseTimestamp(d["timestamp"]).error
  {
  }

  /** A reply dated before the year 1000 is encoded with a short year that its own
      decoder refuses. */
  lemma ShortYearDoesNotRoundTrip(r: Response)
    requires ValidDate(r.timestamp) && r.timestamp.year < 1000
    ensures FromJson(ToJson(r)).Failure?
  {
    ParseFormatDateShortYear(r.timestamp);
    MalformedTimestampFails(ToJson(r));
  }

  /** Decoding fails with KeyError when a key is missing, naming the first
      missing one in reading order; action is only read once the timestamp has
      parsed. */
  lemma MissingKeyFails(d: Dict)
    ensures "status" !in d ==> FromJson(d) == Failure(KeyError("status"))
    ensures "status" in d && "message" !in d ==> FromJson(d) == Failure(KeyError("message"))
    ensures "status" in d && "message" in d && "account" !in d ==> FromJson(d) == Failure(KeyError("account"))
    ensures "status" in d && "message" in d && "account" in d && "timestamp" !in d ==>
              FromJson(d) == Failure(KeyError("timestamp"))
    ensures "status" in d && "message" in d && "account" in d && "timestamp" in d
            && ParseTimestamp(d["timestamp"]).Success? && "action" !in d ==>
              FromJson(d) == Failure(KeyError("action"))
  {
  }
}
