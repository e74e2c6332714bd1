/** The two string-valued enumerations shared by every service: the kinds of
    request and notification (Actions) and the outcome of a request
    (RequestStatus). The wire form of each is its string value. */
module Enums {
  import opened Wrappers

  datatype Action =
    | ResearchProposal
    | ResponseResearchProposal
    | CreateAccount
    | NotifyResearcherProposal
    | Withdraw
    | AddResearcher
    | RemoveResearcher
    | GetDetails
    | ListTransactions
    | AddResearchAccount
    | RemoveResearchAccount

  /** The string value of each action, spelled as the enumeration spells it;
      looking the value up gives the action back. */
  function ActionValue(a: Action): (v: string)
    ensures ActionOf(v) == Some(a)
  {
    match a
    case ResearchProposal => "reserch proposal"
    case ResponseResearchProposal => "response reserch proposal"
    case CreateAccount => "create account"
    case NotifyResearcherProposal => "notify university of researcher proposal"
    case Withdraw => "withdraw"
    case AddResearcher => "add researcher"
    case RemoveResearcher => "remove researcher"
    case GetDetails => "get details"
    case ListTransactions => "list transactions"
    case AddResearchAccount => "add research account"
    case RemoveResearchAccount => "remove research account"
  }

  /** Actions(value): the action a string names, if any. */
  function ActionOf(s: string): (r: Option<Action>)
  {
    match s
    case "reserch proposal" => Some(ResearchProposal)
    case "response reserch proposal" => Some(ResponseResearchProposal)
    case "create account" => Some(CreateAccount)
    case "notify university of researcher proposal" => Some(NotifyResearcherProposal)
    case "withdraw" => Some(Withdraw)
    case "add researcher" => Some(AddResearcher)
    case "remove researcher" => Some(RemoveResearcher)
    case "get details" => Some(GetDetails)
    case "list transactions" => Some(ListTransactions)
    case "add research account" => Some(AddResearchAccount)
    case "remove research account" => Some(RemoveResearchAccount)
    case _ => None
  }

  /** Distinct actions have distinct string values. */
  lemma ActionValueInjective(a: Action, b: Action)
    ensures ActionValue(a) == ActionValue(b) ==> a == b
  {
    assert ActionOf(ActionValue(a)) == Some(a) && ActionOf(ActionValue(b)) == Some(b);
  }

  /** A string that names an action is that action's value. */
  lemma ActionOfSound(s: string)
    ensures ActionOf(s).Some? ==> ActionValue(ActionOf(s).value) == s
  {
  }

  /** A string names an action exactly when it is that action's value. */
  lemma ActionOfInverse(s: string, a: Action)
    ensures ActionOf(s) == Some(a) <==> s == ActionValue(a)
  {
    ActionOfSound(s);
    if s == ActionValue(a) {
      assert ActionOf(ActionValue(a)) == Some(a);
    }
  }

  datatype RequestStatus = Succeeded | Failed | Approved | Rejected

  /** The string value of each status; looking it up gives the status back. */
  function StatusValue(st: RequestStatus): (v: string)
    ensures StatusOf(v) == Some(st)
  {
    match st
    case Succeeded => "Succeeded"
    case Failed => "Failed"
    case Approved => "Approved"
    case Rejected => "Rejected"
  }

  function StatusOf(s: string): (r: Option<RequestStatus>)
  {
    if s == "Succeeded" then Some(Succeeded)
    else if s == "Failed" then Some(Failed)
    else if s == "Approved" then Some(Approved)
    else if s == "Rejected" then Some(Rejected)
    else None
  }

  lemma StatusValueInjective(a: RequestStatus, b: RequestStatus)
    ensures StatusValue(a) == StatusValue(b) ==> a == b
  {
    assert StatusOf(StatusValue(a)) == Some(a) && StatusOf(StatusValue(b)) == Some(b);
  }
}
