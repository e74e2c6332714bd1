# Research funding services: a Dafny model

This project models the bookkeeping core of a small message-driven system. In it, researchers ask a funding agency for money and a university for the research accounts that money pays for. The model covers these parts:

- **University ledger** (`university_database.dfy`, module `UniversityLedger`):
  - Research accounts are stored by project title, with an index from lead researcher to title.
  - The lead adds and removes members.
  - Each account reports its details and its transaction list.
  - Withdrawals keep a running balance and number every attempt 1, 2, 3, ...
  - `ResearchAccount` and `UniversityDatabase` are classes whose methods update fields in place.
  - Every method is tied to a pure view (`AccountView`, `Withdrawal`) about which the lemmas are proved.
- **Funding agency ledger** (`funding_agency_database.dfy`, module `FundingLedger`):
  - The agency's funds, a transaction counter, every proposal's history record keyed by the correlation id of its request, and a ten-slot ring of recent correlation ids.
  - The ring answers "is this request new".
  - The class `FundingAgencyDatabase` is tied to the pure `Ledger`, whose consistency with the log of recorded ids is an invariant.
  - With that invariant, `IsRequestNew` is false exactly for the last ten ids recorded.
- **Proposal handling at the funding agency** (`funding_agency.dfy`, module `FundingAgency`):
  - The approval policy: reject what the funds cannot cover, approve 200000 ..= 500000, reject the rest.
  - The deduction, the history record, and the approval-only notification of the university.
  - The code as written is modelled beside the corrected step (see "## Findings").
- **The university's chain of responsibility** (`request_handler.dfy`, module `RequestHandlers`):
  - Linked handler objects, each claiming one action.
  - First-match dispatch, the recording of each result, and the add/remove notifications, modelled as events.
  - The create-account handler's end-date parsing, and exceptions that propagate without a record.
- **Each service's logical clock** (`timer.dfy`, module `Clock`):
  - A date that ticks a day at a time while running.
  - It jumps to the day after any later peer timestamp.
  - Stepping past 31-12-9999 raises OverflowError, as datetime.date does.
- **The driver's command line** (`commands.dfy`, module `CommandLine`):
  - `get_commands` splits on `|` and then on `:`.
  - It has the same IndexError and unpacking ValueError cases as the original.
- **The two wire records and the two enumerations**:
  - `request_response.dfy` (module `ResponseCodec`) and `research_proposal_request.dfy` (module `ProposalCodec`), encoded as JSON objects.
  - `enums.dfy` (module `Enums`) keeps the `Actions` string values, including their spelling "reserch".

Supporting modules:

- `wrappers.dfy`: `Option`, `Result` and the Python exceptions raised.
- `json.dfy`: JSON values as a tagged union and objects as maps.
- `text.dfy`: `str.split`, `str.strip` and decimal digits.
- `dates.dfy`: civil dates up to datetime.date's last day, 31-12-9999, and the text form `strftime('%d-%m-%Y')` / `strptime(..., '%d-%m-%Y')`.
  - `strftime` follows the GNU C library, which writes years below 1000 without padding, so a date reads back only for four-digit years.
  - Platforms and Python releases whose `%Y` pads to four digits write those years differently; there the short-year lemmas (`Dates.ParseFormatDateShortYear`, `ResponseCodec.ShortYearDoesNotRoundTrip`) do not describe the program.

## Model

| member | source | states |
|---|---|---|
| `UniversityLedger.ResearchAccount.constructor` | university_database.py:12-18 | a new account holds the budget, lead and end date, no users, no transactions, and next transaction id 1 |
| `UniversityLedger.UniversityDatabase.constructor` | university_database.py:25-27 | the database starts with no accounts and no leads |
| `UniversityLedger.UniversityDatabase.CreateResearchAccount` | university_database.py:29-32 | a fresh account is stored under the title, overwriting any previous one, and the researcher's lead entry now points to the title; every other account is unchanged and the invariant is kept |
| `UniversityLedger.UniversityDatabase.AddResearcher` | university_database.py:34-42 | a caller who leads no account changes nothing; otherwise exactly the lead's account gains the researcher at the end of its users, and nothing else changes |
| `UniversityLedger.UniversityDatabase.RemoveResearcher` | university_database.py:44-53 | a caller who leads no account changes nothing; otherwise the lead's account loses the first occurrence of the researcher if present, and nothing else changes |
| `UniversityLedger.RemoveFirst` | university_database.py:52-53 | `list.remove` guarded by membership: one element fewer exactly when the researcher is present, the same length otherwise, and no element that was not there before |
| `UniversityLedger.RemoveFirstAbsent` | university_database.py:52 | removing a researcher who is not a member leaves the users unchanged |
| `UniversityLedger.RemoveFirstPresent` | university_database.py:52-53 | removing a member cuts out exactly its first occurrence and keeps the order of the rest |
| `UniversityLedger.RemoveFirstMultiset` | university_database.py:52-53 | as a multiset, the users lose exactly one copy of the removed researcher, if there was one |
| `UniversityLedger.UniversityDatabase.AccessDetails` | university_database.py:55-73 | reports the lead, remaining budget, users and end date of the lead's account exactly when the caller leads an account, and changes nothing |
| `UniversityLedger.UniversityDatabase.ListTransactions` | university_database.py:75-93 | reports the account title and its full transaction map exactly when the caller leads an account, and changes nothing |
| `UniversityLedger.UniversityDatabase.WithdrawFunds` | university_database.py:95-122 | an unknown title raises KeyError with nothing changed; otherwise only that account takes the `Withdrawal` step, the status is returned, and the invariant is kept |
| `UniversityLedger.Withdrawal` | university_database.py:95-122 | the status is Approved iff the budget covers the amount and Rejected otherwise, with the budget unchanged on rejection; the counter moves up by one either way |
| `UniversityLedger.WithdrawalOutcome` | university_database.py:99-120 | Approved iff the budget covers the amount, in which case the budget drops by exactly the amount; otherwise Rejected with the budget unchanged; the attempt is recorded under the old counter with the balance after it, earlier transactions are kept, and the counter moves up by one |
| `UniversityLedger.WithdrawalKeepsBudgetNonNegative` | university_database.py:102-103 | an approved withdrawal never leaves a negative balance, and a non-negative budget stays non-negative |
| `UniversityLedger.WithdrawalKeepsNumbering` | university_database.py:117-120 | the transaction ids stay exactly 1 .. counter-1 after a withdrawal |
| `UniversityLedger.WithdrawAllNumbering` | university_database.py:99-120 | over any sequence of withdrawals the ids stay consecutive, the k-th request is recorded under counter + k with its amount and researcher, and a non-negative budget never goes negative |
| `UniversityLedger.WithdrawAllKeepsOld` | university_database.py:117 | later withdrawals never rewrite an already recorded transaction |
| `FundingLedger.FundingAgencyDatabase.constructor` | funding_agency_database.py:10-14 | a fresh database holds 1000000 in funds, transaction number 1, and empty history and ring |
| `FundingLedger.FundingAgencyDatabase.AllocateFunds` | funding_agency_database.py:16-17 | only the funds change, and they drop by exactly the amount |
| `FundingLedger.Allocate` | funding_agency_database.py:16-17 | the ledger's funds drop by the amount; history, ring and counter are untouched |
| `FundingLedger.Record` | funding_agency_database.py:19-27 | the entry is the record stamped with the old transaction number and the id, and is stored under the id; funds stay; the counter moves up by one; the id is no longer new |
| `FundingLedger.IsNew` | funding_agency_database.py:29-38 | an id is new exactly when no ring slot holds it |
| `FundingLedger.FundingAgencyDatabase.RecordHistory` | funding_agency_database.py:19-27 | the record is stamped with the current transaction number, its id goes to ring slot number % 10, the counter moves up by one, and the stamped record is kept under its id; the ring stays consistent with the log of recorded ids |
| `FundingLedger.InitialConsistent` | funding_agency_database.py:10-14 | a fresh ledger is consistent with an empty log |
| `FundingLedger.RecordKeepsConsistent` | funding_agency_database.py:19-27 | recording keeps the ledger consistent with the log extended by the new id |
| `FundingLedger.RingBounded` | funding_agency_database.py:23 | the ring never holds more than ten entries |
| `FundingLedger.IsNewIffOutsideWindow` | funding_agency_database.py:29-38 | a request is new exactly when its id is not among the last ten recorded |
| `FundingLedger.RecordedStaysKnown` | funding_agency_database.py:23 | after an id is recorded it stays known through the next nine records, whatever their ids |
| `FundingLedger.RecordedIsForgottenAfterTen` | funding_agency_database.py:23 | after ten further records with other ids, an id is new again |
| `FundingLedger.FundingAgencyDatabase.IsRequestNew` | funding_agency_database.py:29-38 | the scan returns false iff some ring slot holds the id, which is iff the id is among the last ten recorded |
| `FundingLedger.FundingAgencyDatabase.GetRequestMetadata` | funding_agency_database.py:40-41 | the stamped record kept under the id, or KeyError when none is; every id ever recorded has one, because the full map is never pruned |
| `FundingAgency.DecisionCases` | funding_agency.py:49-58 | Approved iff the amount is within the funds and in 200000 ..= 500000; every other proposal is Rejected |
| `FundingAgency.Decide` | funding_agency.py:49-58 | the outcome is Approved or Rejected, and an approval never exceeds the funds |
| `FundingAgency.HistoryRecordOf` | funding_agency.py:60-66 | the filed record carries the outcome, the amount as budget, the title and the proposer, and an end date that reads back as the date for four-digit years |
| `FundingAgency.FundsStayNonNegative` | funding_agency.py:49-54 | over any sequence of proposals the funds never increase, and non-negative funds stay non-negative |
| `FundingAgency.ProposalEffect` | funding_agency.py:49-68 | funds drop by exactly the amount on approval and are otherwise unchanged; exactly one record with the outcome, amount, title and proposer is filed under the request's id and stamped with the old counter; afterwards the request is not new |
| `FundingAgency.Proposal` | funding_agency.py:46-68 | the outcome is the decision on the old funds, and the funds after it are those the decision leaves |
| `FundingAgency.ProcessResearchProposal` | funding_agency.py:46-85 | the database ends in the `Proposal` state, the outcome is the response, and the university is notified with the stored record exactly on approval |
| `FundingAgency.HistoryDict` | funding_agency.py:60-66 | the record dictionary has exactly the keys status, budget, title, researcher and end_date |
| `FundingAgency.RecordHistoryAsWritten` | funding_agency_database.py:19-27 | a dictionary without correlation_id raises KeyError('correlation_id') before anything is stored; with a string one, it records under that id |
| `FundingAgency.ProcessResearchProposalAsWritten` | funding_agency.py:46-68 | as written, the funds after the step are those the decision leaves, and any success would report the decision |
| `FundingAgency.AsWrittenAlwaysRaisesKeyError` | funding_agency.py:49-68 | as written, every proposal ends in KeyError('correlation_id'), after an approved proposal's amount was deducted; nothing is recorded and the counter does not move |
| `FundingAgency.AsWrittenLosesApprovedProposal` | funding_agency.py:52-68 | a 250000 proposal against a fresh ledger leaves 750000 in funds and an empty history as written, but is recorded under its id by the corrected step |
| `RequestHandlers.Handler.constructor` | university_request_handler.py:29 | a new handler has its kind and no next handler |
| `RequestHandlers.Handler.SetNextHandler` | university_request_handler.py:50-52 | links this handler to the given one and returns that same handler |
| `RequestHandlers.Handler.ExecuteRequest` | university_request_handler.py:54-124 | following the links answers exactly as `Execute` does on the chain of kinds |
| `RequestHandlers.Run` | university_request_handler.py:59-124 | the create-account handler parses end_date first and raises without calling the database when it is missing or malformed; otherwise the claimant runs the operation for its action on that input; a raise records and notifies nothing; on an answer, the target is notified with the account exactly when an add or a remove succeeded, and the result is recorded under the correlation id, last |
| `RequestHandlers.EndDateOf` | university_request_handler.py:62 | end_date parses exactly when it is present, a string, and a 'dd-mm-yyyy' date, and then to that date; a missing key raises KeyError |
| `RequestHandlers.Execute` | university_request_handler.py:54-124 | an answer of None means the database is unchanged and nothing was recorded or sent |
| `RequestHandlers.Claim` | university_request_handler.py:61-119 | each concrete handler answers to one action; only the base handler answers to none |
| `RequestHandlers.Claims` | university_request_handler.py:61-119 | `request['request_type'] == Actions.X.value` holds exactly when the type string looks up to the handler's action |
| `RequestHandlers.FirstMatch` | university_request_handler.py:54-66 | the position found claims the request type and no earlier handler does, or none in the chain does |
| `RequestHandlers.ExecuteIsFirstMatch` | university_request_handler.py:54-124 | the chain answers, or raises, as its first claiming handler does, and with None, an unchanged database and no events when none claims the request |
| `RequestHandlers.AtMostOneKindClaims` | actions.py:3-14 | the action values are distinct, so at most one kind of handler claims a request type |
| `RequestHandlers.DispatchReachesClaimant` | university_request_handler.py:59-124 | a request naming action a gets something other than None iff a handler for a is in the chain, and the chain then answers exactly as that handler does on its own |
| `RequestHandlers.UnclaimedTypeFallsThrough` | university_request_handler.py:54-57 | proposal, proposal-response and account-notification request types fall off the end of any chain with None and nothing done |
| `Clock.Timer.constructor` | timer.py:15-19 | the clock starts at the given date, running |
| `Clock.Timer.Tick` | timer.py:24-25 | one pass of the loop moves the date on exactly one day; from 31-12-9999 it raises OverflowError and the date stays |
| `Clock.Timer.Stop` | timer.py:30-31 | clears the run flag and leaves the date alone |
| `Clock.Timer.Start` | timer.py:21-28 | a running clock stopped after n ticks ends exactly n days later and stopped, unless that passes year 9999: then it raises OverflowError at 31-12-9999, still flagged as running; a stopped clock does not move |
| `Clock.Timer.GetTime` | timer.py:33-35 | returns the current date and changes nothing |
| `Clock.Timer.GetTimeStr` | timer.py:37-39 | the date as 'dd-mm-yyyy', which parses back to the same date for four-digit years |
| `Clock.Timer.AdjustTimer` | timer.py:42-46 | a timestamp that does not parse raises ValueError with the clock untouched; otherwise the clock moves to the day after a later peer date and stays put otherwise, except that a later peer date of 31-12-9999 raises OverflowError with the clock untouched |
| `Clock.AdjustedBounds` | timer.py:45-46 | adjusting never moves the clock backward and leaves it at or after the peer's date; strictly after, the next day, when the peer was ahead; unchanged otherwise |
| `Clock.AdjustedIdempotent` | timer.py:42-46 | receiving the same timestamp twice has the effect of receiving it once |
| `Clock.Adjusted` | timer.py:45-46 | the adjusted date is the local date or the day after the peer's, and strictly after the peer's when the peer was ahead |
| `Dates.NextDayIsSuccessor` | timer.py:25 | the next day is a valid date strictly after the given one, with no date in between |
| `Dates.NextDay` | timer.py:25 | the next day is a valid date strictly after the given one |
| `Dates.Before` | timer.py:45 | `date < date`: a date is never before itself or before a date of an earlier year, and is always before a date of a later year |
| `Dates.AddDays` | timer.py:21-25 | n steps of one day give a valid date, strictly later when n > 0 and never in an earlier year |
| `Dates.NextDayOverflow` | timer.py:25 | within datetime.date's range, one day's step leaves the range exactly from 31-12-9999 |
| `Dates.AddDaysMovesForward` | timer.py:22-25 | adding n > 0 days gives a strictly later date, and adding none gives the same date |
| `Dates.BeforeIsStrictTotalOrder` | timer.py:45 | date comparison is irreflexive, transitive and total |
| `Dates.ParseFormatDate` | timer.py:39-43 | a date with a four-digit year, written as 'dd-mm-yyyy', parses back to itself |
| `Dates.ParseFormatDateShortYear` | request_response.py:26-36 | a date before year 1000 is written with a short year that the parser refuses |
| `Dates.ParseDate` | timer.py:43 | what parses is a valid calendar date with a year of at most four digits |
| `Dates.ParsedCanonicalReadsBack` | timer.py:43 | a ten-character text that parses, with no space before the day and no leading zero in the year, is exactly the `strftime` text of the date it parses to, so the day, month and year are the ones the text spells |
| `Dates.NoThirtyFirstOfFebruary` | timer.py:43 | "31-02-2023" names no real date and is refused |
| `Dates.FormatDate` | timer.py:39 | the text has a '-' after the two-digit day and after the two-digit month |
| `CommandLine.ParseSegmentShape` | main.py:43-70 | fewer than two fields raise IndexError; otherwise a segment parses iff its field count is its command's arity, fails with ValueError when not, and yields the prefixed routing key and the command's value |
| `CommandLine.ParseSegment` | main.py:43-70 | a segment fails only with IndexError or ValueError, and a parsed one is routed to a key starting with "Researcher-" |
| `CommandLine.RoutingKeyShape` | main.py:47-70 | every routing key, and every add/remove target, is "Researcher-" followed by an id with no surrounding white space |
| `CommandLine.ParseJoinedFields` | main.py:43-70 | a segment written as its fields joined by ':' parses into the command those fields describe |
| `CommandLine.CommandsPerSegment` | main.py:41-73 | the line yields commands iff every segment parses, the i-th command being the i-th segment's; otherwise it yields the error of the first failing segment, all earlier segments having parsed |
| `CommandLine.CollectPerOutcome` | main.py:42-73 | the loop succeeds iff no outcome failed, with the commands in order; otherwise it stops at the first failure's error |
| `CommandLine.GetCommands` | main.py:15-73 | the loop over the segments returns exactly `ParseCommands` of the line |
| `CommandLine.ParseCommands` | main.py:41-73 | a line that parses yields one command per '\|'-separated segment; one that fails raises IndexError or ValueError |
| `Text.JoinSplit` | main.py:41 | joining the parts of a split with the separator gives back the string |
| `Text.SplitJoin` | main.py:43 | splitting parts joined by a separator they do not contain gives back the parts |
| `Text.SplitCount` | main.py:41 | a split yields one more part than there are separators |
| `Text.Strip` | main.py:43-64 | `str.strip()`: the result is the infix of the string that starts after the leading white space, only white space follows it, and it neither starts nor ends with white space |
| `Text.Split` | main.py:41-69 | `str.split` on one character: at least one part, and no part contains the separator |
| `Text.StripIdempotent` | main.py:47 | stripping twice is stripping once |
| `ResponseCodec.ConstructorDefaults` | request_response.py:12-17 | the constructor keeps what it is given and leaves an omitted account and action as None |
| `ResponseCodec.ToJson` | request_response.py:31-40 | the encoding has exactly the five keys, with the timestamp as 'dd-mm-yyyy' |
| `ResponseCodec.ParseTimestamp` | request_response.py:26 | the timestamp decodes iff it is a string that parses as a date, and then to that date |
| `ResponseCodec.FromJson` | request_response.py:19-29 | a decoded response comes from a map holding all five keys: its status, message, account and action are the values stored under their keys, and its date is the one the timestamp text names |
| `ResponseCodec.RoundTrip` | request_response.py:19-40 | decoding the encoding of a response dated in a four-digit year gives back the response |
| `ResponseCodec.ShortYearDoesNotRoundTrip` | request_response.py:26-36 | a response dated before year 1000 is refused by its own decoder |
| `ResponseCodec.MalformedTimestampFails` | request_response.py:23-27 | a malformed timestamp makes decoding fail; with status, message and account present, the failure is the timestamp's own, before action is read |
| `ResponseCodec.MissingKeyFails` | request_response.py:23-27 | a missing key raises KeyError naming the first missing one in reading order; action is reached only after the timestamp parsed |
| `ProposalCodec.ToJson` | research_proposal_request.py:27-35 | the encoding has exactly the keys id, title, description and amount |
| `ProposalCodec.FromJson` | research_proposal_request.py:16-25 | a decoded proposal comes from a map holding all four keys, and its amount is the stored integer |
| `ProposalCodec.RoundTrip` | research_proposal_request.py:16-35 | decoding the encoding gives back all four fields |
| `ProposalCodec.MissingKeyFails` | research_proposal_request.py:20-23 | a missing key raises KeyError naming the first missing one in reading order |
| `ProposalCodec.DecodeSucceedsExactly` | research_proposal_request.py:16-25 | decoding succeeds iff the four keys are present with values of the right kind, and reads each field from its key |
| `ProposalCodec.EncodeDecoded` | research_proposal_request.py:16-35 | encoding after decoding gives back a map that held only the four keys |
| `Enums.ActionValue` | actions.py:3-14 | `.value` of each action, spelled as the enumeration spells it; `Actions(value)` looks it up back to the same action |
| `Enums.ActionValueInjective` | actions.py:3-14 | distinct actions have distinct values |
| `Enums.ActionOfSound` | actions.py:3-14 | a string that names an action is exactly that action's value |
| `Enums.ActionOfInverse` | actions.py:3-14 | a string names an action iff it is that action's value |
| `Enums.StatusValue` | request_status.py:3-7 | `.value` of each status; `RequestStatus(value)` looks it up back to the same status |
| `Enums.StatusValueInjective` | request_status.py:3-7 | distinct statuses have distinct values |

## Left out

- The network layer is left out: RabbitMQ connections, queues, exchanges, acknowledgements and publishing, including `send_notification` and `notify_university`. A notification is an event value (`Notified`) or a returned `Option` (`ProcessResearchProposal`).
- Persistence with pickle, in the funding agency and the university, is left out. The model keeps state in memory only.
- Threads, the timer's lock, `random.randint` and `time.sleep` are left out. An OverflowError raised by `start` ends that thread in Python; the model returns it from `Clock.Timer.Start`.
  - `Clock.Timer.Start` is given, as a parameter, the number of ticks after which another thread calls stop.
- `date.today()` and `relativedelta(months=1)` are inputs: `today` and `endDate` are parameters.
- `input()` in `get_commands` is left out: the line is a parameter.
  - The rest of main.py (the thread pool and command dispatch) is not part of this model.
- The text that `access_details` and `list_transactions` print is left out. The methods return the values printed instead.
- A caller who leads no account only triggers a `print`, so the model shows that case as `None` or as no change.
- JSON text, escaping and `json.loads` are left out: a message is a map from keys to tagged values.
- `ProposalCodec.DecodeSucceedsExactly`, `ProposalCodec.EncodeDecoded`, `ProposalCodec.FromJson` and `ResponseCodec.FromJson`: Python stores a value of any type in a field, but the decoders refuse a value of the wrong kind with `TypeError`, after every key has been read. So decoding succeeds only on well-typed maps (`{"id": 1, ...}` decodes in Python but not here), and the re-encoding lemma covers only those.
- `strptime` is modelled for ASCII input only. The Unicode digits and white space that CPython's regular expression would also accept are not modelled.
- `is_request_new` iterates a dictionary in insertion order. It is modelled as a scan of the ring's slots in some order; the result does not depend on the order.
- The university handlers call database methods with signatures that the database file modelled here does not have: `create_research_account(request, end_date, timer)`, `withdraw_funds(researcher, amount, timer)`, `add_researcher(researcher, target, timer)` and `remove_researcher(researcher, target, timer)` (both read `.status` and `.account` of the result), `access_details(researcher, timer)`, `list_transactions(researcher, timer)`, `check_researcher_proposal(request, timer)` and `record_request_result`.
  - The handlers therefore take the database operation as an abstract function. It gets the action, the request (with its whole dictionary), the parsed end date for account creation, and the state. It returns a response or an exception, and the new state.
  - The recording of a result is an event.
- `RequestHandlers.Run`: the three keys the chain reads itself (request_type, correlation_id, target_researcher) are always present in the model's `Request`. In Python a missing one raises KeyError, possibly after the database operation has run. `record_request_result` and `send_notification` never raise in the model.
- The funding agency never calls `is_request_new` before deciding: a duplicate proposal is processed again. The model keeps that behaviour, so no operation answers duplicates from the ledger.
- `FundingAgency.RecordHistoryAsWritten`: a `correlation_id` value that is not a string gives `TypeError` in the model, where Python would use any hashable value as the key. `HistoryDict` never builds that key, so no proposal reaches this case.
- The correlation id comes from the message properties. `ProcessResearchProposal` takes it as a parameter and records under it (see "## Findings").
- `from_json_data` is a classmethod that sets the parsed fields on the class object itself and returns the class. The model returns a fresh record instead, so aliasing between successive decodes is not captured.

## Findings

| source | as written | input that shows it | evidently intended | confidence | as-written member | corrected member |
|---|---|---|---|---|---|---|
| funding_agency.py:60-68 | The history record built for a proposal has no `correlation_id` key, while `record_history` (funding_agency_database.py:23) reads `history_record["correlation_id"]`. Every proposal raises KeyError, after `allocate_funds` has deducted the amount if the proposal was approved, so no record is stored, no response is sent and the ring is never written. | a proposal of 250000 from "Researcher-1" against a fresh database: funds become 750000 and the history stays empty | record the proposal under the request's correlation id, stamped and kept in the ring, and reply | not executed | `FundingAgency.AsWrittenAlwaysRaisesKeyError` | `FundingAgency.ProposalEffect` |

Both the as-written step and the corrected step are modelled:

- `FundingAgency.AsWrittenLosesApprovedProposal` exhibits the concrete case above.
- `FundingAgency.ProcessResearchProposal` is the corrected step, taking the correlation id as a parameter.

The code makes none of the following checks, and the model follows the code:

- The agency does not consult `is_request_new` before deciding, so a duplicate proposal is decided again (funding_agency.py:46-68).
- `add_researcher` appends without checking whether the researcher is already a member, so duplicates are possible (university_database.py:42).
- `withdraw_funds` checks neither who is withdrawing nor the account's end date (university_database.py:95-122).
- `create_research_account` enforces no limit of one account per researcher: it overwrites the title's account and the lead's entry (university_database.py:31-32).
