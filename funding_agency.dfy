/** The funding agency's handling of one research proposal: the approval policy,
    the deduction of funds, the history record, and the condition under which
    the university is asked to open the account. */
module FundingAgency {
  import opened Wrappers
  import opened Enums
  import opened Dates
  import opened Json
  import opened ProposalCodec
  import opened FundingLedger

  const MinGrant: int := 200000
  const MaxGrant: int := 500000

  /** The decision: reject what the funds cannot cover, approve amounts in the
      band 200000 ..= 500000, reject the rest. */
  function Decide(amount: int, funds: int): (r: RequestStatus)
    ensures r == Approved || r == Rejected
    ensures r == Approved ==> amount <= funds
  {
    if amount > funds then Rejected
    else if MinGrant <= amount <= MaxGrant then Approved
    else Rejected
  }

  /** Approval exactly when the amount is both affordable and in the band;
      every other proposal is rejected. */
  lemma DecisionCases(amount: int, funds: int)
    ensures Decide(amount, funds) == Approved <==> amount <= funds && MinGrant <= amount <= MaxGrant
    ensures Decide(amount, funds) != Approved ==> Decide(amount, funds) == Rejected
  {
  }

  /** The funds left after one proposal. */
  function FundsAfter(funds: int, amount: int): int
  {
    if Decide(amount, funds) == Approved then funds - amount else funds
  }

  /** The funds left after a sequence of proposals, in order. */
  function FundsAfterAll(funds: int, amounts: seq<int>): int
    decreases |amounts|
  {
    if amounts == [] then funds else FundsAfterAll(FundsAfter(funds, amounts[0]), amounts[1..])
  }

  /** Across any sequence of proposals the funds never increase, and funds that
      start non-negative stay non-negative. */
  lemma {:induction false} FundsStayNonNegative(funds: int, amounts: seq<int>)
    ensures FundsAfterAll(funds, amounts) <= funds
    ensures funds >= 0 ==> FundsAfterAll(funds, amounts) >= 0
    decreases |amounts|
  {
    if amounts != [] {
      DecisionCases(amounts[0], funds);
      FundsStayNonNegative(FundsAfter(funds, amounts[0]), amounts[1..]);
    }
  }

  /** The record filed for a proposal: outcome, amount as budget, title, proposer
      and the end date in text form, which reads back as the same date whenever
      the year has four digits. */
  function HistoryRecordOf(status: RequestStatus, request: ProposalRequest, endDate: Date): (r: HistoryRecord)
    requires ValidDate(endDate)
    ensures r.status == status && r.budget == request.amount
    ensures r.title == request.title && r.researcher == request.id
    ensures 1000 <= endDate.year <= 9999 ==> ParseDate(r.endDate) == Some(endDate)
  {
    assert 1000 <= endDate.year <= 9999 ==> ParseDate(FormatDate(endDate)) == Some(endDate) by {
      if 1000 <= endDate.year <= 9999 { ParseFormatDate(endDate); }
    }
    HistoryRecord(status, request.amount, request.title, request.id, FormatDate(endDate))
  }

  /** The whole step on the ledger, given the correlation id of the request: the
      decision, the deduction on approval, and one history record whatever the
      outcome. Returns the new ledger, the stored entry and the response. */
  function Proposal(l: Ledger, cid: string, request: ProposalRequest, endDate: Date): (r: (Ledger, LedgerEntry, RequestStatus))
    requires ValidDate(endDate)
    ensures r.2 == Decide(request.amount, l.funds)
    ensures r.0.funds == FundsAfter(l.funds, request.amount)
  {
    var status := Decide(request.amount, l.funds);
    var afterAllocation := if status == Approved then Allocate(l, request.amount) else l;
    var (after, entry) := Record(afterAllocation, cid, HistoryRecordOf(status, request, endDate));
    (after, entry, status)
  }

  /** What one proposal does to the ledger: funds drop by exactly the amount on
      approval and stay put otherwise; exactly one record is added, under the
      request's correlation id, stamped with the old transaction number and
      carrying the outcome, the amount as budget, the title and the proposer;
      afterwards the request is no longer new. */
  lemma ProposalEffect(l: Ledger, cid: string, request: ProposalRequest, endDate: Date)
    requires ValidDate(endDate)
    ensures var (after, entry, status) := Proposal(l, cid, request, endDate);
            && status == Decide(request.amount, l.funds)
            && after.funds == (if status == Approved then l.funds - request.amount else l.funds)
            && after.transactionNumber == l.transactionNumber + 1
            && after.transactionHistory == l.transactionHistory[cid := entry]
            && entry.transaction == l.transactionNumber && entry.correlationId == cid
            && entry.record.status == status && entry.record.budget == request.amount
            && entry.record.title == request.title && entry.record.researcher == request.id
            && !IsNew(after, cid)
  {
    var (after, entry, status) := Proposal(l, cid, request, endDate);
    assert after.requestsHistory[l.transactionNumber % RingSize] == cid;
  }

  /** process_research_proposal with the correlation id passed in: decide, deduct
      on approval, record, and hand back the response together with the
      notification for the university, which exists only for an approval. */
  method ProcessResearchProposal(db: FundingAgencyDatabase, cid: string, request: ProposalRequest, endDate: Date)
    returns (response: RequestStatus, notification: Option<LedgerEntry>)
    requires db.Valid() && ValidDate(endDate)
    modifies db
    ensures db.Valid() && db.recorded == old(db.recorded) + [cid]
    ensures var (after, entry, status) := Proposal(old(db.Snapshot()), cid, request, endDate);
            && db.Snapshot() == after
            && response == status
            && notification == (if status == Approved then Some(entry) else None)
  {
    if request.amount > db.funds {
      response := Rejected;
    } else if request.amount >= MinGrant && request.amount <= MaxGrant {
      response := Approved;
      db.AllocateFunds(request.amount);
    } else {
      response := Rejected;
    }
    var record := HistoryRecordOf(response, request, endDate);
    var entry := db.RecordHistory(cid, record);
    notification := if response == Approved then Some(entry) else None;
  }

  // ------------------------------------------------------- the code as written

  /** The history record as process_research_proposal builds it: a dictionary
      with the keys status, budget, title, researcher and end_date. */
  function HistoryDict(record: HistoryRecord): (d: Dict)
    ensures d.Keys == {"status", "budget", "title", "researcher", "end_date"}
  {
    map["status" := JStr(StatusValue(record.status)),
        "budget" := JInt(record.budget),
        "title" := JStr(record.title),
        "researcher" := JStr(record.researcher),
        "end_date" := JStr(record.endDate)]
  }

  /** record_history on a dictionary record: it reads the correlation id out of
      the record, so a record without one raises KeyError and nothing is stored. */
  function RecordHistoryAsWritten(l: Ledger, d: Dict, record: HistoryRecord): (r: Result<(Ledger, LedgerEntry), PyError>)
    ensures "correlation_id" !in d ==> r == Failure(KeyError("correlation_id"))
    ensures "correlation_id" in d && d["correlation_id"].JStr? ==> r == Success(Record(l, d["correlation_id"].s, record))
  {
    match Lookup(d, "correlation_id")
    case Failure(e) => Failure(e)
    case Success(v) =>
      if v.JStr? then Success(Record(l, v.s, record)) else Failure(TypeError("correlation_id"))
  }

  /** process_research_proposal as written: the funds are deducted first, then the
      dictionary it built is handed to record_history. */
  function ProcessResearchProposalAsWritten(l: Ledger, request: ProposalRequest, endDate: Date): (r: (Ledger, Result<RequestStatus, PyError>))
    requires ValidDate(endDate)
    ensures r.0.funds == FundsAfter(l.funds, request.amount)
    ensures r.1.Success? ==> r.1.value == Decide(request.amount, l.funds)
  {
    var status := Decide(request.amount, l.funds);
    var afterAllocation := if status == Approved then Allocate(l, request.amount) else l;
    var record := HistoryRecordOf(status, request, endDate);
    match RecordHistoryAsWritten(afterAllocation, HistoryDict(record), record)
    case Failure(e) => (afterAllocation, Failure(e))
    case Success((after, _)) => (after, Success(status))
  }

  /** Every proposal, as written, ends in KeyError('correlation_id'), after an
      approved proposal's amount was deducted: no history record is stored, the
      transaction number does not move, and no response is sent. */
  lemma AsWrittenAlwaysRaisesKeyError(l: Ledger, request: ProposalRequest, endDate: Date)
    requires ValidDate(endDate)
    ensures var (after, outcome) := ProcessResearchProposalAsWritten(l, request, endDate);
            && outcome == Failure(KeyError("correlation_id"))
            && after.funds == FundsAfter(l.funds, request.amount)
            && after.transactionHistory == l.transactionHistory
            && after.requestsHistory == l.requestsHistory
            && after.transactionNumber == l.transactionNumber
  {
    var record := HistoryRecordOf(Decide(request.amount, l.funds), request, endDate);
    assert "correlation_id" !in HistoryDict(record);
  }

  /** The concrete case: a proposal of 250000 against a fresh ledger loses 250000
      of funds and records nothing, where the corrected step records it. */
  lemma AsWrittenLosesApprovedProposal(cid: string)
    ensures var request := ProposalRequest("Researcher-1", "DS", "Distributed systems", 250000);
            var endDate := Date(17, 11, 2026);
            && ProcessResearchProposalAsWritten(InitialLedger(), request, endDate).0.funds == 750000
            && ProcessResearchProposalAsWritten(InitialLedger(), request, endDate).0.transactionHistory == map[]
            && Proposal(InitialLedger(), cid, request, endDate).0.funds == 750000
            && cid in Proposal(InitialLedger(), cid, request, endDate).0.transactionHistory
  {
    var request := ProposalRequest("Researcher-1", "DS", "Distributed systems", 250000);
    var endDate := Date(17, 11, 2026);
    AsWrittenAlwaysRaisesKeyError(InitialLedger(), request, endDate);
  }
}
