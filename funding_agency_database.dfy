/** The funding agency's ledger: the funds counter, a transaction counter, every
    proposal's history record by correlation id, and a ten-slot ring of the most
    recent correlation ids that answers "is this request new". */
module FundingLedger {
  import opened Wrappers
  import opened Enums

  const InitialFunds: int := 1000000
  const RingSize: int := 10

  /** The record filed for one proposal; endDate is already in 'dd-mm-yyyy' form. */
  datatype HistoryRecord = HistoryRecord(status: RequestStatus, budget: int, title: string, researcher: string, endDate: string)

  /** A record as stored: stamped with its transaction number and keyed by the
      correlation id of the request it answers. */
  datatype LedgerEntry = LedgerEntry(record: HistoryRecord, transaction: int, correlationId: string)

  /** The whole state of the ledger at one moment. */
  datatype Ledger = Ledger(
    funds: int,
    transactionHistory: map<string, LedgerEntry>,
    requestsHistory: map<int, string>,
    transactionNumber: int)

  /** A fresh database: 1000000 in funds, transaction number 1, nothing recorded. */
  function InitialLedger(): Ledger
  {
    Ledger(InitialFunds, map[], map[], 1)
  }

  /** allocate_funds: only the funds change, by exactly the amount. */
  function Allocate(l: Ledger, amount: int): (r: Ledger)
    ensures r.funds == l.funds - amount
    ensures r.transactionHistory == l.transactionHistory && r.requestsHistory == l.requestsHistory
    ensures r.transactionNumber == l.transactionNumber
  {
    l.(funds := l.funds - amount)
  }

  /** record_history: stamp the record with the current transaction number, put
      its correlation id in ring slot number % 10, count one more transaction,
      and keep the stamped record under its correlation id. */
  function Record(l: Ledger, cid: string, record: HistoryRecord): (r: (Ledger, LedgerEntry))
    ensures r.1 == LedgerEntry(record, l.transactionNumber, cid)
    ensures r.0.transactionHistory == l.transactionHistory[cid := r.1]
    ensures r.0.funds == l.funds && r.0.transactionNumber == l.transactionNumber + 1
    ensures !IsNew(r.0, cid)
  {
    var entry := LedgerEntry(record, l.transactionNumber, cid);
    var ring := l.requestsHistory[l.transactionNumber % RingSize := cid];
    assert ring[l.transactionNumber % RingSize] == cid;
    (Ledger(l.funds, l.transactionHistory[cid := entry], ring, l.transactionNumber + 1), entry)
  }

  /** is_request_new: the id is in no slot of the ring. */
  predicate IsNew(l: Ledger, cid: string)
    ensures IsNew(l, cid) <==> forall k :: k in l.requestsHistory ==> l.requestsHistory[k] != cid
  {
    RingHolds(l.requestsHistory, cid);
    cid !in l.requestsHistory.Values
  }

  /** The correlation ids the ring can still remember: the last ten recorded. */
  function Window(recorded: seq<string>): (w: seq<string>)
    ensures |w| <= RingSize
  {
    if |recorded| <= RingSize then recorded else recorded[|recorded| - RingSize..]
  }

  /** The ring slot the j-th recorded id (counting from 0) was written to: the
      transaction numbers start at 1. */
  function SlotOf(j: nat): int
  {
    (j + 1) % RingSize
  }

  /** The ledger that a database holds after recording the ids in order, starting
      from a fresh one: one transaction per recorded id; ring slot keys cover the
      slots used so far; each id in the window sits in its own slot; every
      recorded id has a stamped entry under it. */
  ghost predicate Consistent(l: Ledger, recorded: seq<string>)
  {
    var n := |recorded|;
    var low := if n <= RingSize then 0 else n - RingSize;
    && l.transactionNumber == n + 1
    && (forall k :: k in l.requestsHistory <==> 0 <= k < RingSize && (n >= RingSize || 1 <= k <= n))
    && (forall j :: low <= j < n ==> SlotOf(j) in l.requestsHistory && l.requestsHistory[SlotOf(j)] == recorded[j])
    && (forall j :: 0 <= j < n ==> recorded[j] in l.transactionHistory)
    && (forall c :: c in l.transactionHistory ==>
          l.transactionHistory[c].correlationId == c && 1 <= l.transactionHistory[c].transaction <= n)
  }

  lemma InitialConsistent()
    ensures Consistent(InitialLedger(), [])
  {
  }

  /** Recording keeps the ledger consistent with the log extended by the new id. */
  lemma RecordKeepsConsistent(l: Ledger, recorded: seq<string>, cid: string, record: HistoryRecord)
    requires Consistent(l, recorded)
    ensures Consistent(Record(l, cid, record).0, recorded + [cid])
  {
    var n := |recorded|;
    var l' := Record(l, cid, record).0;
    var recorded' := recorded + [cid];
    var low' := if n + 1 <= RingSize then 0 else n + 1 - RingSize;
    assert l.transactionNumber % RingSize == SlotOf(n);
    forall j | low' <= j < n + 1
      ensures SlotOf(j) in l'.requestsHistory && l'.requestsHistory[SlotOf(j)] == recorded'[j]
    {
      if j < n {
        assert 1 <= n - j <= 9;
        assert SlotOf(j) != SlotOf(n);
      }
    }
    forall j | 0 <= j < n + 1 ensures recorded'[j] in l'.transactionHistory {
      if j < n { assert recorded'[j] == recorded[j]; }
    }
  }

  /** The ring never holds more than ten entries. */
  lemma RingBounded(l: Ledger, recorded: seq<string>)
    requires Consistent(l, recorded)
    ensures |l.requestsHistory| <= RingSize
  {
    var slots := {0, 1, 2, 3, 4, 5, 6, 7, 8, 9};
    forall k | k in l.requestsHistory ensures k in slots {
      assert 0 <= k < RingSize;
      assert k == 0 || k == 1 || k == 2 || k == 3 || k == 4 || k == 5 || k == 6 || k == 7 || k == 8 || k == 9;
    }
    assert |slots| == 10;
    SubsetCardinality(l.requestsHistory.Keys, slots);
  }

  lemma SubsetCardinality(a: set<int>, b: set<int>)
    requires a <= b
    ensures |a| <= |b|
  {
    assert b == a + (b - a);
  }

  /** is_request_new(cid) is false exactly for the ids among the last ten recorded. */
  lemma IsNewIffOutsideWindow(l: Ledger, recorded: seq<string>, cid: string)
    requires Consistent(l, recorded)
    ensures IsNew(l, cid) <==> cid !in Window(recorded)
  {
    if cid in Window(recorded) {
      WindowIdsAreInRing(l, recorded, cid);
    }
    if cid in l.requestsHistory.Values {
      RingIdsAreInWindow(l, recorded, cid);
    }
  }

  lemma WindowIdsAreInRing(l: Ledger, recorded: seq<string>, cid: string)
    requires Consistent(l, recorded)
    requires cid in Window(recorded)
    ensures cid in l.requestsHistory.Values
  {
    var n := |recorded|;
    var low := if n <= RingSize then 0 else n - RingSize;
    var w := Window(recorded);
    assert w == recorded[low..];
    var i :| 0 <= i < |w| && w[i] == cid;
    assert recorded[low + i] == cid;
    assert l.requestsHistory[SlotOf(low + i)] == cid;
  }

  lemma RingIdsAreInWindow(l: Ledger, recorded: seq<string>, cid: string)
    requires Consistent(l, recorded)
    requires cid in l.requestsHistory.Values
    ensures cid in Window(recorded)
  {
    var n := |recorded|;
    var low := if n <= RingSize then 0 else n - RingSize;
    var w := Window(recorded);
    assert w == recorded[low..];
    var k := SlotHolding(l.requestsHistory, cid);
    var j := SlotWrittenBy(k, low, n);
    assert recorded[j] == cid;
    assert w[j - low] == cid;
  }

  /** Every slot in use was last written by one of the ids in the window. */
  lemma SlotWrittenBy(k: int, low: int, n: int) returns (j: int)
    requires 0 <= k < RingSize
    requires (n >= RingSize && low == n - RingSize) || (0 <= n < RingSize && low == 0 && 1 <= k <= n)
    ensures low <= j < n && SlotOf(j) == k
  {
    if n < RingSize {
      j := k - 1;
    } else {
      var q := (k - 1 - low) / RingSize;
      var m := (k - 1 - low) % RingSize;
      assert k - 1 - low == RingSize * q + m;
      j := low + m;
      assert j + 1 == k - RingSize * q;
    }
  }

  /** A slot of the ring that holds the id. */
  lemma SlotHolding(ring: map<int, string>, cid: string) returns (k: int)
    requires cid in ring.Values
    ensures k in ring && ring[k] == cid
  {
    if forall j :: j in ring ==> ring[j] != cid {
      assert false;
    }
    k :| k in ring && ring[k] == cid;
  }

  /** An id is in the ring exactly when some slot holds it. */
  lemma RingHolds(ring: map<int, string>, cid: string)
    ensures cid in ring.Values <==> exists k :: k in ring && ring[k] == cid
  {
    if cid in ring.Values {
      var k := SlotHolding(ring, cid);
    }
  }

  /** A non-empty set of slots has a member. */
  lemma SomeSlot(slots: set<int>)
    requires slots != {}
    ensures exists k :: k in slots
  {
    if forall k :: k !in slots {
      assert false;
    }
  }

  /** Right after record_history(cid), and for the next nine records whatever
      their ids, is_request_new(cid) is false. */
  lemma RecordedStaysKnown(recorded: seq<string>, cid: string, later: seq<string>)
    requires |later| < RingSize
    ensures cid in Window(recorded + [cid] + later)
  {
    var s := recorded + [cid] + later;
    assert s[|recorded|] == cid;
    if |s| > RingSize {
      assert Window(s)[|recorded| - (|s| - RingSize)] == cid;
    }
  }

  /** After ten further records with other ids its ring slot has been overwritten
      and is_request_new(cid) holds again. */
  lemma RecordedIsForgottenAfterTen(recorded: seq<string>, cid: string, later: seq<string>)
    requires |later| >= RingSize && cid !in later
    ensures cid !in Window(recorded + [cid] + later)
  {
    var s := recorded + [cid] + later;
    assert Window(s) == later[|later| - RingSize..];
  }

  class FundingAgencyDatabase {
    var funds: int
    var transactionHistory: map<string, LedgerEntry>
    var requestsHistory: map<int, string>
    var transactionNumber: int
    /** The correlation ids recorded so far, oldest first. */
    ghost var recorded: seq<string>

    function Snapshot(): Ledger
      reads this
    {
      Ledger(funds, transactionHistory, requestsHistory, transactionNumber)
    }

    ghost predicate Valid()
      reads this
    {
      Consistent(Snapshot(), recorded)
    }

    constructor ()
      ensures Valid() && recorded == []
      ensures Snapshot() == InitialLedger()
    {
      funds := InitialFunds;
      transactionNumber := 1;
      transactionHistory := map[];
      requestsHistory := map[];
      recorded := [];
    }

    method AllocateFunds(amount: int)
      requires Valid()
      modifies this
      ensures Valid() && recorded == old(recorded)
      ensures Snapshot() == Allocate(old(Snapshot()), amount)
    {
      funds := funds - amount;
    }

    method RecordHistory(cid: string, record: HistoryRecord) returns (entry: LedgerEntry)
      requires Valid()
      modifies this
      ensures Valid() && recorded == old(recorded) + [cid]
      ensures (Snapshot(), entry) == Record(old(Snapshot()), cid, record)
    {
      RecordKeepsConsistent(Snapshot(), recorded, cid, record);
      entry := LedgerEntry(record, transactionNumber, cid);
      requestsHistory := requestsHistory[transactionNumber % RingSize := cid];
      transactionNumber := transactionNumber + 1;
      transactionHistory := transactionHistory[cid := entry];
      recorded := recorded + [cid];
    }

    /** Scans the ring for the id: false as soon as a slot holds it, true when
        none does; the id is then also outside the last ten recorded. */
    method IsRequestNew(cid: string) returns (isNew: bool)
      requires Valid()
      ensures isNew <==> cid !in requestsHistory.Values
      ensures isNew <==> cid !in Window(recorded)
    {
      var slots := requestsHistory.Keys;
      while slots != {}
        invariant slots <= requestsHistory.Keys
        invariant forall k :: k in requestsHistory && k !in slots ==> requestsHistory[k] != cid
        decreases slots
      {
        SomeSlot(slots);
        var k :| k in slots;
        if requestsHistory[k] == cid {
          IsNewIffOutsideWindow(Snapshot(), recorded, cid);
          return false;
        }
        slots := slots - {k};
      }
      IsNewIffOutsideWindow(Snapshot(), recorded, cid);
      return true;
    }

    /** get_request_metadata: the stamped record kept for the id, or KeyError. A
        request that is not new always has one, since the full map is never
        pruned. */
    method GetRequestMetadata(cid: string) returns (r: Result<LedgerEntry, PyError>)
      requires Valid()
      ensures r.Success? <==> cid in transactionHistory
      ensures r.Success? ==> r.value == transactionHistory[cid] && r.value.correlationId == cid
      ensures r.Failure? ==> r.error == KeyError(cid)
      ensures cid in recorded ==> r.Success?
    {
      if cid !in transactionHistory {
        return Failure(KeyError(cid));
      }
      r := Success(transactionHistory[cid]);
    }
  }
}
