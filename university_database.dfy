/** The university's ledger of research accounts: accounts kept by project
    title, an index from lead researcher to title, membership changes by the
    lead, and withdrawals that keep a running balance and number every attempt. */
module UniversityLedger {
  import opened Wrappers
  import opened Dates
  import opened Enums

  /** One withdrawal attempt as the account records it; budget is the balance
      after the attempt. */
  datatype Transaction = Transaction(researcher: string, date: Date, amount: int, status: RequestStatus, budget: int)

  /** The contents of one research account at one moment. */
  datatype AccountView = AccountView(
    budget: int,
    lead: string,
    users: seq<string>,
    transactions: map<int, Transaction>,
    numberOfTransactions: int,
    endDate: Date)

  /** What access_details reports about an account. */
  datatype Details = Details(lead: string, budget: int, users: seq<string>, endDate: Date)

  /** A freshly opened account: no members, no transactions, next id 1. */
  function NewAccount(budget: int, researcher: string, endDate: Date): AccountView
  {
    AccountView(budget, researcher, [], map[], 1, endDate)
  }

  /** Transactions are numbered 1, 2, 3, ... without gaps, and the counter holds
      the next id. */
  ghost predicate WellNumbered(v: AccountView)
  {
    v.numberOfTransactions >= 1
    && forall id :: id in v.transactions <==> 1 <= id < v.numberOfTransactions
  }

  /** list.remove(x) applied only when x is in the list: drops the first occurrence. */
  function RemoveFirst(s: seq<string>, x: string): (r: seq<string>)
    ensures |r| == if x in s then |s| - 1 else |s|
    ensures forall y :: y in r ==> y in s
  {
    if s == [] then []
    else if s[0] == x then s[1..]
    else [s[0]] + RemoveFirst(s[1..], x)
  }

  /** Removing a member that is absent changes nothing. */
  lemma {:induction false} RemoveFirstAbsent(s: seq<string>, x: string)
    requires x !in s
    ensures RemoveFirst(s, x) == s
  {
    if s != [] {
      assert x !in s[1..];
      RemoveFirstAbsent(s[1..], x);
    }
  }

  /** Removing a member that is present cuts out exactly its first occurrence
      and keeps the order of the rest. */
  lemma {:induction false} RemoveFirstPresent(s: seq<string>, x: string)
    requires x in s
    ensures var i := FirstIndex(s, x);
            s[i] == x && x !in s[..i] && RemoveFirst(s, x) == s[..i] + s[i + 1..]
  {
    if s[0] != x {
      assert x in s[1..];
      RemoveFirstPresent(s[1..], x);
      var j := FirstIndex(s[1..], x);
      assert s[..j + 1] == [s[0]] + s[1..][..j];
      assert s[j + 2..] == s[1..][j + 1..];
    }
  }

  /** As multisets, removal takes away one copy of x when there is one. */
  lemma {:induction false} RemoveFirstMultiset(s: seq<string>, x: string)
    ensures multiset(RemoveFirst(s, x)) == multiset(s) - multiset{x}
  {
    if s != [] {
      assert s == [s[0]] + s[1..];
      if s[0] != x {
        RemoveFirstMultiset(s[1..], x);
        assert multiset(RemoveFirst(s, x)) == multiset{s[0]} + multiset(RemoveFirst(s[1..], x));
      }
    }
  }

  /** The position of the first occurrence of x in s. */
  function FirstIndex(s: seq<string>, x: string): (i: nat)
    requires x in s
    ensures i < |s|
  {
    if s[0] == x then 0 else 1 + FirstIndex(s[1..], x)
  }

  /** withdraw_funds on one account: approve exactly when the budget covers the
      amount, and record the attempt, approved or not, under the next id with the
      balance it leaves. */
  function Withdrawal(v: AccountView, researcher: string, amount: int, today: Date): (r: (AccountView, RequestStatus))
    ensures r.1 == Approved <==> v.budget >= amount
    ensures r.1 != Approved ==> r.1 == Rejected && r.0.budget == v.budget
    ensures r.0.numberOfTransactions == v.numberOfTransactions + 1
  {
    var approved := v.budget >= amount;
    var budget := if approved then v.budget - amount else v.budget;
    var status := if approved then Approved else Rejected;
    (v.(budget := budget,
        transactions := v.transactions[v.numberOfTransactions := Transaction(researcher, today, amount, status, budget)],
        numberOfTransactions := v.numberOfTransactions + 1),
     status)
  }

  /** Approved with the budget lowered by exactly the amount when the budget
      covers it; otherwise Rejected with the budget unchanged. Either way one
      transaction is recorded under the old counter, carrying the new balance, and
      nothing else about the account changes. */
  lemma WithdrawalOutcome(v: AccountView, researcher: string, amount: int, today: Date)
    ensures var (w, status) := Withdrawal(v, researcher, amount, today);
            && (status == Approved <==> v.budget >= amount)
            && (status == Rejected <==> v.budget < amount)
            && w.budget == (if v.budget >= amount then v.budget - amount else v.budget)
            && v.numberOfTransactions in w.transactions
            && w.transactions[v.numberOfTransactions] == Transaction(researcher, today, amount, status, w.budget)
            && (forall id :: id in v.transactions && id != v.numberOfTransactions ==>
                  id in w.transactions && w.transactions[id] == v.transactions[id])
            && w.transactions.Keys == v.transactions.Keys + {v.numberOfTransactions}
            && w.numberOfTransactions == v.numberOfTransactions + 1
            && w.lead == v.lead && w.users == v.users && w.endDate == v.endDate
  {
  }

  /** An approved withdrawal never leaves a negative balance, and a budget that
      starts non-negative stays non-negative. */
  lemma WithdrawalKeepsBudgetNonNegative(v: AccountView, researcher: string, amount: int, today: Date)
    ensures Withdrawal(v, researcher, amount, today).1 == Approved ==> Withdrawal(v, researcher, amount, today).0.budget >= 0
    ensures v.budget >= 0 ==> Withdrawal(v, researcher, amount, today).0.budget >= 0
  {
  }

  /** A withdrawal keeps the ids consecutive. */
  lemma WithdrawalKeepsNumbering(v: AccountView, researcher: string, amount: int, today: Date)
    requires WellNumbered(v)
    ensures WellNumbered(Withdrawal(v, researcher, amount, today).0)
  {
  }

  /** One withdrawal request: who asks, how much, and on which day. */
  datatype WithdrawRequest = WithdrawRequest(researcher: string, amount: int, date: Date)

  /** The account after a sequence of withdrawals, in order. */
  function WithdrawAll(v: AccountView, requests: seq<WithdrawRequest>): AccountView
    decreases |requests|
  {
    if requests == [] then v
    else
      var r := requests[0];
      WithdrawAll(Withdrawal(v, r.researcher, r.amount, r.date).0, requests[1..])
  }

  /** Over any sequence of withdrawals the ids stay 1, 2, 3, ... with one id per
      request, the k-th request lands under id counter + k, and a budget that
      starts non-negative never goes negative. */
  lemma {:induction false} WithdrawAllNumbering(v: AccountView, requests: seq<WithdrawRequest>)
    requires WellNumbered(v)
    ensures WellNumbered(WithdrawAll(v, requests))
    ensures WithdrawAll(v, requests).numberOfTransactions == v.numberOfTransactions + |requests|
    ensures forall k :: 0 <= k < |requests| ==>
              v.numberOfTransactions + k in WithdrawAll(v, requests).transactions
              && WithdrawAll(v, requests).transactions[v.numberOfTransactions + k].amount == requests[k].amount
              && WithdrawAll(v, requests).transactions[v.numberOfTransactions + k].researcher == requests[k].researcher
    ensures v.budget >= 0 ==> WithdrawAll(v, requests).budget >= 0
    decreases |requests|
  {
    if requests != [] {
      var r := requests[0];
      var w := Withdrawal(v, r.researcher, r.amount, r.date).0;
      WithdrawalKeepsNumbering(v, r.researcher, r.amount, r.date);
      WithdrawAllNumbering(w, requests[1..]);
      var end := WithdrawAll(v, requests);
      assert end == WithdrawAll(w, requests[1..]);
      forall k | 0 <= k < |requests|
        ensures v.numberOfTransactions + k in end.transactions
        ensures end.transactions[v.numberOfTransactions + k].amount == requests[k].amount
        ensures end.transactions[v.numberOfTransactions + k].researcher == requests[k].researcher
      {
        if k == 0 {
          WithdrawAllKeepsOld(w, requests[1..], v.numberOfTransactions);
        } else {
          assert requests[1..][k - 1] == requests[k];
        }
      }
    }
  }

  /** Later withdrawals never rewrite an already recorded transaction. */
  lemma {:induction false} WithdrawAllKeepsOld(v: AccountView, requests: seq<WithdrawRequest>, id: int)
    requires id in v.transactions && id < v.numberOfTransactions
    ensures id in WithdrawAll(v, requests).transactions
    ensures WithdrawAll(v, requests).transactions[id] == v.transactions[id]
    decreases |requests|
  {
    if requests != [] {
      var r := requests[0];
      WithdrawAllKeepsOld(Withdrawal(v, r.researcher, r.amount, r.date).0, requests[1..], id);
    }
  }

  /** A research account; the database changes its fields in place. The title it
      is stored under is kept with it as a ghost constant. */
  class ResearchAccount {
    ghost const title: string
    var budget: int
    var leadingResearcher: string
    var users: seq<string>
    var transactions: map<int, Transaction>
    var numberOfTransactions: int
    var endDate: Date

    function View(): AccountView
      reads this
    {
      AccountView(budget, leadingResearcher, users, transactions, numberOfTransactions, endDate)
    }

    constructor (ghost title: string, budget: int, researcher: string, endDate: Date)
      ensures this.title == title
      ensures View() == NewAccount(budget, researcher, endDate)
    {
      this.title := title;
      this.budget := budget;
      this.leadingResearcher := researcher;
      this.users := [];
      this.transactions := map[];
      this.numberOfTransactions := 1;
      this.endDate := endDate;
    }
  }

  class UniversityDatabase {
    var accounts: map<string, ResearchAccount>
    var leadResearchers: map<string, string>

    /** Every lead's title names a stored account, every account is stored
        under its own title (so no account object is stored under two titles),
        and every account is well numbered. */
    ghost predicate Valid()
      reads this, accounts.Values
    {
      && (forall lead :: lead in leadResearchers ==> leadResearchers[lead] in accounts)
      && (forall t :: t in accounts ==> accounts[t].title == t)
      && (forall t :: t in accounts ==> WellNumbered(accounts[t].View()))
    }

    /** The contents of every account, by title. */
    ghost function View(): map<string, AccountView>
      reads this, accounts.Values
    {
      map t | t in accounts :: accounts[t].View()
    }

    constructor ()
      ensures Valid()
      ensures accounts == map[] && leadResearchers == map[] && View() == map[]
    {
      accounts := map[];
      leadResearchers := map[];
    }

    /** Opens an account under the title and makes the researcher its lead. Neither
        the title nor the lead is checked: an existing entry is overwritten. */
    method CreateResearchAccount(title: string, researcher: string, budget: int, endDate: Date)
      requires Valid()
      modifies this
      ensures Valid()
      ensures title in accounts && fresh(accounts[title])
      ensures View() == old(View())[title := NewAccount(budget, researcher, endDate)]
      ensures leadResearchers == old(leadResearchers)[researcher := title]
    {
      var account := new ResearchAccount(title, budget, researcher, endDate);
      accounts, leadResearchers := accounts[title := account], leadResearchers[researcher := title];
      StoreUpdated(title, account);
    }

    /** Appends the researcher to the users of the account the lead leads; a
        caller who leads no account changes nothing. */
    method AddResearcher(lead: string, researcher: string)
      requires Valid()
      modifies accounts.Values
      ensures Valid()
      ensures accounts == old(accounts) && leadResearchers == old(leadResearchers)
      ensures lead !in leadResearchers ==> View() == old(View())
      ensures lead in leadResearchers ==>
                var t := leadResearchers[lead];
                View() == old(View())[t := old(View())[t].(users := old(View())[t].users + [researcher])]
    {
      if lead !in leadResearchers {
        return;
      }
      var t := leadResearchers[lead];
      var account := accounts[t];
      account.users := account.users + [researcher];
      StoreUpdated(t, account);
    }

    /** Takes the researcher out of the users of the lead's account if it is there;
        otherwise, or for a caller who leads no account, nothing changes. */
    method RemoveResearcher(lead: string, researcher: string)
      requires Valid()
      modifies accounts.Values
      ensures Valid()
      ensures accounts == old(accounts) && leadResearchers == old(leadResearchers)
      ensures lead !in leadResearchers ==> View() == old(View())
      ensures lead in leadResearchers ==>
                var t := leadResearchers[lead];
                View() == old(View())[t := old(View())[t].(users := RemoveFirst(old(View())[t].users, researcher))]
    {
      if lead !in leadResearchers {
        return;
      }
      var t := leadResearchers[lead];
      var account := accounts[t];
      if researcher in account.users {
        account.users := RemoveFirst(account.users, researcher);
      } else {
        RemoveFirstAbsent(account.users, researcher);
      }
      StoreUpdated(t, account);
    }

    /** The lead's account as access_details reports it; None for a caller who
        leads no account. Reads only. */
    method AccessDetails(lead: string) returns (r: Option<Details>)
      requires Valid()
      ensures r.Some? <==> lead in leadResearchers
      ensures r.Some? ==>
                var v := View()[leadResearchers[lead]];
                r.value == Details(v.lead, v.budget, v.users, v.endDate)
    {
      if lead !in leadResearchers {
        return None;
      }
      var account := accounts[leadResearchers[lead]];
      r := Some(Details(account.leadingResearcher, account.budget, account.users, account.endDate));
    }

    /** The title and the transactions of the lead's account, as list_transactions
        reports them; None for a caller who leads no account. Reads only. */
    method ListTransactions(lead: string) returns (r: Option<(string, map<int, Transaction>)>)
      requires Valid()
      ensures r.Some? <==> lead in leadResearchers
      ensures r.Some? ==>
                r.value.0 == leadResearchers[lead]
                && r.value.1 == View()[leadResearchers[lead]].transactions
    {
      if lead !in leadResearchers {
        return None;
      }
      var title := leadResearchers[lead];
      var account := accounts[title];
      r := Some((title, account.transactions));
    }

    /** withdraw_funds: a missing title raises KeyError and changes nothing;
        otherwise the account takes the step Withdrawal describes and no other
        account changes. */
    method WithdrawFunds(title: string, researcher: string, amount: int, today: Date)
      returns (r: Result<RequestStatus, PyError>)
      requires Valid()
      modifies accounts.Values
      ensures Valid()
      ensures accounts == old(accounts) && leadResearchers == old(leadResearchers)
      ensures title !in accounts ==> r == Failure(KeyError(title)) && View() == old(View())
      ensures title in accounts ==>
                var (w, status) := Withdrawal(old(View())[title], researcher, amount, today);
                r == Success(status) && View() == old(View())[title := w]
    {
      if title !in accounts {
        return Failure(KeyError(title));
      }
      var account := accounts[title];
      ghost var start := account.View();
      var transactionId := account.numberOfTransactions;
      var status;
      if account.budget >= amount {
        account.budget := account.budget - amount;
        status := Approved;
      } else {
        status := Rejected;
      }
      account.transactions := account.transactions[transactionId := Transaction(researcher, today, amount, status, account.budget)];
      account.numberOfTransactions := account.numberOfTransactions + 1;
      r := Success(status);
      assert (account.View(), status) == Withdrawal(start, researcher, amount, today);
      WithdrawalKeepsNumbering(start, researcher, amount, today);
      forall u | u in old(accounts) && u != title
        ensures unchanged(old(accounts)[u])
      {
        assert old(accounts)[u].title == u;
      }
      StoreUpdated(title, account);
    }

    /** After a step that stored account under title and wrote no field of any
        other stored account, the view differs from the one before only at
        title, and the invariant holds if that account is still well numbered. */
    twostate lemma StoreUpdated(title: string, new account: ResearchAccount)
      requires old(Valid())
      requires accounts == old(accounts)[title := account]
      requires account.title == title && WellNumbered(account.View())
      requires forall lead :: lead in leadResearchers ==> leadResearchers[lead] in accounts
      requires forall u :: u in old(accounts) && u != title ==> unchanged(old(accounts)[u])
      ensures View() == old(View())[title := account.View()]
      ensures Valid()
    {
      forall u | u in accounts && u != title
        ensures accounts[u] == old(accounts)[u] && accounts[u].View() == old(accounts[u].View())
      {
        assert unchanged(old(accounts)[u]);
      }
      var view := old(View())[title := account.View()];
      assert View().Keys == view.Keys;
      forall u | u in view ensures View()[u] == view[u] {
      }
      forall u | u in accounts ensures accounts[u].title == u && WellNumbered(accounts[u].View()) {
        if u != title {
          assert old(accounts)[u].title == u && WellNumbered(old(accounts[u].View()));
        }
      }
    }

  }
}
