/**
 * The in-memory leave ledger: a map from employee id to a record of the
 * remaining balance and the dates already taken, and the one transition that
 * changes it, applying for leave.
 */
module Ledger {

  /** One employee's entry: the days left and the dates taken, oldest first. */
  datatype Record = Record(balance: int, history: seq<string>)

  type Store = map<string, Record>

  /** The store every process starts from. */
  const SEED: Store := map[
    "E001" := Record(18, ["2024-12-25", "2025-01-01"]),
    "E002" := Record(20, [])
  ]

  predicate AllNonNegative(store: Store) {
    forall id :: id in store ==> store[id].balance >= 0
  }

  /** Every seeded balance is non-negative. */
  lemma SeedIsNonNegative()
    ensures AllNonNegative(SEED)
  {
  }

  /** The three ways a leave application ends. */
  datatype ApplyOutcome =
    | NotFound
    | Insufficient(requested: nat, available: int)
    | Applied(requested: nat, remaining: int)

  datatype Step = Step(store: Store, outcome: ApplyOutcome)

  /**
   * Applying for `dates` on behalf of `id`: rejected when the id is unknown or
   * the balance is below the number of dates; otherwise the balance drops by
   * that number and the dates are appended to the history.
   */
  function Apply(store: Store, id: string, dates: seq<string>): (r: Step)
    ensures r.store.Keys == store.Keys
    ensures r.outcome.NotFound? <==> id !in store
    ensures r.outcome.Applied? <==> id in store && |dates| <= store[id].balance
    ensures !r.outcome.Applied? ==> r.store == store
    ensures r.outcome.Insufficient? ==>
      r.outcome.requested == |dates| && r.outcome.available == store[id].balance
    ensures r.outcome.Applied? ==>
      && r.store[id].balance == store[id].balance - |dates|
      && r.store[id].history == store[id].history + dates
      && r.outcome.requested == |dates|
      && r.outcome.remaining == r.store[id].balance
    ensures forall k :: k in store && k != id ==> r.store[k] == store[k]
  {
    if id !in store then Step(store, NotFound)
    else
      var requested := |dates|;
      var available := store[id].balance;
      if available < requested then Step(store, Insufficient(requested, available))
      else
        var updated := Record(available - requested, store[id].history + dates);
        Step(store[id := updated], Applied(requested, updated.balance))
  }

  /** No balance is driven below zero by an application. */
  lemma ApplyKeepsNonNegative(store: Store, id: string, dates: seq<string>)
    requires AllNonNegative(store)
    ensures AllNonNegative(Apply(store, id, dates).store)
  {
  }

  /** The history of every employee only grows, and only at its end. */
  lemma ApplyExtendsHistory(store: Store, id: string, dates: seq<string>, k: string)
    requires k in store
    ensures var after := Apply(store, id, dates).store;
      k in after && store[k].history <= after[k].history
  {
  }

  /** An application with no dates succeeds and leaves the store as it was. */
  lemma ApplyNoDates(store: Store, id: string)
    requires id in store && store[id].balance >= 0
    ensures Apply(store, id, []) == Step(store, Applied(0, store[id].balance))
  {
    var r := Apply(store, id, []);
    assert store[id].history + [] == store[id].history;
    assert r.store == store;
  }

  /** One call of the leave-application tool. */
  datatype LeaveRequest = LeaveRequest(employeeId: string, leaveDates: seq<string>)

  datatype Trace = Trace(store: Store, outcomes: seq<ApplyOutcome>)

  /** A sequence of applications served one after another, in order. */
  function Run(store: Store, requests: seq<LeaveRequest>): (r: Trace)
    ensures |r.outcomes| == |requests|
    ensures r.store.Keys == store.Keys
    decreases |requests|
  {
    if requests == [] then Trace(store, [])
    else
      var before := Run(store, requests[..|requests| - 1]);
      var last := requests[|requests| - 1];
      var step := Apply(before.store, last.employeeId, last.leaveDates);
      Trace(step.store, before.outcomes + [step.outcome])
  }

  /** Serving one more request continues the run from where it stood. */
  lemma RunAppend(store: Store, requests: seq<LeaveRequest>, last: LeaveRequest)
    ensures var before := Run(store, requests);
      var step := Apply(before.store, last.employeeId, last.leaveDates);
      Run(store, requests + [last]) == Trace(step.store, before.outcomes + [step.outcome])
  {
    assert (requests + [last])[..|requests|] == requests;
  }

  /** The dates granted to `k` across a run, in the order they were granted. */
  function Granted(requests: seq<LeaveRequest>, outcomes: seq<ApplyOutcome>, k: string): seq<string>
    requires |outcomes| == |requests|
    decreases |requests|
  {
    if requests == [] then []
    else
      var n := |requests| - 1;
      var earlier := Granted(requests[..n], outcomes[..n], k);
      if requests[n].employeeId == k && outcomes[n].Applied?
      then earlier + requests[n].leaveDates
      else earlier
  }

  /**
   * Conservation over a serial run: each employee's balance drops by exactly
   * the number of dates granted to them, and those dates, in order, are what
   * their history gained.
   */
  lemma {:induction false} RunConservesLeave(store: Store, requests: seq<LeaveRequest>, k: string)
    requires k in store
    ensures var r := Run(store, requests);
      && k in r.store
      && r.store[k].history == store[k].history + Granted(requests, r.outcomes, k)
      && r.store[k].balance == store[k].balance - |Granted(requests, r.outcomes, k)|
    decreases |requests|
  {
    if requests != [] {
      var n := |requests| - 1;
      var earlier, last := requests[..n], requests[n];
      var before := Run(store, earlier);
      RunConservesLeave(store, earlier, k);
      var step := Apply(before.store, last.employeeId, last.leaveDates);
      var r := Run(store, requests);
      assert r == Trace(step.store, before.outcomes + [step.outcome]);
      assert r.outcomes[..n] == before.outcomes && r.outcomes[n] == step.outcome;
      var grantedBefore := Granted(earlier, before.outcomes, k);
      var gained := if last.employeeId == k && step.outcome.Applied? then last.leaveDates else [];
      assert Granted(requests, r.outcomes, k) == grantedBefore + gained;
      ApplyGrants(before.store, last.employeeId, last.leaveDates, k);
      assert store[k].history + grantedBefore + gained == store[k].history + (grantedBefore + gained);
    }
  }

  /** One application gives `k` exactly the dates it grants to `k`, and charges `k` for them. */
  lemma ApplyGrants(store: Store, id: string, dates: seq<string>, k: string)
    requires k in store
    ensures var step := Apply(store, id, dates);
      var gained := if id == k && step.outcome.Applied? then dates else [];
      && k in step.store
      && step.store[k].history == store[k].history + gained
      && step.store[k].balance == store[k].balance - |gained|
  {
  }

  /** A serial run started from non-negative balances never makes one negative. */
  lemma {:induction false} RunKeepsNonNegative(store: Store, requests: seq<LeaveRequest>)
    requires AllNonNegative(store)
    ensures AllNonNegative(Run(store, requests).store)
    decreases |requests|
  {
    if requests != [] {
      var n := |requests| - 1;
      RunKeepsNonNegative(store, requests[..n]);
      ApplyKeepsNonNegative(Run(store, requests[..n]).store, requests[n].employeeId, requests[n].leaveDates);
    }
  }

  /** Serving one more request from the seed store: that request is applied, and no balance is negative. */
  lemma SeedRunStep(served: seq<LeaveRequest>, last: LeaveRequest)
    ensures Run(SEED, served + [last]).store ==
      Apply(Run(SEED, served).store, last.employeeId, last.leaveDates).store
    ensures AllNonNegative(Run(SEED, served + [last]).store)
  {
    RunAppend(SEED, served, last);
    SeedIsNonNegative();
    RunKeepsNonNegative(SEED, served + [last]);
  }
}
