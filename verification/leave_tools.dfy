/**
 * The four tools of the leave manager: the texts they answer with, the
 * readers that recover the data from those texts, and the object holding the
 * live store that `apply_leave` updates in place.
 */
module LeaveTools {
  import opened Wrappers
  import opened Decimal
  import opened TextJoin
  import opened Ledger

  const NOT_FOUND: string := "Employee ID not found."
  const BALANCE_MID: string := " has "
  const BALANCE_TAIL: string := " leave days remaining."
  const HISTORY_HEAD: string := "Leave history for "
  const HISTORY_MID: string := ": "
  const NO_LEAVES: string := "No leaves taken."
  const APPLIED_HEAD: string := "Leave applied for "
  const APPLIED_MID: string := " day(s). Remaining balance: "
  const SHORT_HEAD: string := "Insufficient leave balance. You requested "
  const SHORT_MID: string := " day(s) but have only "
  const GREETING_HEAD: string := "Hello, "
  const GREETING_TAIL: string := "! How can I assist you with leave management today?"

  // ---- text helpers ----

  function StripPrefix(head: string, s: string): (r: Option<string>)
    ensures r.Some? <==> head <= s
    ensures r.Some? ==> s == head + r.value
  {
    if head <= s then Some(s[|head|..]) else None
  }

  function StripSuffix(tail: string, s: string): (r: Option<string>)
    ensures r.Some? <==> |tail| <= |s| && s[|s| - |tail|..] == tail
    ensures r.Some? ==> s == r.value + tail
  {
    if |tail| <= |s| && s[|s| - |tail|..] == tail then Some(s[..|s| - |tail|]) else None
  }

  /** Regrouping a concatenation; a hint for proofs over long reply texts. */
  lemma ConcatAssoc(x: string, y: string, z: string)
    ensures x + (y + z) == x + y + z
  {
  }

  // ---- get_leave_balance ----

  /** The reply of `get_leave_balance`. */
  function BalanceReply(store: Store, employeeId: string): (r: string)
    ensures r == NOT_FOUND <==> employeeId !in store
  {
    if employeeId in store then
      employeeId + BALANCE_MID + IntToDecimal(store[employeeId].balance) + BALANCE_TAIL
    else
      NOT_FOUND
  }

  /** What a client reads from a balance reply about `employeeId`. */
  function ReadBalance(employeeId: string, msg: string): Option<int> {
    var rest :- StripPrefix(employeeId + BALANCE_MID, msg);
    var digits :- StripSuffix(BALANCE_TAIL, rest);
    ParseInt(digits)
  }

  /** A balance reply tells exactly the balance on file, and nothing for an unknown id. */
  lemma BalanceReplyReadsBack(store: Store, employeeId: string)
    ensures ReadBalance(employeeId, BalanceReply(store, employeeId)) ==
      if employeeId in store then Some(store[employeeId].balance) else None
  {
    if employeeId in store {
      ReadsBalanceOf(employeeId, store[employeeId].balance);
    } else {
      NotFoundHasNoBalance(employeeId);
    }
  }

  /** A balance text built from any integer reads back as that integer. */
  lemma ReadsBalanceOf(employeeId: string, balance: int)
    ensures ReadBalance(employeeId, employeeId + BALANCE_MID + IntToDecimal(balance) + BALANCE_TAIL) == Some(balance)
  {
    var head, number := employeeId + BALANCE_MID, IntToDecimal(balance);
    assert head + number + BALANCE_TAIL == head + (number + BALANCE_TAIL);
    assert StripPrefix(head, head + (number + BALANCE_TAIL)) == Some(number + BALANCE_TAIL);
    assert StripSuffix(BALANCE_TAIL, number + BALANCE_TAIL) == Some(number);
    IntRoundTrip(balance);
  }

  /** The not-found text is too short to hold a balance reply for any id. */
  lemma NotFoundHasNoBalance(employeeId: string)
    ensures ReadBalance(employeeId, NOT_FOUND) == None
  {
  }

  // ---- get_leave_history ----

  /**
   * The part of a history reply after the colon: the dates joined by SEP, or
   * the empty-history text. Only one non-empty history reads the same as the
   * empty one.
   */
  function HistoryText(history: seq<string>): (r: string)
    ensures r == NO_LEAVES <==> history == [] || history == [NO_LEAVES]
  {
    if history == [] then NO_LEAVES
    else
      Join(history)
  }

  /** The reply of `get_leave_history`. */
  function HistoryReply(store: Store, employeeId: string): (r: string)
    ensures r == NOT_FOUND <==> employeeId !in store
  {
    if employeeId in store then
      var r := HISTORY_HEAD + employeeId + HISTORY_MID + HistoryText(store[employeeId].history);
      assert r[0] == 'L' != NOT_FOUND[0];
      r
    else
      NOT_FOUND
  }

  /** What a client reads from a history reply about `employeeId`. */
  function ReadHistory(employeeId: string, msg: string): Option<seq<string>> {
    var rest :- StripPrefix(HISTORY_HEAD + employeeId + HISTORY_MID, msg);
    if rest == NO_LEAVES then Some([]) else Some(Split(rest))
  }

  /**
   * A history reply lists the dates on file, in order, as long as no date
   * contains SEP and the history is not the single entry that reads like the
   * empty-history text.
   */
  lemma HistoryReplyReadsBack(store: Store, employeeId: string)
    requires employeeId in store ==>
      NoneHasSep(store[employeeId].history) && store[employeeId].history != [NO_LEAVES]
    ensures ReadHistory(employeeId, HistoryReply(store, employeeId)) ==
      if employeeId in store then Some(store[employeeId].history) else None
  {
    var head := HISTORY_HEAD + employeeId + HISTORY_MID;
    if employeeId in store {
      var history := store[employeeId].history;
      assert HistoryReply(store, employeeId) == head + HistoryText(history);
      if history != [] {
        SplitJoin(history);
      }
    } else {
      assert head[0] == 'L' != NOT_FOUND[0];
    }
  }

  lemma HistoryTextAppend(earlier: seq<string>, dates: seq<string>)
    requires dates != []
    ensures HistoryText(earlier + dates) ==
      if earlier == [] then Join(dates) else Join(earlier) + SEP + Join(dates)
  {
    if earlier == [] {
      assert earlier + dates == dates;
    } else {
      JoinAppend(earlier, dates);
    }
  }

  /**
   * After a successful application of at least one date, the history reply is
   * the previous one with the new dates joined on at its end.
   */
  lemma ApplyExtendsHistoryReply(store: Store, employeeId: string, dates: seq<string>)
    requires employeeId in store && |dates| <= store[employeeId].balance && dates != []
    ensures var after := Apply(store, employeeId, dates).store;
      HistoryReply(after, employeeId) ==
        if store[employeeId].history == []
        then HISTORY_HEAD + employeeId + HISTORY_MID + Join(dates)
        else HistoryReply(store, employeeId) + SEP + Join(dates)
  {
    var head := HISTORY_HEAD + employeeId + HISTORY_MID;
    var earlier := store[employeeId].history;
    var after := Apply(store, employeeId, dates).store;
    assert after[employeeId].history == earlier + dates;
    assert HistoryReply(after, employeeId) == head + HistoryText(earlier + dates);
    HistoryTextAppend(earlier, dates);
    if earlier != [] {
      var a, b := Join(earlier), Join(dates);
      assert HistoryReply(store, employeeId) == head + a;
      ConcatAssoc(head, a + SEP, b);
      ConcatAssoc(head, a, SEP);
      assert HistoryReply(after, employeeId) == HistoryReply(store, employeeId) + SEP + b;
    } else {
      assert HistoryReply(after, employeeId) == head + Join(dates);
    }
  }

  // ---- apply_leave ----

  /** The reply of `apply_leave`; only an unknown id gets the not-found text. */
  function ApplyReply(outcome: ApplyOutcome): (r: string)
    ensures r == NOT_FOUND <==> outcome.NotFound?
  {
    match outcome
    case NotFound => NOT_FOUND
    case Insufficient(requested, available) =>
      SHORT_HEAD + (NatToDecimal(requested) + SHORT_MID + IntToDecimal(available) + ".")
    case Applied(requested, remaining) =>
      APPLIED_HEAD + (NatToDecimal(requested) + APPLIED_MID + IntToDecimal(remaining) + ".")
  }

  /** Reads "<head><count><mid><integer>." into the two numbers. */
  function ReadTwoNumbers(head: string, mid: string, msg: string): Option<(nat, int)> {
    var afterHead :- StripPrefix(head, msg);
    var (count, afterCount) :- ReadNat(afterHead);
    var value :- ReadTail(mid, afterCount);
    Some((count, value))
  }

  /** Reads "<mid><integer>." into the integer. */
  function ReadTail(mid: string, s: string): Option<int> {
    var afterMid :- StripPrefix(mid, s);
    var number :- StripSuffix(".", afterMid);
    ParseInt(number)
  }

  /** What a client reads from an `apply_leave` reply. */
  function ReadApplyReply(msg: string): Option<ApplyOutcome> {
    if msg == NOT_FOUND then Some(NotFound)
    else if APPLIED_HEAD <= msg then
      var (requested, remaining) :- ReadTwoNumbers(APPLIED_HEAD, APPLIED_MID, msg);
      Some(Applied(requested, remaining))
    else
      var (requested, available) :- ReadTwoNumbers(SHORT_HEAD, SHORT_MID, msg);
      Some(Insufficient(requested, available))
  }

  /** A reply built from two numbers reads back as those two numbers. */
  lemma ReadTwoNumbersOf(head: string, mid: string, count: nat, value: int)
    requires |mid| >= 1 && !IsDigit(mid[0])
    ensures ReadTwoNumbers(head, mid, head + (NatToDecimal(count) + mid + IntToDecimal(value) + ".")) ==
      Some((count, value))
  {
    var c, v := NatToDecimal(count), IntToDecimal(value);
    ConcatAssoc(c, mid, v + ".");
    ConcatAssoc(c + mid, v, ".");
    ReadCountOf(head, count, mid + (v + "."));
    ReadTailOf(mid, value);
  }

  /** The head and the count come off a reply, leaving the text after the count. */
  lemma ReadCountOf(head: string, count: nat, rest: string)
    requires rest == [] || !IsDigit(rest[0])
    ensures StripPrefix(head, head + (NatToDecimal(count) + rest)) == Some(NatToDecimal(count) + rest)
    ensures ReadNat(NatToDecimal(count) + rest) == Some((count, rest))
  {
    ReadNatOfConcat(count, rest);
  }

  /** The text after the count reads back as the second number. */
  lemma ReadTailOf(mid: string, value: int)
    ensures ReadTail(mid, mid + (IntToDecimal(value) + ".")) == Some(value)
  {
    var v := IntToDecimal(value);
    assert StripPrefix(mid, mid + (v + ".")) == Some(v + ".");
    assert StripSuffix(".", v + ".") == Some(v);
    IntRoundTrip(value);
  }

  lemma ShortReplyRoundTrip(requested: nat, available: int)
    ensures ReadApplyReply(ApplyReply(Insufficient(requested, available))) ==
      Some(Insufficient(requested, available))
  {
    var msg := ApplyReply(Insufficient(requested, available));
    assert msg[0] == SHORT_HEAD[0] == 'I';
    assert !(APPLIED_HEAD <= msg) by { assert APPLIED_HEAD[0] == 'L'; }
    ReadTwoNumbersOf(SHORT_HEAD, SHORT_MID, requested, available);
  }

  lemma AppliedReplyRoundTrip(requested: nat, remaining: int)
    ensures ReadApplyReply(ApplyReply(Applied(requested, remaining))) ==
      Some(Applied(requested, remaining))
  {
    var msg := ApplyReply(Applied(requested, remaining));
    assert APPLIED_HEAD <= msg;
    ReadTwoNumbersOf(APPLIED_HEAD, APPLIED_MID, requested, remaining);
  }

  /** Every outcome of `apply_leave` can be recovered from its reply text. */
  lemma ApplyReplyRoundTrip(outcome: ApplyOutcome)
    ensures ReadApplyReply(ApplyReply(outcome)) == Some(outcome)
  {
    match outcome
    case NotFound =>
    case Insufficient(requested, available) => ShortReplyRoundTrip(requested, available);
    case Applied(requested, remaining) => AppliedReplyRoundTrip(requested, remaining);
  }

  // ---- get_greeting ----

  /** The greeting resource; it does not look at the store. */
  function Greeting(name: string): (r: string)
    ensures ReadGreeting(r) == Some(name)
  {
    var r := GREETING_HEAD + name + GREETING_TAIL;
    assert r == GREETING_HEAD + (name + GREETING_TAIL);
    r
  }

  function ReadGreeting(msg: string): Option<string> {
    var rest :- StripPrefix(GREETING_HEAD, msg);
    StripSuffix(GREETING_TAIL, rest)
  }

  // ---- the live store and the tool dispatch ----

  /** A call of one of the three ledger tools, with its typed arguments. */
  datatype ToolCall =
    | BalanceQuery(employeeId: string)
    | LeaveApplication(employeeId: string, leaveDates: seq<string>)
    | HistoryQuery(employeeId: string)

  /** The process-wide store of leave records, seeded at start-up. */
  class LeaveManager {
    var employeeLeaves: Store
    // the leave applications served so far, oldest first
    ghost var served: seq<LeaveRequest>

    /** The store is what serving those applications in order made of the seed. */
    ghost predicate Valid()
      reads this
    {
      employeeLeaves == Run(SEED, served).store
    }

    constructor ()
      ensures Valid() && served == []
      ensures employeeLeaves == SEED
    {
      employeeLeaves := SEED;
      served := [];
    }

    /**
     * `apply_leave`: check the id, then the balance, and only then deduct and
     * append, so that a rejected call changes nothing.
     */
    method ApplyLeave(employeeId: string, leaveDates: seq<string>) returns (response: string)
      requires Valid()
      modifies this
      ensures Valid() && served == old(served) + [LeaveRequest(employeeId, leaveDates)]
      ensures employeeLeaves == Apply(old(employeeLeaves), employeeId, leaveDates).store
      ensures response == ApplyReply(Apply(old(employeeLeaves), employeeId, leaveDates).outcome)
      ensures AllNonNegative(employeeLeaves)
    {
      ghost var step := Apply(employeeLeaves, employeeId, leaveDates);
      if employeeId !in employeeLeaves {
        assert step == Step(employeeLeaves, NotFound);
        response := NOT_FOUND;
      } else {
        var requestedDays := |leaveDates|;
        var availableBalance := employeeLeaves[employeeId].balance;
        if availableBalance < requestedDays {
          assert step == Step(employeeLeaves, Insufficient(requestedDays, availableBalance));
          response := ApplyReply(Insufficient(requestedDays, availableBalance));
        } else {
          var entry := employeeLeaves[employeeId];
          employeeLeaves := employeeLeaves[employeeId := entry.(balance := entry.balance - requestedDays)];
          entry := employeeLeaves[employeeId];
          employeeLeaves := employeeLeaves[employeeId := entry.(history := entry.history + leaveDates)];
          ghost var updated := Record(availableBalance - requestedDays, old(employeeLeaves)[employeeId].history + leaveDates);
          assert employeeLeaves == old(employeeLeaves)[employeeId := updated];
          assert step == Step(employeeLeaves, Applied(requestedDays, updated.balance));
          response := ApplyReply(Applied(requestedDays, employeeLeaves[employeeId].balance));
        }
      }
      SeedRunStep(served, LeaveRequest(employeeId, leaveDates));
      served := served + [LeaveRequest(employeeId, leaveDates)];
    }

    /** Serves one tool call; only a leave application may change the store. */
    method Invoke(call: ToolCall) returns (text: string)
      requires Valid()
      modifies this
      ensures Valid()
      ensures served == if call.LeaveApplication?
        then old(served) + [LeaveRequest(call.employeeId, call.leaveDates)]
        else old(served)
      ensures !call.LeaveApplication? ==> employeeLeaves == old(employeeLeaves)
      ensures call.BalanceQuery? ==> text == BalanceReply(old(employeeLeaves), call.employeeId)
      ensures call.HistoryQuery? ==> text == HistoryReply(old(employeeLeaves), call.employeeId)
      ensures call.LeaveApplication? ==>
        var step := Apply(old(employeeLeaves), call.employeeId, call.leaveDates);
        employeeLeaves == step.store && text == ApplyReply(step.outcome)
    {
      match call
      case BalanceQuery(employeeId) =>
        text := BalanceReply(employeeLeaves, employeeId);
      case LeaveApplication(employeeId, leaveDates) =>
        text := ApplyLeave(employeeId, leaveDates);
      case HistoryQuery(employeeId) =>
        text := HistoryReply(employeeLeaves, employeeId);
    }
  }

  /** A granted application against the seeded store, checked against the contracts above. */
  method SeedSessionGranted() {
    assert NatToDecimal(2) == "2" && IntToDecimal(16) == "16";
    var manager := new LeaveManager();
    SeedGrant();
    var reply := manager.ApplyLeave("E001", ["2025-04-17", "2025-05-01"]);
    assert reply == APPLIED_HEAD + ("2" + APPLIED_MID + "16" + ".");
    assert manager.employeeLeaves["E001"] ==
      Record(16, ["2024-12-25", "2025-01-01", "2025-04-17", "2025-05-01"]);
    GrantedHistoryText();
    assert HistoryText(manager.employeeLeaves["E001"].history) ==
      "2024-12-25" + SEP + "2025-01-01" + SEP + "2025-04-17" + SEP + "2025-05-01";
  }

  /** Granting E001 two more dates on the seed store. */
  lemma SeedGrant()
    ensures Apply(SEED, "E001", ["2025-04-17", "2025-05-01"]) ==
      Step(SEED["E001" := Record(16, ["2024-12-25", "2025-01-01", "2025-04-17", "2025-05-01"])], Applied(2, 16))
  {
    assert SEED["E001"].history + ["2025-04-17", "2025-05-01"] ==
      ["2024-12-25", "2025-01-01", "2025-04-17", "2025-05-01"];
  }

  /** Asking for more days than E002 holds on the seed store. */
  lemma SeedRefusal(request: seq<string>)
    requires |request| == 25
    ensures Apply(SEED, "E002", request) == Step(SEED, Insufficient(25, 20))
  {
  }

  /** The history text of E001 after the granted application above. */
  lemma GrantedHistoryText()
    ensures HistoryText(["2024-12-25", "2025-01-01", "2025-04-17", "2025-05-01"]) ==
      "2024-12-25" + SEP + "2025-01-01" + SEP + "2025-04-17" + SEP + "2025-05-01"
  {
  }

  /** A refused application against the seeded store leaves it as it was. */
  method SeedSessionRefused() {
    var manager := new LeaveManager();
    var request := seq(25, i => "2025-06-01");
    SeedRefusal(request);
    var refused := manager.ApplyLeave("E002", request);
    assert NatToDecimal(25) == "25" && IntToDecimal(20) == "20";
    assert refused == SHORT_HEAD + ("25" + SHORT_MID + "20" + ".");
    assert manager.employeeLeaves["E002"] == Record(20, []);
  }

  /** Two lookups against the seeded store: an empty history and an unknown id. */
  method SeedSessionLookups() {
    var manager := new LeaveManager();
    var history := manager.Invoke(HistoryQuery("E002"));
    assert history == HISTORY_HEAD + "E002" + HISTORY_MID + NO_LEAVES;
    var unknown := manager.Invoke(BalanceQuery("E404"));
    assert unknown == NOT_FOUND;
  }
}
