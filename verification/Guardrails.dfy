/**
 * The limits on tool calls within one turn: a total budget, a limit on calls made before the
 * first applied edit, and a limit on consecutive read-only calls. The state machine below is
 * the accounting done at each call; the theorems are about every sequence of calls.
 */
module Guardrails {

  datatype Tool = GetPreviewImage | GetImageState | GetPlaybook | ApplyOperations | OtherTool(name: string)

  predicate IsReadOnly(tool: Tool) {
    tool.GetPreviewImage? || tool.GetImageState? || tool.GetPlaybook?
  }

  /** What a turn fixes at its start. */
  datatype Limits = Limits(live: bool, maxToolCalls: int, maxWithoutApply: int, maxReadOnlyStreak: int)

  datatype Usage = Usage(toolCallsUsed: int, readOnlyStreak: int)

  datatype Guard = Pass | BudgetExceeded | NothingAppliedYet | TooManyReadOnly

  /** The accounting of one call: the usage afterwards and whether the call may proceed. */
  function Register(l: Limits, u: Usage, applied: nat, tool: Tool): (Usage, Guard) {
    var used := u.toolCallsUsed + 1;
    if used > l.maxToolCalls then
      (Usage(used, u.readOnlyStreak), BudgetExceeded)
    else if l.live && applied == 0 && tool != ApplyOperations && used > l.maxWithoutApply then
      (Usage(used, u.readOnlyStreak), NothingAppliedYet)
    else if tool == ApplyOperations then
      (Usage(used, 0), Pass)
    else if IsReadOnly(tool) then
      var streak := u.readOnlyStreak + 1;
      (Usage(used, streak), if l.live && streak > l.maxReadOnlyStreak then TooManyReadOnly else Pass)
    else
      (Usage(used, 0), Pass)
  }

  /** The total budget of a turn. */
  function EffectiveToolBudget(live: bool, maxPasses: int): int {
    if !live then 1 else if maxPasses * 3 > 15 then maxPasses * 3 else 15
  }

  // ---- Sequences of calls ----

  /** A call and the number of operations it would get applied if it ran. */
  datatype Call = Call(tool: Tool, edits: nat)

  datatype Progress = Progress(usage: Usage, applied: nat)

  const START := Progress(Usage(0, 0), 0)

  function Decision(l: Limits, p: Progress, c: Call): Guard {
    Register(l, p.usage, p.applied, c.tool).1
  }

  /** Only an apply call that passes, in live mode, can add applied operations. */
  function Step(l: Limits, p: Progress, c: Call): Progress {
    Progress(
      Register(l, p.usage, p.applied, c.tool).0,
      p.applied + if l.live && c.tool == ApplyOperations && Decision(l, p, c).Pass? then c.edits else 0)
  }

  /** Progress before call i, that is, after the first i calls. */
  function At(l: Limits, calls: seq<Call>, i: nat): Progress
    requires i <= |calls|
  {
    if i == 0 then START else Step(l, At(l, calls, i - 1), calls[i - 1])
  }

  predicate Passes(l: Limits, calls: seq<Call>, i: nat)
    requires i < |calls|
  {
    Decision(l, At(l, calls, i), calls[i]).Pass?
  }

  lemma {:induction false} UsedCountsCalls(l: Limits, calls: seq<Call>, i: nat)
    requires i <= |calls|
    ensures At(l, calls, i).usage.toolCallsUsed == i
    ensures At(l, calls, i).usage.readOnlyStreak >= 0
    ensures !l.live ==> At(l, calls, i).applied == 0
  {
    if i > 0 {
      UsedCountsCalls(l, calls, i - 1);
    }
  }

  /** A call that passes is among the first maxToolCalls calls; the others are all refused. */
  lemma BudgetHolds(l: Limits, calls: seq<Call>, i: nat)
    requires i < |calls| && Passes(l, calls, i)
    ensures i < l.maxToolCalls
  {
    UsedCountsCalls(l, calls, i);
  }

  /** Hence the number of calls that pass never exceeds the budget. */
  lemma {:induction false} PassesWithinBudget(l: Limits, calls: seq<Call>, n: nat)
    requires n <= |calls|
    ensures PassCount(l, calls, 0, n) <= n
    ensures l.maxToolCalls >= 0 ==> PassCount(l, calls, 0, n) <= l.maxToolCalls
  {
    if n > 0 {
      PassesWithinBudget(l, calls, n - 1);
      if Passes(l, calls, n - 1) {
        BudgetHolds(l, calls, n - 1);
      }
    }
  }

  /** Number of calls in [from, to) that pass. */
  function PassCount(l: Limits, calls: seq<Call>, from: nat, to: nat): (n: nat)
    requires from <= to <= |calls|
    ensures n <= to - from
  {
    if from == to then 0
    else PassCount(l, calls, from, to - 1) + if Passes(l, calls, to - 1) then 1 else 0
  }

  /** Live mode: before the first applied edit, a passing call other than apply comes early. */
  lemma EarlyApplyIsForced(l: Limits, calls: seq<Call>, i: nat)
    requires i < |calls| && Passes(l, calls, i)
    requires l.live && At(l, calls, i).applied == 0 && calls[i].tool != ApplyOperations
    ensures i < l.maxWithoutApply
  {
    UsedCountsCalls(l, calls, i);
  }

  lemma {:induction false} StreakCountsPasses(l: Limits, calls: seq<Call>, from: nat, to: nat)
    requires from <= to <= |calls| && l.live
    requires forall i :: from <= i < to && Passes(l, calls, i) ==> IsReadOnly(calls[i].tool)
    ensures PassCount(l, calls, from, to) <= At(l, calls, to).usage.readOnlyStreak
    ensures PassCount(l, calls, from, to) > 0 ==> PassCount(l, calls, from, to) <= l.maxReadOnlyStreak
  {
    if from < to {
      StreakCountsPasses(l, calls, from, to - 1);
    } else {
      UsedCountsCalls(l, calls, to);
    }
  }

  /**
   * Live mode: in any stretch of calls in which only read-only calls pass, whatever is refused in
   * between, no more than the configured number of them pass.
   */
  lemma ReadOnlyStreakIsBounded(l: Limits, calls: seq<Call>, from: nat, to: nat)
    requires from <= to <= |calls| && l.live && l.maxReadOnlyStreak >= 0
    requires forall i :: from <= i < to && Passes(l, calls, i) ==> IsReadOnly(calls[i].tool)
    ensures PassCount(l, calls, from, to) <= l.maxReadOnlyStreak
  {
    StreakCountsPasses(l, calls, from, to);
  }

  /** Outside live mode nothing is ever applied. */
  lemma NoEditsOutsideLiveMode(l: Limits, calls: seq<Call>)
    requires !l.live
    ensures forall i :: 0 <= i <= |calls| ==> At(l, calls, i).applied == 0
  {
    forall i | 0 <= i <= |calls| ensures At(l, calls, i).applied == 0 {
      UsedCountsCalls(l, calls, i);
    }
  }

  /**
   * Conversely, in live mode an apply call within the budget always passes, whatever came before:
   * the guardrails can never lock a turn out of editing.
   */
  lemma ApplyPassesIff(l: Limits, calls: seq<Call>, i: nat)
    requires i < |calls| && calls[i].tool == ApplyOperations
    ensures Passes(l, calls, i) <==> i < l.maxToolCalls
  {
    UsedCountsCalls(l, calls, i);
  }

  /**
   * With the budget a turn is given: outside live mode only its first call passes; in live mode none passes
   * beyond three per pass or fifteen, and until then every apply call does.
   */
  lemma BudgetOfATurn(l: Limits, maxPasses: int, calls: seq<Call>, i: nat)
    requires l.maxToolCalls == EffectiveToolBudget(l.live, maxPasses) && i < |calls|
    ensures !l.live && Passes(l, calls, i) ==> i == 0
    ensures l.live && Passes(l, calls, i) ==> i < 15 || i < 3 * maxPasses
    ensures l.live && calls[i].tool == ApplyOperations && (i < 15 || i < 3 * maxPasses) ==> Passes(l, calls, i)
  {
    UsedCountsCalls(l, calls, i);
  }

  /** Nothing but read-only calls since call k, which passed and was not one; no other limit is reached. */
  predicate ReadOnlySince(l: Limits, calls: seq<Call>, k: nat, i: nat) {
    && k < i < |calls| && i < l.maxToolCalls
    && Passes(l, calls, k) && !IsReadOnly(calls[k].tool)
    && (forall j :: k < j <= i ==> IsReadOnly(calls[j].tool))
    && (At(l, calls, k + 1).applied > 0 || i < l.maxWithoutApply)
  }

  lemma {:induction false} StreakSince(l: Limits, calls: seq<Call>, k: nat, i: nat)
    requires ReadOnlySince(l, calls, k, i)
    ensures At(l, calls, i).usage.readOnlyStreak == i - k - 1
    ensures At(l, calls, i).applied == At(l, calls, k + 1).applied
  {
    UsedCountsCalls(l, calls, i - 1);
    if k + 1 < i {
      StreakSince(l, calls, k, i - 1);
      assert IsReadOnly(calls[i - 1].tool);
    }
  }

  /** Live mode: after any passing call of another kind exactly the configured number of read-only calls pass. */
  lemma ReadOnlyPassesIff(l: Limits, calls: seq<Call>, k: nat, i: nat)
    requires l.live && ReadOnlySince(l, calls, k, i)
    ensures Passes(l, calls, i) <==> i - k <= l.maxReadOnlyStreak
  {
    StreakSince(l, calls, k, i);
    UsedCountsCalls(l, calls, i);
    assert IsReadOnly(calls[i].tool);
  }

  // ---- Which calls pass, in terms of the calls alone ----

  /** Some call before call i was an apply call within the budget that got operations applied. */
  ghost predicate EditedBefore(l: Limits, calls: seq<Call>, i: nat)
    requires i <= |calls|
  {
    exists j :: 0 <= j < i && j < l.maxToolCalls && calls[j].tool == ApplyOperations && calls[j].edits > 0
  }

  /** Call i is refused neither for the budget nor for coming late without an edit. */
  ghost predicate InTime(l: Limits, calls: seq<Call>, i: nat)
    requires i < |calls|
  {
    && i < l.maxToolCalls
    && (calls[i].tool == ApplyOperations || EditedBefore(l, calls, i) || i < l.maxWithoutApply)
  }

  predicate OnlyLooks(tool: Tool) {
    tool in {GetPreviewImage, GetImageState, GetPlaybook}
  }

  /** The read-only calls since the last call of another kind, before call i; calls refused as late do not matter. */
  ghost function LooksBefore(l: Limits, calls: seq<Call>, i: nat): nat
    requires i <= |calls|
  {
    if i == 0 then 0
    else if !InTime(l, calls, i - 1) then LooksBefore(l, calls, i - 1)
    else if OnlyLooks(calls[i - 1].tool) then LooksBefore(l, calls, i - 1) + 1
    else 0
  }

  lemma {:induction false} ProgressIs(l: Limits, calls: seq<Call>, i: nat)
    requires i <= |calls| && l.live
    ensures At(l, calls, i).usage == Usage(i, LooksBefore(l, calls, i))
    ensures At(l, calls, i).applied > 0 <==> EditedBefore(l, calls, i)
  {
    if i > 0 {
      ProgressIs(l, calls, i - 1);
      assert EditedBefore(l, calls, i) <==>
             EditedBefore(l, calls, i - 1) ||
             (i - 1 < l.maxToolCalls && calls[i - 1].tool == ApplyOperations && calls[i - 1].edits > 0);
    }
  }

  /**
   * For every call of every sequence in live mode, whether it passes and why not: beyond the budget; not an apply call,
   * late, and nothing applied yet; or read-only after as many read-only calls as are allowed in a row.
   */
  lemma LiveDecision(l: Limits, calls: seq<Call>, i: nat)
    requires i < |calls| && l.live
    ensures var tool := calls[i].tool;
            Decision(l, At(l, calls, i), calls[i]) ==
            if i >= l.maxToolCalls then BudgetExceeded
            else if tool != ApplyOperations && !EditedBefore(l, calls, i) && i >= l.maxWithoutApply then
              NothingAppliedYet
            else if tool in {GetPreviewImage, GetImageState, GetPlaybook}
                    && LooksBefore(l, calls, i) >= l.maxReadOnlyStreak then TooManyReadOnly
            else Pass
  {
    ProgressIs(l, calls, i);
  }

  /** Outside live mode every call within the budget passes, whatever the tool. */
  lemma PlainDecision(l: Limits, calls: seq<Call>, i: nat)
    requires i < |calls| && !l.live
    ensures Decision(l, At(l, calls, i), calls[i]) == if i < l.maxToolCalls then Pass else BudgetExceeded
  {
    UsedCountsCalls(l, calls, i);
  }
}
