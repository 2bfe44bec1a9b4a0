/**
 * The state of one planner turn and the operations that edit it: registration of the
 * snapshot, the tool that applies a batch, and the final plan. Control objects are shared
 * between the payload shown to the planner and the map the engine edits.
 */
module LiveTurn {
  import opened Wrappers
  import opened Settings
  import opened Guardrails
  import Binder
  import Counting
  import OperationIds
  import Text
  import WhiteBalance

  /** One control of the payload; operations update its current values in place. */
  class Control {
    const spec: ControlSpec
    var number: Option<real>
    var choiceValue: Option<int>
    var choiceId: Option<string>
    var flag: Option<bool>

    constructor (s: Setting)
      ensures View() == s
    {
      spec := s.spec;
      number, choiceValue, choiceId, flag := s.number, s.choiceValue, s.choiceId, s.flag;
    }

    function View(): Setting
      reads this
    {
      Setting(spec, number, choiceValue, choiceId, flag)
    }
  }

  type ControlMap = map<string, Control>

  ghost function ViewOf(controls: ControlMap): SettingMap
    reads controls.Values
  {
    map id | id in controls :: controls[id].View()
  }

  ghost predicate NoSharing(controls: ControlMap) {
    forall a, b :: a in controls && b in controls && a != b ==> controls[a] != controls[b]
  }

  /** Controls by id, in the order of the payload; when ids repeat the last object wins. */
  function ById(payload: seq<Control>): ControlMap {
    if payload == [] then map[]
    else
      var last := payload[|payload| - 1];
      var before := ById(payload[..|payload| - 1]);
      if last.spec.settingId == "" then before else before[last.spec.settingId := last]
  }

  ghost predicate DistinctObjects(payload: seq<Control>) {
    forall i, j :: 0 <= i < j < |payload| ==> payload[i] != payload[j]
  }

  lemma {:induction false} ByIdObjects(payload: seq<Control>)
    ensures forall id :: id in ById(payload) ==>
              ById(payload)[id] in payload && ById(payload)[id].spec.settingId == id && id != ""
    ensures NoSharing(ById(payload))
  {
    if payload != [] {
      ByIdObjects(payload[..|payload| - 1]);
    }
  }

  /** An object of the payload is the one the engine edits exactly when no later one has its id. */
  lemma {:induction false} ByIdPicksLast(payload: seq<Control>, i: nat)
    requires DistinctObjects(payload) && i < |payload| && payload[i].spec.settingId != ""
    ensures payload[i].spec.settingId in ById(payload)
    ensures ById(payload)[payload[i].spec.settingId] == payload[i] <==>
            forall j :: i < j < |payload| ==> payload[j].spec.settingId != payload[i].spec.settingId
  {
    var n := |payload| - 1;
    if i < n {
      ByIdPicksLast(payload[..n], i);
      assert payload[n].spec.settingId == payload[i].spec.settingId ==> payload[n] != payload[i];
    }
  }

  lemma {:induction false} ViewOfById(payload: seq<Control>, settings: seq<Setting>)
    requires |payload| == |settings|
    requires forall i :: 0 <= i < |settings| ==> payload[i].View() == Compact(settings[i])
    ensures ViewOf(ById(payload)) == Snapshot(settings)
  {
    if payload != [] {
      var n := |payload| - 1;
      ViewOfById(payload[..n], settings[..n]);
      var before := ById(payload[..n]);
      assert payload[n].View() == Compact(settings[n]);
      assert ViewOf(before[payload[n].spec.settingId := payload[n]]) ==
             ViewOf(before)[payload[n].spec.settingId := payload[n].View()];
    }
  }

  /** Build the payload's control objects, and the map over them, from the snapshot. */
  method BuildPayload(settings: seq<Setting>) returns (payload: seq<Control>, settingById: ControlMap)
    ensures |payload| == |settings| && DistinctObjects(payload)
    ensures forall c :: c in payload ==> fresh(c)
    ensures forall i :: 0 <= i < |settings| ==> payload[i].View() == Compact(settings[i])
    ensures settingById == ById(payload)
  {
    payload, settingById := [], map[];
    for i := 0 to |settings|
      invariant |payload| == i && DistinctObjects(payload)
      invariant forall c :: c in payload ==> fresh(c)
      invariant forall k :: 0 <= k < i ==> payload[k].View() == Compact(settings[k])
      invariant settingById == ById(payload)
    {
      var control := new Control(Compact(settings[i]));
      assert (payload + [control])[..i] == payload;
      payload := payload + [control];
      if control.spec.settingId != "" {
        settingById := settingById[control.spec.settingId := control];
      }
    }
  }

  /** Apply one operation in place, or say why not and change nothing. */
  method ApplyOperationToSettings(settings: ControlMap, op: Operation) returns (error: Option<Rejection>)
    requires NoSharing(settings)
    modifies settings.Values
    ensures match Apply(old(ViewOf(settings)), op)
            case Failure(why) => error == Some(why) && ViewOf(settings) == old(ViewOf(settings))
            case Success(m) => error.None? && ViewOf(settings) == m
  {
    if op.settingId !in settings {
      return Some(UnknownSetting);
    }
    var control := settings[op.settingId];
    assert control in settings.Values;
    error := Verdict(control.spec, op);
    if error.Some? {
      return;
    }
    match op.value {
      case FloatValue(mode, number) =>
        var current := control.number.GetOr(control.spec.defaultNumber.GetOr(0.0));
        var resolved := if mode == DeltaMode then current + number else number;
        control.number := Some(Clamp(resolved, control.spec.minNumber, control.spec.maxNumber));
      case ChoiceValue(choiceValue, _) =>
        var mapping := ChoiceMapping(control.spec.choices);
        control.choiceValue := Some(choiceValue);
        if choiceValue in mapping {
          control.choiceId := Some(mapping[choiceValue]);
        }
      case BoolValue(flag) =>
        control.flag := Some(flag);
    }
    assert control.View() == Updated(old(ViewOf(settings))[op.settingId], op);
  }

  /** Copy every control, so that a batch can be tried without touching the live state. */
  method DeepCopy(settings: ControlMap) returns (copies: ControlMap)
    ensures ViewOf(copies) == ViewOf(settings) && NoSharing(copies)
    ensures forall id :: id in copies ==> fresh(copies[id])
  {
    copies := map[];
    var ids := settings.Keys;
    while ids != {}
      invariant ids <= settings.Keys && copies.Keys == settings.Keys - ids
      invariant NoSharing(copies)
      invariant forall id :: id in copies ==> fresh(copies[id]) && copies[id].View() == settings[id].View()
      decreases |ids|
    {
      var id :| id in ids;
      var copied := new Control(settings[id].View());
      copies := copies[id := copied];
      ids := ids - {id};
    }
  }

  // ---- Preparing a batch ----

  datatype ToolError =
    | NotLive
    | NothingRequested
    | BothForms
    | NothingBound(failures: seq<Binder.Miss>)
    | UnresolvedTarget
    | Rejected(why: Rejection)

  ghost function MatchingIds(m: SettingMap, actionPath: string): set<string> {
    set id | id in m && m[id].spec.actionPath == actionPath
  }

  /** Fill in a missing id and, for an unknown setting id, the only control with the action path. */
  ghost function NormalizedRaw(m: SettingMap, raw: Operation, sequence: nat): Result<Operation, ToolError> {
    var op := raw.(
      operationId := if raw.operationId == "" then "tool-op-" + Text.Decimal(sequence) else raw.operationId,
      sequence := sequence);
    if raw.settingId in m then Success(op)
    else if |MatchingIds(m, raw.actionPath)| == 1 then
      var id :| id in MatchingIds(m, raw.actionPath);
      Success(op.(settingId := id))
    else Failure(UnresolvedTarget)
  }

  ghost function PreparedRaw(m: SettingMap, operations: seq<Operation>, next: nat): Result<seq<Operation>, ToolError> {
    if operations == [] then Success([])
    else
      var n := |operations| - 1;
      match PreparedRaw(m, operations[..n], next)
      case Failure(e) => Failure(e)
      case Success(before) =>
        match NormalizedRaw(m, operations[n], next + n)
        case Failure(e) => Failure(e)
        case Success(op) => Success(before + [op])
  }

  /** The batch an apply call stands for, before reordering. */
  ghost function Prepared(
    base: seq<Setting>, m: SettingMap, next: nat, operations: seq<Operation>, actions: seq<Binder.Action>
  ): Result<seq<Operation>, ToolError> {
    if operations == [] && actions == [] then Failure(NothingRequested)
    else if operations != [] && actions != [] then Failure(BothForms)
    else if actions != [] then
      var bound := Binder.Bound(base, actions);
      if bound.operations == [] then Failure(NothingBound(bound.failures)) else Success(bound.operations)
    else PreparedRaw(m, operations, next)
  }

  /** The only control with an action path. */
  ghost predicate IsOnlyMatch(m: SettingMap, actionPath: string, id: string) {
    && id in m && m[id].spec.actionPath == actionPath
    && forall other :: other in m && m[other].spec.actionPath == actionPath ==> other == id
  }

  /** The control that a raw entry is for: the one with its id, or else the only one with its action path. */
  ghost predicate IsFor(m: SettingMap, raw: Operation, id: string) {
    if raw.settingId in m then id == raw.settingId else IsOnlyMatch(m, raw.actionPath, id)
  }

  ghost predicate Resolves(m: SettingMap, raw: Operation) {
    exists id :: IsFor(m, raw, id)
  }

  /** A raw entry with its sequence number, an id, and its target resolved; what is to be edited stays as it was. */
  ghost predicate ResolvedAs(m: SettingMap, raw: Operation, sequence: nat, op: Operation) {
    && op.sequence == sequence && op.actionPath == raw.actionPath && op.value == raw.value
    && op.operationId == (if raw.operationId != "" then raw.operationId else "tool-op-" + Text.Decimal(sequence))
    && IsFor(m, raw, op.settingId)
  }

  lemma OnlyMatchIff(m: SettingMap, actionPath: string)
    ensures |MatchingIds(m, actionPath)| == 1 <==> exists id :: IsOnlyMatch(m, actionPath, id)
    ensures forall id :: |MatchingIds(m, actionPath)| == 1 && id in MatchingIds(m, actionPath) ==>
              IsOnlyMatch(m, actionPath, id)
  {
    var ids := MatchingIds(m, actionPath);
    if |ids| == 1 {
      forall id | id in ids ensures IsOnlyMatch(m, actionPath, id) {
        forall other | other in m && m[other].spec.actionPath == actionPath ensures other == id {
          SingletonChoice(ids, other, id);
        }
      }
      var id :| id in ids;
      assert IsOnlyMatch(m, actionPath, id);
    }
    if id :| IsOnlyMatch(m, actionPath, id) {
      assert ids == {id};
    }
  }

  /** When a raw entry is accepted, and what it becomes. */
  lemma RawEntry(m: SettingMap, raw: Operation, sequence: nat)
    ensures NormalizedRaw(m, raw, sequence).Success? <==> Resolves(m, raw)
    ensures NormalizedRaw(m, raw, sequence).Success? ==>
              ResolvedAs(m, raw, sequence, NormalizedRaw(m, raw, sequence).value)
    ensures NormalizedRaw(m, raw, sequence).Failure? ==> NormalizedRaw(m, raw, sequence).error == UnresolvedTarget
  {
    OnlyMatchIff(m, raw.actionPath);
    if raw.settingId in m {
      assert IsFor(m, raw, raw.settingId);
    } else {
      assert forall id :: IsFor(m, raw, id) <==> IsOnlyMatch(m, raw.actionPath, id);
    }
  }

  /**
   * A raw batch is prepared exactly when all its targets resolve; then it has the same entries in the same order,
   * numbered from the next sequence number on.
   */
  lemma {:induction false} RawBatch(m: SettingMap, operations: seq<Operation>, next: nat)
    ensures PreparedRaw(m, operations, next).Success? <==> forall op :: op in operations ==> Resolves(m, op)
    ensures PreparedRaw(m, operations, next).Failure? ==> PreparedRaw(m, operations, next).error == UnresolvedTarget
    ensures PreparedRaw(m, operations, next).Success? ==>
              var r := PreparedRaw(m, operations, next).value;
              && |r| == |operations|
              && forall i :: 0 <= i < |r| ==> ResolvedAs(m, operations[i], next + i, r[i])
  {
    hide NormalizedRaw, Resolves, ResolvedAs;
    if operations != [] {
      var n := |operations| - 1;
      RawBatch(m, operations[..n], next);
      RawEntry(m, operations[n], next + n);
      assert operations == operations[..n] + [operations[n]];
    }
  }

  /** What an apply call stands for, and why it stands for nothing. */
  lemma PreparedBatch(
    base: seq<Setting>, m: SettingMap, next: nat, operations: seq<Operation>, actions: seq<Binder.Action>)
    ensures var p, bound := Prepared(base, m, next, operations, actions), Binder.Bound(base, actions);
            && (operations == [] && actions == [] ==> p == Failure(NothingRequested))
            && (operations != [] && actions != [] ==> p == Failure(BothForms))
            && (operations == [] && actions != [] ==>
                  p == if bound.operations == [] then Failure(NothingBound(bound.failures))
                       else Success(bound.operations))
            && (operations != [] && actions == [] ==>
                  && (p.Success? <==> forall op :: op in operations ==> Resolves(m, op))
                  && (p.Failure? ==> p.error == UnresolvedTarget)
                  && (p.Success? ==>
                        && |p.value| == |operations|
                        && forall i :: 0 <= i < |operations| ==> ResolvedAs(m, operations[i], next + i, p.value[i])))
  {
    hide PreparedRaw, Resolves, ResolvedAs, Binder.Bound;
    RawBatch(m, operations, next);
  }

  lemma NothingBinds(base: seq<Setting>, actions: seq<Binder.Action>)
    ensures actions == [] ==> Binder.Bound(base, actions).operations == []
  {
  }

  lemma SingletonChoice<T>(s: set<T>, x: T, y: T)
    requires |s| == 1 && x in s && y in s
    ensures x == y
  {
    if x != y {
      Counting.SubsetSize({x, y}, s);
    }
  }

  method NormalizeToolOperation(settings: ControlMap, raw: Operation, sequence: nat)
    returns (r: Result<Operation, ToolError>)
    ensures r == NormalizedRaw(ViewOf(settings), raw, sequence)
    ensures r.Success? <==> Resolves(ViewOf(settings), raw)
    ensures r.Success? ==> ResolvedAs(ViewOf(settings), raw, sequence, r.value)
  {
    RawEntry(ViewOf(settings), raw, sequence);
    var op := raw.(
      operationId := if raw.operationId == "" then "tool-op-" + Text.Decimal(sequence) else raw.operationId,
      sequence := sequence);
    if raw.settingId in settings {
      return Success(op);
    }
    var matches := set id | id in settings && settings[id].spec.actionPath == raw.actionPath;
    assert matches == MatchingIds(ViewOf(settings), raw.actionPath);
    if |matches| == 1 {
      var id :| id in matches;
      r := Success(op.(settingId := id));
      if NormalizedRaw(ViewOf(settings), raw, sequence).Success? {
        SingletonChoice(matches, id, NormalizedRaw(ViewOf(settings), raw, sequence).value.settingId);
      }
      return;
    }
    r := Failure(UnresolvedTarget);
  }

  method PrepareApplyBatch(
    base: seq<Setting>, settings: ControlMap, next: nat, operations: seq<Operation>, actions: seq<Binder.Action>
  ) returns (r: Result<seq<Operation>, ToolError>)
    ensures r == Prepared(base, ViewOf(settings), next, operations, actions)
  {
    if operations == [] && actions == [] {
      return Failure(NothingRequested);
    }
    if operations != [] && actions != [] {
      return Failure(BothForms);
    }
    if actions != [] {
      var bound := Binder.BindCanonicalActions(base, actions);
      if bound.operations == [] {
        return Failure(NothingBound(bound.failures));
      }
      return Success(bound.operations);
    }
    r := PrepareRawBatch(settings, operations, next);
  }

  /** The raw form, entry by entry up to the first error. */
  method PrepareRawBatch(settings: ControlMap, operations: seq<Operation>, next: nat)
    returns (r: Result<seq<Operation>, ToolError>)
    ensures r == PreparedRaw(ViewOf(settings), operations, next)
  {
    hide NormalizedRaw;
    var batch := [];
    ghost var m := ViewOf(settings);
    for i := 0 to |operations|
      invariant PreparedRaw(m, operations[..i], next) == Success(batch)
    {
      assert operations[..i + 1][..i] == operations[..i];
      var op := NormalizeToolOperation(settings, operations[i], next + i);
      if op.Failure? {
        PreparedRawFails(m, operations, next, i + 1);
        return Failure(op.error);
      }
      batch := batch + [op.value];
    }
    assert operations[..|operations|] == operations;
    r := Success(batch);
  }

  lemma {:induction false} PreparedRawFails(m: SettingMap, operations: seq<Operation>, next: nat, i: nat)
    requires i <= |operations| && PreparedRaw(m, operations[..i], next).Failure?
    ensures PreparedRaw(m, operations, next) == PreparedRaw(m, operations[..i], next)
  {
    if i < |operations| {
      assert operations[..|operations| - 1][..i] == operations[..i];
      PreparedRawFails(m, operations[..|operations| - 1], next, i);
    } else {
      assert operations[..i] == operations;
    }
  }

  // ---- The turn ----

  datatype Plan = Plan(assistantText: string, continueRefining: bool, operations: seq<Operation>)

  datatype ToolResponse = Applied(count: nat, total: nat) | Refused(error: ToolError)

  /** The first thing that went wrong: preparing the batch, else its first refused operation in applied order. */
  ghost predicate Explains(error: ToolError, m: SettingMap, prepared: Result<seq<Operation>, ToolError>) {
    match prepared
    case Failure(e) => error == e
    case Success(batch) => error.Rejected? && Run(m, WhiteBalance.Ordered(batch)) == Failure(error.why)
  }

  const RUN_PREFIX := "run-op-"

  class TurnContext {
    const base: seq<Setting>
    const baseRevision: string
    const limits: Limits
    const payload: seq<Control>
    const settingById: ControlMap
    var imageRevision: string
    var appliedOperations: seq<Operation>
    var nextOperationSequence: nat
    var requiresRenderCallback: bool
    var toolCallsUsed: int
    var consecutiveReadOnlyToolCalls: int

    /** The control objects this turn may change. */
    ghost function Controls(): set<Control> {
      set c | c in payload
    }

    ghost function Settings(): SettingMap
      reads settingById.Values
    {
      ViewOf(settingById)
    }

    function RevisionAfter(n: nat): string {
      if n == 0 then baseRevision else baseRevision + ":tool-" + Text.Decimal(n)
    }

    /** What registration fixes: one object per snapshot entry, shared with the map. */
    ghost predicate Shape() {
      && |payload| == |base| && DistinctObjects(payload)
      && settingById == ById(payload)
      && NoSharing(settingById)
      && settingById.Values <= Controls()
    }

    /** Entries whose id is repeated later are never edited. */
    ghost predicate ShadowedUntouched()
      requires |payload| == |base|
      reads Controls()
    {
      forall i :: 0 <= i < |base| && payload[i] !in settingById.Values ==> payload[i].View() == Compact(base[i])
    }

    /** The live settings are the replay of the log from the snapshot. */
    ghost predicate LogReplays()
      reads this`appliedOperations, settingById.Values
    {
      Run(Snapshot(base), appliedOperations) == Success(Settings())
    }

    /** Everything but the render flag, which is up only while a step waits for its render. */
    ghost predicate Consistent()
      reads this`appliedOperations, this`nextOperationSequence, this`imageRevision, Controls(), settingById.Values
    {
      && Shape()
      && ShadowedUntouched()
      && LogReplays()
      && nextOperationSequence == 1 + |appliedOperations|
      && imageRevision == RevisionAfter(|appliedOperations|)
      && (!limits.live ==> appliedOperations == [])
    }

    ghost predicate Valid()
      reads this`appliedOperations, this`nextOperationSequence, this`imageRevision, this`requiresRenderCallback,
            Controls(), settingById.Values
    {
      Consistent() && !requiresRenderCallback
    }

    /** Registration of a turn. */
    constructor (settings: seq<Setting>, revision: string, l: Limits)
      ensures Valid() && base == settings && limits == l && baseRevision == revision
      ensures Settings() == Snapshot(settings) && appliedOperations == []
      ensures Usage(toolCallsUsed, consecutiveReadOnlyToolCalls) == START.usage
      ensures fresh(Controls())
    {
      var controls, byId := BuildPayload(settings);
      ByIdObjects(controls);
      ViewOfById(controls, settings);
      base, baseRevision, limits := settings, revision, l;
      payload, settingById := controls, byId;
      imageRevision := revision;
      appliedOperations, nextOperationSequence := [], 1;
      requiresRenderCallback := false;
      toolCallsUsed, consecutiveReadOnlyToolCalls := 0, 0;
    }

    /** The planner sees the live value of a control exactly through the last entry with its id. */
    lemma PayloadAgrees(i: nat)
      requires Valid() && i < |payload| && payload[i].spec.settingId != ""
      ensures payload[i].spec.settingId in settingById
      ensures (forall j :: i < j < |payload| ==> payload[j].spec.settingId != payload[i].spec.settingId)
              <==> settingById[payload[i].spec.settingId] == payload[i]
      ensures (forall j :: i < j < |payload| ==> payload[j].spec.settingId != payload[i].spec.settingId)
              ==> payload[i].View() == Settings()[payload[i].spec.settingId]
      ensures (exists j :: i < j < |payload| && payload[j].spec.settingId == payload[i].spec.settingId)
              ==> payload[i].View() == Compact(base[i])
    {
      ByIdPicksLast(payload, i);
      ByIdObjects(payload);
    }

    /** The effect of one operation on the shared control objects alone. */
    method EditControls(op: Operation) returns (error: Option<Rejection>)
      requires Shape() && ShadowedUntouched()
      modifies settingById.Values
      ensures ShadowedUntouched()
      ensures match Apply(old(Settings()), op)
              case Failure(why) => error == Some(why) && Settings() == old(Settings())
              case Success(m) => error.None? && Settings() == m
    {
      error := ApplyOperationToSettings(settingById, op);
    }

    /** Commit one operation to the live state and log it. */
    method ApplyLiveOperationStep(op: Operation) returns (error: Option<Rejection>)
      requires Consistent() && limits.live
      modifies this`imageRevision, this`appliedOperations, this`nextOperationSequence,
               this`requiresRenderCallback, settingById.Values
      ensures Consistent()
      ensures match Apply(old(Settings()), op)
              case Failure(why) =>
                && error == Some(why) && Settings() == old(Settings())
                && appliedOperations == old(appliedOperations)
                && requiresRenderCallback == old(requiresRenderCallback)
              case Success(m) =>
                && error.None? && Settings() == m
                && appliedOperations == old(appliedOperations) + [op]
                && requiresRenderCallback
    {
      error := EditControls(op);
      if error.Some? {
        return;
      }
      RunSnoc(Snapshot(base), appliedOperations, op);
      LogOperation(op);
    }

    /** Record an operation that has just been applied, and ask for a render. */
    method LogOperation(op: Operation)
      modifies this`imageRevision, this`appliedOperations, this`nextOperationSequence, this`requiresRenderCallback
      ensures appliedOperations == old(appliedOperations) + [op]
      ensures nextOperationSequence == old(nextOperationSequence) + 1
      ensures imageRevision == baseRevision + ":tool-" + Text.Decimal(|appliedOperations|)
      ensures requiresRenderCallback
    {
      appliedOperations := appliedOperations + [op];
      nextOperationSequence := nextOperationSequence + 1;
      imageRevision := baseRevision + ":tool-" + Text.Decimal(|appliedOperations|);
      requiresRenderCallback := true;
    }

    /** The wait for a render ends, with an image or by its deadline; either way the request is over. */
    method WaitForLiveRender()
      requires Consistent()
      modifies this`requiresRenderCallback
      ensures Valid()
    {
      requiresRenderCallback := false;
    }

    /**
     * The apply tool. A batch is applied exactly when the turn is live, the batch can be prepared,
     * and it runs on the current settings in its given order; then the settings are those of that
     * run, although the log holds the reordered batch. Otherwise nothing changes.
     */
    method ApplyOperations(operations: seq<Operation>, actions: seq<Binder.Action>)
      returns (response: ToolResponse)
      requires Valid()
      modifies this`imageRevision, this`appliedOperations, this`nextOperationSequence,
               this`requiresRenderCallback, settingById.Values
      ensures Valid()
      ensures response.Applied? <==>
              && limits.live
              && var p := Prepared(base, old(Settings()), old(nextOperationSequence), operations, actions);
                 p.Success? && Run(old(Settings()), p.value).Success?
      ensures response.Applied? ==>
              var batch := Prepared(base, old(Settings()), old(nextOperationSequence), operations, actions).value;
              && Run(old(Settings()), batch) == Success(Settings())
              && appliedOperations == old(appliedOperations) + WhiteBalance.Ordered(batch)
              && response == Applied(|batch|, |appliedOperations|)
              && (batch != [] ==> imageRevision == baseRevision + ":tool-" + Text.Decimal(|appliedOperations|))
      ensures response.Refused? ==>
              if !limits.live then response.error == NotLive
              else Explains(response.error, old(Settings()),
                            Prepared(base, old(Settings()), old(nextOperationSequence), operations, actions))
      ensures response.Refused? ==>
              && Settings() == old(Settings())
              && appliedOperations == old(appliedOperations)
              && nextOperationSequence == old(nextOperationSequence)
              && imageRevision == old(imageRevision)
    {
      hide Run, Prepared, WhiteBalance.Ordered;
      if !limits.live {
        return Refused(NotLive);
      }
      var prepared := PrepareApplyBatch(base, settingById, nextOperationSequence, operations, actions);
      if prepared.Failure? {
        return Refused(prepared.error);
      }
      var ordered := WhiteBalance.OrderOperationsForApply(prepared.value);
      WhiteBalance.OrderingPreservesMeaning(Settings(), prepared.value);
      WhiteBalance.OrderedShape(prepared.value);

      var error := Simulate(settingById, ordered);
      if error.Some? {
        return Refused(Rejected(error.value));
      }
      Commit(ordered);
      response := Applied(|ordered|, |appliedOperations|);
    }

    /** The live settings have the controls of the snapshot, whatever was applied so far. */
    lemma LiveControlsAreKept()
      requires Valid()
      ensures SameSpecs(Snapshot(base), Settings())
    {
      RunSucceedsIff(Snapshot(base), appliedOperations);
    }

    /**
     * The apply tool called with canonical actions of which at least one binds, in any state of the turn: the batch
     * runs, and so is applied, exactly when every request meets the snapshot the turn started from. With unique
     * setting ids and no crop it always does.
     */
    lemma CanonicalCallRuns(actions: seq<Binder.Action>)
      requires Valid() && ValidSnapshot(base)
      ensures var batch := Binder.Bound(base, actions).operations;
              && (batch != [] ==> Prepared(base, Settings(), nextOperationSequence, [], actions) == Success(batch))
              && (Run(Settings(), batch).Success? <==>
                  forall r :: r in Binder.AllRequests(actions) ==> Binder.Meets(base, r))
              && (UniqueSettingIds(base) && (forall a :: a in actions ==> !Binder.IsCrop(a)) ==>
                  Run(Settings(), batch).Success?)
    {
      LiveControlsAreKept();
      Binder.BinderIsSound(base, Settings(), actions);
      if UniqueSettingIds(base) {
        Binder.UniqueIdsAreAccepted(base, Settings(), actions);
      }
      NothingBinds(base, actions);
    }

    /**
     * The apply tool called with operations, in any state of the turn: the batch can be prepared and runs, and so is
     * applied, exactly when each entry is for a control and the request's list allows the edit of it.
     */
    lemma RawCallRuns(operations: seq<Operation>)
      requires Valid() && ValidSnapshot(base) && operations != []
      ensures var p := Prepared(base, Settings(), nextOperationSequence, operations, []);
              p.Success? && Run(Settings(), p.value).Success? <==>
              forall raw :: raw in operations ==>
                exists id :: IsFor(Settings(), raw, id) && Allows(base, raw.(settingId := id))
    {
      hide Allows, Run, Prepared, IsFor, ValidSnapshot;
      LiveControlsAreKept();
      PreparedBatch(base, Settings(), nextOperationSequence, operations, []);
      var p := Prepared(base, Settings(), nextOperationSequence, operations, []);
      if p.Success? {
        BatchAcceptedIff(base, Settings(), p.value);
        EntriesAllowed(base, Settings(), nextOperationSequence, operations, p.value);
      }
    }

    static lemma EntriesAllowed(settings: seq<Setting>, m: SettingMap, next: nat, operations: seq<Operation>,
                                batch: seq<Operation>)
      requires |batch| == |operations|
      requires forall i :: 0 <= i < |batch| ==> ResolvedAs(m, operations[i], next + i, batch[i])
      ensures (forall op :: op in batch ==> Allows(settings, op)) <==>
              forall raw :: raw in operations ==>
                exists id :: IsFor(m, raw, id) && Allows(settings, raw.(settingId := id))
    {
      forall i | 0 <= i < |batch|
        ensures Allows(settings, batch[i]) <==>
                exists id :: IsFor(m, operations[i], id) && Allows(settings, operations[i].(settingId := id))
      {
        EntryAllowed(settings, m, operations[i], next + i, batch[i]);
      }
      hide Allows, IsFor, ResolvedAs;
      assert forall op :: op in batch ==> exists i :: 0 <= i < |batch| && batch[i] == op;
    }

    static lemma EntryAllowed(settings: seq<Setting>, m: SettingMap, raw: Operation, sequence: nat, op: Operation)
      requires ResolvedAs(m, raw, sequence, op)
      ensures Allows(settings, op) <==> exists id :: IsFor(m, raw, id) && Allows(settings, raw.(settingId := id))
    {
      forall id | IsFor(m, raw, id) ensures id == op.settingId {
      }
      assert Allows(settings, op) <==> Allows(settings, raw.(settingId := op.settingId));
    }

    /** One step of the commit loop; its error branch cannot be reached. */
    method CommitStep(op: Operation)
      requires Valid() && limits.live && Apply(Settings(), op).Success?
      modifies this`imageRevision, this`appliedOperations, this`nextOperationSequence,
               this`requiresRenderCallback, settingById.Values
      ensures Valid()
      ensures Apply(old(Settings()), op) == Success(Settings())
      ensures appliedOperations == old(appliedOperations) + [op]
    {
      var error := ApplyLiveOperationStep(op);
      if error.Some? {
        assert false;
      }
      WaitForLiveRender();
    }

    /** Step by step: after a successful simulation no step can be refused. */
    method Commit(ordered: seq<Operation>)
      requires Valid() && limits.live && Run(Settings(), ordered).Success?
      modifies this`imageRevision, this`appliedOperations, this`nextOperationSequence,
               this`requiresRenderCallback, settingById.Values
      ensures Valid()
      ensures Run(old(Settings()), ordered) == Success(Settings())
      ensures appliedOperations == old(appliedOperations) + ordered
    {
      hide *;
      ghost var start, log := Settings(), appliedOperations;
      RunEmpty(start);
      for i := 0 to |ordered|
        invariant Valid()
        invariant Run(start, ordered[..i]) == Success(Settings())
        invariant appliedOperations == log + ordered[..i]
      {
        RunStep(start, ordered, i);
        assert ordered[..i + 1] == ordered[..i] + [ordered[i]];
        CommitStep(ordered[i]);
      }
      assert ordered[..|ordered|] == ordered;
    }

    /** Accounting of a tool call; the context's counters follow the guardrail state machine. */
    method RegisterToolCall(tool: Tool) returns (guard: Guard)
      modifies this`toolCallsUsed, this`consecutiveReadOnlyToolCalls
      ensures (Usage(toolCallsUsed, consecutiveReadOnlyToolCalls), guard) ==
              Register(limits, old(Usage(toolCallsUsed, consecutiveReadOnlyToolCalls)), |appliedOperations|, tool)
    {
      toolCallsUsed := toolCallsUsed + 1;
      if toolCallsUsed > limits.maxToolCalls {
        return BudgetExceeded;
      }
      if limits.live && appliedOperations == [] && tool != Tool.ApplyOperations
         && toolCallsUsed > limits.maxWithoutApply {
        return NothingAppliedYet;
      }
      if tool == Tool.ApplyOperations {
        consecutiveReadOnlyToolCalls := 0;
        return Pass;
      }
      if IsReadOnly(tool) {
        consecutiveReadOnlyToolCalls := consecutiveReadOnlyToolCalls + 1;
        if limits.live && consecutiveReadOnlyToolCalls > limits.maxReadOnlyStreak {
          return TooManyReadOnly;
        }
        return Pass;
      }
      consecutiveReadOnlyToolCalls := 0;
      guard := Pass;
    }

    /**
     * The plan returned at the end of the turn. Replaying its operations from the snapshot gives the
     * live settings exactly when something was applied, or the planned operations change nothing; its ids
     * and sequences always validate.
     */
    method FinalizePlan(plan: Plan) returns (final: Plan)
      requires Valid()
      ensures final.assistantText == plan.assistantText
      ensures final.continueRefining <==> !limits.live && plan.continueRefining
      ensures OperationIds.PassesValidator(final.operations)
      ensures forall i :: 0 <= i < |final.operations| ==>
                final.operations[i].operationId != "" && final.operations[i].sequence == i + 1
      ensures |final.operations| == |Merged(plan.operations)|
      ensures FinalIdsOf(Merged(plan.operations), final.operations)
      ensures forall i :: 0 <= i < |final.operations| ==> SameEdit(final.operations[i], Merged(plan.operations)[i])
      ensures Run(Snapshot(base), final.operations) == Success(Settings()) <==>
              appliedOperations != [] || Run(Snapshot(base), plan.operations) == Success(Snapshot(base))
    {
      var merged := if limits.live && appliedOperations != [] then appliedOperations
                    else appliedOperations + plan.operations;
      assert merged == Merged(plan.operations);
      MergedReplays(plan.operations);
      hide *;
      var continueRefining := if limits.live then false else plan.continueRefining;
      if merged == [] {
        NothingIsFinal();
        final := Plan(plan.assistantText, continueRefining, []);
        return;
      }
      var operations := OperationIds.NormalizeOperationsWithUniqueIds(merged, RUN_PREFIX);
      FinalIsSound(Snapshot(base), merged);
      FinalIds(merged);
      final := Plan(plan.assistantText, continueRefining, operations);
    }

    static lemma NothingIsFinal()
      ensures OperationIds.PassesValidator([]) && FinalIdsOf([], [])
    {
    }

    /** Each operation keeps its id, or gets one from its position, with a number behind it if that is taken. */
    static ghost predicate FinalIdsOf(merged: seq<Operation>, operations: seq<Operation>) {
      |operations| == |merged| &&
      forall i :: 0 <= i < |merged| ==>
        OperationIds.FirstUnused(operations[i].operationId,
                                 if merged[i].operationId != "" then merged[i].operationId
                                 else "run-op-" + Text.Decimal(i + 1),
                                 OperationIds.Ids(operations[..i]))
    }

    static lemma FinalIds(merged: seq<Operation>)
      ensures FinalIdsOf(merged, OperationIds.Normalized(merged, RUN_PREFIX))
    {
      hide OperationIds.Normalized, OperationIds.FirstUnused;
      forall i | 0 <= i < |merged|
        ensures var r := OperationIds.Normalized(merged, RUN_PREFIX);
                OperationIds.FirstUnused(r[i].operationId,
                                         if merged[i].operationId != "" then merged[i].operationId
                                         else "run-op-" + Text.Decimal(i + 1),
                                         OperationIds.Ids(r[..i]))
      {
        OperationIds.AssignedId(merged, RUN_PREFIX, i);
      }
    }

    static lemma FinalIsSound(m: SettingMap, merged: seq<Operation>)
      ensures var r := OperationIds.Normalized(merged, RUN_PREFIX);
              && OperationIds.PassesValidator(r)
              && (forall i :: 0 <= i < |r| ==> r[i].operationId != "" && r[i].sequence == i + 1)
              && (forall i :: 0 <= i < |r| ==> SameEdit(r[i], merged[i]))
              && Run(m, r) == Run(m, merged)
    {
      OperationIds.NormalizedIsSound(merged, RUN_PREFIX);
      OperationIds.NormalizedPassesValidator(merged, RUN_PREFIX);
      RunSameEdits(m, OperationIds.Normalized(merged, RUN_PREFIX), merged);
    }

    /** The merged operations replay to the live settings unless nothing was applied and the plan changes something. */
    lemma MergedReplays(planned: seq<Operation>)
      requires Valid()
      ensures Run(Snapshot(base), Merged(planned)) == Success(Settings()) <==>
              appliedOperations != [] || Run(Snapshot(base), planned) == Success(Snapshot(base))
    {
      RunEmpty(Snapshot(base));
    }

    ghost function Merged(planned: seq<Operation>): seq<Operation>
      reads this`appliedOperations
    {
      if appliedOperations != [] then appliedOperations else planned
    }
  }

  /** Run a batch on a copy of the controls; the first refusal, if any. */
  method Simulate(settings: ControlMap, ordered: seq<Operation>) returns (error: Option<Rejection>)
    ensures error == match Run(ViewOf(settings), ordered) case Success(_) => None case Failure(why) => Some(why)
  {
    hide Apply;
    ghost var start := ViewOf(settings);
    var simulated := DeepCopy(settings);
    for i := 0 to |ordered|
      invariant NoSharing(simulated) && forall id :: id in simulated ==> fresh(simulated[id])
      invariant Run(start, ordered[..i]) == Success(ViewOf(simulated))
    {
      RunStep(start, ordered, i);
      error := ApplyOperationToSettings(simulated, ordered[i]);
      if error.Some? {
        return;
      }
    }
    assert ordered[..|ordered|] == ordered;
    error := None;
  }

  /**
   * The replay claim needs an applied edit: a live turn that applied nothing returns the operations of its final
   * message, and here they switch a flag that the live settings still show as off.
   */
  method UnappliedPlanMayDiffer() returns (context: TurnContext, final: Plan)
    ensures context.Valid() && context.limits.live && context.appliedOperations == []
    ensures ValidSnapshot(context.base) && Run(Snapshot(context.base), final.operations).Success?
    ensures Run(Snapshot(context.base), final.operations) != Success(context.Settings())
  {
    var spec := ControlSpec("s", "m", "l", "p", BoolKind, [SetMode], None, None, None, []);
    var s := Setting(spec, None, None, None, Some(false));
    var op := Operation("a", 1, "s", "p", BoolValue(true));
    var base := [s];
    FlagCanBeSwitched(s, op);
    context := new TurnContext(base, "revision", Limits(true, 15, 5, 5));
    final := context.FinalizePlan(Plan("", false, [op]));
    assert context.Merged([op]) == [op];
    RunSameEdits(Snapshot(base), final.operations, [op]);
  }

  lemma FlagCanBeSwitched(s: Setting, op: Operation)
    requires s.spec.kind == BoolKind && s.spec.supportedModes == [SetMode]
    requires s.flag == Some(false) && s.spec.settingId != ""
    requires op.settingId == s.spec.settingId && op.actionPath == s.spec.actionPath && op.value == BoolValue(true)
    ensures ValidSnapshot([s])
    ensures Run(Snapshot([s]), [op]).Success? && Run(Snapshot([s]), [op]).value != Snapshot([s])
  {
    var m := Snapshot([s]);
    assert [s][..0] == [] && Snapshot([]) == map[];
    assert m == map[s.spec.settingId := Compact(s)];
    assert Refusal(m, op).None? && [op][1..] == [];
    assert Run(m, [op]) == Success(m[op.settingId := Updated(m[op.settingId], op)]);
    assert m[op.settingId := Updated(m[op.settingId], op)][op.settingId].flag == Some(true);
  }
}
