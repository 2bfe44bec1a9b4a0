/**
 * Editable controls, operations on them, and what it means to apply operations.
 * A control is a fixed specification plus current values; an operation may only
 * change current values, and whether it is accepted depends on the specification
 * alone. Everything the live-edit engine promises rests on these two facts.
 */
module Settings {
  import opened Wrappers
  import StableSort

  datatype Kind = FloatKind | ChoiceKind | BoolKind
  datatype Mode = DeltaMode | SetMode
  datatype ChoiceOption = ChoiceOption(choiceValue: int, choiceId: string)

  datatype ControlSpec = ControlSpec(
    settingId: string,
    moduleId: string,
    controlLabel: string,
    actionPath: string,
    kind: Kind,
    supportedModes: seq<Mode>,
    minNumber: Option<real>,
    maxNumber: Option<real>,
    defaultNumber: Option<real>,
    choices: seq<ChoiceOption>)

  datatype Setting = Setting(
    spec: ControlSpec,
    number: Option<real>,
    choiceValue: Option<int>,
    choiceId: Option<string>,
    flag: Option<bool>)

  type SettingMap = map<string, Setting>

  /** A choice or bool edit always has mode "set". */
  datatype Value =
    | FloatValue(mode: Mode, number: real)
    | ChoiceValue(choiceValue: int, choiceId: Option<string>)
    | BoolValue(flag: bool)

  datatype Operation = Operation(
    operationId: string,
    sequence: int,
    settingId: string,
    actionPath: string,
    value: Value)

  datatype Rejection =
    | UnknownSetting
    | ActionPathMismatch
    | KindMismatch
    | UnsupportedMode
    | InvalidChoiceValue
    | ChoiceIdMismatch

  function KindOf(value: Value): Kind {
    match value
    case FloatValue(_, _) => FloatKind
    case ChoiceValue(_, _) => ChoiceKind
    case BoolValue(_) => BoolKind
  }

  function ModeOf(value: Value): Mode {
    if value.FloatValue? then value.mode else SetMode
  }

  /** Later entries win, as in a dictionary filled in list order. */
  function ChoiceMapping(choices: seq<ChoiceOption>): map<int, string> {
    if choices == [] then map[]
    else
      var last := choices[|choices| - 1];
      var before := ChoiceMapping(choices[..|choices| - 1]);
      if last.choiceId == "" then before else before[last.choiceValue := last.choiceId]
  }

  /** Why an operation aimed at a control with this specification is refused, if it is. */
  function Verdict(spec: ControlSpec, op: Operation): Option<Rejection> {
    if spec.actionPath != op.actionPath then Some(ActionPathMismatch)
    else if spec.kind != KindOf(op.value) then Some(KindMismatch)
    else if ModeOf(op.value) !in spec.supportedModes then Some(UnsupportedMode)
    else if op.value.ChoiceValue? then
      var mapping := ChoiceMapping(spec.choices);
      if mapping != map[] && op.value.choiceValue !in mapping then Some(InvalidChoiceValue)
      else if op.value.choiceId.Some? && op.value.choiceValue in mapping
              && mapping[op.value.choiceValue] != op.value.choiceId.value then Some(ChoiceIdMismatch)
      else None
    else None
  }

  function Clamp(x: real, lo: Option<real>, hi: Option<real>): real {
    var raised := if lo.Some? && x < lo.value then lo.value else x;
    if hi.Some? && raised > hi.value then hi.value else raised
  }

  /** The number a float edit starts from. */
  function CurrentNumber(s: Setting): real {
    s.number.GetOr(s.spec.defaultNumber.GetOr(0.0))
  }

  function Updated(s: Setting, op: Operation): (r: Setting)
    ensures r.spec == s.spec
  {
    match op.value
    case FloatValue(mode, number) =>
      var resolved := if mode == DeltaMode then CurrentNumber(s) + number else number;
      s.(number := Some(Clamp(resolved, s.spec.minNumber, s.spec.maxNumber)))
    case ChoiceValue(choiceValue, _) =>
      var mapping := ChoiceMapping(s.spec.choices);
      s.(choiceValue := Some(choiceValue),
         choiceId := if choiceValue in mapping then Some(mapping[choiceValue]) else s.choiceId)
    case BoolValue(flag) =>
      s.(flag := Some(flag))
  }

  function Refusal(m: SettingMap, op: Operation): Option<Rejection> {
    if op.settingId !in m then Some(UnknownSetting) else Verdict(m[op.settingId].spec, op)
  }

  function Apply(m: SettingMap, op: Operation): Result<SettingMap, Rejection> {
    match Refusal(m, op)
    case Some(why) => Failure(why)
    case None => Success(m[op.settingId := Updated(m[op.settingId], op)])
  }

  /** Apply operations one after the other, stopping at the first refusal. */
  function Run(m: SettingMap, ops: seq<Operation>): Result<SettingMap, Rejection> {
    if ops == [] then Success(m)
    else
      match Apply(m, ops[0])
      case Failure(why) => Failure(why)
      case Success(m') => Run(m', ops[1..])
  }

  ghost predicate Acceptable(m: SettingMap, ops: seq<Operation>) {
    forall op :: op in ops ==> Refusal(m, op).None?
  }

  /** Same controls with the same specifications, whatever their current values. */
  ghost predicate SameSpecs(m: SettingMap, n: SettingMap) {
    m.Keys == n.Keys && forall id :: id in m ==> m[id].spec == n[id].spec
  }

  /** A batch runs to the end exactly when each operation is acceptable to the initial controls. */
  lemma {:induction false} RunSucceedsIff(m: SettingMap, ops: seq<Operation>)
    ensures Run(m, ops).Success? <==> Acceptable(m, ops)
    ensures Run(m, ops).Success? ==> SameSpecs(m, Run(m, ops).value)
  {
    if ops != [] {
      if Refusal(m, ops[0]).None? {
        var m' := Apply(m, ops[0]).value;
        RunSucceedsIff(m', ops[1..]);
        assert forall op :: Refusal(m, op) == Refusal(m', op);
        assert ops == [ops[0]] + ops[1..];
      } else {
        assert ops[0] in ops;
      }
    }
  }

  lemma {:induction false} RunConcat(m: SettingMap, a: seq<Operation>, b: seq<Operation>)
    requires Run(m, a).Success?
    ensures Run(m, a + b) == Run(Run(m, a).value, b)
  {
    if a == [] {
      assert a + b == b;
    } else {
      RunConcat(Apply(m, a[0]).value, a[1..], b);
      assert (a + b)[1..] == a[1..] + b;
    }
  }

  lemma RunEmpty(m: SettingMap)
    ensures Run(m, []) == Success(m)
  {
  }

  lemma RunSnoc(m: SettingMap, ops: seq<Operation>, op: Operation)
    requires Run(m, ops).Success?
    ensures Run(m, ops + [op]) == Apply(Run(m, ops).value, op)
  {
    RunConcat(m, ops, [op]);
    assert [op][1..] == [];
    assert Run(Run(m, ops).value, [op]) == Apply(Run(m, ops).value, op);
  }

  /** One more step of a run. */
  lemma RunStep(m: SettingMap, ops: seq<Operation>, i: nat)
    requires i < |ops| && Run(m, ops[..i]).Success?
    ensures Run(m, ops[..i + 1]) == Apply(Run(m, ops[..i]).value, ops[i])
    ensures Run(m, ops[..i + 1]).Failure? ==> Run(m, ops) == Run(m, ops[..i + 1])
  {
    var reached, rest := Run(m, ops[..i]).value, ops[i..];
    assert ops[..i + 1] == ops[..i] + [ops[i]] && ops == ops[..i] + rest;
    RunConcat(m, ops[..i], [ops[i]]);
    RunConcat(m, ops[..i], rest);
    assert [ops[i]][1..] == [] && rest[0] == ops[i];
    assert Run(reached, [ops[i]]) == Apply(reached, ops[i]);
  }

  /** Ids and sequence numbers play no part in what an operation does. */
  predicate SameEdit(a: Operation, b: Operation) {
    a.settingId == b.settingId && a.actionPath == b.actionPath && a.value == b.value
  }

  lemma {:induction false} RunSameEdits(m: SettingMap, a: seq<Operation>, b: seq<Operation>)
    requires |a| == |b| && forall i :: 0 <= i < |a| ==> SameEdit(a[i], b[i])
    ensures Run(m, a) == Run(m, b)
  {
    if a != [] {
      assert Apply(m, a[0]) == Apply(m, b[0]);
      if Apply(m, a[0]).Success? {
        RunSameEdits(Apply(m, a[0]).value, a[1..], b[1..]);
      }
    }
  }

  // ---- Order of operations ----

  /** The operations aimed at one control. */
  function For(ops: seq<Operation>, id: string): seq<Operation> {
    StableSort.Filter(ops, (op: Operation) => op.settingId == id)
  }

  lemma ForMembers(ops: seq<Operation>, id: string, op: Operation)
    ensures op in For(ops, id) <==> op in ops && op.settingId == id
  {
    StableSort.FilterMembers(ops, (op: Operation) => op.settingId == id, op);
  }

  /** What a sequence of operations does to the one control they are aimed at. */
  function Replay(s: Setting, ops: seq<Operation>): (r: Setting)
    ensures r.spec == s.spec
    decreases |ops|
  {
    if ops == [] then s else Replay(Updated(s, ops[0]), ops[1..])
  }

  /** A successful run acts on each control separately, so edits of different controls commute. */
  lemma {:induction false} RunPointwise(m: SettingMap, ops: seq<Operation>, id: string)
    requires Run(m, ops).Success? && id in m
    ensures id in Run(m, ops).value && Run(m, ops).value[id] == Replay(m[id], For(ops, id))
  {
    if ops != [] {
      RunPointwise(Apply(m, ops[0]).value, ops[1..], id);
    }
  }

  /** Two batches that agree control by control have the same outcome, accepted or not. */
  lemma SameOutcome(m: SettingMap, a: seq<Operation>, b: seq<Operation>)
    requires forall id :: For(a, id) == For(b, id)
    ensures Run(m, a).Success? <==> Run(m, b).Success?
    ensures Run(m, a).Success? ==> Run(m, a) == Run(m, b)
  {
    forall op ensures op in a <==> op in b {
      ForMembers(a, op.settingId, op);
      ForMembers(b, op.settingId, op);
    }
    RunSucceedsIff(m, a);
    RunSucceedsIff(m, b);
    if Run(m, a).Success? {
      forall id | id in m ensures Run(m, a).value[id] == Run(m, b).value[id] {
        RunPointwise(m, a, id);
        RunPointwise(m, b, id);
      }
      assert Run(m, a).value == Run(m, b).value;
    }
  }

  /** A float control's validated range. */
  predicate HasRange(spec: ControlSpec) {
    spec.minNumber.Some? && spec.maxNumber.Some? && spec.minNumber.value <= spec.maxNumber.value
  }

  predicate InBounds(s: Setting) {
    && HasRange(s.spec)
    && s.number.Some?
    && s.spec.minNumber.value <= s.number.value <= s.spec.maxNumber.value
  }

  /** After any successful run, every float control that was edited is inside its bounds. */
  lemma EditedFloatsAreInBounds(m: SettingMap, ops: seq<Operation>, i: nat)
    requires Run(m, ops).Success? && i < |ops| && ops[i].value.FloatValue?
    requires ops[i].settingId in m && HasRange(m[ops[i].settingId].spec)
    ensures ops[i].settingId in Run(m, ops).value
    ensures InBounds(Run(m, ops).value[ops[i].settingId])
  {
    var id := ops[i].settingId;
    RunPointwise(m, ops, id);
    ForMembers(ops, id, ops[i]);
    ReplayInBounds(m[id], For(ops, id), ops[i]);
  }

  lemma {:induction false} ReplayInBounds(s: Setting, ops: seq<Operation>, edit: Operation)
    requires HasRange(s.spec)
    requires (edit in ops && edit.value.FloatValue?) || InBounds(s)
    ensures InBounds(Replay(s, ops))
    decreases |ops|
  {
    if ops != [] {
      assert ops == [ops[0]] + ops[1..];
      ReplayInBounds(Updated(s, ops[0]), ops[1..], edit);
    }
  }

  lemma {:induction false} ReplaySnoc(s: Setting, ops: seq<Operation>, op: Operation)
    ensures Replay(s, ops + [op]) == Updated(Replay(s, ops), op)
    decreases |ops|
  {
    if ops == [] {
      assert [] + [op] == [op] && [op][1..] == [];
    } else {
      assert (ops + [op])[1..] == ops[1..] + [op];
      ReplaySnoc(Updated(s, ops[0]), ops[1..], op);
    }
  }

  /** The value an edit that does not depend on the current one leaves behind. */
  predicate Shows(s: Setting, value: Value) {
    match value
    case FloatValue(mode, x) => mode == SetMode ==> s.number == Some(Clamp(x, s.spec.minNumber, s.spec.maxNumber))
    case ChoiceValue(v, id) =>
      && s.choiceValue == Some(v)
      && (v in ChoiceMapping(s.spec.choices) ==> s.choiceId == Some(ChoiceMapping(s.spec.choices)[v]))
      && (v in ChoiceMapping(s.spec.choices) && id.Some? ==> s.choiceId == id)
    case BoolValue(flag) => s.flag == Some(flag)
  }

  /** After a successful run every control shows the last edit aimed at it, with the choice id that was asked for. */
  lemma LastEditShows(m: SettingMap, ops: seq<Operation>, before: seq<Operation>, op: Operation)
    requires Run(m, ops).Success? && For(ops, op.settingId) == before + [op]
    ensures op.settingId in Run(m, ops).value && Shows(Run(m, ops).value[op.settingId], op.value)
  {
    RunSucceedsIff(m, ops);
    ForMembers(ops, op.settingId, op);
    assert op in before + [op];
    assert Refusal(m, op).None?;
    RunPointwise(m, ops, op.settingId);
    ReplaySnoc(m[op.settingId], before, op);
  }

  function TotalDelta(ops: seq<Operation>): real {
    if ops == [] then 0.0
    else (if ops[0].value.FloatValue? then ops[0].value.number else 0.0) + TotalDelta(ops[1..])
  }

  /** Every partial sum of the relative edits stays in the control's range. */
  ghost predicate StaysInRange(s: Setting, ops: seq<Operation>)
    requires HasRange(s.spec)
  {
    forall k :: 0 < k <= |ops| ==>
      s.spec.minNumber.value <= CurrentNumber(s) + TotalDelta(ops[..k]) <= s.spec.maxNumber.value
  }

  ghost predicate AllDeltas(ops: seq<Operation>) {
    forall op :: op in ops ==> op.value.FloatValue? && op.value.mode == DeltaMode
  }

  lemma TotalDeltaSplit(ops: seq<Operation>, k: nat)
    requires 0 < k <= |ops|
    ensures TotalDelta(ops[..k]) == TotalDelta([ops[0]]) + TotalDelta(ops[1..][..k - 1])
  {
    assert ops[..k][1..] == ops[1..][..k - 1];
    assert [ops[0]][1..] == [];
  }

  /** Relative edits add up as long as no partial sum leaves the control's range. */
  lemma {:induction false} DeltasAddUp(s: Setting, ops: seq<Operation>)
    requires HasRange(s.spec) && AllDeltas(ops) && StaysInRange(s, ops)
    ensures CurrentNumber(Replay(s, ops)) == CurrentNumber(s) + TotalDelta(ops)
    decreases |ops|
  {
    if ops != [] {
      assert ops[0] in ops;
      var next := Updated(s, ops[0]);
      TotalDeltaSplit(ops, 1);
      assert ops[1..][..0] == [];
      assert CurrentNumber(next) == CurrentNumber(s) + TotalDelta([ops[0]]);
      forall k | 0 < k <= |ops[1..]|
        ensures s.spec.minNumber.value <= CurrentNumber(next) + TotalDelta(ops[1..][..k]) <= s.spec.maxNumber.value
      {
        TotalDeltaSplit(ops, k + 1);
      }
      DeltasAddUp(next, ops[1..]);
    }
  }

  lemma StaysInRangePrefix(s: Setting, ops: seq<Operation>, k: nat)
    requires HasRange(s.spec) && StaysInRange(s, ops) && k <= |ops|
    ensures StaysInRange(s, ops[..k])
  {
    forall j | 0 < j <= k
      ensures s.spec.minNumber.value <= CurrentNumber(s) + TotalDelta(ops[..k][..j]) <= s.spec.maxNumber.value
    {
      assert ops[..k][..j] == ops[..j];
    }
  }

  /** Exactly then: the value is the partial sum after every edit if and only if no partial sum leaves the range. */
  lemma DeltasAddUpIff(s: Setting, ops: seq<Operation>)
    requires HasRange(s.spec) && AllDeltas(ops)
    ensures StaysInRange(s, ops) <==>
            forall k :: 0 < k <= |ops| ==> CurrentNumber(Replay(s, ops[..k])) == CurrentNumber(s) + TotalDelta(ops[..k])
  {
    if StaysInRange(s, ops) {
      forall k | 0 < k <= |ops|
        ensures CurrentNumber(Replay(s, ops[..k])) == CurrentNumber(s) + TotalDelta(ops[..k])
      {
        StaysInRangePrefix(s, ops, k);
        DeltasAddUp(s, ops[..k]);
      }
    }
    forall k | 0 < k <= |ops|
      ensures s.spec.minNumber.value <= CurrentNumber(Replay(s, ops[..k])) <= s.spec.maxNumber.value
    {
      assert ops[..k][0] in ops[..k] && ops[..k][0] in ops;
      ReplayInBounds(s, ops[..k], ops[0]);
    }
  }

  predicate OneSided(ops: seq<Operation>, up: bool) {
    forall op :: op in ops ==> op.value.FloatValue? && (if up then op.value.number >= 0.0 else op.value.number <= 0.0)
  }

  lemma {:induction false} InRangeDeltasClipOnce(s: Setting, ops: seq<Operation>, up: bool)
    requires HasRange(s.spec) && AllDeltas(ops) && OneSided(ops, up)
    requires s.spec.minNumber.value <= CurrentNumber(s) <= s.spec.maxNumber.value
    ensures CurrentNumber(Replay(s, ops)) ==
            Clamp(CurrentNumber(s) + TotalDelta(ops), s.spec.minNumber, s.spec.maxNumber)
    ensures if up then TotalDelta(ops) >= 0.0 else TotalDelta(ops) <= 0.0
    decreases |ops|
  {
    if ops != [] {
      assert ops[0] in ops;
      InRangeDeltasClipOnce(Updated(s, ops[0]), ops[1..], up);
    }
  }

  /**
   * Relative edits in one direction lose exactly what exceeds the limit. From a value in range they clip once, at the
   * end; from any other, which a request may contain, the first edit brings the value into the range and the others
   * clip once.
   */
  lemma OneSidedDeltasClipOnce(s: Setting, ops: seq<Operation>, up: bool)
    requires HasRange(s.spec) && AllDeltas(ops) && OneSided(ops, up)
    ensures s.spec.minNumber.value <= CurrentNumber(s) <= s.spec.maxNumber.value ==>
              CurrentNumber(Replay(s, ops)) ==
              Clamp(CurrentNumber(s) + TotalDelta(ops), s.spec.minNumber, s.spec.maxNumber)
    ensures ops != [] && ops[0].value.FloatValue? ==>
              var entered := Clamp(CurrentNumber(s) + ops[0].value.number, s.spec.minNumber, s.spec.maxNumber);
              CurrentNumber(Replay(s, ops)) ==
              Clamp(entered + TotalDelta(ops[1..]), s.spec.minNumber, s.spec.maxNumber)
  {
    hide AllDeltas, OneSided, Clamp, TotalDelta, CurrentNumber, Replay;
    if s.spec.minNumber.value <= CurrentNumber(s) <= s.spec.maxNumber.value {
      InRangeDeltasClipOnce(s, ops, up);
    }
    if ops != [] {
      DeltasEnterThenClip(s, ops, up);
    }
  }

  lemma DeltasEnterThenClip(s: Setting, ops: seq<Operation>, up: bool)
    requires HasRange(s.spec) && AllDeltas(ops) && OneSided(ops, up) && ops != []
    ensures ops[0].value.FloatValue?
    ensures var entered := Clamp(CurrentNumber(s) + ops[0].value.number, s.spec.minNumber, s.spec.maxNumber);
            CurrentNumber(Replay(s, ops)) ==
            Clamp(entered + TotalDelta(ops[1..]), s.spec.minNumber, s.spec.maxNumber)
  {
    hide Updated, AllDeltas, OneSided, Clamp, TotalDelta, CurrentNumber;
    FirstDeltaEnters(s, ops, up);
    var next := Updated(s, ops[0]);
    InRangeDeltasClipOnce(next, ops[1..], up);
  }

  lemma FirstDeltaEnters(s: Setting, ops: seq<Operation>, up: bool)
    requires HasRange(s.spec) && AllDeltas(ops) && OneSided(ops, up) && ops != []
    ensures AllDeltas(ops[1..]) && OneSided(ops[1..], up) && ops[0].value.FloatValue?
    ensures var next := CurrentNumber(Updated(s, ops[0]));
            && next == Clamp(CurrentNumber(s) + ops[0].value.number, s.spec.minNumber, s.spec.maxNumber)
            && s.spec.minNumber.value <= next <= s.spec.maxNumber.value
  {
    assert ops[0] in ops;
  }

  /** In both directions what a limit cuts off is lost for good: up by one against the limit and down by one again. */
  lemma ClippingForgets(s: Setting, up: Operation, down: Operation)
    requires s.spec.minNumber == Some(0.0) && s.spec.maxNumber == Some(1.0) && s.number == Some(1.0)
    requires up.value == FloatValue(DeltaMode, 1.0) && down.value == FloatValue(DeltaMode, -1.0)
    ensures TotalDelta([up, down]) == 0.0 && CurrentNumber(Replay(s, [up, down])) == 0.0
    ensures Replay(s, [up, down]) != s && Replay(s, [down, up]) == s
  {
    assert [up, down][1..] == [down] && [down][1..] == [] && [down, up][1..] == [up] && [up][1..] == [];
    assert [] + [up] == [up] && [] + [down] == [down] && [up] + [down] == [up, down] && [down] + [up] == [down, up];
    ReplaySnoc(s, [], up);
    ReplaySnoc(s, [], down);
    ReplaySnoc(s, [up], down);
    ReplaySnoc(s, [down], up);
    assert TotalDelta([down]) == -1.0;
  }

  /** No edit touches the value of another kind of control. */
  lemma {:induction false} OtherFieldsAreKept(s: Setting, ops: seq<Operation>)
    requires forall op :: op in ops ==> KindOf(op.value) == s.spec.kind
    ensures s.spec.kind != FloatKind ==> Replay(s, ops).number == s.number
    ensures s.spec.kind != ChoiceKind ==>
              Replay(s, ops).choiceValue == s.choiceValue && Replay(s, ops).choiceId == s.choiceId
    ensures s.spec.kind != BoolKind ==> Replay(s, ops).flag == s.flag
    decreases |ops|
  {
    if ops != [] {
      assert ops[0] in ops;
      OtherFieldsAreKept(Updated(s, ops[0]), ops[1..]);
    }
  }

  // ---- The snapshot a turn starts from ----

  /** The part of a control that is kept in the planner's payload: only fields of its own kind. */
  function Compact(s: Setting): (r: Setting)
    ensures r.spec.settingId == s.spec.settingId && r.spec.actionPath == s.spec.actionPath
    ensures r.spec.kind == s.spec.kind && r.spec.supportedModes == s.spec.supportedModes
  {
    match s.spec.kind
    case FloatKind =>
      Setting(s.spec.(controlLabel := "", choices := []), s.number, None, None, None)
    case ChoiceKind =>
      Setting(s.spec.(controlLabel := "", minNumber := None, maxNumber := None, defaultNumber := None),
              None, s.choiceValue, s.choiceId, None)
    case BoolKind =>
      Setting(s.spec.(controlLabel := "", minNumber := None, maxNumber := None, defaultNumber := None, choices := []),
              None, None, None, s.flag)
  }

  /** The controls by id; when ids repeat, the last one wins. */
  function Snapshot(settings: seq<Setting>): SettingMap {
    if settings == [] then map[]
    else
      var last := settings[|settings| - 1];
      var before := Snapshot(settings[..|settings| - 1]);
      if last.spec.settingId == "" then before else before[last.spec.settingId := Compact(last)]
  }

  ghost predicate UniqueSettingIds(settings: seq<Setting>) {
    forall i, j :: 0 <= i < j < |settings| ==> settings[i].spec.settingId != settings[j].spec.settingId
  }

  /** What request validation guarantees of one editable control. */
  ghost predicate ValidSetting(s: Setting) {
    && s.spec.settingId != ""
    && match s.spec.kind
       case FloatKind => HasRange(s.spec) && s.spec.defaultNumber.Some? && s.number.Some? && s.spec.supportedModes != []
       case ChoiceKind => s.spec.supportedModes == [SetMode] && ValidChoices(s.spec.choices)
       case BoolKind => s.spec.supportedModes == [SetMode] && s.flag.Some?
  }

  ghost predicate ValidChoices(choices: seq<ChoiceOption>) {
    && choices != []
    && (forall i :: 0 <= i < |choices| ==> choices[i].choiceId != "")
    && (forall i, j :: 0 <= i < j < |choices| ==> choices[i].choiceValue != choices[j].choiceValue)
    && (forall i, j :: 0 <= i < j < |choices| ==> choices[i].choiceId != choices[j].choiceId)
  }

  /** The entry that decides what an id means: the last one that has it. */
  function LastWithId(settings: seq<Setting>, id: string): (r: Option<Setting>)
    ensures r.Some? ==> r.value in settings && r.value.spec.settingId == id
    ensures r.None? <==> forall s :: s in settings ==> s.spec.settingId != id
  {
    if settings == [] then None
    else if settings[|settings| - 1].spec.settingId == id then Some(settings[|settings| - 1])
    else LastWithId(settings[..|settings| - 1], id)
  }

  /** The map knows exactly the ids of the list, and under each the compact form of its last entry. */
  lemma {:induction false} SnapshotIsLast(settings: seq<Setting>, id: string)
    requires id != ""
    ensures id in Snapshot(settings) <==> LastWithId(settings, id).Some?
    ensures id in Snapshot(settings) ==> Snapshot(settings)[id] == Compact(LastWithId(settings, id).value)
  {
    if settings != [] {
      SnapshotIsLast(settings[..|settings| - 1], id);
    }
  }

  /** With unique ids every entry is the last one with its id. */
  lemma {:induction false} UniqueEntryIsLast(settings: seq<Setting>, s: Setting)
    requires UniqueSettingIds(settings) && s in settings
    ensures LastWithId(settings, s.spec.settingId) == Some(s)
  {
    var n := |settings| - 1;
    if settings[n] != s {
      assert s in settings[..n];
      UniqueEntryIsLast(settings[..n], s);
      var i :| 0 <= i < n && settings[i] == s;
    }
  }

  lemma {:induction false} ChoiceMappingHas(choices: seq<ChoiceOption>, i: nat)
    requires ValidChoices(choices) && i < |choices|
    ensures choices[i].choiceValue in ChoiceMapping(choices)
    ensures ChoiceMapping(choices)[choices[i].choiceValue] == choices[i].choiceId
  {
    if i < |choices| - 1 {
      ChoiceMappingHas(choices[..|choices| - 1], i);
    }
  }

  lemma {:induction false} MappingMember(choices: seq<ChoiceOption>, choice: ChoiceOption)
    requires ValidChoices(choices)
    ensures choice in choices <==>
            && choice.choiceValue in ChoiceMapping(choices)
            && ChoiceMapping(choices)[choice.choiceValue] == choice.choiceId
    ensures ChoiceMapping(choices) != map[]
  {
    ChoiceMappingHas(choices, 0);
    if i :| 0 <= i < |choices| && choices[i].choiceValue == choice.choiceValue {
      ChoiceMappingHas(choices, i);
    } else {
      MappingKeys(choices, choice.choiceValue);
    }
  }

  lemma {:induction false} MappingKeys(choices: seq<ChoiceOption>, value: int)
    requires forall c :: c in choices ==> c.choiceValue != value
    ensures value !in ChoiceMapping(choices)
  {
    if choices != [] {
      MappingKeys(choices[..|choices| - 1], value);
    }
  }

  // ---- Acceptance and effect, over the controls of the request ----

  /** Request validation looks at every control by itself; setting ids may repeat. */
  ghost predicate ValidSnapshot(settings: seq<Setting>) {
    forall s :: s in settings ==> ValidSetting(s)
  }

  /** Some offered choice has this value, and this id if one is asked for. */
  predicate Offers(choices: seq<ChoiceOption>, value: int, id: Option<string>) {
    exists c :: c in choices && c.choiceValue == value && (id.None? || id == Some(c.choiceId))
  }

  /** What the mapping that is built from an offer says about a value. */
  lemma MappingOffers(choices: seq<ChoiceOption>, value: int)
    requires ValidChoices(choices)
    ensures ChoiceMapping(choices) != map[]
    ensures value in ChoiceMapping(choices) <==> Offers(choices, value, None)
    ensures value in ChoiceMapping(choices) ==>
              forall id :: Offers(choices, value, Some(id)) <==> ChoiceMapping(choices)[value] == id
  {
    ChoiceMappingHas(choices, 0);
    if Offers(choices, value, None) {
      var c :| c in choices && c.choiceValue == value;
      MappingMember(choices, c);
    } else {
      MappingKeys(choices, value);
    }
    if value in ChoiceMapping(choices) {
      forall id ensures Offers(choices, value, Some(id)) <==> ChoiceMapping(choices)[value] == id {
        MappingMember(choices, ChoiceOption(value, id));
        assert Offers(choices, value, Some(id)) <==> ChoiceOption(value, id) in choices;
      }
    }
  }

  lemma NoEmptyId(settings: seq<Setting>)
    requires ValidSnapshot(settings)
    ensures "" !in Snapshot(settings) && LastWithId(settings, "").None?
  {
    SnapshotHasNoEmptyId(settings);
  }

  lemma {:induction false} SnapshotHasNoEmptyId(settings: seq<Setting>)
    ensures "" !in Snapshot(settings)
  {
    if settings != [] {
      SnapshotHasNoEmptyId(settings[..|settings| - 1]);
    }
  }

  /** The live controls and the list they came from: same ids, and under each the last entry's specification. */
  lemma LiveControl(settings: seq<Setting>, live: SettingMap, id: string)
    requires ValidSnapshot(settings) && SameSpecs(Snapshot(settings), live)
    ensures id in live <==> LastWithId(settings, id).Some?
    ensures id in live ==>
              && live[id].spec == Compact(LastWithId(settings, id).value).spec
              && ValidSetting(LastWithId(settings, id).value)
  {
    NoEmptyId(settings);
    if id != "" {
      SnapshotIsLast(settings, id);
    }
  }

  /**
   * Whether the request's own list allows an operation: there is a control with its id, and the last one has its action
   * path and kind, supports the mode of a number, and offers the choice.
   */
  predicate Allows(settings: seq<Setting>, op: Operation) {
    && LastWithId(settings, op.settingId).Some?
    && var spec := LastWithId(settings, op.settingId).value.spec;
    && spec.actionPath == op.actionPath
    && match op.value
       case FloatValue(mode, _) => spec.kind == FloatKind && mode in spec.supportedModes
       case ChoiceValue(value, id) => spec.kind == ChoiceKind && Offers(spec.choices, value, id)
       case BoolValue(_) => spec.kind == BoolKind
  }

  /** An operation, whoever made it, is accepted in any state of a turn exactly when the request's list allows it. */
  lemma AcceptedIff(settings: seq<Setting>, live: SettingMap, op: Operation)
    requires ValidSnapshot(settings) && SameSpecs(Snapshot(settings), live)
    ensures Refusal(live, op).None? <==> Allows(settings, op)
  {
    LiveControl(settings, live, op.settingId);
    if op.settingId in live && op.value.ChoiceValue? && live[op.settingId].spec.kind == ChoiceKind {
      MappingOffers(live[op.settingId].spec.choices, op.value.choiceValue);
    }
  }

  /** And a batch exactly when the list allows each of its operations. */
  lemma BatchAcceptedIff(settings: seq<Setting>, live: SettingMap, ops: seq<Operation>)
    requires ValidSnapshot(settings) && SameSpecs(Snapshot(settings), live)
    ensures Run(live, ops).Success? <==> forall op :: op in ops ==> Allows(settings, op)
  {
    hide Refusal, Allows, ValidSnapshot, SameSpecs;
    RunSucceedsIff(live, ops);
    forall op ensures Refusal(live, op).None? <==> Allows(settings, op) {
      AcceptedIff(settings, live, op);
    }
  }

  /** And for which reason it is refused: the first of these that applies. */
  lemma RefusedBecause(settings: seq<Setting>, live: SettingMap, op: Operation)
    requires ValidSnapshot(settings) && SameSpecs(Snapshot(settings), live) && Refusal(live, op).Some?
    ensures LastWithId(settings, op.settingId).None? <==> Refusal(live, op) == Some(UnknownSetting)
    ensures LastWithId(settings, op.settingId).Some? ==>
              var spec, why := LastWithId(settings, op.settingId).value.spec, Refusal(live, op).value;
              if spec.actionPath != op.actionPath then why == ActionPathMismatch
              else if spec.kind != KindOf(op.value) then why == KindMismatch
              else if op.value.FloatValue? then why == UnsupportedMode && op.value.mode !in spec.supportedModes
              else
                && op.value.ChoiceValue?
                && (Offers(spec.choices, op.value.choiceValue, None) ==> why == ChoiceIdMismatch)
                && (!Offers(spec.choices, op.value.choiceValue, None) ==> why == InvalidChoiceValue)
  {
    LiveControl(settings, live, op.settingId);
    if op.settingId in live && op.value.ChoiceValue? && live[op.settingId].spec.kind == ChoiceKind {
      MappingOffers(live[op.settingId].spec.choices, op.value.choiceValue);
    }
  }

  /** x is the number of the range from lo to hi that is closest to the target. */
  predicate Nearest(x: real, target: real, lo: real, hi: real) {
    && lo <= x <= hi
    && (lo <= target <= hi ==> x == target) && (target < lo ==> x == lo) && (target > hi ==> x == hi)
  }

  /**
   * What an accepted operation does, in terms of the request's own list: it changes the current value of its control
   * and nothing else, to the number of the range closest to the one asked for, the choice with its offered id, or the
   * flag.
   */
  lemma EditLands(settings: seq<Setting>, live: SettingMap, op: Operation)
    requires ValidSnapshot(settings) && SameSpecs(Snapshot(settings), live) && Refusal(live, op).None?
    ensures op.settingId in live && LastWithId(settings, op.settingId).Some? && Apply(live, op).Success?
    ensures var spec, next := LastWithId(settings, op.settingId).value.spec, Apply(live, op).value;
            && next.Keys == live.Keys && (forall id :: id in live && id != op.settingId ==> next[id] == live[id])
            && var s, t := live[op.settingId], next[op.settingId];
               match op.value
               case FloatValue(mode, x) =>
                 && HasRange(spec) && spec.defaultNumber.Some? && t.number.Some? && t == s.(number := t.number)
                 && var start := if s.number.Some? then s.number.value else spec.defaultNumber.value;
                    Nearest(t.number.value, if mode == SetMode then x else start + x,
                            spec.minNumber.value, spec.maxNumber.value)
               case ChoiceValue(value, _) =>
                 && t == s.(choiceValue := Some(value), choiceId := t.choiceId)
                 && t.choiceId.Some? && Offers(spec.choices, value, t.choiceId)
               case BoolValue(flag) => t == s.(flag := Some(flag))
  {
    LiveControl(settings, live, op.settingId);
    if op.value.ChoiceValue? {
      MappingOffers(live[op.settingId].spec.choices, op.value.choiceValue);
    }
  }

  /** What a turn starts from: under each id the current value of the last control with it. */
  lemma StartsWithCurrentValues(settings: seq<Setting>, id: string)
    requires ValidSnapshot(settings) && id in Snapshot(settings)
    ensures LastWithId(settings, id).Some?
    ensures var s, t := LastWithId(settings, id).value, Snapshot(settings)[id];
            match s.spec.kind
            case FloatKind => t.number == s.number && t.number.Some?
            case ChoiceKind => t.choiceValue == s.choiceValue && t.choiceId == s.choiceId
            case BoolKind => t.flag == s.flag && t.flag.Some?
  {
    LiveControl(settings, Snapshot(settings), id);
    SnapshotIsLast(settings, id);
  }
}
