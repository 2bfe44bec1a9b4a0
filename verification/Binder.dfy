/** Binding of canonical edit actions to the controls a snapshot offers. */
module Binder {
  import opened Wrappers
  import opened Settings
  import OperationIds
  import StableSort
  import Text

  // ---- Finding a control ----

  datatype Query = Query(
    kind: Kind,
    exactActionPaths: seq<string>,
    moduleIds: seq<string>,
    actionKeywords: seq<string>,
    labelKeywords: seq<string>)

  function CountIn(keywords: seq<string>, text: string): (n: nat)
    ensures n <= |keywords|
  {
    if keywords == [] then 0
    else (if Text.Contains(text, keywords[0]) then 1 else 0) + CountIn(keywords[1..], text)
  }

  function Score(q: Query, s: Setting): nat {
    (if s.spec.actionPath in q.exactActionPaths then 100 else 0)
    + (if Text.Lower(s.spec.moduleId) in q.moduleIds then 20 else 0)
    + 8 * CountIn(q.actionKeywords, Text.Lower(s.spec.actionPath))
    + 6 * CountIn(q.labelKeywords, Text.Lower(s.spec.controlLabel))
  }

  predicate IsCandidate(q: Query, s: Setting) {
    s.spec.kind == q.kind && Score(q, s) > 0
  }

  /** Higher score first, then module id, action path and setting id in lexicographic order. */
  predicate Before(q: Query, a: Setting, b: Setting) {
    var x, y := Score(q, a), Score(q, b);
    x > y || (x == y && KeyLe(Key(a), Key(b)))
  }

  function Key(s: Setting): (string, string, string) {
    (s.spec.moduleId, s.spec.actionPath, s.spec.settingId)
  }

  predicate KeyLe(a: (string, string, string), b: (string, string, string)) {
    if a.0 != b.0 then Text.StrLe(a.0, b.0)
    else if a.1 != b.1 then Text.StrLe(a.1, b.1)
    else Text.StrLe(a.2, b.2)
  }

  lemma KeyLeTotal(a: (string, string, string), b: (string, string, string))
    ensures KeyLe(a, b) || KeyLe(b, a)
    ensures KeyLe(a, b) && KeyLe(b, a) ==> a == b
  {
    Text.StrLeTotal(a.0, b.0);
    Text.StrLeTotal(a.1, b.1);
    Text.StrLeTotal(a.2, b.2);
    if KeyLe(a, b) && KeyLe(b, a) {
      if a.0 != b.0 {
        Text.StrLeAntisymmetric(a.0, b.0);
      } else if a.1 != b.1 {
        Text.StrLeAntisymmetric(a.1, b.1);
      } else {
        Text.StrLeAntisymmetric(a.2, b.2);
      }
    }
  }

  lemma KeyLeTransitive(a: (string, string, string), b: (string, string, string), c: (string, string, string))
    requires KeyLe(a, b) && KeyLe(b, c)
    ensures KeyLe(a, c)
  {
    if a.0 != b.0 || b.0 != c.0 {
      if a.0 != b.0 && b.0 != c.0 {
        Text.StrLeTransitive(a.0, b.0, c.0);
        if a.0 == c.0 {
          Text.StrLeAntisymmetric(a.0, b.0);
        }
      }
    } else if a.1 != b.1 || b.1 != c.1 {
      if a.1 != b.1 && b.1 != c.1 {
        Text.StrLeTransitive(a.1, b.1, c.1);
        if a.1 == c.1 {
          Text.StrLeAntisymmetric(a.1, b.1);
        }
      }
    } else {
      Text.StrLeTransitive(a.2, b.2, c.2);
    }
  }

  lemma BeforeIsTotalPreorder(q: Query)
    ensures StableSort.TotalPreorder((a, b) => Before(q, a, b))
  {
    forall a, b ensures Before(q, a, b) || Before(q, b, a) {
      KeyLeTotal(Key(a), Key(b));
    }
    forall a, b, c | Before(q, a, b) && Before(q, b, c) ensures Before(q, a, c) {
      if Score(q, a) == Score(q, b) == Score(q, c) {
        KeyLeTransitive(Key(a), Key(b), Key(c));
      }
    }
  }

  function Candidates(settings: seq<Setting>, q: Query): seq<Setting> {
    StableSort.Filter(settings, s => IsCandidate(q, s))
  }

  function FindSetting(settings: seq<Setting>, q: Query): Option<Setting> {
    var sorted := StableSort.Sort(Candidates(settings, q), (a, b) => Before(q, a, b));
    if sorted == [] then None else Some(sorted[0])
  }

  /** s is a candidate that no candidate of the list precedes. */
  ghost predicate IsBest(settings: seq<Setting>, q: Query, s: Setting) {
    && s in settings && IsCandidate(q, s)
    && forall t :: t in settings && IsCandidate(q, t) ==> Before(q, s, t)
  }

  /** The search fails exactly when there is no candidate, and otherwise returns a best one. */
  lemma FindSettingIsBest(settings: seq<Setting>, q: Query)
    ensures FindSetting(settings, q).None? <==> forall s :: s in settings ==> !IsCandidate(q, s)
    ensures FindSetting(settings, q).Some? ==> IsBest(settings, q, FindSetting(settings, q).value)
  {
    var le := (a, b) => Before(q, a, b);
    var candidates := Candidates(settings, q);
    var sorted := StableSort.Sort(candidates, le);
    forall s ensures s in sorted <==> s in settings && IsCandidate(q, s) {
      StableSort.SortMember(candidates, le, s);
      StableSort.FilterMembers(settings, s => IsCandidate(q, s), s);
    }
    BeforeIsTotalPreorder(q);
    StableSort.SortSorts(candidates, le);
    if sorted == [] {
      forall s | s in settings ensures !IsCandidate(q, s) {
        assert s !in sorted;
      }
    } else {
      assert sorted[0] in sorted;
      forall t | t in sorted ensures Before(q, sorted[0], t) {
        KeyLeTotal(Key(t), Key(t));
      }
    }
  }

  ghost predicate DistinctSettingIds(settings: seq<Setting>) {
    forall s, t :: s in settings && t in settings && s.spec.settingId == t.spec.settingId ==> s == t
  }

  /** With unique setting ids the result does not depend on the order of the list, nor on repetitions. */
  lemma FindSettingIgnoresOrder(settings: seq<Setting>, others: seq<Setting>, q: Query)
    requires DistinctSettingIds(settings)
    requires forall s :: s in settings <==> s in others
    ensures FindSetting(settings, q) == FindSetting(others, q)
  {
    FindSettingIsBest(settings, q);
    FindSettingIsBest(others, q);
    var a, b := FindSetting(settings, q), FindSetting(others, q);
    if a.Some? && b.Some? {
      assert Before(q, a.value, b.value) && Before(q, b.value, a.value);
      KeyLeTotal(Key(a.value), Key(b.value));
    }
  }

  /** With at most two keywords per list, a control with an exact action path beats all others. */
  lemma ExactPathWins(settings: seq<Setting>, q: Query, s: Setting)
    requires |q.actionKeywords| <= 2 && |q.labelKeywords| <= 2
    requires s in settings && s.spec.kind == q.kind && s.spec.actionPath in q.exactActionPaths
    ensures FindSetting(settings, q).Some?
    ensures FindSetting(settings, q).value.spec.actionPath in q.exactActionPaths
  {
    FindSettingIsBest(settings, q);
    assert IsCandidate(q, s);
    var best := FindSetting(settings, q).value;
    assert Before(q, best, s);
  }

  /** Among candidates with equal scores the first by module id, then action path, then setting id is found. */
  lemma FindSettingBreaksTies(settings: seq<Setting>, q: Query, t: Setting)
    requires t in settings && IsCandidate(q, t)
    ensures FindSetting(settings, q).Some?
    ensures var s := FindSetting(settings, q).value;
            && Score(q, s) >= Score(q, t)
            && (Score(q, s) == Score(q, t) ==>
                  if s.spec.moduleId != t.spec.moduleId then Text.StrLe(s.spec.moduleId, t.spec.moduleId)
                  else if s.spec.actionPath != t.spec.actionPath then Text.StrLe(s.spec.actionPath, t.spec.actionPath)
                  else Text.StrLe(s.spec.settingId, t.spec.settingId))
  {
    FindSettingIsBest(settings, q);
    assert Before(q, FindSetting(settings, q).value, t);
  }

  predicate HasExactPath(q: Query, s: Setting) { s.spec.actionPath in q.exactActionPaths }

  /** 1 if the control is in one of the modules, else 0. */
  function ModuleHits(q: Query, s: Setting): int { if Text.Lower(s.spec.moduleId) in q.moduleIds then 1 else 0 }

  function PathHits(q: Query, s: Setting): int { CountIn(q.actionKeywords, Text.Lower(s.spec.actionPath)) }

  function LabelHits(q: Query, s: Setting): int { CountIn(q.labelKeywords, Text.Lower(s.spec.controlLabel)) }

  /**
   * How two candidates compare when both or neither has an exact path, with at most two keywords per list: the module
   * decides unless the path has two keywords less and the label some, or the path one less and the label two; without
   * a difference in the module the path decides, except that two hits in the label make up for one in the path.
   */
  lemma ScoreOrder(q: Query, a: Setting, b: Setting)
    requires |q.actionKeywords| <= 2 && |q.labelKeywords| <= 2 && (HasExactPath(q, a) <==> HasExactPath(q, b))
    ensures var modules, paths, labels := ModuleHits(q, a) - ModuleHits(q, b), PathHits(q, a) - PathHits(q, b),
                                       LabelHits(q, a) - LabelHits(q, b);
            && (modules == 1 ==>
                  (Score(q, a) > Score(q, b) <==> !(paths == -2 && labels < 0) && !(paths == -1 && labels == -2)))
            && (modules == 0 ==>
                  (Score(q, a) > Score(q, b) <==>
                     || (paths > 0 && !(paths == 1 && labels == -2))
                     || (paths == 0 && labels > 0) || (paths == -1 && labels == 2)))
            && (Score(q, a) == Score(q, b) <==>
                  (modules == 0 && paths == 0 && labels == 0) || (modules == 1 && paths == -1 && labels == -2)
                  || (modules == -1 && paths == 1 && labels == 2))
  {
  }

  /** The search loop. */
  method FindSettingLoop(settings: seq<Setting>, q: Query) returns (found: Option<Setting>)
    ensures found == FindSetting(settings, q)
  {
    var candidates := [];
    for i := 0 to |settings|
      invariant candidates == Candidates(settings[..i], q)
    {
      assert settings[..i + 1] == settings[..i] + [settings[i]];
      StableSort.FilterConcat(settings[..i], [settings[i]], s => IsCandidate(q, s));
      if settings[i].spec.kind == q.kind {
        var score := Score(q, settings[i]);
        if score > 0 {
          candidates := candidates + [settings[i]];
        }
      }
    }
    assert settings[..|settings|] == settings;
    candidates := StableSort.Sort(candidates, (a, b) => Before(q, a, b));
    found := if candidates == [] then None else Some(candidates[0]);
  }

  // ---- Operations on a control that was found ----

  function FloatOperation(s: Setting, amount: real, preferSet: bool): Operation {
    var value :=
      if !preferSet && DeltaMode in s.spec.supportedModes then FloatValue(DeltaMode, amount)
      else FloatValue(SetMode, if preferSet then amount else CurrentNumber(s) + amount);
    Operation("bind-" + s.spec.settingId, 1, s.spec.settingId, s.spec.actionPath, value)
  }

  function ChoiceOperation(s: Setting, choiceId: string): Option<Operation> {
    match FirstChoice(s.spec.choices, choiceId)
    case None => None
    case Some(choice) =>
      Some(Operation("bind-" + s.spec.settingId, 1, s.spec.settingId, s.spec.actionPath,
                     ChoiceValue(choice.choiceValue, Some(choice.choiceId))))
  }

  function FirstChoice(choices: seq<ChoiceOption>, choiceId: string): (r: Option<ChoiceOption>)
    ensures r.Some? ==> r.value in choices && r.value.choiceId == choiceId
    ensures r.None? <==> forall c :: c in choices ==> c.choiceId != choiceId
  {
    if choices == [] then None
    else if choices[0].choiceId == choiceId then Some(choices[0])
    else FirstChoice(choices[1..], choiceId)
  }

  // ---- Canonical actions ----

  datatype Strength = Low | Medium | High
  datatype NoiseType = Chroma | Luma | Both
  datatype GradeTarget = GlobalSaturation | BlueSaturation | RedHue | GlobalContrast

  /** Validated actions; the fields an action does not use are absent. */
  datatype Action =
    | AdjustExposure(exposureEv: real)
    | AdjustWhiteBalance(presetChoiceId: Option<string>, temperatureDelta: Option<real>, tintDelta: Option<real>)
    | RecoverHighlights(strength: Strength)
    | ReduceNoise(strength: Strength, noiseType: NoiseType)
    | GradeColor(target: GradeTarget, amount: real)
    | Rotate(angleDegrees: real)
    | CropNormalized(left: real, top: real, right: real, bottom: real)
    | CropToBox(boxLeft: real, boxTop: real, boxWidth: real, boxHeight: real, paddingRatio: real)

  /** Why a requested control produced no operation. */
  datatype Miss =
    | NoExposure | NoPreset | PresetNotOffered | NoTemperature | NoTint | NoHighlight
    | NoChromaNoise | NoLumaNoise | NoGrade | NoRotation | NoCropAxis

  datatype Binding = Binding(operations: seq<Operation>, failures: seq<Miss>) {
    function Then(next: Binding): Binding {
      Binding(operations + next.operations, failures + next.failures)
    }
  }

  const NONE_BOUND := Binding([], [])

  function ExposureQuery(): Query {
    Query(FloatKind, ["iop/exposure/exposure"], [], [], ["exposure"])
  }

  function PresetQuery(): Query {
    Query(ChoiceKind, ["iop/temperature/preset"], [], [], ["preset"])
  }

  function TemperatureQuery(): Query {
    Query(FloatKind, ["iop/temperature/temperature"], [], [], ["temperature"])
  }

  function TintQuery(): Query {
    Query(FloatKind, ["iop/temperature/tint"], [], [], ["tint"])
  }

  function HighlightQuery(): Query {
    Query(FloatKind, ["iop/filmicrgb/white_relative_exposure", "iop/toneequalizer/highlights"],
          ["filmicrgb", "toneequalizer"],
          ["highlight", "white_relative_exposure"], ["highlight", "white relative exposure"])
  }

  function NoiseQuery(channel: string): Query {
    Query(FloatKind, ["iop/denoiseprofile/" + channel], ["denoiseprofile"], [channel, "denoise"], [channel, "noise"])
  }

  function GradeQuery(target: GradeTarget): Query {
    match target
    case GlobalSaturation =>
      Query(FloatKind, ["iop/colorbalancergb/global_saturation", "iop/colorequal/sat_global"],
            [], ["saturation"], ["saturation"])
    case BlueSaturation =>
      Query(FloatKind, ["iop/colorequal/sat_blue"], ["colorequal"], ["blue", "saturation"], ["blue", "saturation"])
    case RedHue =>
      Query(FloatKind, ["iop/primaries/red_hue"], ["primaries"], ["red", "hue"], ["red", "hue"])
    case GlobalContrast =>
      Query(FloatKind, ["iop/colorbalancergb/global_contrast"], [], ["contrast"], ["contrast"])
  }

  function RotateQuery(): Query {
    Query(FloatKind, ["iop/clipping/angle", "iop/crop/angle"], ["clipping", "crop"],
          ["angle", "rotate"], ["angle", "rotation"])
  }

  function CropQuery(axis: string): Query {
    Query(FloatKind, ["iop/clipping/" + axis, "iop/crop/" + axis], ["clipping", "crop"], [axis], [axis])
  }

  predicate InPath(s: Setting, word: string) { Text.Contains(Text.Lower(s.spec.actionPath), word) }

  predicate InLabel(s: Setting, word: string) { Text.Contains(Text.Lower(s.spec.controlLabel), word) }

  predicate InModule(s: Setting, id: string) { Text.Lower(s.spec.moduleId) == id }

  predicate HasPath(s: Setting, path: string) { s.spec.actionPath == path }

  lemma CountTwo(first: string, second: string, text: string)
    ensures CountIn([first, second], text) ==
            (if Text.Contains(text, first) then 1 else 0) + if Text.Contains(text, second) then 1 else 0
  {
    hide Text.Contains;
    assert [first, second][1..] == [second];
  }

  /** Which controls can serve each request at all, exact path or not. */
  lemma CandidatesAre(s: Setting)
    ensures IsCandidate(ExposureQuery(), s) <==>
            s.spec.kind == FloatKind && (HasPath(s, "iop/exposure/exposure") || InLabel(s, "exposure"))
    ensures IsCandidate(PresetQuery(), s) <==>
            s.spec.kind == ChoiceKind && (HasPath(s, "iop/temperature/preset") || InLabel(s, "preset"))
    ensures IsCandidate(TemperatureQuery(), s) <==>
            s.spec.kind == FloatKind && (HasPath(s, "iop/temperature/temperature") || InLabel(s, "temperature"))
    ensures IsCandidate(TintQuery(), s) <==>
            s.spec.kind == FloatKind && (HasPath(s, "iop/temperature/tint") || InLabel(s, "tint"))
    ensures IsCandidate(HighlightQuery(), s) <==>
            && s.spec.kind == FloatKind
            && (|| HasPath(s, "iop/filmicrgb/white_relative_exposure") || HasPath(s, "iop/toneequalizer/highlights")
                || InModule(s, "filmicrgb") || InModule(s, "toneequalizer")
                || InPath(s, "highlight") || InPath(s, "white_relative_exposure")
                || InLabel(s, "highlight") || InLabel(s, "white relative exposure"))
    ensures IsCandidate(RotateQuery(), s) <==>
            && s.spec.kind == FloatKind
            && (|| HasPath(s, "iop/clipping/angle") || HasPath(s, "iop/crop/angle")
                || InModule(s, "clipping") || InModule(s, "crop")
                || InPath(s, "angle") || InPath(s, "rotate") || InLabel(s, "angle") || InLabel(s, "rotation"))
  {
    hide Text.Contains, Text.Lower;
    CountTwo("highlight", "white_relative_exposure", Text.Lower(s.spec.actionPath));
    CountTwo("highlight", "white relative exposure", Text.Lower(s.spec.controlLabel));
    CountTwo("angle", "rotate", Text.Lower(s.spec.actionPath));
    CountTwo("angle", "rotation", Text.Lower(s.spec.controlLabel));
  }

  lemma GradeCandidatesAre(s: Setting)
    ensures IsCandidate(GradeQuery(GlobalSaturation), s) <==>
            && s.spec.kind == FloatKind
            && (|| HasPath(s, "iop/colorbalancergb/global_saturation") || HasPath(s, "iop/colorequal/sat_global")
                || InPath(s, "saturation") || InLabel(s, "saturation"))
    ensures IsCandidate(GradeQuery(BlueSaturation), s) <==>
            && s.spec.kind == FloatKind
            && (|| HasPath(s, "iop/colorequal/sat_blue") || InModule(s, "colorequal")
                || InPath(s, "blue") || InPath(s, "saturation") || InLabel(s, "blue") || InLabel(s, "saturation"))
    ensures IsCandidate(GradeQuery(RedHue), s) <==>
            && s.spec.kind == FloatKind
            && (|| HasPath(s, "iop/primaries/red_hue") || InModule(s, "primaries")
                || InPath(s, "red") || InPath(s, "hue") || InLabel(s, "red") || InLabel(s, "hue"))
    ensures IsCandidate(GradeQuery(GlobalContrast), s) <==>
            && s.spec.kind == FloatKind
            && (HasPath(s, "iop/colorbalancergb/global_contrast") || InPath(s, "contrast") || InLabel(s, "contrast"))
  {
    hide Text.Contains, Text.Lower;
    CountTwo("blue", "saturation", Text.Lower(s.spec.actionPath));
    CountTwo("blue", "saturation", Text.Lower(s.spec.controlLabel));
    CountTwo("red", "hue", Text.Lower(s.spec.actionPath));
    CountTwo("red", "hue", Text.Lower(s.spec.controlLabel));
  }

  lemma ChannelCandidatesAre(s: Setting, name: string)
    ensures IsCandidate(NoiseQuery(name), s) <==>
            && s.spec.kind == FloatKind
            && (|| HasPath(s, "iop/denoiseprofile/" + name) || InModule(s, "denoiseprofile")
                || InPath(s, name) || InPath(s, "denoise") || InLabel(s, name) || InLabel(s, "noise"))
    ensures IsCandidate(CropQuery(name), s) <==>
            && s.spec.kind == FloatKind
            && (|| HasPath(s, "iop/clipping/" + name) || HasPath(s, "iop/crop/" + name)
                || InModule(s, "clipping") || InModule(s, "crop") || InPath(s, name) || InLabel(s, name))
  {
    hide Text.Contains, Text.Lower;
    CountTwo(name, "denoise", Text.Lower(s.spec.actionPath));
    CountTwo(name, "noise", Text.Lower(s.spec.controlLabel));
  }

  function HighlightDelta(strength: Strength): real {
    match strength case Low => -0.25 case Medium => -0.5 case High => -0.75
  }

  function NoiseDelta(strength: Strength): real {
    match strength case Low => 0.1 case Medium => 0.2 case High => 0.35
  }

  datatype CropAxes = CropAxes(cx: real, cy: real, cw: real, ch: real)

  function ClampUnit(x: real): real {
    if x < 0.0 then 0.0 else if x > 1.0 then 1.0 else x
  }

  /** One axis of a box: clamp both ends, pad outwards, clamp again. */
  function PaddedRange(start: real, size: real, paddingRatio: real): (real, real) {
    var pad := size * paddingRatio;
    (ClampUnit(ClampUnit(start) - pad), ClampUnit(ClampUnit(start + size) + pad))
  }

  function BoxAxes(left: real, top: real, width: real, height: real, paddingRatio: real): CropAxes {
    var x, y := PaddedRange(left, width, paddingRatio), PaddedRange(top, height, paddingRatio);
    CropAxes(x.0, y.0, x.1, y.1)
  }

  // ---- Requests ----

  /** What an action asks for, one control at a time: a number to reach or to add, or a choice. */
  datatype Request =
    | FloatRequest(q: Query, amount: real, preferSet: bool, missing: Miss)
    | ChoiceRequest(q: Query, choiceId: string, missing: Miss, notOffered: Miss)

  function Relative(q: Query, amount: real, missing: Miss): Request {
    FloatRequest(q, amount, false, missing)
  }

  function CropRequests(axes: CropAxes): seq<Request> {
    [FloatRequest(CropQuery("cx"), axes.cx, true, NoCropAxis),
     FloatRequest(CropQuery("cy"), axes.cy, true, NoCropAxis),
     FloatRequest(CropQuery("cw"), axes.cw, true, NoCropAxis),
     FloatRequest(CropQuery("ch"), axes.ch, true, NoCropAxis)]
  }

  function RequestsOf(action: Action): seq<Request> {
    match action
    case AdjustExposure(ev) => [Relative(ExposureQuery(), ev, NoExposure)]
    case AdjustWhiteBalance(preset, temperature, tint) =>
      (if preset.None? then [] else [ChoiceRequest(PresetQuery(), preset.value, NoPreset, PresetNotOffered)])
      + (if temperature.None? then [] else [Relative(TemperatureQuery(), temperature.value, NoTemperature)])
      + (if tint.None? then [] else [Relative(TintQuery(), tint.value, NoTint)])
    case RecoverHighlights(strength) => [Relative(HighlightQuery(), HighlightDelta(strength), NoHighlight)]
    case ReduceNoise(strength, noiseType) =>
      (if noiseType == Luma then [] else [Relative(NoiseQuery("chroma"), NoiseDelta(strength), NoChromaNoise)])
      + (if noiseType == Chroma then [] else [Relative(NoiseQuery("luma"), NoiseDelta(strength), NoLumaNoise)])
    case GradeColor(target, amount) => [Relative(GradeQuery(target), amount, NoGrade)]
    case Rotate(angle) => [Relative(RotateQuery(), angle, NoRotation)]
    case CropNormalized(left, top, right, bottom) => CropRequests(CropAxes(left, top, right, bottom))
    case CropToBox(left, top, width, height, padding) => CropRequests(BoxAxes(left, top, width, height, padding))
  }

  predicate IsCrop(action: Action) {
    action.CropNormalized? || action.CropToBox?
  }

  /** The left, top, right and bottom edge an action crops to. */
  function EdgesOf(action: Action): CropAxes
    requires IsCrop(action)
  {
    if action.CropNormalized? then CropAxes(action.left, action.top, action.right, action.bottom)
    else BoxAxes(action.boxLeft, action.boxTop, action.boxWidth, action.boxHeight, action.paddingRatio)
  }

  function AllRequests(actions: seq<Action>): seq<Request> {
    if actions == [] then []
    else AllRequests(actions[..|actions| - 1]) + RequestsOf(actions[|actions| - 1])
  }

  /** A request names a query for controls of its own kind. */
  predicate WellKinded(r: Request) {
    r.q.kind == if r.FloatRequest? then FloatKind else ChoiceKind
  }

  /** The operation for a request, or the note why there is none. */
  function BindRequest(settings: seq<Setting>, r: Request): (b: Binding)
    ensures |b.operations| + |b.failures| == 1
  {
    match FindSetting(settings, r.q)
    case None => Binding([], [r.missing])
    case Some(s) =>
      match r
      case FloatRequest(_, amount, preferSet, _) => Binding([FloatOperation(s, amount, preferSet)], [])
      case ChoiceRequest(_, choiceId, _, notOffered) =>
        match ChoiceOperation(s, choiceId)
        case None => Binding([], [notOffered])
        case Some(op) => Binding([op], [])
  }

  function BindRequests(settings: seq<Setting>, requests: seq<Request>): (b: Binding)
    ensures |b.operations| + |b.failures| == |requests|
  {
    if requests == [] then NONE_BOUND
    else BindRequests(settings, requests[..|requests| - 1]).Then(BindRequest(settings, requests[|requests| - 1]))
  }

  lemma {:induction false} BindRequestsConcat(settings: seq<Setting>, a: seq<Request>, b: seq<Request>)
    ensures BindRequests(settings, a + b) == BindRequests(settings, a).Then(BindRequests(settings, b))
  {
    hide BindRequest;
    if b == [] {
      assert a + b == a;
    } else {
      BindRequestsConcat(settings, a, b[..|b| - 1]);
      assert (a + b)[..|a + b| - 1] == a + b[..|b| - 1];
    }
  }

  const ID_PREFIX := "canonical-op-"

  ghost function Bound(settings: seq<Setting>, actions: seq<Action>): Binding {
    var all := BindRequests(settings, AllRequests(actions));
    Binding(OperationIds.Normalized(all.operations, ID_PREFIX), all.failures)
  }

  method BindCanonicalActions(settings: seq<Setting>, actions: seq<Action>) returns (binding: Binding)
    ensures binding == Bound(settings, actions)
  {
    var operations, failures := [], [];
    for i := 0 to |actions|
      invariant Binding(operations, failures) == BindRequests(settings, AllRequests(actions[..i]))
    {
      assert actions[..i + 1][..i] == actions[..i];
      BindRequestsConcat(settings, AllRequests(actions[..i]), RequestsOf(actions[i]));
      var result := BindRequests(settings, RequestsOf(actions[i]));
      operations := operations + result.operations;
      failures := failures + result.failures;
    }
    assert actions[..|actions|] == actions;
    operations := OperationIds.NormalizeOperationsWithUniqueIds(operations, ID_PREFIX);
    binding := Binding(operations, failures);
  }

  /** Nothing is dropped: every requested control yields one operation or one failure note. */
  lemma EveryRequestIsAnswered(settings: seq<Setting>, actions: seq<Action>)
    ensures |Bound(settings, actions).operations| + |Bound(settings, actions).failures| == |AllRequests(actions)|
  {
  }

  /** Notes come in the order of the actions. */
  lemma NotesInOrder(settings: seq<Setting>, before: seq<Action>, after: seq<Action>)
    ensures Bound(settings, before + after).failures ==
            Bound(settings, before).failures + Bound(settings, after).failures
  {
    AllRequestsConcat(before, after);
    BindRequestsConcat(settings, AllRequests(before), AllRequests(after));
  }

  lemma {:induction false} AllRequestsConcat(before: seq<Action>, after: seq<Action>)
    ensures AllRequests(before + after) == AllRequests(before) + AllRequests(after)
  {
    hide RequestsOf;
    if after == [] {
      assert before + after == before;
    } else {
      var n := |after| - 1;
      AllRequestsConcat(before, after[..n]);
      assert (before + after)[..|before + after| - 1] == before + after[..n];
    }
  }

  /** One note for each control that an action asks for, in order. */
  function ExpectedNotes(action: Action): seq<Miss> {
    match action
    case AdjustExposure(_) => [NoExposure]
    case AdjustWhiteBalance(preset, temperature, tint) =>
      (if preset.Some? then [NoPreset] else []) + (if temperature.Some? then [NoTemperature] else [])
      + (if tint.Some? then [NoTint] else [])
    case RecoverHighlights(_) => [NoHighlight]
    case ReduceNoise(_, noiseType) =>
      (match noiseType case Chroma => [NoChromaNoise] case Luma => [NoLumaNoise]
                       case Both => [NoChromaNoise, NoLumaNoise])
    case GradeColor(_, _) => [NoGrade]
    case Rotate(_) => [NoRotation]
    case CropNormalized(_, _, _, _) => [NoCropAxis, NoCropAxis, NoCropAxis, NoCropAxis]
    case CropToBox(_, _, _, _, _) => [NoCropAxis, NoCropAxis, NoCropAxis, NoCropAxis]
  }

  /** What is noted of an action when there is no control at all. */
  lemma NotesWithoutControls(action: Action)
    ensures Bound([], [action]).operations == [] && Bound([], [action]).failures == ExpectedNotes(action)
  {
    MissesAre(action);
    hide BindRequests, RequestsOf, MissesOf;
    assert [action][..0] == [] && AllRequests([]) == [];
    assert AllRequests([action]) == RequestsOf(action);
    OnlyNotes(RequestsOf(action));
  }

  lemma MissesAre(action: Action)
    ensures MissesOf(RequestsOf(action)) == ExpectedNotes(action)
  {
    hide ExposureQuery, PresetQuery, TemperatureQuery, TintQuery, HighlightQuery, NoiseQuery, GradeQuery, RotateQuery;
    hide CropQuery, HighlightDelta, NoiseDelta, BoxAxes;
  }

  function MissesOf(rs: seq<Request>): seq<Miss> {
    seq(|rs|, i requires 0 <= i < |rs| => rs[i].missing)
  }

  lemma {:induction false} OnlyNotes(rs: seq<Request>)
    ensures BindRequests([], rs) == Binding([], MissesOf(rs))
  {
    if rs != [] {
      OnlyNotes(rs[..|rs| - 1]);
      FindSettingIsBest([], rs[|rs| - 1].q);
      assert MissesOf(rs) == MissesOf(rs[..|rs| - 1]) + [rs[|rs| - 1].missing];
    }
  }

  // ---- When a bound operation is accepted ----

  function ModeFor(s: Setting, preferSet: bool): Mode {
    if !preferSet && DeltaMode in s.spec.supportedModes then DeltaMode else SetMode
  }

  /** The last entry t with the id of a found control s stands for the same kind of control. */
  predicate SamePlace(s: Setting, t: Setting) {
    s.spec.actionPath == t.spec.actionPath && s.spec.kind == t.spec.kind
  }

  /**
   * What a caller can check of the snapshot before the call: the entry the engine edits, which is the last one
   * with the id of the control that was found, has that control's path and kind, offers the mode that was chosen
   * for the control that was found, and for a choice has an option with the same value and id.
   */
  predicate Meets(settings: seq<Setting>, r: Request) {
    match FindSetting(settings, r.q)
    case None => true
    case Some(s) =>
      match LastWithId(settings, s.spec.settingId)
      case None => false
      case Some(t) =>
        match r
        case FloatRequest(_, _, preferSet, _) => SamePlace(s, t) && ModeFor(s, preferSet) in t.spec.supportedModes
        case ChoiceRequest(_, choiceId, _, _) =>
          match FirstChoice(s.spec.choices, choiceId)
          case None => true
          case Some(choice) => SamePlace(s, t) && choice in t.spec.choices
  }

  /** A number aimed at s is accepted exactly when the entry the engine edits is the same place and offers the mode. */
  lemma FloatAccepted(settings: seq<Setting>, s: Setting, amount: real, preferSet: bool)
    requires ValidSnapshot(settings) && s in settings && s.spec.kind == FloatKind
    ensures LastWithId(settings, s.spec.settingId).Some?
    ensures var t := LastWithId(settings, s.spec.settingId).value;
            Refusal(Snapshot(settings), FloatOperation(s, amount, preferSet)).None? <==>
            SamePlace(s, t) && ModeFor(s, preferSet) in t.spec.supportedModes
  {
    SnapshotIsLast(settings, s.spec.settingId);
  }

  lemma ChoiceAccepted(settings: seq<Setting>, s: Setting, choiceId: string)
    requires ValidSnapshot(settings) && s in settings && s.spec.kind == ChoiceKind
    requires FirstChoice(s.spec.choices, choiceId).Some?
    ensures LastWithId(settings, s.spec.settingId).Some?
    ensures var t := LastWithId(settings, s.spec.settingId).value;
            Refusal(Snapshot(settings), ChoiceOperation(s, choiceId).value).None? <==>
            SamePlace(s, t) && FirstChoice(s.spec.choices, choiceId).value in t.spec.choices
  {
    SnapshotIsLast(settings, s.spec.settingId);
    var t := LastWithId(settings, s.spec.settingId).value;
    if SamePlace(s, t) {
      MappingMember(t.spec.choices, FirstChoice(s.spec.choices, choiceId).value);
    }
  }

  /** A request's operation, if it yields one, is accepted exactly when the request meets the snapshot. */
  lemma RequestAccepted(settings: seq<Setting>, r: Request)
    requires ValidSnapshot(settings) && WellKinded(r)
    ensures Acceptable(Snapshot(settings), BindRequest(settings, r).operations) <==> Meets(settings, r)
  {
    FindSettingIsBest(settings, r.q);
    var found := FindSetting(settings, r.q);
    if found.Some? {
      var s := found.value;
      var ops := BindRequest(settings, r).operations;
      match r
      case FloatRequest(_, amount, preferSet, _) =>
        FloatAccepted(settings, s, amount, preferSet);
        assert ops[0] in ops;
      case ChoiceRequest(_, choiceId, _, _) =>
        if FirstChoice(s.spec.choices, choiceId).Some? {
          ChoiceAccepted(settings, s, choiceId);
          assert ops[0] in ops;
        }
    }
  }

  lemma {:induction false} RequestsAccepted(settings: seq<Setting>, requests: seq<Request>)
    requires ValidSnapshot(settings) && forall r :: r in requests ==> WellKinded(r)
    ensures Acceptable(Snapshot(settings), BindRequests(settings, requests).operations) <==>
            forall r :: r in requests ==> Meets(settings, r)
  {
    if requests != [] {
      hide Meets, BindRequest, Refusal, WellKinded;
      var front, last := requests[..|requests| - 1], requests[|requests| - 1];
      assert requests == front + [last];
      RequestsAccepted(settings, front);
      RequestAccepted(settings, last);
      AcceptableConcat(Snapshot(settings),
                       BindRequests(settings, front).operations, BindRequest(settings, last).operations);
    }
  }

  lemma AcceptableConcat(m: SettingMap, a: seq<Operation>, b: seq<Operation>)
    ensures Acceptable(m, a + b) <==> Acceptable(m, a) && Acceptable(m, b)
  {
    hide Refusal;
    assert forall op :: op in a ==> op in a + b;
    assert forall op :: op in b ==> op in a + b;
  }

  /** Each request names controls of its own kind, and exactly the requests of a crop insist on "set". */
  ghost predicate Uniform(requests: seq<Request>, crop: bool) {
    forall r :: r in requests ==> WellKinded(r) && (crop <==> r.FloatRequest? && r.preferSet)
  }

  lemma CropIsUniform(axes: CropAxes)
    ensures Uniform(CropRequests(axes), true)
  {
  }

  lemma WhiteBalanceIsUniform(action: Action)
    requires action.AdjustWhiteBalance?
    ensures Uniform(RequestsOf(action), false)
  {
  }

  lemma ActionIsUniform(action: Action)
    ensures Uniform(RequestsOf(action), IsCrop(action))
  {
    if IsCrop(action) {
      assert RequestsOf(action) == CropRequests(EdgesOf(action));
      CropIsUniform(EdgesOf(action));
    } else if action.AdjustWhiteBalance? {
      WhiteBalanceIsUniform(action);
    }
  }

  lemma {:induction false} AllWellKinded(actions: seq<Action>)
    ensures forall r :: r in AllRequests(actions) ==> WellKinded(r)
  {
    if actions != [] {
      hide RequestsOf, WellKinded, IsCrop;
      AllWellKinded(actions[..|actions| - 1]);
      ActionIsUniform(actions[|actions| - 1]);
    }
  }

  /** Normalising the ids changes nothing about what is accepted or what a run does. */
  lemma NormalizedRuns(m: SettingMap, ops: seq<Operation>)
    ensures Run(m, OperationIds.Normalized(ops, ID_PREFIX)) == Run(m, ops)
  {
    OperationIds.NormalizedIsSound(ops, ID_PREFIX);
    RunSameEdits(m, OperationIds.Normalized(ops, ID_PREFIX), ops);
  }

  /**
   * The binder's batch is accepted, on any validated snapshot and in any later state of the same controls, exactly
   * when every request of its actions meets the snapshot.
   */
  lemma BinderIsSound(settings: seq<Setting>, live: SettingMap, actions: seq<Action>)
    requires ValidSnapshot(settings) && SameSpecs(Snapshot(settings), live)
    ensures Run(live, Bound(settings, actions).operations).Success? <==>
            forall r :: r in AllRequests(actions) ==> Meets(settings, r)
  {
    var raw := BindRequests(settings, AllRequests(actions)).operations;
    AllWellKinded(actions);
    RequestsAccepted(settings, AllRequests(actions));
    NormalizedRuns(live, raw);
    RunSucceedsIff(live, raw);
    assert forall op :: Refusal(live, op) == Refusal(Snapshot(settings), op);
  }

  // ---- Unique setting ids ----

  /** A control for the axis either is missing or can be set outright. */
  predicate AxisSettable(settings: seq<Setting>, axis: string) {
    match FindSetting(settings, CropQuery(axis))
    case None => true
    case Some(s) => SetMode in s.spec.supportedModes
  }

  predicate CropSettable(settings: seq<Setting>) {
    && AxisSettable(settings, "cx") && AxisSettable(settings, "cy")
    && AxisSettable(settings, "cw") && AxisSettable(settings, "ch")
  }

  /** With unique ids a request meets the snapshot unless it must set a control that only offers "delta". */
  lemma MeetsWhenUnique(settings: seq<Setting>, r: Request)
    requires ValidSnapshot(settings) && UniqueSettingIds(settings) && WellKinded(r)
    ensures Meets(settings, r) <==>
            r.FloatRequest? && r.preferSet && FindSetting(settings, r.q).Some? ==>
              SetMode in FindSetting(settings, r.q).value.spec.supportedModes
  {
    FindSettingIsBest(settings, r.q);
    if FindSetting(settings, r.q).Some? {
      var s := FindSetting(settings, r.q).value;
      UniqueEntryIsLast(settings, s);
      assert ValidSetting(s);
      if r.FloatRequest? && DeltaMode !in s.spec.supportedModes {
        assert s.spec.supportedModes[0] == SetMode;
      }
    }
  }

  /** The requests of one action: all but those of a crop are relative or choices. */
  lemma ActionMeetsWhenUnique(settings: seq<Setting>, action: Action)
    requires ValidSnapshot(settings) && UniqueSettingIds(settings)
    ensures (forall r :: r in RequestsOf(action) ==> Meets(settings, r)) <==>
            (IsCrop(action) ==> CropSettable(settings))
  {
    hide Meets, FindSetting, CropQuery, WellKinded;
    ActionIsUniform(action);
    if IsCrop(action) {
      assert RequestsOf(action) == CropRequests(EdgesOf(action));
      CropMeetsWhenUnique(settings, EdgesOf(action));
    } else {
      hide RequestsOf;
      forall r | r in RequestsOf(action)
        ensures Meets(settings, r)
      {
        MeetsWhenUnique(settings, r);
      }
    }
  }

  lemma CropMeetsWhenUnique(settings: seq<Setting>, axes: CropAxes)
    requires ValidSnapshot(settings) && UniqueSettingIds(settings)
    ensures (forall r :: r in CropRequests(axes) ==> Meets(settings, r)) <==> CropSettable(settings)
  {
    hide Meets, FindSetting;
    var rs := CropRequests(axes);
    assert rs[0] in rs && rs[1] in rs && rs[2] in rs && rs[3] in rs;
    MeetsWhenUnique(settings, rs[0]);
    MeetsWhenUnique(settings, rs[1]);
    MeetsWhenUnique(settings, rs[2]);
    MeetsWhenUnique(settings, rs[3]);
  }

  lemma {:induction false} ActionsMeetWhenUnique(settings: seq<Setting>, actions: seq<Action>)
    requires ValidSnapshot(settings) && UniqueSettingIds(settings)
    ensures (forall r :: r in AllRequests(actions) ==> Meets(settings, r)) <==>
            ((exists a :: a in actions && IsCrop(a)) ==> CropSettable(settings))
  {
    if actions != [] {
      hide Meets, RequestsOf, CropSettable;
      var front, last := actions[..|actions| - 1], actions[|actions| - 1];
      assert actions == front + [last];
      ActionsMeetWhenUnique(settings, front);
      ActionMeetsWhenUnique(settings, last);
    }
  }

  /**
   * With unique setting ids: a batch is accepted exactly when it has no crop, or every crop axis that has a control
   * has one that supports "set".
   */
  lemma UniqueIdsAreAccepted(settings: seq<Setting>, live: SettingMap, actions: seq<Action>)
    requires ValidSnapshot(settings) && UniqueSettingIds(settings) && SameSpecs(Snapshot(settings), live)
    ensures Run(live, Bound(settings, actions).operations).Success? <==>
            ((exists a :: a in actions && IsCrop(a)) ==> CropSettable(settings))
  {
    BinderIsSound(settings, live, actions);
    ActionsMeetWhenUnique(settings, actions);
  }

  // ---- Crop boxes ----

  /** A validated box action: origin and size in [0, 1], positive size, padding in [0, 1]. */
  predicate ValidBox(a: Action) {
    && a.CropToBox?
    && 0.0 <= a.boxLeft <= 1.0 && 0.0 <= a.boxTop <= 1.0
    && 0.0 < a.boxWidth <= 1.0 && 0.0 < a.boxHeight <= 1.0
    && 0.0 <= a.paddingRatio <= 1.0
  }

  /**
   * The crop stays in the unit square and contains the visible part of the box. It has positive
   * extent along an axis exactly when the box starts before the far edge or is padded.
   */
  lemma BoxCropExtent(a: Action)
    requires ValidBox(a)
    ensures var c := BoxAxes(a.boxLeft, a.boxTop, a.boxWidth, a.boxHeight, a.paddingRatio);
            && 0.0 <= c.cx <= a.boxLeft && ClampUnit(a.boxLeft + a.boxWidth) <= c.cw <= 1.0
            && 0.0 <= c.cy <= a.boxTop && ClampUnit(a.boxTop + a.boxHeight) <= c.ch <= 1.0
            && (c.cx < c.cw <==> a.boxLeft < 1.0 || a.paddingRatio > 0.0)
            && (c.cy < c.ch <==> a.boxTop < 1.0 || a.paddingRatio > 0.0)
  {
    RangeExtent(a.boxLeft, a.boxWidth, a.paddingRatio);
    RangeExtent(a.boxTop, a.boxHeight, a.paddingRatio);
  }

  lemma RangeExtent(start: real, size: real, padding: real)
    requires 0.0 <= start <= 1.0 && 0.0 < size && 0.0 <= padding
    ensures var (low, high) := PaddedRange(start, size, padding);
            && 0.0 <= low <= start && ClampUnit(start + size) <= high <= 1.0
            && (low < high <==> start < 1.0 || padding > 0.0)
  {
    PadSign(size, padding);
  }

  lemma PadSign(size: real, padding: real)
    requires 0.0 < size && 0.0 <= padding
    ensures size * padding >= 0.0 && (size * padding > 0.0 <==> padding > 0.0)
  {
  }

  function AtLeastZero(x: real): real { if x < 0.0 then 0.0 else x }

  function AtMostOne(x: real): real { if x > 1.0 then 1.0 else x }

  /** The clamping in two stages is the same as cutting the padded box off at the border of the unit square. */
  lemma BoxEdges(a: Action)
    requires ValidBox(a)
    ensures EdgesOf(a) == CropAxes(AtLeastZero(a.boxLeft - a.boxWidth * a.paddingRatio),
                                   AtLeastZero(a.boxTop - a.boxHeight * a.paddingRatio),
                                   AtMostOne(a.boxLeft + a.boxWidth + a.boxWidth * a.paddingRatio),
                                   AtMostOne(a.boxTop + a.boxHeight + a.boxHeight * a.paddingRatio))
  {
    RangeEdges(a.boxLeft, a.boxWidth, a.paddingRatio);
    RangeEdges(a.boxTop, a.boxHeight, a.paddingRatio);
  }

  lemma RangeEdges(start: real, size: real, padding: real)
    requires 0.0 <= start <= 1.0 && 0.0 < size && 0.0 <= padding
    ensures PaddedRange(start, size, padding) ==
            (AtLeastZero(start - size * padding), AtMostOne(start + size + size * padding))
  {
    PadSign(size, padding);
  }

  // ---- From request to effect ----

  /** s is the one control of its kind with one of these action paths. */
  ghost predicate OnlyControl(settings: seq<Setting>, kind: Kind, paths: seq<string>, s: Setting) {
    && s in settings && s.spec.kind == kind && s.spec.actionPath in paths
    && forall t :: t in settings && t.spec.kind == kind && t.spec.actionPath in paths ==> t == s
  }

  /** The query names this control outright, and no other. */
  ghost predicate ExactControl(settings: seq<Setting>, q: Query, s: Setting) {
    OnlyControl(settings, q.kind, q.exactActionPaths, s)
  }

  lemma ExactControlIsFound(settings: seq<Setting>, q: Query, s: Setting)
    requires |q.actionKeywords| <= 2 && |q.labelKeywords| <= 2 && ExactControl(settings, q, s)
    ensures FindSetting(settings, q) == Some(s)
  {
    ExactPathWins(settings, q, s);
    FindSettingIsBest(settings, q);
  }

  predicate IsLast(settings: seq<Setting>, s: Setting) {
    LastWithId(settings, s.spec.settingId) == Some(s)
  }

  /** For a control found by its exact path, the engine's entry is the same place only if it is that control. */
  lemma ExactMeets(settings: seq<Setting>, r: Request, s: Setting)
    requires ValidSnapshot(settings) && r.FloatRequest? && WellKinded(r)
    requires |r.q.actionKeywords| <= 2 && |r.q.labelKeywords| <= 2 && ExactControl(settings, r.q, s)
    ensures Meets(settings, r) <==> IsLast(settings, s) && (r.preferSet ==> SetMode in s.spec.supportedModes)
    ensures BindRequest(settings, r) == Binding([FloatOperation(s, r.amount, r.preferSet)], [])
  {
    ExactControlIsFound(settings, r.q, s);
    assert ValidSetting(s);
    if DeltaMode !in s.spec.supportedModes {
      assert s.spec.supportedModes[0] == SetMode;
    }
  }

  /** A control with its number moved to x, as far as its range allows. */
  function Moved(s: Setting, x: real): Setting {
    Compact(s).(number := Some(Clamp(x, s.spec.minNumber, s.spec.maxNumber)))
  }

  /** What a number aimed at s does to the live control with its id, when it is accepted. */
  lemma FloatLands(settings: seq<Setting>, live: SettingMap, s: Setting, amount: real, preferSet: bool)
    requires ValidSnapshot(settings) && s in settings && s.spec.kind == FloatKind && SameSpecs(Snapshot(settings), live)
    ensures s.spec.settingId in live
    ensures var id := s.spec.settingId;
            var op := FloatOperation(s, amount, preferSet);
            var start := if ModeFor(s, preferSet) == DeltaMode then CurrentNumber(live[id])
                         else if preferSet then 0.0 else s.number.value;
            var spec := live[id].spec;
            Refusal(Snapshot(settings), op).None? ==>
              Apply(live, op) ==
              Success(live[id := live[id].(number := Some(Clamp(start + amount, spec.minNumber, spec.maxNumber)))])
  {
    SnapshotIsLast(settings, s.spec.settingId);
    assert ValidSetting(s);
  }

  /**
   * A relative edit in any live state of the snapshot's controls: it is refused unless the entry with its id is the
   * same place and offers the mode, and then it lands on clamp(live + amount) when the control that was found offers
   * "delta", else on clamp(snapshot + amount), which ignores edits made since.
   */
  lemma RelativeEditInLiveState(settings: seq<Setting>, live: SettingMap, s: Setting, amount: real)
    requires ValidSnapshot(settings) && s in settings && s.spec.kind == FloatKind
    requires SameSpecs(Snapshot(settings), live)
    ensures LastWithId(settings, s.spec.settingId).Some? && s.spec.settingId in live
    ensures var id, t := s.spec.settingId, LastWithId(settings, s.spec.settingId).value;
            var start := if DeltaMode in s.spec.supportedModes then CurrentNumber(live[id]) else s.number.value;
            if SamePlace(s, t) && ModeFor(s, false) in t.spec.supportedModes then
              Apply(live, FloatOperation(s, amount, false)) ==
              Success(live[id := live[id].(number := Some(Clamp(start + amount, t.spec.minNumber, t.spec.maxNumber)))])
            else
              Apply(live, FloatOperation(s, amount, false)).Failure?
  {
    SnapshotIsLast(settings, s.spec.settingId);
    FloatAccepted(settings, s, amount, false);
    FloatLands(settings, live, s, amount, false);
  }

  /**
   * Applied alone to the snapshot it was bound against, a relative edit lands on clamp(current + amount), whichever
   * mode the control offers, if the control's entry is the one that is edited.
   */
  lemma RelativeEditLandsOnClampedSum(settings: seq<Setting>, s: Setting, amount: real)
    requires ValidSnapshot(settings) && s in settings && s.spec.kind == FloatKind && IsLast(settings, s)
    ensures s.number.Some?
    ensures Apply(Snapshot(settings), FloatOperation(s, amount, false)) ==
            Success(Snapshot(settings)[s.spec.settingId := Moved(s, s.number.value + amount)])
  {
    assert ValidSetting(s);
    SnapshotIsLast(settings, s.spec.settingId);
    RelativeEditInLiveState(settings, Snapshot(settings), s, amount);
    if DeltaMode !in s.spec.supportedModes {
      assert s.spec.supportedModes[0] == SetMode;
    }
  }

  /** Two relative edits of a set-only control in one run: the first one is lost. */
  lemma SetOnlyRelativeEditsDoNotAccumulate()
    ensures exists s: Setting, m: SettingMap ::
      && ValidSnapshot([s]) && s.spec.kind == FloatKind && m == Snapshot([s])
      && var op := FloatOperation(s, 1.0, false);
         Run(m, [op, op]).Success? && Run(m, [op, op]) == Run(m, [op]) && Run(m, [op]).value != m
  {
    var spec := ControlSpec("a", "m", "l", "p", FloatKind, [SetMode], Some(0.0), Some(9.0), Some(0.0), []);
    var s := Setting(spec, Some(0.0), None, None, None);
    var op := FloatOperation(s, 1.0, false);
    var m := Snapshot([s]);
    assert [s][..0] == [] && Snapshot([]) == map[];
    assert m == map["a" := Compact(s)];
    assert Refusal(m, op).None?;
    var after := m["a" := Updated(m["a"], op)];
    assert Updated(after["a"], op) == after["a"] && after["a"].number == Some(1.0);
    assert after["a" := after["a"]] == after;
    assert [op, op][1..] == [op] && [op][1..] == [];
    assert Apply(m, op) == Success(after) && Apply(after, op) == Success(after);
    assert Run(m, [op]) == Run(after, []) && Run(after, [op]) == Run(after, []);
    assert Run(m, [op, op]) == Run(after, [op]);
    assert ValidSnapshot([s]);
  }

  // ---- From action to effect ----

  /** s is the one control that the request names outright. */
  ghost predicate Aims(settings: seq<Setting>, r: Request, s: Setting) {
    WellKinded(r) && |r.q.actionKeywords| <= 2 && |r.q.labelKeywords| <= 2 && ExactControl(settings, r.q, s)
  }

  /** A number always gives an operation, a choice only when the control offers it. */
  predicate Offered(r: Request, s: Setting) {
    r.FloatRequest? || FirstChoice(s.spec.choices, r.choiceId).Some?
  }

  /** The engine edits this control, and lets it be set if that is asked for. */
  predicate Ready(settings: seq<Setting>, r: Request, s: Setting) {
    IsLast(settings, s) && (r.FloatRequest? && r.preferSet ==> SetMode in s.spec.supportedModes)
  }

  function OperationFor(r: Request, s: Setting): Operation
    requires Offered(r, s)
  {
    if r.FloatRequest? then FloatOperation(s, r.amount, r.preferSet) else ChoiceOperation(s, r.choiceId).value
  }

  /** A control with this choice made. */
  function Chosen(s: Setting, choice: ChoiceOption): Setting {
    Compact(s).(choiceValue := Some(choice.choiceValue), choiceId := Some(choice.choiceId))
  }

  /** What becomes of the control. */
  function Landed(r: Request, s: Setting): Setting
    requires Offered(r, s)
  {
    match r
    case FloatRequest(_, amount, preferSet, _) => Moved(s, if preferSet then amount else CurrentNumber(s) + amount)
    case ChoiceRequest(_, choiceId, _, _) => Chosen(s, FirstChoice(s.spec.choices, choiceId).value)
  }

  lemma AimedMeets(settings: seq<Setting>, r: Request, s: Setting)
    requires ValidSnapshot(settings) && Aims(settings, r, s)
    ensures Meets(settings, r) <==> (Offered(r, s) ==> Ready(settings, r, s))
    ensures BindRequest(settings, r) ==
            if Offered(r, s) then Binding([OperationFor(r, s)], []) else Binding([], [r.notOffered])
  {
    if r.FloatRequest? {
      ExactMeets(settings, r, s);
    } else {
      ExactControlIsFound(settings, r.q, s);
    }
  }

  lemma OperationLands(settings: seq<Setting>, live: SettingMap, r: Request, s: Setting)
    requires ValidSnapshot(settings) && Aims(settings, r, s) && Offered(r, s) && Ready(settings, r, s)
    requires s.spec.settingId in live && live[s.spec.settingId] == Compact(s)
    ensures Apply(live, OperationFor(r, s)) == Success(live[s.spec.settingId := Landed(r, s)])
  {
    assert ValidSetting(s);
    if r.ChoiceRequest? {
      MappingMember(s.spec.choices, FirstChoice(s.spec.choices, r.choiceId).value);
    } else if DeltaMode !in s.spec.supportedModes {
      assert s.spec.supportedModes[0] == SetMode;
    }
  }

  /** Requests, each with the control it is aimed at. */
  datatype Targets = NoTarget | And(front: Targets, r: Request, s: Setting)

  function RequestsIn(ts: Targets): seq<Request> {
    match ts
    case NoTarget => []
    case And(front, r, _) => RequestsIn(front) + [r]
  }

  ghost predicate AllAim(settings: seq<Setting>, ts: Targets) {
    ts.NoTarget? || (AllAim(settings, ts.front) && Aims(settings, ts.r, ts.s))
  }

  ghost predicate AllReady(settings: seq<Setting>, ts: Targets) {
    ts.NoTarget? || (AllReady(settings, ts.front) && (Offered(ts.r, ts.s) ==> Ready(settings, ts.r, ts.s)))
  }

  /** None of the controls is where s is. */
  ghost predicate Clear(ts: Targets, s: Setting) {
    ts.NoTarget? || (Clear(ts.front, s) && !SamePlace(ts.s, s))
  }

  /** No two of the controls are at one place. */
  ghost predicate Apart(ts: Targets) {
    ts.NoTarget? || (Apart(ts.front) && Clear(ts.front, ts.s))
  }

  /** The controls after one request, and after all of them. */
  function LandedIn(m: SettingMap, r: Request, s: Setting): SettingMap {
    if Offered(r, s) then m[s.spec.settingId := Landed(r, s)] else m
  }

  function AllLandedIn(m: SettingMap, ts: Targets): SettingMap {
    if ts.NoTarget? then m else LandedIn(AllLandedIn(m, ts.front), ts.r, ts.s)
  }

  function Notes(ts: Targets): seq<Miss> {
    if ts.NoTarget? then [] else Notes(ts.front) + if Offered(ts.r, ts.s) then [] else [ts.r.notOffered]
  }

  /** A control that the engine edits is in the snapshot as it is in the list. */
  lemma LastIsCurrent(settings: seq<Setting>, s: Setting)
    requires ValidSnapshot(settings) && s in settings && IsLast(settings, s)
    ensures s.spec.settingId in Snapshot(settings) && Snapshot(settings)[s.spec.settingId] == Compact(s)
  {
    SnapshotIsLast(settings, s.spec.settingId);
  }

  /** Requests for other controls leave this one as it is. */
  lemma {:induction false} StillCurrent(settings: seq<Setting>, ts: Targets, s: Setting)
    requires ValidSnapshot(settings) && AllAim(settings, ts) && AllReady(settings, ts) && Clear(ts, s)
    requires s in settings && IsLast(settings, s)
    ensures var m := AllLandedIn(Snapshot(settings), ts);
            s.spec.settingId in m && m[s.spec.settingId] == Compact(s)
  {
    hide Snapshot, Compact, ValidSnapshot, Offered, Landed;
    if ts.NoTarget? {
      LastIsCurrent(settings, s);
    } else {
      StillCurrent(settings, ts.front, s);
    }
  }

  /** One more request, after those that led to this state. */
  lemma OneMoreLands(settings: seq<Setting>, start: SettingMap, before: seq<Operation>, reached: SettingMap,
                     r: Request, s: Setting)
    requires ValidSnapshot(settings) && Aims(settings, r, s) && (Offered(r, s) ==> Ready(settings, r, s))
    requires Run(start, before) == Success(reached)
    requires Offered(r, s) ==> s.spec.settingId in reached && reached[s.spec.settingId] == Compact(s)
    ensures Run(start, before + BindRequest(settings, r).operations) == Success(LandedIn(reached, r, s))
  {
    hide Run, Apply, Aims, Offered, Ready, Landed, OperationFor, BindRequest, ValidSnapshot, Compact;
    AimedMeets(settings, r, s);
    if Offered(r, s) {
      OperationLands(settings, reached, r, s);
      RunSnoc(start, before, OperationFor(r, s));
    } else {
      assert before + [] == before;
    }
  }

  lemma BindLast(settings: seq<Setting>, rs: seq<Request>, r: Request)
    ensures BindRequests(settings, rs + [r]) == BindRequests(settings, rs).Then(BindRequest(settings, r))
  {
    hide BindRequest;
    assert (rs + [r])[..|rs + [r]| - 1] == rs;
  }

  lemma {:induction false} RequestsLand(settings: seq<Setting>, ts: Targets)
    requires ValidSnapshot(settings) && AllAim(settings, ts) && Apart(ts) && AllReady(settings, ts)
    ensures Run(Snapshot(settings), BindRequests(settings, RequestsIn(ts)).operations) ==
            Success(AllLandedIn(Snapshot(settings), ts))
  {
    hide Run, Offered, Ready, Aims, LandedIn, SamePlace, BindRequest, Snapshot, ValidSnapshot;
    if ts.NoTarget? {
      RunEmpty(Snapshot(settings));
    } else {
      RequestsLand(settings, ts.front);
      if Offered(ts.r, ts.s) {
        ReadyIsLast(settings, ts.r, ts.s);
        StillCurrent(settings, ts.front, ts.s);
      }
      var before := BindRequests(settings, RequestsIn(ts.front)).operations;
      OneMoreLands(settings, Snapshot(settings), before, AllLandedIn(Snapshot(settings), ts.front), ts.r, ts.s);
      BindLast(settings, RequestsIn(ts.front), ts.r);
    }
  }

  lemma ReadyIsLast(settings: seq<Setting>, r: Request, s: Setting)
    requires Aims(settings, r, s) && Ready(settings, r, s)
    ensures s in settings && IsLast(settings, s)
  {
  }

  lemma {:induction false} RequestsMet(settings: seq<Setting>, ts: Targets)
    requires ValidSnapshot(settings) && AllAim(settings, ts)
    ensures (forall r :: r in RequestsIn(ts) ==> Meets(settings, r)) <==> AllReady(settings, ts)
    ensures BindRequests(settings, RequestsIn(ts)).failures == Notes(ts)
  {
    hide Meets, Aims, Offered, Ready, BindRequest;
    if !ts.NoTarget? {
      RequestsMet(settings, ts.front);
      AimedMeets(settings, ts.r, ts.s);
      BindLast(settings, RequestsIn(ts.front), ts.r);
    }
  }

  /** Bound alone, an action runs as its requests do. */
  lemma BoundAlone(settings: seq<Setting>, action: Action)
    ensures AllRequests([action]) == RequestsOf(action)
    ensures Run(Snapshot(settings), Bound(settings, [action]).operations) ==
            Run(Snapshot(settings), BindRequests(settings, RequestsOf(action)).operations)
  {
    hide RequestsOf, Run, BindRequests;
    assert [action][..0] == [] && AllRequests([]) == [];
    assert AllRequests([action]) == RequestsOf(action);
    NormalizedRuns(Snapshot(settings), BindRequests(settings, RequestsOf(action)).operations);
  }

  lemma NoTargets(settings: seq<Setting>, m: SettingMap)
    ensures RequestsIn(NoTarget) == [] && AllAim(settings, NoTarget) && AllReady(settings, NoTarget)
    ensures Apart(NoTarget) && AllLandedIn(m, NoTarget) == m && Notes(NoTarget) == []
    ensures forall s :: Clear(NoTarget, s)
  {
  }

  lemma OneMoreTarget(settings: seq<Setting>, m: SettingMap, ts: Targets, r: Request, s: Setting)
    ensures RequestsIn(And(ts, r, s)) == RequestsIn(ts) + [r]
    ensures AllAim(settings, And(ts, r, s)) <==> AllAim(settings, ts) && Aims(settings, r, s)
    ensures AllReady(settings, And(ts, r, s)) <==>
            AllReady(settings, ts) && (Offered(r, s) ==> Ready(settings, r, s))
    ensures Apart(And(ts, r, s)) <==> Apart(ts) && Clear(ts, s)
    ensures forall t :: Clear(And(ts, r, s), t) <==> Clear(ts, t) && !SamePlace(s, t)
    ensures AllLandedIn(m, And(ts, r, s)) == LandedIn(AllLandedIn(m, ts), r, s)
    ensures Notes(And(ts, r, s)) == if Offered(r, s) then Notes(ts) else Notes(ts) + [r.notOffered]
  {
    hide Aims, Offered, Ready, LandedIn, SamePlace;
    assert Notes(ts) + [] == Notes(ts);
  }

  /** What the snapshot's controls become when the action alone is bound and applied. */
  ghost function Outcome(settings: seq<Setting>, action: Action): Result<SettingMap, Rejection> {
    Run(Snapshot(settings), Bound(settings, [action]).operations)
  }

  /** An action whose controls are all named outright. */
  lemma ActionLands(settings: seq<Setting>, action: Action, ts: Targets)
    requires ValidSnapshot(settings) && RequestsOf(action) == RequestsIn(ts) && AllAim(settings, ts) && Apart(ts)
    ensures Bound(settings, [action]).failures == Notes(ts)
    ensures Outcome(settings, action).Success? <==> AllReady(settings, ts)
    ensures Outcome(settings, action).Success? ==>
              Outcome(settings, action).value == AllLandedIn(Snapshot(settings), ts)
  {
    hide Run, BindRequests, Meets, RequestsOf, RequestsIn, AllAim, Apart, AllReady, AllLandedIn, Notes, Snapshot;
    hide ValidSnapshot;
    BoundAlone(settings, action);
    BinderIsSound(settings, Snapshot(settings), [action]);
    RequestsMet(settings, ts);
    if AllReady(settings, ts) {
      RequestsLand(settings, ts);
    }
  }

  /** A request for a number. */
  lemma NumberLands(settings: seq<Setting>, m: SettingMap, r: Request, s: Setting)
    requires r.FloatRequest?
    ensures Offered(r, s)
    ensures LandedIn(m, r, s) ==
            m[s.spec.settingId := Moved(s, if r.preferSet then r.amount else CurrentNumber(s) + r.amount)]
    ensures Ready(settings, r, s) <==> IsLast(settings, s) && (r.preferSet ==> SetMode in s.spec.supportedModes)
  {
    hide Moved, IsLast, CurrentNumber;
  }

  /** The action becomes one operation: by the amount if the control supports that, else to the sum. */
  ghost predicate BindsNumber(settings: seq<Setting>, action: Action, s: Setting, amount: real) {
    && s.number.Some?
    && var id, path, modes := s.spec.settingId, s.spec.actionPath, s.spec.supportedModes;
       Bound(settings, [action]) ==
       Binding([Operation("bind-" + id, 1, id, path, if DeltaMode in modes then FloatValue(DeltaMode, amount)
                                                     else FloatValue(SetMode, s.number.value + amount))], [])
  }

  /**
   * The action adds an amount to one control: it is accepted exactly when the engine edits that control, and then moves
   * it from its current number by the amount and leaves the others alone.
   */
  ghost predicate Adds(settings: seq<Setting>, action: Action, s: Setting, amount: real) {
    && BindsNumber(settings, action, s, amount)
    && (Outcome(settings, action).Success? <==> IsLast(settings, s))
    && s.number.Some?
    && (Outcome(settings, action).Success? ==>
          Outcome(settings, action).value ==
          Snapshot(settings)[s.spec.settingId := Moved(s, s.number.value + amount)])
  }

  /** An action with one relative request. */
  lemma OneAdds(settings: seq<Setting>, action: Action, r: Request, s: Setting)
    requires ValidSnapshot(settings) && RequestsOf(action) == [r] && r.FloatRequest? && !r.preferSet
    requires Aims(settings, r, s)
    ensures Adds(settings, action, s, r.amount)
  {
    hide RequestsOf, ValidSnapshot, Aims, BindsNumber, Outcome, IsLast, Snapshot, Moved;
    OneAdd(settings, action, r, s);
    OneBinds(settings, action, r, s);
  }

  lemma OneBinds(settings: seq<Setting>, action: Action, r: Request, s: Setting)
    requires ValidSnapshot(settings) && RequestsOf(action) == [r] && r.FloatRequest? && !r.preferSet
    requires Aims(settings, r, s)
    ensures BindsNumber(settings, action, s, r.amount)
  {
    hide FloatOperation, RequestsOf, ValidSnapshot, Aims, BindRequest, BindRequests, CurrentNumber, Bound;
    AimedNumber(settings, r, s);
    NumberOperation(s, r.amount);
    AimedMeets(settings, r, s);
    BindAlone(settings, r);
    BoundOne(settings, action, FloatOperation(s, r.amount, false));
  }

  /** Binding an action that gives one operation. */
  lemma BoundOne(settings: seq<Setting>, action: Action, op: Operation)
    requires BindRequests(settings, RequestsOf(action)) == Binding([op], [])
    requires op.operationId != "" && op.sequence == 1
    ensures Bound(settings, [action]) == Binding([op], [])
  {
    hide RequestsOf, BindRequests, AllRequests, OperationIds.Normalized;
    BoundAlone(settings, action);
    OneIdIsKept(op);
  }

  lemma OneIdIsKept(op: Operation)
    requires op.operationId != "" && op.sequence == 1
    ensures OperationIds.Normalized([op], ID_PREFIX) == [op]
  {
    OperationIds.DistinctIdsAreKept([op], ID_PREFIX);
    assert OperationIds.Normalized([op], ID_PREFIX)[0] == [op][0].(sequence := 1);
  }

  lemma BindAlone(settings: seq<Setting>, r: Request)
    ensures BindRequests(settings, [r]) == BindRequest(settings, r)
  {
    BindNothing(settings);
    hide BindRequests, BindRequest;
    BindLast(settings, [], r);
    assert [] + [r] == [r];
    ThenFirst(BindRequest(settings, r));
  }

  lemma BindNothing(settings: seq<Setting>)
    ensures BindRequests(settings, []) == NONE_BOUND
  {
  }

  lemma ThenFirst(b: Binding)
    ensures NONE_BOUND.Then(b) == b
  {
    assert [] + b.operations == b.operations && [] + b.failures == b.failures;
  }

  lemma NumberOperation(s: Setting, amount: real)
    ensures FloatOperation(s, amount, false) ==
            Operation("bind-" + s.spec.settingId, 1, s.spec.settingId, s.spec.actionPath,
                      if DeltaMode in s.spec.supportedModes then FloatValue(DeltaMode, amount)
                      else FloatValue(SetMode, CurrentNumber(s) + amount))
    ensures FloatOperation(s, amount, false).operationId != ""
  {
  }

  lemma OneAdd(settings: seq<Setting>, action: Action, r: Request, s: Setting)
    requires ValidSnapshot(settings) && RequestsOf(action) == [r] && r.FloatRequest? && !r.preferSet
    requires Aims(settings, r, s)
    ensures Bound(settings, [action]).failures == [] && s.number.Some?
    ensures var result := Outcome(settings, action);
            && (result.Success? <==> IsLast(settings, s))
            && (result.Success? ==>
                  result.value == Snapshot(settings)[s.spec.settingId := Moved(s, s.number.value + r.amount)])
  {
    hide *;
    var m := Snapshot(settings);
    AimedNumber(settings, r, s);
    NoTargets(settings, m);
    OneMoreTarget(settings, m, NoTarget, r, s);
    ActionLands(settings, action, And(NoTarget, r, s));
    NumberLands(settings, m, r, s);
  }

  lemma AimedNumber(settings: seq<Setting>, r: Request, s: Setting)
    requires ValidSnapshot(settings) && Aims(settings, r, s) && r.FloatRequest?
    ensures s.number.Some? && CurrentNumber(s) == s.number.value
  {
    assert ValidSetting(s);
  }

  lemma ExposureLands(settings: seq<Setting>, ev: real, s: Setting)
    requires ValidSnapshot(settings) && OnlyControl(settings, FloatKind, ["iop/exposure/exposure"], s)
    ensures Adds(settings, AdjustExposure(ev), s, ev)
  {
    hide Adds, OnlyControl;
    OneAdds(settings, AdjustExposure(ev), Relative(ExposureQuery(), ev, NoExposure), s);
  }

  lemma RotationLands(settings: seq<Setting>, angle: real, s: Setting)
    requires ValidSnapshot(settings) && OnlyControl(settings, FloatKind, ["iop/clipping/angle", "iop/crop/angle"], s)
    ensures Adds(settings, Rotate(angle), s, angle)
  {
    hide Adds, OnlyControl;
    OneAdds(settings, Rotate(angle), Relative(RotateQuery(), angle, NoRotation), s);
  }

  lemma HighlightsLand(settings: seq<Setting>, strength: Strength, s: Setting)
    requires ValidSnapshot(settings)
    requires OnlyControl(settings, FloatKind,
                         ["iop/filmicrgb/white_relative_exposure", "iop/toneequalizer/highlights"], s)
    ensures Adds(settings, RecoverHighlights(strength), s,
                 match strength case Low => -0.25 case Medium => -0.5 case High => -0.75)
  {
    hide Adds, OnlyControl;
    var r := Relative(HighlightQuery(), HighlightDelta(strength), NoHighlight);
    OneAdds(settings, RecoverHighlights(strength), r, s);
  }

  lemma GradeLands(settings: seq<Setting>, target: GradeTarget, amount: real, s: Setting)
    requires ValidSnapshot(settings)
    requires match target
             case GlobalSaturation =>
               OnlyControl(settings, FloatKind,
                           ["iop/colorbalancergb/global_saturation", "iop/colorequal/sat_global"], s)
             case BlueSaturation => OnlyControl(settings, FloatKind, ["iop/colorequal/sat_blue"], s)
             case RedHue => OnlyControl(settings, FloatKind, ["iop/primaries/red_hue"], s)
             case GlobalContrast => OnlyControl(settings, FloatKind, ["iop/colorbalancergb/global_contrast"], s)
    ensures Adds(settings, GradeColor(target, amount), s, amount)
  {
    hide Adds, OnlyControl;
    OneAdds(settings, GradeColor(target, amount), Relative(GradeQuery(target), amount, NoGrade), s);
  }

  /** Noise reduction on one channel moves that channel's control and not the other one's. */
  lemma NoiseLands(settings: seq<Setting>, strength: Strength, noiseType: NoiseType, s: Setting)
    requires ValidSnapshot(settings) && noiseType != Both
    requires OnlyControl(settings, FloatKind,
                         [if noiseType == Chroma then "iop/denoiseprofile/chroma" else "iop/denoiseprofile/luma"], s)
    ensures Adds(settings, ReduceNoise(strength, noiseType), s,
                 match strength case Low => 0.1 case Medium => 0.2 case High => 0.35)
  {
    hide Adds, OnlyControl;
    assert "iop/denoiseprofile/" + "chroma" == "iop/denoiseprofile/chroma";
    assert "iop/denoiseprofile/" + "luma" == "iop/denoiseprofile/luma";
    var r := if noiseType == Chroma then Relative(NoiseQuery("chroma"), NoiseDelta(strength), NoChromaNoise)
             else Relative(NoiseQuery("luma"), NoiseDelta(strength), NoLumaNoise);
    assert RequestsOf(ReduceNoise(strength, noiseType)) == [r];
    OneAdds(settings, ReduceNoise(strength, noiseType), r, s);
  }

  lemma NoiseAims(settings: seq<Setting>, channel: string, r: Request, s: Setting)
    requires ValidSnapshot(settings) && OnlyControl(settings, FloatKind, ["iop/denoiseprofile/" + channel], s)
    requires r.FloatRequest? && r.q == NoiseQuery(channel)
    ensures Aims(settings, r, s) && s.number.Some?
  {
    assert ValidSetting(s);
  }

  lemma NoiseApart(settings: seq<Setting>, chroma: Setting, luma: Setting)
    requires OnlyControl(settings, FloatKind, ["iop/denoiseprofile/chroma"], chroma)
    requires OnlyControl(settings, FloatKind, ["iop/denoiseprofile/luma"], luma)
    ensures !SamePlace(chroma, luma)
  {
    assert |chroma.spec.actionPath| != |luma.spec.actionPath|;
  }

  /** On both channels it moves both. */
  lemma BothNoisesLand(settings: seq<Setting>, strength: Strength, chroma: Setting, luma: Setting)
    requires ValidSnapshot(settings)
    requires OnlyControl(settings, FloatKind, ["iop/denoiseprofile/chroma"], chroma)
    requires OnlyControl(settings, FloatKind, ["iop/denoiseprofile/luma"], luma)
    ensures Bound(settings, [ReduceNoise(strength, Both)]).failures == []
    ensures chroma.number.Some? && luma.number.Some?
    ensures var result := Outcome(settings, ReduceNoise(strength, Both));
            var amount := match strength case Low => 0.1 case Medium => 0.2 case High => 0.35;
            && (result.Success? <==> IsLast(settings, chroma) && IsLast(settings, luma))
            && (result.Success? ==>
                  result.value ==
                  Snapshot(settings)[chroma.spec.settingId := Moved(chroma, chroma.number.value + amount)]
                                    [luma.spec.settingId := Moved(luma, luma.number.value + amount)])
  {
    hide OnlyControl, NoiseQuery, Bound, Outcome, IsLast, Snapshot, Moved, RequestsOf;
    NoiseApart(settings, chroma, luma);
    NoisePaths();
    BothNoiseRequests(strength);
    var amount := NoiseDelta(strength);
    var a := Relative(NoiseQuery("chroma"), amount, NoChromaNoise);
    var b := Relative(NoiseQuery("luma"), amount, NoLumaNoise);
    NoiseAims(settings, "chroma", a, chroma);
    NoiseAims(settings, "luma", b, luma);
    TwoAdd(settings, ReduceNoise(strength, Both), a, chroma, b, luma);
  }

  lemma NoisePaths()
    ensures "iop/denoiseprofile/" + "chroma" == "iop/denoiseprofile/chroma"
    ensures "iop/denoiseprofile/" + "luma" == "iop/denoiseprofile/luma"
  {
  }

  lemma BothNoiseRequests(strength: Strength)
    ensures RequestsOf(ReduceNoise(strength, Both)) ==
            [Relative(NoiseQuery("chroma"), NoiseDelta(strength), NoChromaNoise),
             Relative(NoiseQuery("luma"), NoiseDelta(strength), NoLumaNoise)]
  {
    hide NoiseQuery, NoiseDelta;
  }

  /** An action with two relative requests. */
  lemma TwoAdd(settings: seq<Setting>, action: Action, a: Request, s: Setting, b: Request, t: Setting)
    requires ValidSnapshot(settings) && RequestsOf(action) == [a, b] && !SamePlace(s, t)
    requires a.FloatRequest? && !a.preferSet && b.FloatRequest? && !b.preferSet
    requires Aims(settings, a, s) && Aims(settings, b, t)
    ensures Bound(settings, [action]).failures == [] && s.number.Some? && t.number.Some?
    ensures var result := Outcome(settings, action);
            && (result.Success? <==> IsLast(settings, s) && IsLast(settings, t))
            && (result.Success? ==>
                  result.value == Snapshot(settings)[s.spec.settingId := Moved(s, s.number.value + a.amount)]
                                                    [t.spec.settingId := Moved(t, t.number.value + b.amount)])
  {
    hide *;
    var m := Snapshot(settings);
    AimedNumber(settings, a, s);
    AimedNumber(settings, b, t);
    NoTargets(settings, m);
    OneMoreTarget(settings, m, NoTarget, a, s);
    OneMoreTarget(settings, m, And(NoTarget, a, s), b, t);
    ActionLands(settings, action, And(And(NoTarget, a, s), b, t));
    NumberLands(settings, m, a, s);
    NumberLands(settings, LandedIn(m, a, s), b, t);
  }

  // ---- White balance ----

  /** The controls with the preset chosen, when the action names one that the control offers. */
  function WithPreset(m: SettingMap, action: Action, preset: Setting): SettingMap
    requires action.AdjustWhiteBalance?
  {
    if action.presetChoiceId.Some? && FirstChoice(preset.spec.choices, action.presetChoiceId.value).Some? then
      m[preset.spec.settingId := Chosen(preset, FirstChoice(preset.spec.choices, action.presetChoiceId.value).value)]
    else m
  }

  /** The controls with one moved from its current number by an amount, if there is one. */
  function Nudged(m: SettingMap, s: Setting, amount: Option<real>): SettingMap {
    if amount.Some? then m[s.spec.settingId := Moved(s, CurrentNumber(s) + amount.value)] else m
  }

  /** The three controls of a white-balance action, those that the action needs. */
  ghost predicate WhiteBalanceControls(
    settings: seq<Setting>, action: Action, preset: Setting, temperature: Setting, tint: Setting)
    requires action.AdjustWhiteBalance?
  {
    && (action.presetChoiceId.Some? ==> OnlyControl(settings, ChoiceKind, ["iop/temperature/preset"], preset))
    && (action.temperatureDelta.Some? ==>
          OnlyControl(settings, FloatKind, ["iop/temperature/temperature"], temperature))
    && (action.tintDelta.Some? ==> OnlyControl(settings, FloatKind, ["iop/temperature/tint"], tint))
  }

  lemma WhiteBalanceApart(
    settings: seq<Setting>, action: Action, preset: Setting, temperature: Setting, tint: Setting)
    requires action.AdjustWhiteBalance? && WhiteBalanceControls(settings, action, preset, temperature, tint)
    ensures action.presetChoiceId.Some? && action.temperatureDelta.Some? ==> !SamePlace(preset, temperature)
    ensures action.presetChoiceId.Some? && action.tintDelta.Some? ==> !SamePlace(preset, tint)
    ensures action.temperatureDelta.Some? && action.tintDelta.Some? ==> !SamePlace(temperature, tint)
  {
    assert |"iop/temperature/temperature"| != |"iop/temperature/tint"|;
  }

  /** The three requests are aimed at the three controls. */
  lemma WhiteBalanceAims(settings: seq<Setting>, action: Action, preset: Setting, temperature: Setting, tint: Setting)
    requires action.AdjustWhiteBalance? && WhiteBalanceControls(settings, action, preset, temperature, tint)
    ensures action.presetChoiceId.Some? ==> Aims(settings, PresetRequest(action), preset)
    ensures action.temperatureDelta.Some? ==> Aims(settings, TemperatureRequest(action), temperature)
    ensures action.tintDelta.Some? ==> Aims(settings, TintRequest(action), tint)
  {
  }

  function PresetRequest(action: Action): Request
    requires action.AdjustWhiteBalance?
  {
    ChoiceRequest(PresetQuery(), action.presetChoiceId.GetOr(""), NoPreset, PresetNotOffered)
  }

  function TemperatureRequest(action: Action): Request
    requires action.AdjustWhiteBalance?
  {
    Relative(TemperatureQuery(), action.temperatureDelta.GetOr(0.0), NoTemperature)
  }

  function TintRequest(action: Action): Request
    requires action.AdjustWhiteBalance?
  {
    Relative(TintQuery(), action.tintDelta.GetOr(0.0), NoTint)
  }

  /** One target more, if it is present. */
  ghost function Optional(ts: Targets, present: bool, r: Request, s: Setting): Targets {
    if present then And(ts, r, s) else ts
  }

  lemma OptionalAims(settings: seq<Setting>, ts: Targets, present: bool, r: Request, s: Setting)
    requires AllAim(settings, ts) && Apart(ts) && (present ==> Aims(settings, r, s) && Clear(ts, s))
    ensures AllAim(settings, Optional(ts, present, r, s)) && Apart(Optional(ts, present, r, s))
    ensures RequestsIn(Optional(ts, present, r, s)) == RequestsIn(ts) + if present then [r] else []
    ensures forall t :: Clear(ts, t) && (present ==> !SamePlace(s, t)) ==> Clear(Optional(ts, present, r, s), t)
  {
    hide Aims, SamePlace;
    assert RequestsIn(ts) + [] == RequestsIn(ts);
  }

  /** What the action asks for, of the controls it needs. */
  ghost function WhiteBalanceTargets(action: Action, preset: Setting, temperature: Setting, tint: Setting): Targets
    requires action.AdjustWhiteBalance?
  {
    var p := Optional(NoTarget, action.presetChoiceId.Some?, PresetRequest(action), preset);
    var t := Optional(p, action.temperatureDelta.Some?, TemperatureRequest(action), temperature);
    Optional(t, action.tintDelta.Some?, TintRequest(action), tint)
  }

  lemma WhiteBalanceRequests(action: Action)
    requires action.AdjustWhiteBalance?
    ensures RequestsOf(action) ==
            [] + (if action.presetChoiceId.Some? then [PresetRequest(action)] else [])
            + (if action.temperatureDelta.Some? then [TemperatureRequest(action)] else [])
            + (if action.tintDelta.Some? then [TintRequest(action)] else [])
  {
    hide PresetQuery, TemperatureQuery, TintQuery;
  }

  lemma WhiteBalanceTargetsAim(
    settings: seq<Setting>, action: Action, preset: Setting, temperature: Setting, tint: Setting)
    requires action.AdjustWhiteBalance? && WhiteBalanceControls(settings, action, preset, temperature, tint)
    ensures var ts := WhiteBalanceTargets(action, preset, temperature, tint);
            RequestsOf(action) == RequestsIn(ts) && AllAim(settings, ts) && Apart(ts)
  {
    hide WhiteBalanceControls, SamePlace, Aims, RequestsIn, AllAim, Apart, Clear, RequestsOf, Optional;
    hide PresetRequest, TemperatureRequest, TintRequest;
    WhiteBalanceRequests(action);
    WhiteBalanceApart(settings, action, preset, temperature, tint);
    WhiteBalanceAims(settings, action, preset, temperature, tint);
    NoTargets(settings, map[]);
    OptionalAims(settings, NoTarget, action.presetChoiceId.Some?, PresetRequest(action), preset);
    var p := Optional(NoTarget, action.presetChoiceId.Some?, PresetRequest(action), preset);
    OptionalAims(settings, p, action.temperatureDelta.Some?, TemperatureRequest(action), temperature);
    var t := Optional(p, action.temperatureDelta.Some?, TemperatureRequest(action), temperature);
    OptionalAims(settings, t, action.tintDelta.Some?, TintRequest(action), tint);
  }

  /** The preset's share. */
  lemma PresetLands(settings: seq<Setting>, m: SettingMap, action: Action, preset: Setting)
    requires action.AdjustWhiteBalance? && action.presetChoiceId.Some?
    ensures Offered(PresetRequest(action), preset) <==>
            exists c :: c in preset.spec.choices && c.choiceId == action.presetChoiceId.value
    ensures Ready(settings, PresetRequest(action), preset) <==> IsLast(settings, preset)
    ensures LandedIn(m, PresetRequest(action), preset) == WithPreset(m, action, preset)
  {
    hide Chosen, IsLast;
  }

  lemma NudgeLands(settings: seq<Setting>, m: SettingMap, r: Request, s: Setting, amount: real)
    requires r.FloatRequest? && !r.preferSet && r.amount == amount
    ensures LandedIn(m, r, s) == Nudged(m, s, Some(amount))
    ensures Offered(r, s) && (Ready(settings, r, s) <==> IsLast(settings, s))
  {
    hide Moved, CurrentNumber, IsLast;
  }

  lemma WhiteBalanceTargetsLand(
    settings: seq<Setting>, action: Action, preset: Setting, temperature: Setting, tint: Setting)
    requires action.AdjustWhiteBalance?
    ensures var ts, m := WhiteBalanceTargets(action, preset, temperature, tint), Snapshot(settings);
            var offered := action.presetChoiceId.Some? &&
                           exists c :: c in preset.spec.choices && c.choiceId == action.presetChoiceId.value;
            && Notes(ts) == (if action.presetChoiceId.Some? && !offered then [PresetNotOffered] else [])
            && (AllReady(settings, ts) <==>
                  && (offered ==> IsLast(settings, preset))
                  && (action.temperatureDelta.Some? ==> IsLast(settings, temperature))
                  && (action.tintDelta.Some? ==> IsLast(settings, tint)))
            && AllLandedIn(m, ts) ==
               Nudged(Nudged(WithPreset(m, action, preset), temperature, action.temperatureDelta),
                      tint, action.tintDelta)
  {
    hide Notes, AllReady, AllLandedIn, LandedIn, Offered, Ready, IsLast, Snapshot, Moved, Chosen, CurrentNumber;
    var m := Snapshot(settings);
    NoTargets(settings, m);
    var ts := NoTarget;
    if action.presetChoiceId.Some? {
      OneMoreTarget(settings, m, ts, PresetRequest(action), preset);
      PresetLands(settings, m, action, preset);
      ts := And(ts, PresetRequest(action), preset);
    }
    if action.temperatureDelta.Some? {
      OneMoreTarget(settings, m, ts, TemperatureRequest(action), temperature);
      NudgeLands(settings, AllLandedIn(m, ts), TemperatureRequest(action), temperature, action.temperatureDelta.value);
      ts := And(ts, TemperatureRequest(action), temperature);
    }
    if action.tintDelta.Some? {
      OneMoreTarget(settings, m, ts, TintRequest(action), tint);
      NudgeLands(settings, AllLandedIn(m, ts), TintRequest(action), tint, action.tintDelta.value);
    }
  }

  /**
   * White balance, with the controls it needs found by their paths: accepted exactly when the engine edits each of
   * them, and then the preset becomes the named choice, temperature and tint move by their own amounts, and nothing
   * else changes. A preset that is not offered is left out, with a note.
   */
  lemma WhiteBalanceLandsOnItsAxes(
    settings: seq<Setting>, action: Action, preset: Setting, temperature: Setting, tint: Setting)
    requires ValidSnapshot(settings) && action.AdjustWhiteBalance?
    requires WhiteBalanceControls(settings, action, preset, temperature, tint)
    ensures var offered := action.presetChoiceId.Some? &&
                           exists c :: c in preset.spec.choices && c.choiceId == action.presetChoiceId.value;
            && Bound(settings, [action]).failures ==
               (if action.presetChoiceId.Some? && !offered then [PresetNotOffered] else [])
            && (Outcome(settings, action).Success? <==>
                  && (offered ==> IsLast(settings, preset))
                  && (action.temperatureDelta.Some? ==> IsLast(settings, temperature))
                  && (action.tintDelta.Some? ==> IsLast(settings, tint)))
    ensures Outcome(settings, action).Success? ==>
              Outcome(settings, action).value ==
              Nudged(Nudged(WithPreset(Snapshot(settings), action, preset), temperature, action.temperatureDelta),
                     tint, action.tintDelta)
  {
    hide *;
    WhiteBalanceTargetsAim(settings, action, preset, temperature, tint);
    ActionLands(settings, action, WhiteBalanceTargets(action, preset, temperature, tint));
    WhiteBalanceTargetsLand(settings, action, preset, temperature, tint);
  }

  // ---- Crops ----

  /** The engine edits this control and lets it be set. */
  predicate Settable(settings: seq<Setting>, s: Setting) {
    IsLast(settings, s) && SetMode in s.spec.supportedModes
  }

  predicate AllSettable(settings: seq<Setting>, x: Setting, y: Setting, w: Setting, h: Setting) {
    Settable(settings, x) && Settable(settings, y) && Settable(settings, w) && Settable(settings, h)
  }

  /** The controls of the four crop axes, each found by one of its two paths. */
  ghost predicate CropControls(settings: seq<Setting>, x: Setting, y: Setting, w: Setting, h: Setting) {
    && OnlyControl(settings, FloatKind, ["iop/clipping/cx", "iop/crop/cx"], x)
    && OnlyControl(settings, FloatKind, ["iop/clipping/cy", "iop/crop/cy"], y)
    && OnlyControl(settings, FloatKind, ["iop/clipping/cw", "iop/crop/cw"], w)
    && OnlyControl(settings, FloatKind, ["iop/clipping/ch", "iop/crop/ch"], h)
  }

  /** The controls after a crop: left, top, right and bottom on their own axes, nothing else moved. */
  function Cropped(m: SettingMap, edges: CropAxes, x: Setting, y: Setting, w: Setting, h: Setting): SettingMap {
    m[x.spec.settingId := Moved(x, edges.cx)][y.spec.settingId := Moved(y, edges.cy)]
     [w.spec.settingId := Moved(w, edges.cw)][h.spec.settingId := Moved(h, edges.ch)]
  }

  lemma AxisAims(settings: seq<Setting>, axis: string, amount: real, s: Setting)
    requires OnlyControl(settings, FloatKind, ["iop/clipping/" + axis, "iop/crop/" + axis], s)
    ensures Aims(settings, FloatRequest(CropQuery(axis), amount, true, NoCropAxis), s)
  {
  }

  /** The last letter of an axis control's path is the one of the axis. */
  lemma PathEndsLike(s: Setting, a: string, b: string)
    requires a != [] && b != [] && s.spec.actionPath in [a, b] && a[|a| - 1] == b[|b| - 1]
    ensures s.spec.actionPath != [] && s.spec.actionPath[|s.spec.actionPath| - 1] == a[|a| - 1]
  {
  }

  lemma CropApart(settings: seq<Setting>, x: Setting, y: Setting, w: Setting, h: Setting)
    requires CropControls(settings, x, y, w, h)
    ensures !SamePlace(x, y) && !SamePlace(x, w) && !SamePlace(x, h)
    ensures !SamePlace(y, w) && !SamePlace(y, h) && !SamePlace(w, h)
  {
    PathEndsLike(x, "iop/clipping/cx", "iop/crop/cx");
    PathEndsLike(y, "iop/clipping/cy", "iop/crop/cy");
    PathEndsLike(w, "iop/clipping/cw", "iop/crop/cw");
    PathEndsLike(h, "iop/clipping/ch", "iop/crop/ch");
  }

  lemma CropAims(settings: seq<Setting>, edges: CropAxes, x: Setting, y: Setting, w: Setting, h: Setting)
    requires CropControls(settings, x, y, w, h)
    ensures var rs := CropRequests(edges);
            Aims(settings, rs[0], x) && Aims(settings, rs[1], y) && Aims(settings, rs[2], w) && Aims(settings, rs[3], h)
  {
    hide Aims, OnlyControl;
    assert "iop/clipping/" + "cx" == "iop/clipping/cx" && "iop/crop/" + "cx" == "iop/crop/cx";
    assert "iop/clipping/" + "cy" == "iop/clipping/cy" && "iop/crop/" + "cy" == "iop/crop/cy";
    assert "iop/clipping/" + "cw" == "iop/clipping/cw" && "iop/crop/" + "cw" == "iop/crop/cw";
    assert "iop/clipping/" + "ch" == "iop/clipping/ch" && "iop/crop/" + "ch" == "iop/crop/ch";
    AxisAims(settings, "cx", edges.cx, x);
    AxisAims(settings, "cy", edges.cy, y);
    AxisAims(settings, "cw", edges.cw, w);
    AxisAims(settings, "ch", edges.ch, h);
  }

  ghost function CropTargets(rs: seq<Request>, x: Setting, y: Setting, w: Setting, h: Setting): Targets
    requires |rs| == 4
  {
    And(And(And(And(NoTarget, rs[0], x), rs[1], y), rs[2], w), rs[3], h)
  }

  lemma CropTargetsAim(settings: seq<Setting>, edges: CropAxes, x: Setting, y: Setting, w: Setting, h: Setting)
    requires CropControls(settings, x, y, w, h)
    ensures var ts := CropTargets(CropRequests(edges), x, y, w, h);
            && RequestsIn(ts) == CropRequests(edges) && AllAim(settings, ts) && Apart(ts)
            && Notes(ts) == [] && (AllReady(settings, ts) <==> AllSettable(settings, x, y, w, h))
            && AllLandedIn(Snapshot(settings), ts) == Cropped(Snapshot(settings), edges, x, y, w, h)
  {
    hide RequestsIn, AllAim, Apart, Clear, Notes, AllReady, AllLandedIn, LandedIn, Offered, Ready, Aims, SamePlace;
    hide CropControls, Snapshot, Moved, IsLast, CurrentNumber, CropQuery;
    CropApart(settings, x, y, w, h);
    CropAims(settings, edges, x, y, w, h);
    var m, rs := Snapshot(settings), CropRequests(edges);
    NoTargets(settings, m);
    NumberLands(settings, m, rs[0], x);
    OneMoreTarget(settings, m, NoTarget, rs[0], x);
    var t1 := And(NoTarget, rs[0], x);
    NumberLands(settings, AllLandedIn(m, t1), rs[1], y);
    OneMoreTarget(settings, m, t1, rs[1], y);
    var t2 := And(t1, rs[1], y);
    NumberLands(settings, AllLandedIn(m, t2), rs[2], w);
    OneMoreTarget(settings, m, t2, rs[2], w);
    var t3 := And(t2, rs[2], w);
    NumberLands(settings, AllLandedIn(m, t3), rs[3], h);
    OneMoreTarget(settings, m, t3, rs[3], h);
  }

  /**
   * A crop, in either form, with its four controls found by their paths: it is accepted exactly when the engine edits
   * all four and lets them be set, and then moves them to its left, top, right and bottom edge and nothing else; the
   * edges of a box are those of the padded box, cut off at the border.
   */
  lemma CropLandsOnItsAxes(settings: seq<Setting>, action: Action, x: Setting, y: Setting, w: Setting, h: Setting)
    requires ValidSnapshot(settings) && CropControls(settings, x, y, w, h) && IsCrop(action)
    ensures Bound(settings, [action]).failures == []
    ensures Outcome(settings, action).Success? <==> AllSettable(settings, x, y, w, h)
    ensures Outcome(settings, action).Success? && action.CropNormalized? ==>
              Outcome(settings, action).value ==
              Cropped(Snapshot(settings), CropAxes(action.left, action.top, action.right, action.bottom), x, y, w, h)
    ensures Outcome(settings, action).Success? && ValidBox(action) ==>
              Outcome(settings, action).value ==
              Cropped(Snapshot(settings),
                      CropAxes(AtLeastZero(action.boxLeft - action.boxWidth * action.paddingRatio),
                               AtLeastZero(action.boxTop - action.boxHeight * action.paddingRatio),
                               AtMostOne(action.boxLeft + action.boxWidth + action.boxWidth * action.paddingRatio),
                               AtMostOne(action.boxTop + action.boxHeight + action.boxHeight * action.paddingRatio)),
                      x, y, w, h)
  {
    assert RequestsOf(action) == CropRequests(EdgesOf(action));
    assert action.CropNormalized? ==>
      EdgesOf(action) == CropAxes(action.left, action.top, action.right, action.bottom);
    if ValidBox(action) {
      BoxEdges(action);
    }
    hide Bound, Outcome, Cropped, CropRequests, RequestsOf, EdgesOf, CropControls, AllSettable, Snapshot, CropTargets;
    hide RequestsIn, AllAim, Apart, AllReady, AllLandedIn, Notes, ValidSnapshot, AtLeastZero, AtMostOne;
    CropTargetsAim(settings, EdgesOf(action), x, y, w, h);
    ActionLands(settings, action, CropTargets(CropRequests(EdgesOf(action)), x, y, w, h));
  }

  // ---- Refused batches of validated snapshots ----

  function FloatControl(id: string, path: string, mode: Mode): Setting {
    var spec := ControlSpec(id, "m", "l", path, FloatKind, [mode], Some(0.0), Some(9.0), Some(0.0), []);
    Setting(spec, Some(0.0), None, None, None)
  }

  /** Two controls with one id: the exposure control is found, the other one is edited, and the edit is refused. */
  lemma RepeatedIdMayBeRefused()
    ensures var settings :=
              [FloatControl("x", "iop/exposure/exposure", DeltaMode), FloatControl("x", "other", DeltaMode)];
            && ValidSnapshot(settings)
            && Run(Snapshot(settings), Bound(settings, [AdjustExposure(1.0)]).operations).Failure?
  {
    var s, t := FloatControl("x", "iop/exposure/exposure", DeltaMode), FloatControl("x", "other", DeltaMode);
    var settings, action := [s, t], AdjustExposure(1.0);
    var r := Relative(ExposureQuery(), 1.0, NoExposure);
    assert |s.spec.actionPath| != |t.spec.actionPath|;
    assert ExactControl(settings, ExposureQuery(), s);
    ExactMeets(settings, r, s);
    BoundAlone(settings, action);
    BinderIsSound(settings, Snapshot(settings), [action]);
    assert r in RequestsOf(action);
  }

  /** A crop axis whose only control offers "delta": with unique ids, and still the crop is refused. */
  lemma DeltaOnlyCropIsRefused(action: Action)
    requires IsCrop(action)
    ensures var settings := [FloatControl("x", "iop/crop/cx", DeltaMode)];
            && ValidSnapshot(settings) && UniqueSettingIds(settings)
            && Run(Snapshot(settings), Bound(settings, [action]).operations).Failure?
  {
    var s := FloatControl("x", "iop/crop/cx", DeltaMode);
    var settings := [s];
    assert "iop/crop/" + "cx" == "iop/crop/cx";
    assert ExactControl(settings, CropQuery("cx"), s);
    ExactControlIsFound(settings, CropQuery("cx"), s);
    assert !AxisSettable(settings, "cx");
    assert action in [action];
    UniqueIdsAreAccepted(settings, Snapshot(settings), [action]);
  }
}
