/**
 * Reordering of the white-balance operations of a batch: they are sorted by rank
 * into the slots they occupied, every other operation stays where it was.
 */
module WhiteBalance {
  import opened Settings
  import StableSort
  import Text

  const PREFIX := "iop/temperature/"

  predicate IsWhiteBalance(op: Operation) {
    Text.HasPrefix(op.actionPath, PREFIX)
  }

  datatype Rank = Rank(level: int, leaf: string)

  function RankOf(op: Operation): Rank {
    var leaf := Text.Lower(Text.Leaf(op.actionPath));
    if op.value.BoolValue? then Rank(0, leaf)
    else if op.value.ChoiceValue? then Rank(1, leaf)
    else if leaf == "finetune" then Rank(2, leaf)
    else if leaf == "temperature" then Rank(3, leaf)
    else if leaf == "tint" then Rank(4, leaf)
    else if leaf == "red" then Rank(5, leaf)
    else if leaf == "green" then Rank(6, leaf)
    else if leaf == "blue" then Rank(7, leaf)
    else if leaf == "emerald" then Rank(8, leaf)
    else if leaf == "yellow" || leaf == "various" then Rank(9, leaf)
    else Rank(99, leaf)
  }

  predicate RankLe(a: Operation, b: Operation) {
    var x, y := RankOf(a), RankOf(b);
    x.level < y.level || (x.level == y.level && Text.StrLe(x.leaf, y.leaf))
  }

  lemma RankIsTotalPreorder()
    ensures StableSort.TotalPreorder(RankLe)
  {
    forall a, b ensures RankLe(a, b) || RankLe(b, a) {
      Text.StrLeTotal(RankOf(a).leaf, RankOf(b).leaf);
    }
    forall a, b, c | RankLe(a, b) && RankLe(b, c) ensures RankLe(a, c) {
      if RankOf(a).level == RankOf(b).level == RankOf(c).level {
        Text.StrLeTransitive(RankOf(a).leaf, RankOf(b).leaf, RankOf(c).leaf);
      }
    }
  }

  function Ordered(ops: seq<Operation>): seq<Operation> {
    StableSort.SortedInSlots(ops, IsWhiteBalance, RankLe)
  }

  /**
   * The shape of the reordered batch: a permutation, non-white-balance operations at
   * their index, white-balance slots still white balance and sorted by rank.
   */
  lemma OrderedShape(ops: seq<Operation>)
    ensures |Ordered(ops)| == |ops| && multiset(Ordered(ops)) == multiset(ops)
    ensures forall i :: 0 <= i < |ops| && !IsWhiteBalance(ops[i]) ==> Ordered(ops)[i] == ops[i]
    ensures forall i :: 0 <= i < |ops| && IsWhiteBalance(ops[i]) ==> IsWhiteBalance(Ordered(ops)[i])
    ensures StableSort.Sorted(StableSort.Filter(Ordered(ops), IsWhiteBalance), RankLe)
  {
    RankIsTotalPreorder();
    StableSort.SortedInSlotsShape(ops, IsWhiteBalance, RankLe);
  }

  /** Numbers are put in this order; leaves in one place are equals, and any other leaf comes after all of these. */
  const NUMBER_PLACES: seq<seq<string>> :=
    [["finetune"], ["temperature"], ["tint"], ["red"], ["green"], ["blue"], ["emerald"], ["yellow", "various"]]

  function LeafOf(op: Operation): string { Text.Lower(Text.Leaf(op.actionPath)) }

  predicate InPlace(leaf: string, k: int) {
    0 <= k < |NUMBER_PLACES| && leaf in NUMBER_PLACES[k]
  }

  /** a may come before b: flags, then choices, then numbers by their places; equals by their leaves. */
  ghost predicate InOrder(a: Operation, b: Operation) {
    && (b.value.BoolValue? ==> a.value.BoolValue?)
    && (b.value.ChoiceValue? ==> !a.value.FloatValue?)
    && (a.value.FloatValue? && b.value.FloatValue? ==>
          forall k :: InPlace(LeafOf(b), k) ==> exists l :: l <= k && InPlace(LeafOf(a), l))
    && (Equals(a, b) ==> Text.StrLe(LeafOf(a), LeafOf(b)))
  }

  ghost predicate Equals(a: Operation, b: Operation) {
    match a.value
    case BoolValue(_) => b.value.BoolValue?
    case ChoiceValue(_, _) => b.value.ChoiceValue?
    case FloatValue(_, _) => b.value.FloatValue? && forall k :: InPlace(LeafOf(a), k) <==> InPlace(LeafOf(b), k)
  }

  /** The level of a number is two more than its place. */
  lemma NumberLevel(op: Operation, k: int)
    requires op.value.FloatValue?
    ensures InPlace(LeafOf(op), k) <==> 0 <= k < 8 && RankOf(op).level == k + 2
  {
  }

  lemma LevelByKind(op: Operation)
    ensures RankOf(op).leaf == LeafOf(op)
    ensures op.value.BoolValue? ==> RankOf(op).level == 0
    ensures op.value.ChoiceValue? ==> RankOf(op).level == 1
    ensures op.value.FloatValue? ==> 2 <= RankOf(op).level <= 9 || RankOf(op).level == 99
  {
  }

  lemma NumbersInOrder(a: Operation, b: Operation, k: int)
    requires a.value.FloatValue? && b.value.FloatValue? && RankOf(a).level <= RankOf(b).level && InPlace(LeafOf(b), k)
    ensures RankOf(a).level - 2 <= k && InPlace(LeafOf(a), RankOf(a).level - 2)
  {
    hide RankOf, InPlace, LeafOf;
    LevelByKind(a);
    NumberLevel(b, k);
    NumberLevel(a, RankOf(a).level - 2);
  }

  lemma EqualsShareLevel(a: Operation, b: Operation)
    requires Equals(a, b)
    ensures RankOf(a).level == RankOf(b).level
  {
    hide RankOf, InPlace, LeafOf;
    LevelByKind(a);
    LevelByKind(b);
    if a.value.FloatValue? {
      NumberLevel(a, RankOf(a).level - 2);
      NumberLevel(b, RankOf(a).level - 2);
      NumberLevel(a, RankOf(b).level - 2);
      NumberLevel(b, RankOf(b).level - 2);
    }
  }

  lemma RankedInOrder(a: Operation, b: Operation)
    requires RankLe(a, b)
    ensures InOrder(a, b)
  {
    hide RankOf, InPlace, LeafOf, Equals;
    LevelByKind(a);
    LevelByKind(b);
    if a.value.FloatValue? && b.value.FloatValue? {
      forall k | InPlace(LeafOf(b), k) ensures exists l :: l <= k && InPlace(LeafOf(a), l) {
        NumbersInOrder(a, b, k);
      }
    }
    if Equals(a, b) {
      EqualsShareLevel(a, b);
    }
  }

  /** Position by position: of two white-balance operations of the result the one that comes first may. */
  ghost predicate InOrderThroughout(ops: seq<Operation>) {
    forall i, j ::
      0 <= i < j < |ops| && "iop/temperature/" <= ops[i].actionPath && "iop/temperature/" <= ops[j].actionPath ==>
        InOrder(ops[i], ops[j])
  }

  lemma OrderedInOrder(ops: seq<Operation>)
    ensures InOrderThroughout(Ordered(ops))
  {
    hide InOrder, RankLe;
    OrderedShape(ops);
    var r := Ordered(ops);
    forall i, j |
        0 <= i < j < |r| && "iop/temperature/" <= r[i].actionPath && "iop/temperature/" <= r[j].actionPath
      ensures InOrder(r[i], r[j])
    {
      StableSort.SortedPositions(r, IsWhiteBalance, RankLe, i, j);
      RankedInOrder(r[i], r[j]);
    }
  }

  /** Acceptable operations on one control share action path and kind, hence rank; the sort is stable. */
  lemma AcceptableKeepsEachControl(m: SettingMap, ops: seq<Operation>, id: string)
    requires Acceptable(m, ops)
    ensures For(Ordered(ops), id) == For(ops, id)
  {
    var q := (op: Operation) => op.settingId == id;
    forall x, y | x in ops && y in ops && q(x) && q(y)
      ensures IsWhiteBalance(x) == IsWhiteBalance(y) && RankLe(x, y)
    {
      assert Refusal(m, x).None? && Refusal(m, y).None?;
      SamePathAndKind(x, y);
    }
    StableSort.SlotSortStable(ops, IsWhiteBalance, RankLe, q);
  }

  lemma SamePathAndKind(x: Operation, y: Operation)
    requires x.actionPath == y.actionPath && KindOf(x.value) == KindOf(y.value)
    ensures IsWhiteBalance(x) == IsWhiteBalance(y) && RankLe(x, y)
  {
    Text.StrLeTotal(RankOf(x).leaf, RankOf(x).leaf);
  }

  lemma OrderedMembers(ops: seq<Operation>)
    ensures forall op :: op in ops <==> op in Ordered(ops)
  {
    var ordered := Ordered(ops);
    assert multiset(ordered) == multiset(ops) by { OrderedShape(ops); }
    forall op ensures op in ops <==> op in ordered {
      assert op in multiset(ops) <==> op in multiset(ordered);
    }
  }

  /**
   * The reordering preserves meaning: for every batch, the reordered batch is accepted
   * exactly when the original one is, and then leaves every control in the same state.
   */
  lemma OrderingPreservesMeaning(m: SettingMap, ops: seq<Operation>)
    ensures Run(m, Ordered(ops)).Success? <==> Run(m, ops).Success?
    ensures Run(m, ops).Success? ==> Run(m, Ordered(ops)) == Run(m, ops)
  {
    OrderedMembers(ops);
    RunSucceedsIff(m, ops);
    RunSucceedsIff(m, Ordered(ops));
    if Acceptable(m, ops) {
      forall id ensures For(Ordered(ops), id) == For(ops, id) {
        AcceptableKeepsEachControl(m, ops, id);
      }
      SameOutcome(m, Ordered(ops), ops);
    }
  }

  /** The engine's reordering of a batch. */
  method OrderOperationsForApply(operations: seq<Operation>) returns (ordered: seq<Operation>)
    ensures ordered == Ordered(operations)
    ensures |ordered| == |operations| && multiset(ordered) == multiset(operations)
    ensures forall i :: 0 <= i < |ordered| ==>
              if "iop/temperature/" <= operations[i].actionPath then "iop/temperature/" <= ordered[i].actionPath
              else ordered[i] == operations[i]
    ensures InOrderThroughout(ordered)
  {
    ordered := StableSort.SortInSlots(operations, IsWhiteBalance, RankLe);
    OrderedShape(operations);
    OrderedInOrder(operations);
  }
}
