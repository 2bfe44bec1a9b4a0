/**
 * Renaming and renumbering of operations: every list of operations comes out with
 * pairwise distinct ids and sequence numbers 1..n, and nothing else changed.
 */
module OperationIds {
  import opened Counting
  import opened Settings
  import Text

  /** The id an operation asks for; an empty id is replaced by one built from its position. */
  function Candidate(op: Operation, prefix: string, index: nat): string {
    if op.operationId == "" then prefix + Text.Decimal(index) else op.operationId
  }

  /** The k-th name tried for a candidate: itself, then "-2", "-3", ... */
  function Probe(candidate: string, k: nat): string {
    if k < 2 then candidate else candidate + "-" + Text.Decimal(k)
  }

  lemma ProbeInjective(c: string, j: nat, k: nat)
    requires 1 <= j < k
    ensures Probe(c, j) != Probe(c, k)
  {
    assert Probe(c, k)[|c|..] == "-" + Text.Decimal(k);
    if j >= 2 && Probe(c, j) == Probe(c, k) {
      assert Probe(c, j)[|c|..] == "-" + Text.Decimal(j);
      assert ("-" + Text.Decimal(j))[1..] == Text.Decimal(j) && ("-" + Text.Decimal(k))[1..] == Text.Decimal(k);
      Text.DecimalInjective(j, k);
    }
  }

  ghost function Tried(c: string, k: nat): set<string> {
    set j | 1 <= j < k :: Probe(c, j)
  }

  /** Names tried so far are distinct, so at most |seen| of them can be taken. */
  lemma {:induction false} TriedBound(c: string, k: nat, seen: set<string>)
    requires 1 <= k && Tried(c, k) <= seen
    ensures k - 1 <= |seen| && |Tried(c, k)| == k - 1
  {
    if k > 1 {
      TriedBound(c, k - 1, seen);
      assert Tried(c, k) == Tried(c, k - 1) + {Probe(c, k - 1)};
      forall j | 1 <= j < k - 1 ensures Probe(c, j) != Probe(c, k - 1) {
        ProbeInjective(c, j, k - 1);
      }
      assert Probe(c, k - 1) !in Tried(c, k - 1);
      SubsetSize(Tried(c, k), seen);
    } else {
      assert Tried(c, k) == {};
    }
  }

  /** The first name not yet taken, starting from the k-th probe. */
  function FirstFree(c: string, seen: set<string>, k: nat): (id: string)
    requires 1 <= k && forall j :: 1 <= j < k ==> Probe(c, j) in seen
    ensures id !in seen
    ensures exists n :: k <= n && id == Probe(c, n)
    decreases |seen| + 1 - k
  {
    TriedBound(c, k, seen);
    if Probe(c, k) in seen then
      assert Tried(c, k + 1) <= seen;
      TriedBound(c, k + 1, seen);
      FirstFree(c, seen, k + 1)
    else Probe(c, k)
  }

  function Renamed(op: Operation, prefix: string, index: nat, seen: set<string>): Operation {
    op.(operationId := FirstFree(Candidate(op, prefix, index), seen, 1), sequence := index)
  }

  ghost function Ids(ops: seq<Operation>): set<string> {
    set op | op in ops :: op.operationId
  }

  /** The normalised list, built by appending one renamed operation at a time. */
  ghost function Normalized(ops: seq<Operation>, prefix: string): (r: seq<Operation>)
    ensures |r| == |ops|
  {
    if ops == [] then []
    else
      var before := Normalized(ops[..|ops| - 1], prefix);
      before + [Renamed(ops[|ops| - 1], prefix, |ops|, Ids(before))]
  }

  ghost predicate DistinctIds(ops: seq<Operation>) {
    forall i, j :: 0 <= i < j < |ops| ==> ops[i].operationId != ops[j].operationId
  }

  lemma {:induction false} NormalizedPrefix(ops: seq<Operation>, prefix: string, n: nat)
    requires n <= |ops|
    ensures Normalized(ops[..n], prefix) == Normalized(ops, prefix)[..n]
  {
    if n < |ops| {
      NormalizedPrefix(ops[..|ops| - 1], prefix, n);
      assert ops[..|ops| - 1][..n] == ops[..n];
    } else {
      assert ops[..n] == ops;
    }
  }

  /** Each output operation, in terms of the ones before it. */
  lemma NormalizedAt(ops: seq<Operation>, prefix: string, i: nat)
    requires i < |ops|
    ensures Normalized(ops, prefix)[i] == Renamed(ops[i], prefix, i + 1, Ids(Normalized(ops, prefix)[..i]))
  {
    NormalizedPrefix(ops, prefix, i + 1);
    NormalizedPrefix(ops, prefix, i);
    assert ops[..i + 1][..i] == ops[..i];
  }

  /** For every list: distinct non-empty ids, sequences 1..n, same edits in the same order. */
  lemma {:induction false} NormalizedIsSound(ops: seq<Operation>, prefix: string)
    requires prefix != ""
    ensures var r := Normalized(ops, prefix);
            && |r| == |ops|
            && DistinctIds(r)
            && forall i :: 0 <= i < |r| ==>
                 r[i].operationId != "" && r[i].sequence == i + 1 && SameEdit(r[i], ops[i])
  {
    var r := Normalized(ops, prefix);
    forall j | 0 <= j < |r|
      ensures r[j].operationId != "" && r[j].sequence == j + 1 && SameEdit(r[j], ops[j])
      ensures forall i :: 0 <= i < j ==> r[i].operationId != r[j].operationId
    {
      NormalizedAt(ops, prefix, j);
      forall i | 0 <= i < j ensures r[i].operationId != r[j].operationId {
        assert r[..j][i] in r[..j];
      }
    }
  }

  /** An id survives exactly when it is non-empty and no earlier output operation took it. */
  lemma IdKeptIff(ops: seq<Operation>, prefix: string, i: nat)
    requires i < |ops| && prefix != ""
    ensures var r := Normalized(ops, prefix);
            r[i].operationId == ops[i].operationId <==>
            ops[i].operationId != "" && ops[i].operationId !in Ids(r[..i])
  {
    NormalizedAt(ops, prefix, i);
  }

  /** The search returns the first name that is free. */
  lemma {:induction false} FirstFreeIsFirst(c: string, seen: set<string>, k: nat) returns (n: nat)
    requires 1 <= k && forall j :: 1 <= j < k ==> Probe(c, j) in seen
    ensures k <= n && FirstFree(c, seen, k) == Probe(c, n) && forall j :: 1 <= j < n ==> Probe(c, j) in seen
    decreases |seen| + 1 - k
  {
    TriedBound(c, k, seen);
    n := k;
    if Probe(c, k) in seen {
      assert Tried(c, k + 1) <= seen;
      TriedBound(c, k + 1, seen);
      n := FirstFreeIsFirst(c, seen, k + 1);
    }
  }

  /** The id's own name, or the first of its numbered variants -2, -3, ... that is not in use. */
  ghost predicate FirstUnused(id: string, name: string, used: set<string>) {
    if name !in used then id == name
    else
      exists n: nat ::
        && 2 <= n && id == name + "-" + Text.Decimal(n) && id !in used
        && forall j: nat :: 2 <= j < n ==> name + "-" + Text.Decimal(j) in used
  }

  /** Which id an operation gets: its own or, without one, the prefix and its position, or a variant of that. */
  lemma AssignedId(ops: seq<Operation>, prefix: string, i: nat)
    requires i < |ops|
    ensures var r := Normalized(ops, prefix);
            FirstUnused(r[i].operationId,
                        if ops[i].operationId != "" then ops[i].operationId else prefix + Text.Decimal(i + 1),
                        Ids(r[..i]))
  {
    var used, name := Ids(Normalized(ops, prefix)[..i]), Candidate(ops[i], prefix, i + 1);
    NormalizedAt(ops, prefix, i);
    VariantIsUnused(name, used);
  }

  lemma VariantIsUnused(name: string, used: set<string>)
    ensures FirstUnused(FirstFree(name, used, 1), name, used)
  {
    var n := FirstFreeIsFirst(name, used, 1);
    assert Probe(name, 1) == name;
    if name in used {
      forall j: nat | 2 <= j < n ensures name + "-" + Text.Decimal(j) in used {
        assert Probe(name, j) in used;
      }
    }
  }

  /** A list whose ids are non-empty and distinct keeps them all. */
  lemma {:induction false} DistinctIdsAreKept(ops: seq<Operation>, prefix: string)
    requires DistinctIds(ops) && forall op :: op in ops ==> op.operationId != ""
    ensures forall i :: 0 <= i < |ops| ==> Normalized(ops, prefix)[i] == ops[i].(sequence := i + 1)
  {
    if ops != [] {
      var n := |ops| - 1;
      DistinctIdsAreKept(ops[..n], prefix);
      var before := Normalized(ops[..n], prefix);
      assert Probe(ops[n].operationId, 1) == ops[n].operationId;
      assert ops[n].operationId !in Ids(before);
    }
  }

  /** In terms of the batch alone: all ids are kept exactly when they are non-empty and pairwise distinct. */
  lemma AllIdsKeptIff(ops: seq<Operation>, prefix: string)
    requires prefix != ""
    ensures (forall i :: 0 <= i < |ops| ==> Normalized(ops, prefix)[i].operationId == ops[i].operationId) <==>
            DistinctIds(ops) && forall op :: op in ops ==> op.operationId != ""
  {
    hide Normalized;
    NormalizedIsSound(ops, prefix);
    if DistinctIds(ops) && forall op :: op in ops ==> op.operationId != "" {
      DistinctIdsAreKept(ops, prefix);
    }
  }

  lemma {:induction false} NormalizationIsIdempotent(ops: seq<Operation>, prefix: string)
    requires prefix != ""
    ensures Normalized(Normalized(ops, prefix), prefix) == Normalized(ops, prefix)
  {
    hide Normalized;
    var r := Normalized(ops, prefix);
    NormalizedIsSound(ops, prefix);
    DistinctIdsAreKept(r, prefix);
    assert forall i :: 0 <= i < |r| ==> Normalized(r, prefix)[i] == r[i];
  }

  /** An id that is unique in its list may still be renamed, when a renamed duplicate took it first. */
  lemma UniqueIdMayBeRenamed(op: Operation)
    ensures var ops := [op.(operationId := "a"), op.(operationId := "a"), op.(operationId := "a-2")];
            Normalized(ops, "canonical-op-")[2].operationId != ops[2].operationId
  {
    var ops := [op.(operationId := "a"), op.(operationId := "a"), op.(operationId := "a-2")];
    var r := Normalized(ops, "canonical-op-");
    assert Text.Decimal(2) == "2" && Probe("a", 1) == "a" && Probe("a", 2) == "a-2";
    NormalizedAt(ops, "canonical-op-", 0);
    NormalizedAt(ops, "canonical-op-", 1);
    assert Ids(r[..0]) == {} && r[..1] == [r[0]];
    assert r[0].operationId == "a" && r[0] in r[..1];
    assert r[1].operationId == "a-2" by {
      assert Ids(r[..1]) == {"a"};
      assert FirstFree("a", {"a"}, 1) == FirstFree("a", {"a"}, 2) == "a-2";
    }
    assert r[1] in r[..2];
    IdKeptIff(ops, "canonical-op-", 2);
  }

  // ---- The plan's own check ----

  function IdList(ops: seq<Operation>): seq<string> {
    seq(|ops|, i requires 0 <= i < |ops| => ops[i].operationId)
  }

  function SequenceList(ops: seq<Operation>): seq<int> {
    seq(|ops|, i requires 0 <= i < |ops| => ops[i].sequence)
  }

  /** The check on a plan's operations: as many different ids, and sequence numbers, as operations. */
  predicate PassesValidator(ops: seq<Operation>) {
    var ids, sequences := IdList(ops), SequenceList(ops);
    |set id | id in ids| == |ids| && |set n | n in sequences| == |sequences|
  }

  lemma {:induction false} DistinctSize<T>(s: seq<T>)
    requires forall i, j :: 0 <= i < j < |s| ==> s[i] != s[j]
    ensures |set x | x in s| == |s|
  {
    if s != [] {
      var n := |s| - 1;
      DistinctSize(s[..n]);
      assert s == s[..n] + [s[n]];
      assert (set x | x in s) == (set x | x in s[..n]) + {s[n]};
    }
  }

  lemma NormalizedPassesValidator(ops: seq<Operation>, prefix: string)
    requires prefix != ""
    ensures PassesValidator(Normalized(ops, prefix))
  {
    NormalizedIsSound(ops, prefix);
    DistinctSize(IdList(Normalized(ops, prefix)));
    DistinctSize(SequenceList(Normalized(ops, prefix)));
  }

  /** The inner loop of the normalisation; it terminates because the names tried are distinct. */
  method FindFree(candidate: string, seen: set<string>) returns (operationId: string)
    ensures operationId == FirstFree(candidate, seen, 1)
  {
    operationId := candidate;
    var duplicateIndex := 2;
    while operationId in seen
      invariant duplicateIndex >= 2 && operationId == Probe(candidate, duplicateIndex - 1)
      invariant forall j :: 1 <= j < duplicateIndex - 1 ==> Probe(candidate, j) in seen
      invariant FirstFree(candidate, seen, 1) == FirstFree(candidate, seen, duplicateIndex - 1)
      decreases |seen| + 2 - duplicateIndex
    {
      TriedBound(candidate, duplicateIndex, seen);
      operationId := candidate + "-" + Text.Decimal(duplicateIndex);
      duplicateIndex := duplicateIndex + 1;
    }
  }

  /** The outer loop: one renamed and renumbered operation after the other. */
  method NormalizeOperationsWithUniqueIds(operations: seq<Operation>, prefix: string)
    returns (normalized: seq<Operation>)
    ensures normalized == Normalized(operations, prefix)
  {
    normalized := [];
    var seen: set<string> := {};
    for index := 0 to |operations|
      invariant normalized == Normalized(operations[..index], prefix)
      invariant seen == Ids(normalized)
    {
      var operation := operations[index];
      var operationId := FindFree(Candidate(operation, prefix, index + 1), seen);
      seen := seen + {operationId};
      assert operations[..index + 1][..index] == operations[..index];
      normalized := normalized + [operation.(operationId := operationId, sequence := index + 1)];
    }
    assert operations[..|operations|] == operations;
  }
}
