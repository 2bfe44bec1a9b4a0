/**
 * Greedy choice of spline columns for a sparse colour fit. The singular value decomposition and the
 * residuals it yields are left abstract: both are determined by the columns chosen so far.
 */
module ThinPlate {

  import opened Counting

  /** Columns 0..N-1 stand for colour patches, the last four for the polynomial part. */
  datatype Problem = Problem(
    N: nat,
    dim: nat,
    S: nat,
    norm: seq<real>,
    fit: (seq<int>, int) -> real,        // summed |column . residual| after solving for the chosen columns
    rejects: (int, seq<int>) -> bool     // the solver gives up on these columns for this channel
  ) {
    function Wd(): nat { N + 4 }

    ghost predicate Valid() {
      |norm| == Wd() && forall t :: 0 <= t < Wd() ==> norm[t] > 0.0
    }

    function Score(chosen: seq<int>, t: int): real
      requires 0 <= t < |norm|
    {
      fit(chosen, t) * norm[t]
    }

    /** Worth choosing next: not chosen yet, and of some use. */
    predicate Useful(chosen: seq<int>, t: int)
      requires |norm| == Wd()
    {
      0 <= t < Wd() && t !in chosen && Score(chosen, t) > 0.0
    }

    /** The next column by its meaning: the first of the most useful ones, or column 0 when nothing is useful. */
    ghost predicate IsPick(chosen: seq<int>, m: int)
      requires |norm| == Wd()
    {
      if exists t :: Useful(chosen, t) then
        && Useful(chosen, m)
        && forall t :: Useful(chosen, t) ==>
             Score(chosen, t) < Score(chosen, m) || (Score(chosen, t) == Score(chosen, m) && m <= t)
      else
        m == 0
    }

    /** Channels before n: the solver copes with these columns. */
    ghost predicate SolvedBefore(columns: seq<int>, n: int) {
      forall ch :: 0 <= ch < n ==> !rejects(ch, columns)
    }

    /** A solver that notices rank deficiency, as a vanishing smallest singular value does. */
    ghost predicate RejectsRepeats() {
      forall ch: int, columns: seq<int> | !Distinct(columns) :: rejects(ch, columns)
    }
  }

  predicate Distinct(s: seq<int>) {
    forall i, j :: 0 <= i < j < |s| ==> s[i] != s[j]
  }

  function Patches(perm: seq<int>, N: nat): (k: nat)
    ensures k <= |perm|
  {
    if perm == [] then 0
    else Patches(perm[..|perm| - 1], N) + if perm[|perm| - 1] < N then 1 else 0
  }

  lemma PickIsUnique(p: Problem, chosen: seq<int>, a: int, b: int)
    requires p.Valid() && p.IsPick(chosen, a) && p.IsPick(chosen, b)
    ensures a == b
  {
    if t :| p.Useful(chosen, t) {
      assert p.Useful(chosen, a) && p.Useful(chosen, b);
    }
  }

  /** A column is picked again exactly when nothing is useful any more and the default, column 0, was taken. */
  lemma RepeatsOnlyColumnZero(p: Problem, chosen: seq<int>, m: int)
    requires p.Valid() && p.IsPick(chosen, m)
    ensures 0 <= m < p.Wd()
    ensures m in chosen <==> 0 in chosen && forall t :: !p.Useful(chosen, t)
    ensures m in chosen ==> m == 0
  {
  }

  /** Two patches wanted, one point, no residual left: column 0 is chosen and is the pick again. */
  lemma ColumnZeroMayRepeat()
    ensures exists p: Problem ::
              && p.Valid() && p.dim > 0 && p.RejectsRepeats() && Selected(p, [0])
              && Patches([0], p.N) < p.S - 4 && p.IsPick([0], 0)
  {
    var p := Problem(1, 1, 6, [1.0, 1.0, 1.0, 1.0, 1.0], (chosen, t) => 0.0, (ch, columns) => !Distinct(columns));
    assert [0][..0] == [] && Patches([0], 1) == 1;
    assert forall chosen, t :: !p.Useful(chosen, t);
    assert Selected(p, []) && p.IsPick([], 0) && p.SolvedBefore([0], 1);
    assert Selected(p, [0]);
  }

  /** The polynomial columns among the chosen ones. */
  ghost function Polynomials(perm: seq<int>, N: nat): set<int> {
    set t | t in perm && t >= N
  }

  /** A run of the selection: each column was the pick at its time, wanted, and accepted by the solver throughout. */
  ghost predicate Selected(p: Problem, perm: seq<int>)
    requires p.Valid()
  {
    perm == [] ||
    (var front := perm[..|perm| - 1];
     && Selected(p, front)
     && Patches(front, p.N) < p.S - 4
     && p.IsPick(front, perm[|perm| - 1])
     && p.SolvedBefore(perm, p.dim))
  }

  lemma {:induction false} SelectedAt(p: Problem, perm: seq<int>, i: int)
    requires p.Valid() && Selected(p, perm) && 0 <= i < |perm|
    ensures Selected(p, perm[..i]) && p.IsPick(perm[..i], perm[i]) && Patches(perm[..i], p.N) < p.S - 4
    ensures p.SolvedBefore(perm[..i + 1], p.dim)
  {
    var front := perm[..|perm| - 1];
    if i < |front| {
      SelectedAt(p, front, i);
      assert front[..i] == perm[..i] && front[..i + 1] == perm[..i + 1];
    } else {
      assert perm[..i + 1] == perm;
    }
  }

  lemma PolynomialsInRange(p: Problem, perm: seq<int>)
    requires p.Valid() && Selected(p, perm)
    ensures |Polynomials(perm, p.N)| <= 4
  {
    var all := {p.N, p.N + 1, p.N + 2, p.N + 3};
    forall t | t in Polynomials(perm, p.N)
      ensures t in all
    {
      var i :| 0 <= i < |perm| && perm[i] == t;
      SelectedAt(p, perm, i);
      RepeatsOnlyColumnZero(p, perm[..i], perm[i]);
    }
    SubsetSize(Polynomials(perm, p.N), all);
  }

  lemma PolynomialStep(p: Problem, front: seq<int>, last: int)
    requires p.Valid() && p.N > 0 && p.IsPick(front, last)
    ensures |Polynomials(front + [last], p.N)| == |Polynomials(front, p.N)| + if last < p.N then 0 else 1
  {
    RepeatsOnlyColumnZero(p, front, last);
    var before, after := Polynomials(front, p.N), Polynomials(front + [last], p.N);
    if last < p.N {
      assert after == before;
    } else {
      assert after == before + {last};
    }
  }

  /** With a patch as the default pick, every choice is a patch or one of four distinct polynomial columns. */
  lemma {:induction false} AtMostFourPolynomials(p: Problem, perm: seq<int>)
    requires p.Valid() && p.N > 0 && Selected(p, perm)
    ensures |perm| == Patches(perm, p.N) + |Polynomials(perm, p.N)|
    ensures |Polynomials(perm, p.N)| <= 4
  {
    PolynomialsInRange(p, perm);
    if perm == [] {
      assert Polynomials(perm, p.N) == {};
    } else {
      var front, last := perm[..|perm| - 1], perm[|perm| - 1];
      AtMostFourPolynomials(p, front);
      PolynomialStep(p, front, last);
      assert perm == front + [last];
    }
  }

  /** The solver's v matrix is packed with row length s + 1 in a buffer of S * S numbers. */
  lemma SolverIndices(s: nat, S: nat, i: nat, j: nat)
    requires s < S && i <= s && j <= s
    ensures j * (s + 1) + i < S * S
  {
    Times(j, s, s + 1);
    Times(s + 1, S, s + 1);
    Times(s + 1, S, S);
    Square(s);
  }

  lemma Times(x: nat, y: nat, z: nat)
    requires x <= y
    ensures x * z <= y * z == z * y
  {
  }

  lemma Square(s: nat)
    ensures (s + 1) * (s + 1) == s * (s + 1) + s + 1
  {
  }

  /** One scan over the columns: those already chosen carry norm zero. */
  method NextColumn(p: Problem, norm: array<real>, chosen: seq<int>) returns (maxcol: int)
    requires p.Valid() && norm.Length == p.Wd()
    requires forall t :: 0 <= t < p.Wd() ==> norm[t] == if t in chosen then 0.0 else p.norm[t]
    ensures p.IsPick(chosen, maxcol)
  {
    var maxdot := 0.0;
    maxcol := 0;
    var t := 0;
    while t < p.Wd()
      invariant 0 <= t <= p.Wd()
      invariant maxdot == 0.0 ==> maxcol == 0 && forall u :: p.Useful(chosen, u) ==> t <= u
      invariant maxdot != 0.0 ==> p.Useful(chosen, maxcol) && maxdot == p.Score(chosen, maxcol) && maxcol < t
      invariant forall u :: p.Useful(chosen, u) && u < t && maxdot != 0.0 ==>
                  p.Score(chosen, u) < maxdot || (p.Score(chosen, u) == maxdot && maxcol <= u)
    {
      var dot := 0.0;
      if norm[t] > 0.0 {
        dot := p.fit(chosen, t) * norm[t];
      }
      if dot > maxdot {
        maxcol := t;
        maxdot := dot;
      }
      t := t + 1;
    }
  }

  /** Copies the chosen columns of A into the work matrix, whose rows have room for S columns. */
  method FillColumns(p: Problem, A: array2<real>, As: array2<real>, permutation: array<int>, sp: int)
    requires A.Length0 == A.Length1 == As.Length0 == p.Wd() && As.Length1 == p.S && A != As
    requires -1 <= sp < p.S <= permutation.Length
    requires forall i :: 0 <= i <= sp ==> 0 <= permutation[i] < p.Wd()
    modifies As
    ensures forall i, j :: 0 <= i <= sp && 0 <= j < p.Wd() ==> As[j, i] == A[j, permutation[i]]
  {
    var i := 0;
    while i <= sp
      invariant 0 <= i <= sp + 1
      invariant forall k, j :: 0 <= k < i && 0 <= j < p.Wd() ==> As[j, k] == A[j, permutation[k]]
    {
      var j := 0;
      while j < p.Wd()
        invariant 0 <= j <= p.Wd()
        invariant forall k, l :: 0 <= k < i && 0 <= l < p.Wd() ==> As[l, k] == A[l, permutation[k]]
        invariant forall l :: 0 <= l < j ==> As[l, i] == A[l, permutation[i]]
      {
        As[j, i] := A[j, permutation[i]];
        j := j + 1;
      }
      i := i + 1;
    }
  }

  /** As long as patches are wanted, there is room for another choice. */
  lemma RoomForAnother(p: Problem, perm: seq<int>)
    requires p.Valid() && Selected(p, perm) && Patches(perm, p.N) < p.S - 4 && |perm| < p.Wd()
    ensures |perm| < p.S
  {
    if p.N > 0 {
      AtMostFourPolynomials(p, perm);
    }
  }

  lemma SolvedIsDistinct(p: Problem, perm: seq<int>)
    requires p.Valid() && Selected(p, perm) && p.dim > 0 && p.RejectsRepeats()
    ensures Distinct(perm)
  {
    if perm != [] {
      assert !p.rejects(0, perm);
    }
  }

  /** What the result says about the chosen columns: finished, stopped by the solver, or out of columns. */
  ghost predicate Outcome(p: Problem, r: int, perm: seq<int>)
    requires p.Valid() && |perm| >= p.S
  {
    if r == -1 then
      p.Wd() <= p.S && Selected(p, perm[..p.Wd()])
    else
      && 0 <= r <= p.S && r < p.Wd()
      && Selected(p, perm[..r])
      && (Patches(perm[..r], p.N) >= p.S - 4
          || (r < p.S && p.IsPick(perm[..r], perm[r]) && !p.SolvedBefore(perm[..r + 1], p.dim)))
  }

  /** Of two runs of the selection the shorter one is the beginning of the longer one. */
  lemma {:induction false} SelectionIsDeterministic(p: Problem, a: seq<int>, b: seq<int>)
    requires p.Valid() && Selected(p, a) && Selected(p, b) && |a| <= |b|
    ensures a == b[..|a|]
  {
    if a != [] {
      var n := |a| - 1;
      SelectionIsDeterministic(p, a[..n], b);
      SelectedAt(p, b, n);
      assert a[..n] == b[..n];
      PickIsUnique(p, b[..n], a[n], b[n]);
    }
  }

  /** A selection that goes on after r choices has not ended there. */
  lemma NotEnded(p: Problem, r: nat, perm: seq<int>, longer: seq<int>)
    requires p.Valid() && p.S <= |perm| && r < |longer| && Selected(p, longer)
    ensures !Outcome(p, r, perm)
  {
    hide Selected, Patches;
    if r <= p.S && Selected(p, perm[..r]) {
      SelectionIsDeterministic(p, perm[..r], longer);
      SelectedAt(p, longer, r);
      if r < p.S && p.IsPick(perm[..r], perm[r]) {
        PickIsUnique(p, longer[..r], longer[r], perm[r]);
        assert longer[..r + 1] == perm[..r + 1];
      }
    }
  }

  /** The problem determines the result: the number returned, and the columns reported. */
  lemma OutcomeIsUnique(p: Problem, r1: int, perm1: seq<int>, r2: int, perm2: seq<int>)
    requires p.Valid() && |perm1| >= p.S && |perm2| >= p.S && Outcome(p, r1, perm1) && Outcome(p, r2, perm2)
    ensures r1 == r2
    ensures var n := if r1 == -1 then p.Wd() else r1; perm1[..n] == perm2[..n]
  {
    var n1, n2 := if r1 == -1 then p.Wd() else r1, if r2 == -1 then p.Wd() else r2;
    if n1 < n2 {
      NotEnded(p, r1, perm1, perm2[..n2]);
    } else if n2 < n1 {
      NotEnded(p, r2, perm2, perm1[..n1]);
    } else {
      SelectionIsDeterministic(p, perm1[..n1], perm2[..n2]);
    }
  }

  /** The columns reported are pairwise distinct, at most four of them are polynomial, and there are at most S. */
  lemma OutcomeIsSound(p: Problem, r: int, perm: seq<int>)
    requires p.Valid() && p.S <= |perm| && Outcome(p, r, perm)
    ensures -1 <= r <= p.S
    ensures p.dim > 0 && p.RejectsRepeats() ==> Distinct(perm[..if r == -1 then p.Wd() else r])
    ensures p.N > 0 && r >= 0 ==> Patches(perm[..r], p.N) <= r <= Patches(perm[..r], p.N) + 4
    ensures forall i :: 0 <= i < (if r == -1 then p.Wd() else r) ==> 0 <= perm[i] < p.Wd()
  {
    var chosen := perm[..if r == -1 then p.Wd() else r];
    SelectedInRange(p, chosen);
    assert forall i :: 0 <= i < |chosen| ==> chosen[i] == perm[i];
    if p.N > 0 {
      AtMostFourPolynomials(p, chosen);
    }
    if p.dim > 0 && p.RejectsRepeats() {
      SolvedIsDistinct(p, chosen);
    }
  }

  /** Solves for every channel in turn, refilling the work matrix each time; stops at the first rejection. */
  method SolveChannels(p: Problem, A: array2<real>, As: array2<real>, permutation: array<int>, sp: int)
    returns (failed: bool)
    requires A.Length0 == A.Length1 == As.Length0 == p.Wd() && As.Length1 == p.S && A != As
    requires 0 <= sp < p.S <= permutation.Length
    requires forall i :: 0 <= i <= sp ==> 0 <= permutation[i] < p.Wd()
    modifies As
    ensures failed <==> !p.SolvedBefore(permutation[..sp + 1], p.dim)
  {
    var columns := permutation[..sp + 1];
    var ch := 0;
    while ch < p.dim
      invariant 0 <= ch <= p.dim && permutation[..sp + 1] == columns
      invariant p.SolvedBefore(columns, ch)
    {
      FillColumns(p, A, As, permutation, sp);
      if p.rejects(ch, columns) {
        return true;
      }
      ch := ch + 1;
    }
    return false;
  }

  ghost predicate ChosenCarryZero(p: Problem, norm: seq<real>, chosen: seq<int>)
    requires p.Valid()
  {
    |norm| == p.Wd() && forall t :: 0 <= t < p.Wd() ==> norm[t] == if t in chosen then 0.0 else p.norm[t]
  }

  lemma SelectedInRange(p: Problem, perm: seq<int>)
    requires p.Valid() && Selected(p, perm)
    ensures forall i :: 0 <= i < |perm| ==> 0 <= perm[i] < p.Wd()
  {
    forall i | 0 <= i < |perm|
      ensures 0 <= perm[i] < p.Wd()
    {
      SelectedAt(p, perm, i);
      RepeatsOnlyColumnZero(p, perm[..i], perm[i]);
    }
  }

  /** Chooses the next column, records it, and marks it as chosen. */
  method TakeColumn(p: Problem, norm: array<real>, permutation: array<int>, s: nat) returns (maxcol: int)
    requires p.Valid() && s < permutation.Length && Selected(p, permutation[..s])
    requires ChosenCarryZero(p, norm[..], permutation[..s])
    modifies norm, permutation
    ensures permutation[..s + 1] == old(permutation[..s]) + [maxcol]
    ensures p.IsPick(old(permutation[..s]), maxcol) && ChosenCarryZero(p, norm[..], permutation[..s + 1])
    ensures forall i :: 0 <= i <= s ==> 0 <= permutation[i] < p.Wd()
  {
    maxcol := NextColumn(p, norm, permutation[..s]);
    RepeatsOnlyColumnZero(p, permutation[..s], maxcol);
    SelectedInRange(p, permutation[..s]);
    assert forall i :: 0 <= i < s ==> permutation[..s][i] == permutation[i];
    permutation[s] := maxcol;
    norm[maxcol] := 0.0;
  }

  /** Initial norms; no column is chosen yet. */
  method InitialNorms(p: Problem) returns (norm: array<real>)
    requires p.Valid()
    ensures fresh(norm) && ChosenCarryZero(p, norm[..], [])
  {
    norm := new real[p.Wd()](i requires 0 <= i < p.Wd() => p.norm[i]);
  }

  /** One round: chooses column number s and solves with it. */
  method ChooseAndSolve(p: Problem, A: array2<real>, As: array2<real>, norm: array<real>, permutation: array<int>,
                        s: nat)
    returns (maxcol: int, failed: bool)
    requires A.Length0 == A.Length1 == As.Length0 == p.Wd() && As.Length1 == p.S <= permutation.Length && A != As
    requires p.Valid() && s < p.S && Selected(p, permutation[..s]) && Patches(permutation[..s], p.N) < p.S - 4
    requires ChosenCarryZero(p, norm[..], permutation[..s])
    modifies As, norm, permutation
    ensures permutation[..s + 1] == old(permutation[..s]) + [maxcol]
    ensures p.IsPick(old(permutation[..s]), maxcol)
    ensures ChosenCarryZero(p, norm[..], permutation[..s + 1])
    ensures failed <==> !p.SolvedBefore(permutation[..s + 1], p.dim)
    ensures !failed ==> Selected(p, permutation[..s + 1])
    ensures Patches(permutation[..s + 1], p.N) == old(Patches(permutation[..s], p.N)) + if maxcol < p.N then 1 else 0
  {
    maxcol := TakeColumn(p, norm, permutation, s);
    var sp := if s < p.S - 1 then s else p.S - 1;
    failed := SolveChannels(p, A, As, permutation, sp);
    assert permutation[..s + 1][..s] == old(permutation[..s]);
  }

  /** The state of the selection loop before round s. */
  ghost predicate Running(p: Problem, norm: seq<real>, perm: seq<int>, s: int, patches: int)
    requires p.Valid()
  {
    && 0 <= s <= p.Wd() && s <= p.S <= |perm|
    && Selected(p, perm[..s]) && patches == Patches(perm[..s], p.N)
    && ChosenCarryZero(p, norm, perm[..s])
  }

  lemma RunningEnds(p: Problem, norm: seq<real>, perm: seq<int>, s: int, patches: int)
    requires p.Valid() && Running(p, norm, perm, s, patches)
    ensures s == p.Wd() ==> Outcome(p, -1, perm)
    ensures s < p.Wd() && patches >= p.S - 4 ==> Outcome(p, s, perm)
  {
  }

  /** One round of the loop, when more patches are wanted. */
  method Round(p: Problem, A: array2<real>, As: array2<real>, norm: array<real>, permutation: array<int>,
               s: nat, patches: nat)
    returns (failed: bool, patchesNow: nat)
    requires A.Length0 == A.Length1 == As.Length0 == p.Wd() && As.Length1 == p.S && A != As
    requires p.Valid() && Running(p, norm[..], permutation[..], s, patches) && s < p.Wd() && patches < p.S - 4
    modifies As, norm, permutation
    ensures failed ==> Outcome(p, s, permutation[..]) && s <= p.S
    ensures !failed ==> Running(p, norm[..], permutation[..], s + 1, patchesNow)
  {
    hide Selected, Patches, ChosenCarryZero;
    assert permutation[..][..s] == permutation[..s];
    RoomForAnother(p, permutation[..s]);
    var maxcol;
    maxcol, failed := ChooseAndSolve(p, A, As, norm, permutation, s);
    patchesNow := if maxcol < p.N then patches + 1 else patches;
    assert permutation[..][..s + 1] == permutation[..s + 1];
    assert permutation[..][..s] == permutation[..s + 1][..s];
  }

  /** The selection loop. All writes and column indices stay below S by the array bounds of this method. */
  method ThinplateMatch(p: Problem, A: array2<real>, permutation: array<int>) returns (r: int)
    requires p.Valid() && A.Length0 == A.Length1 == p.Wd() && permutation.Length >= p.S
    modifies permutation
    ensures Outcome(p, r, permutation[..])
  {
    var norm := InitialNorms(p);
    var As := new real[p.Wd(), p.S];
    var s, patches := 0, 0;
    assert permutation[..][..0] == [];
    assert Running(p, norm[..], permutation[..], s, patches);
    hide Running, Outcome;
    while s < p.Wd()
      invariant 0 <= s <= p.Wd() && patches >= 0
      invariant Running(p, norm[..], permutation[..], s, patches)
    {
      var sparsity := if s < p.S then s else p.S;
      RunningFits(p, norm[..], permutation[..], s, patches);
      if patches >= p.S - 4 {
        RunningEnds(p, norm[..], permutation[..], s, patches);
        return sparsity;
      }
      var failed, patchesNow := Round(p, A, As, norm, permutation, s, patches);
      if failed {
        return sparsity;
      }
      patches := patchesNow;
      s := s + 1;
    }
    RunningEnds(p, norm[..], permutation[..], s, patches);
    r := -1;
  }

  lemma RunningFits(p: Problem, norm: seq<real>, perm: seq<int>, s: int, patches: int)
    requires p.Valid() && Running(p, norm, perm, s, patches)
    ensures s <= p.S
  {
  }
}
