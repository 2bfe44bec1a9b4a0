/**
 * Patch labels of a colour chart: the in-place successor of a label in a C string buffer, and the
 * enumeration of the labels between the first and the last one on each axis.
 */
module ChartLabels {

  type Byte = x: int | 0 <= x < 256
  type Label = seq<Byte>

  const NUL: Byte := 0
  const ZERO: Byte := 48
  const ONE: Byte := 49
  const NINE: Byte := 57
  const UPPER_A: Byte := 65
  const UPPER_Z: Byte := 90
  const UNDERSCORE: Byte := 95
  const LOWER_A: Byte := 97
  const LOWER_Z: Byte := 122

  predicate IsCString(s: Label) {
    forall i :: 0 <= i < |s| ==> s[i] != NUL
  }

  /** Bytes above 'z': counting up never makes one of the others into one. */
  predicate IsHigh(c: Byte) { c > LOWER_Z }

  function HighBytes(s: Label): (n: nat)
    ensures n <= |s|
  {
    if s == [] then 0 else HighBytes(s[..|s| - 1]) + if IsHigh(s[|s| - 1]) then 1 else 0
  }

  /** A label an enumeration can start from: not empty, and with a first byte up to 'z', which keeps it so. */
  predicate IsStartable(s: Label) {
    IsCString(s) && s != [] && !IsHigh(s[0])
  }

  predicate Carries(c: Byte) { c == LOWER_Z || c == UPPER_Z || c == NINE }

  function Reset(c: Byte): Byte
    requires Carries(c)
  {
    if c == NINE then ZERO else c - 25
  }

  /** The digit put in front when the carry leaves the label. */
  function Lead(c: Byte): Byte
    requires Carries(c)
  {
    if c == NINE then ONE else c - 25
  }

  datatype Next = NoRoom | Cut(text: Label) | Inc(text: Label)

  /** The successor of a label in a buffer of `size` bytes, read from its last letter. */
  function Succ(s: Label, total: nat, size: nat): Next
    requires |s| <= total
  {
    if s == [] then Inc([])
    else
      var front, c := s[..|s| - 1], s[|s| - 1];
      if !Carries(c) then (if c == 255 then Cut(front) else Inc(front + [c + 1]))
      else if front == [] then (if total + 1 >= size then NoRoom else Inc([Lead(c), Reset(c)]))
      else
        match Succ(front, total, size)
        case NoRoom => NoRoom
        case Cut(text) => Cut(text)
        case Inc(text) => Inc(text + [Reset(c)])
  }

  function Successor(s: Label, size: nat): Next { Succ(s, |s|, size) }

  /** Shortlex position: longer labels come later, labels of one length in byte order. */
  function Rank(s: Label): (r: nat)
  {
    if s == [] then 0 else 256 * Rank(s[..|s| - 1]) + s[|s| - 1]
  }

  function Pow(b: nat, e: nat): nat { if e == 0 then 1 else b * Pow(b, e - 1) }

  lemma {:induction false} PowGrows(b: nat, d: nat, e: nat)
    requires d <= e && b > 0
    ensures 0 < Pow(b, d) <= Pow(b, e)
  {
    if d < e {
      PowGrows(b, d, e - 1);
    } else if d > 0 {
      PowGrows(b, d - 1, e - 1);
    }
  }

  lemma {:induction false} RankBound(s: Label)
    ensures Rank(s) < Pow(256, |s|)
  {
    if s != [] {
      RankBound(s[..|s| - 1]);
    }
  }

  /** Rank is the shortlex order: it agrees with length first, then with the first differing byte. */
  lemma {:induction false} RankIsShortlex(a: Label, b: Label, k: nat)
    requires IsCString(a) && IsCString(b)
    requires |a| < |b| || (|a| == |b| && k < |a| && a[..k] == b[..k] && a[k] < b[k])
    ensures Rank(a) < Rank(b)
  {
    if a == [] {
    } else if |a| < |b| {
      RankIsShortlex(a[..|a| - 1], b[..|b| - 1], 0);
    } else if k < |a| - 1 {
      assert a[..|a| - 1][..k] == a[..k] && b[..|b| - 1][..k] == b[..k];
      RankIsShortlex(a[..|a| - 1], b[..|b| - 1], k);
    } else {
      assert a[..k] == a[..|a| - 1] && b[..k] == b[..|b| - 1];
    }
  }

  /** The place that is counted up: the last one that does not carry, or -1. */
  function Pivot(s: Label): (k: int)
    ensures -1 <= k < |s|
    ensures k >= 0 ==> !Carries(s[k])
    ensures forall i :: k < i < |s| ==> Carries(s[i])
  {
    if s == [] then -1
    else if Carries(s[|s| - 1]) then Pivot(s[..|s| - 1])
    else |s| - 1
  }

  lemma {:induction false} SuccGrows(s: Label, total: nat, size: nat)
    requires s != [] && IsCString(s) && |s| <= total
    ensures match Succ(s, total, size)
            case NoRoom => Pivot(s) == -1 && total + 1 >= size
            case Cut(text) => Pivot(s) >= 0 && s[Pivot(s)] == 255 && text == s[..Pivot(s)]
            case Inc(text) =>
              && (Pivot(s) >= 0 ==> s[Pivot(s)] != 255 && |text| == |s|)
              && (Pivot(s) == -1 ==> total + 1 < size && |text| == |s| + 1)
              && IsCString(text) && Rank(s) < Rank(text)
  {
    var front := s[..|s| - 1];
    if Carries(s[|s| - 1]) && front != [] {
      SuccGrows(front, total, size);
      match Succ(front, total, size)
      case NoRoom =>
      case Cut(text) => assert front[..Pivot(front)] == s[..Pivot(s)];
      case Inc(text) =>
        assert (text + [Reset(s[|s| - 1])])[..|text|] == text;
    } else if Carries(s[|s| - 1]) {
      var c := s[0];
      assert [Lead(c), Reset(c)][..1] == [Lead(c)];
      assert Rank([Lead(c)]) == Lead(c) by { assert [Lead(c)][..0] == []; }
    } else if s[|s| - 1] != 255 {
      assert (front + [s[|s| - 1] + 1])[..|front|] == front;
    }
  }

  /**
   * Counting up a non-empty label either reports that the buffer is full, or gives a later label that still
   * fits with its terminator; it gives an earlier one exactly when the byte counted up is 255.
   */
  lemma SuccessorIsLater(s: Label, size: nat)
    requires IsCString(s) && s != [] && |s| < size
    ensures Successor(s, size).Cut? <==> Pivot(s) >= 0 && s[Pivot(s)] == 255
    ensures Successor(s, size).Cut? ==> Rank(Successor(s, size).text) < Rank(s)
    ensures Successor(s, size).NoRoom? <==> Pivot(s) == -1 && |s| + 1 == size
    ensures Successor(s, size).Inc? ==>
              Rank(s) < Rank(Successor(s, size).text) && |Successor(s, size).text| < size
  {
    SuccGrows(s, |s|, size);
    if Successor(s, size).Cut? {
      RankIsShortlex(s[..Pivot(s)], s, 0);
    }
  }

  /** An empty label is its own successor, so an enumeration that starts there and does not end there never ends. */
  lemma EmptyLabelIsStuck(size: nat)
    ensures Successor([], size) == Inc([])
  {
  }

  lemma HighSnoc(t: Label, c: Byte)
    ensures HighBytes(t + [c]) == HighBytes(t) + if IsHigh(c) then 1 else 0
  {
    assert (t + [c])[..|t|] == t;
  }

  lemma FewerInFront(s: Label)
    requires s != []
    ensures HighBytes(s) == HighBytes(s[..|s| - 1]) + if IsHigh(s[|s| - 1]) then 1 else 0
  {
  }

  lemma TwoLow(c: Byte, d: Byte)
    requires !IsHigh(c) && !IsHigh(d)
    ensures HighBytes([c]) == 0 && HighBytes([c, d]) == 0
  {
    assert [c][..0] == [] && [c, d][..1] == [c];
  }

  lemma {:induction false} SuccKeepsHighBytes(s: Label, total: nat, size: nat)
    requires |s| <= total
    ensures Succ(s, total, size).Inc? ==> HighBytes(Succ(s, total, size).text) == HighBytes(s)
    ensures Succ(s, total, size).Cut? ==> HighBytes(Succ(s, total, size).text) < HighBytes(s)
  {
    hide HighBytes;
    if s != [] {
      var front, c := s[..|s| - 1], s[|s| - 1];
      FewerInFront(s);
      if !Carries(c) {
        if c != 255 {
          HighSnoc(front, c + 1);
        }
      } else if front == [] {
        TwoLow(Lead(c), Reset(c));
        TwoLow(c, c);
        assert s == [c];
      } else {
        SuccKeepsHighBytes(front, total, size);
        if Succ(front, total, size).Inc? {
          HighSnoc(Succ(front, total, size).text, Reset(c));
        }
      }
    }
  }

  /** Letter by letter: the pivot counts up, the carrying places after it start over, a new first letter may appear. */
  ghost predicate StepsTo(s: Label, text: Label) {
    var k := Pivot(s);
    if k >= 0 then
      && |text| == |s|
      && (forall i :: 0 <= i < k ==> text[i] == s[i])
      && text[k] == (s[k] as int) + 1
      && (forall i :: k < i < |s| ==> text[i] == Reset(s[i]))
    else
      && s != [] && |text| == |s| + 1
      && text[0] == Lead(s[0])
      && (forall i :: 0 < i < |text| ==> text[i] == Reset(s[i - 1]))
  }

  lemma {:induction false} SuccSteps(s: Label, total: nat, size: nat)
    requires s != [] && |s| <= total && Succ(s, total, size).Inc?
    ensures StepsTo(s, Succ(s, total, size).text)
  {
    var front, c := s[..|s| - 1], s[|s| - 1];
    if Carries(c) && front != [] {
      SuccSteps(front, total, size);
    }
  }

  /** The buffer holds s as a C string. */
  ghost predicate Holds(buffer: array<Byte>, s: Label)
    reads buffer
  {
    |s| < buffer.Length && buffer[..|s|] == s && buffer[|s|] == NUL && IsCString(s)
  }

  method StrLen(buffer: array<Byte>, ghost s: Label) returns (n: nat)
    requires Holds(buffer, s)
    ensures n == |s|
  {
    assert forall i :: 0 <= i < |s| ==> buffer[i] == buffer[..|s|][i];
    n := 0;
    while buffer[n] != NUL
      invariant 0 <= n <= |s|
      decreases |s| - n
    {
      n := n + 1;
    }
  }

  /** The rightmost `done` letters have carried and start over; the rest is untouched. */
  ghost predicate Carried(buffer: array<Byte>, s: Label, c: int)
    requires -1 <= c < |s| && Pivot(s) <= c && |s| < buffer.Length
    reads buffer
  {
    && (forall k :: 0 <= k <= c ==> buffer[k] == s[k])
    && (forall k :: c < k < |s| ==> buffer[k] == Reset(s[k]))
    && buffer[|s|] == NUL
  }

  /** Counting up the pivot ends the carry. */
  method CountUp(buffer: array<Byte>, c: nat, ghost s: Label)
    requires IsCString(s) && |s| < buffer.Length && c == Pivot(s) && Carried(buffer, s, c)
    modifies buffer
    ensures !Successor(s, buffer.Length).NoRoom? && Holds(buffer, Successor(s, buffer.Length).text)
  {
    SuccGrows(s, |s|, buffer.Length);
    var value: int := buffer[c];
    buffer[c] := (value + 1) % 256;
    if value == 255 {
      assert buffer[..c] == s[..c];
    } else {
      SuccSteps(s, |s|, buffer.Length);
      assert buffer[..|s|] == Successor(s, buffer.Length).text;
    }
  }

  /** A carry out of the first letter makes the label one longer. */
  method Grow(buffer: array<Byte>, labelLen: nat, carryOver: Byte, ghost s: Label)
    requires IsCString(s) && labelLen == |s| && 0 < |s| && |s| + 1 < buffer.Length && Pivot(s) == -1
    requires Carried(buffer, s, -1) && carryOver == Lead(s[0])
    modifies buffer
    ensures !Successor(s, buffer.Length).NoRoom? && Holds(buffer, Successor(s, buffer.Length).text)
  {
    SuccGrows(s, |s|, buffer.Length);
    SuccSteps(s, |s|, buffer.Length);
    forall k | 0 <= k < labelLen + 1 {
      buffer[k + 1] := buffer[k];
    }
    buffer[0] := carryOver;
    assert buffer[..|s| + 1] == Successor(s, buffer.Length).text;
  }

  /** The successor in place. When the buffer is full the result says so. */
  method Strinc(buffer: array<Byte>, ghost s: Label) returns (ok: bool)
    requires Holds(buffer, s)
    modifies buffer
    ensures ok <==> !Successor(s, buffer.Length).NoRoom?
    ensures ok ==> Holds(buffer, Successor(s, buffer.Length).text)
  {
    var labelLen := StrLen(buffer, s);
    assert forall k :: 0 <= k < |s| ==> buffer[k] == buffer[..|s|][k];
    var c := labelLen - 1;
    while c >= 0
      invariant -1 <= c < labelLen && c >= Pivot(s)
      invariant c >= 0 ==> Carried(buffer, s, c)
      invariant c < 0 ==> !Successor(s, buffer.Length).NoRoom? && Holds(buffer, Successor(s, buffer.Length).text)
    {
      if !Carries(buffer[c]) {
        CountUp(buffer, c, s);
        break;
      }
      var carryOver := Lead(buffer[c]);
      buffer[c] := Reset(buffer[c]);
      if c == 0 {
        if labelLen + 1 >= buffer.Length {
          SuccGrows(s, |s|, buffer.Length);
          return false;
        }
        Grow(buffer, labelLen, carryOver, s);
      }
      c := c - 1;
    }
    return true;
  }

  // ---- numbering ----

  predicate IsLetters(s: Label, a: Byte) {
    (a == LOWER_A || a == UPPER_A) && forall i :: 0 <= i < |s| ==> a <= s[i] <= a + 25
  }

  predicate IsDigits(s: Label) {
    forall i :: 0 <= i < |s| ==> ZERO <= s[i] <= NINE
  }

  /** Bijective base 26: a, b, ..., z, aa, ab, ... are 1, 2, ..., 26, 27, 28, ... */
  function LetterValue(s: Label, a: Byte): (r: nat)
    requires IsLetters(s, a)
  {
    if s == [] then 0 else 26 * LetterValue(s[..|s| - 1], a) + (s[|s| - 1] - a + 1)
  }

  function DigitValue(s: Label): (r: nat)
    requires IsDigits(s)
  {
    if s == [] then 0 else 10 * DigitValue(s[..|s| - 1]) + (s[|s| - 1] - ZERO)
  }

  lemma LetterSnoc(s: Label, c: Byte, a: Byte)
    requires IsLetters(s, a) && a <= c <= a + 25
    ensures IsLetters(s + [c], a) && LetterValue(s + [c], a) == 26 * LetterValue(s, a) + (c - a + 1)
  {
    assert (s + [c])[..|s|] == s;
  }

  lemma DigitSnoc(s: Label, c: Byte)
    requires IsDigits(s) && ZERO <= c <= NINE
    ensures IsDigits(s + [c]) && DigitValue(s + [c]) == 10 * DigitValue(s) + (c - ZERO)
  {
    assert (s + [c])[..|s|] == s;
  }

  /** The successor of a label by its last letter. */
  lemma SuccOfLast(front: Label, c: Byte, total: nat, size: nat)
    requires |front| < total && Succ(front + [c], total, size).Inc?
    ensures !Carries(c) ==> c < 255 && Succ(front + [c], total, size).text == front + [c + 1]
    ensures Carries(c) && front == [] ==> Succ(front + [c], total, size).text == [Lead(c)] + [Reset(c)]
    ensures Carries(c) && front != [] ==> Succ(front, total, size).Inc?
    ensures Carries(c) && front != [] ==>
              Succ(front + [c], total, size).text == Succ(front, total, size).text + [Reset(c)]
  {
    assert (front + [c])[..|front|] == front;
  }

  /** The label after the last single letter. */
  lemma FirstPair(a: Byte)
    requires a == LOWER_A || a == UPPER_A
    ensures IsLetters([a] + [a], a) && LetterValue([a] + [a], a) == 27
  {
    LetterSnoc([], a, a);
    assert [] + [a] == [a];
    LetterSnoc([a], a, a);
  }

  /** Among letters only the last one carries, and it is replaced by the first one. */
  lemma LetterFront(front: Label, c: Byte, a: Byte)
    requires IsLetters(front + [c], a)
    ensures IsLetters(front, a) && a <= c <= a + 25 && (Carries(c) <==> c == a + 25)
    ensures Carries(c) ==> Reset(c) == a && Lead(c) == a
    ensures IsLetters([], a) && LetterValue([], a) == 0
  {
    assert (front + [c])[|front|] == c;
    assert forall i :: 0 <= i < |front| ==> (front + [c])[i] == front[i];
  }

  lemma {:induction false} LettersCountByOne(s: Label, a: Byte, total: nat, size: nat)
    requires s != [] && IsLetters(s, a) && |s| <= total && Succ(s, total, size).Inc?
    ensures var next := Succ(s, total, size).text;
            IsLetters(next, a) && LetterValue(next, a) == LetterValue(s, a) + 1
  {
    var front, c := s[..|s| - 1], s[|s| - 1];
    assert s == front + [c];
    LetterFront(front, c, a);
    assert a == LOWER_A || a == UPPER_A;
    hide *;
    LetterSnoc(front, c, a);
    SuccOfLast(front, c, total, size);
    if !Carries(c) {
      LetterSnoc(front, c + 1, a);
    } else if front != [] {
      LettersCountByOne(front, a, total, size);
      LetterSnoc(Succ(front, total, size).text, a, a);
    } else {
      FirstPair(a);
    }
  }

  lemma {:induction false} DigitsCountByOne(s: Label, total: nat, size: nat)
    requires s != [] && IsDigits(s) && |s| <= total && Succ(s, total, size).Inc?
    ensures var next := Succ(s, total, size).text;
            IsDigits(next) && DigitValue(next) == DigitValue(s) + 1
  {
    var front, c := s[..|s| - 1], s[|s| - 1];
    assert s == front + [c] && ZERO <= c <= NINE && IsDigits(front);
    assert DigitValue([]) == 0 && IsDigits([]);
    hide DigitValue, Succ, IsDigits;
    DigitSnoc(front, c);
    SuccOfLast(front, c, total, size);
    if !Carries(c) {
      DigitSnoc(front, c + 1);
    } else if front != [] {
      DigitsCountByOne(front, total, size);
      DigitSnoc(Succ(front, total, size).text, ZERO);
    } else {
      DigitSnoc([], ONE);
      assert [] + [ONE] == [ONE];
      DigitSnoc([ONE], ZERO);
    }
  }

  /** Different letter labels have different numbers. */
  lemma {:induction false} LetterValueInjective(s: Label, t: Label, a: Byte)
    requires IsLetters(s, a) && IsLetters(t, a) && LetterValue(s, a) == LetterValue(t, a)
    ensures s == t
  {
    if s != [] && t != [] {
      LetterValueInjective(s[..|s| - 1], t[..|t| - 1], a);
      assert s == s[..|s| - 1] + [s[|s| - 1]] && t == t[..|t| - 1] + [t[|t| - 1]];
    }
  }

  /** A label that only carries is the last one of its length. */
  lemma {:induction false} LastOfItsLength(s: Label, t: Label, a: Byte)
    requires IsLetters(s, a) && IsLetters(t, a) && |t| <= |s| && Pivot(s) == -1
    ensures LetterValue(t, a) <= LetterValue(s, a)
  {
    if t != [] {
      LastOfItsLength(s[..|s| - 1], t[..|t| - 1], a);
    }
  }

  // ---- enumeration of one axis ----

  ghost predicate Follows(s: Label, next: Label, size: nat) {
    Successor(s, size) == Inc(next) || Successor(s, size) == Cut(next)
  }

  /** The labels an axis steps through, up to but not beyond the last one. */
  ghost predicate IsRun(labels: seq<Label>, first: Label, last: Label) {
    && |labels| > 0 && labels[0] == first
    && (forall i :: 0 <= i < |labels| - 1 ==> labels[i] != last)
    && (forall i :: 0 < i < |labels| ==> Follows(labels[i - 1], labels[i], |last| + 1))
  }

  lemma StepOf(labels: seq<Label>, first: Label, last: Label, i: nat)
    requires IsRun(labels, first, last) && 0 < i < |labels|
    ensures Follows(labels[i - 1], labels[i], |last| + 1)
  {
  }

  /** Further on in every enumeration: fewer high bytes, or as many and later in shortlex order. */
  predicate Beyond(s: Label, t: Label) {
    HighBytes(t) < HighBytes(s) || (HighBytes(t) == HighBytes(s) && Rank(s) < Rank(t))
  }

  lemma StartableStep(s: Label, next: Label, size: nat)
    requires IsStartable(s) && |s| < size && Follows(s, next, size)
    ensures IsStartable(next) && |next| < size && Beyond(s, next)
    ensures Successor(s, size).Inc? ==> |s| <= |next|
  {
    SuccGrows(s, |s|, size);
    SuccKeepsHighBytes(s, |s|, size);
    if Successor(s, size).Inc? {
      SuccSteps(s, |s|, size);
    }
  }

  /** From any other label the buffer never gets full: its successors are empty or start with a high byte again. */
  lemma UnstartableStep(s: Label, size: nat)
    requires IsCString(s) && !IsStartable(s) && |s| < size
    ensures !Successor(s, size).NoRoom?
    ensures IsCString(Successor(s, size).text) && !IsStartable(Successor(s, size).text)
    ensures |Successor(s, size).text| <= |s|
  {
    if s != [] {
      assert !Carries(s[0]);
      SuccGrows(s, |s|, size);
      if Successor(s, size).Inc? {
        SuccSteps(s, |s|, size);
      }
    }
  }

  lemma LetterStep(s: Label, next: Label, a: Byte, size: nat)
    requires IsLetters(s, a) && s != [] && Follows(s, next, size)
    ensures IsLetters(next, a) && LetterValue(next, a) == LetterValue(s, a) + 1
  {
    SuccGrows(s, |s|, size);
    LettersCountByOne(s, a, |s|, size);
  }

  lemma DigitStep(s: Label, next: Label, size: nat)
    requires IsDigits(s) && s != [] && Follows(s, next, size)
    ensures IsDigits(next) && DigitValue(next) == DigitValue(s) + 1
    ensures |next| >= |s| && (|next| > |s| || s[0] != ZERO ==> next[0] != ZERO)
  {
    SuccGrows(s, |s|, size);
    DigitsCountByOne(s, |s|, size);
    SuccSteps(s, |s|, size);
  }

  lemma BeyondTransitive(r: Label, s: Label, t: Label)
    requires Beyond(r, s) && Beyond(s, t)
    ensures Beyond(r, t)
  {
  }

  /** Every label of an axis is startable, fits the buffer, and lies beyond all earlier ones. */
  lemma {:induction false} RunAdvances(labels: seq<Label>, first: Label, last: Label, i: nat, j: nat)
    requires IsRun(labels, first, last) && IsStartable(first) && |first| <= |last| && i <= j < |labels|
    ensures IsStartable(labels[j]) && |labels[j]| <= |last|
    ensures i < j ==> Beyond(labels[i], labels[j])
    decreases j
  {
    if j > 0 {
      hide Follows, Beyond, IsStartable;
      RunAdvances(labels, first, last, if i < j then i else j - 1, j - 1);
      StepOf(labels, first, last, j);
      StartableStep(labels[j - 1], labels[j], |last| + 1);
      if i < j - 1 {
        BeyondTransitive(labels[i], labels[j - 1], labels[j]);
      }
    }
  }

  /** No label of an axis appears twice. */
  lemma RunIsDistinct(labels: seq<Label>, first: Label, last: Label, i: nat, j: nat)
    requires IsRun(labels, first, last) && IsStartable(first) && |first| <= |last| && i < j < |labels|
    ensures labels[i] != labels[j]
  {
    RunAdvances(labels, first, last, i, j);
  }

  /** Without high bytes the labels of an axis come in shortlex order and never get shorter. */
  lemma {:induction false} RunIsIncreasing(labels: seq<Label>, first: Label, last: Label, i: nat, j: nat)
    requires IsRun(labels, first, last) && IsStartable(first) && |first| <= |last| && i < j < |labels|
    requires HighBytes(first) == 0
    ensures Rank(labels[i]) < Rank(labels[j])
    ensures |first| <= |labels[j]| && HighBytes(labels[j]) == 0
    decreases j
  {
    RunAdvances(labels, first, last, i, j);
    RunAdvances(labels, first, last, 0, j);
    if i > 0 {
      RunAdvances(labels, first, last, 0, i);
    }
    if j > 1 {
      RunIsIncreasing(labels, first, last, 0, j - 1);
    }
    StepOf(labels, first, last, j);
    RunAdvances(labels, first, last, j - 1, j - 1);
    StartableStep(labels[j - 1], labels[j], |last| + 1);
    SuccKeepsHighBytes(labels[j - 1], |labels[j - 1]|, |last| + 1);
  }

  lemma {:induction false} LetterRun(labels: seq<Label>, first: Label, last: Label, a: Byte, i: nat)
    requires IsRun(labels, first, last) && IsLetters(first, a) && first != [] && |first| <= |last| && i < |labels|
    ensures IsLetters(labels[i], a) && labels[i] != [] && |labels[i]| <= |last|
    ensures LetterValue(labels[i], a) == LetterValue(first, a) + i
  {
    RunAdvances(labels, first, last, i, i);
    if i > 0 {
      hide Follows, LetterValue;
      LetterRun(labels, first, last, a, i - 1);
      StepOf(labels, first, last, i);
      LetterStep(labels[i - 1], labels[i], a, |last| + 1);
    }
  }

  lemma {:induction false} DigitRun(labels: seq<Label>, first: Label, last: Label, i: nat)
    requires IsRun(labels, first, last) && IsDigits(first) && first != [] && |first| <= |last| && i < |labels|
    ensures IsDigits(labels[i]) && labels[i] != [] && |labels[i]| <= |last|
    ensures DigitValue(labels[i]) == DigitValue(first) + i
  {
    RunAdvances(labels, first, last, i, i);
    if i > 0 {
      hide Follows, DigitValue;
      DigitRun(labels, first, last, i - 1);
      StepOf(labels, first, last, i);
      DigitStep(labels[i - 1], labels[i], |last| + 1);
    }
  }

  /** How an axis ends: at its last label, or with a full buffer. */
  ghost predicate EndsWell(labels: seq<Label>, last: Label)
    requires |labels| > 0
  {
    labels[|labels| - 1] == last
  }

  ghost predicate EndsFull(labels: seq<Label>, last: Label)
    requires |labels| > 0
  {
    labels[|labels| - 1] != last && Successor(labels[|labels| - 1], |last| + 1).NoRoom?
  }

  /** A full buffer means the count has passed every letter label that fits. */
  lemma FullIsPastLast(label0: Label, last: Label, a: Byte)
    requires label0 != [] && IsLetters(label0, a) && IsLetters(last, a) && |label0| <= |last|
    requires Successor(label0, |last| + 1).NoRoom?
    ensures LetterValue(last, a) <= LetterValue(label0, a)
  {
    SuccessorIsLater(label0, |last| + 1);
    LastOfItsLength(label0, last, a);
  }

  lemma RunMeetsLast(labels: seq<Label>, first: Label, last: Label, a: Byte, i: nat)
    requires IsRun(labels, first, last) && i < |labels|
    requires IsLetters(first, a) && IsLetters(last, a) && first != [] && |first| <= |last|
    requires LetterValue(last, a) == LetterValue(first, a) + i
    ensures EndsWell(labels, last)
  {
    LetterRun(labels, first, last, a, i);
    LetterValueInjective(labels[i], last, a);
  }

  /** With letters of one case an axis reaches its last label exactly when that is not before the first one. */
  lemma LetterAxisEndsWell(labels: seq<Label>, first: Label, last: Label, a: Byte)
    requires IsRun(labels, first, last) && (EndsWell(labels, last) || EndsFull(labels, last))
    requires IsLetters(first, a) && IsLetters(last, a) && first != [] && |first| <= |last|
    ensures EndsWell(labels, last) <==> LetterValue(first, a) <= LetterValue(last, a)
    ensures EndsWell(labels, last) ==> |labels| == LetterValue(last, a) - LetterValue(first, a) + 1
  {
    hide LetterValue, Succ;
    var end := |labels| - 1;
    LetterRun(labels, first, last, a, end);
    if EndsFull(labels, last) && LetterValue(first, a) <= LetterValue(last, a) {
      FullIsPastLast(labels[end], last, a);
      RunMeetsLast(labels, first, last, a, LetterValue(last, a) - LetterValue(first, a));
    }
  }

  lemma {:induction false} DigitBounds(s: Label)
    requires IsDigits(s)
    ensures DigitValue(s) < Pow(10, |s|)
    ensures s != [] && s[0] != ZERO ==> DigitValue(s) >= Pow(10, |s| - 1)
  {
    if |s| > 1 {
      DigitBounds(s[..|s| - 1]);
    } else if |s| == 1 {
      assert s[..0] == [] && DigitValue([]) == 0;
      assert Pow(10, 0) == 1 && Pow(10, 1) == 10;
    }
  }

  lemma {:induction false} DigitValueInjective(s: Label, t: Label)
    requires IsDigits(s) && IsDigits(t) && |s| == |t| && DigitValue(s) == DigitValue(t)
    ensures s == t
  {
    if s != [] {
      DigitValueInjective(s[..|s| - 1], t[..|t| - 1]);
      assert s == s[..|s| - 1] + [s[|s| - 1]] && t == t[..|t| - 1] + [t[|t| - 1]];
    }
  }

  lemma {:induction false} LastDigitsOfItsLength(s: Label, t: Label)
    requires IsDigits(s) && IsDigits(t) && |t| <= |s| && Pivot(s) == -1
    ensures DigitValue(t) <= DigitValue(s)
  {
    if t != [] {
      LastDigitsOfItsLength(s[..|s| - 1], t[..|t| - 1]);
    }
  }

  lemma SameNumber(s: Label, t: Label)
    requires IsDigits(s) && IsDigits(t) && |s| <= |t| && DigitValue(s) == DigitValue(t)
    requires |s| < |t| ==> t[0] != ZERO
    ensures s == t
  {
    hide DigitValue, Pow;
    if |s| < |t| {
      DigitBounds(s);
      DigitBounds(t);
      PowGrows(10, |s|, |t| - 1);
    } else {
      DigitValueInjective(s, t);
    }
  }

  /** Counting never shortens a label, and one that has grown does not start with a zero. */
  lemma {:induction false} DigitRunShape(labels: seq<Label>, first: Label, last: Label, i: nat)
    requires IsRun(labels, first, last) && IsDigits(first) && first != [] && |first| <= |last| && i < |labels|
    ensures |labels[i]| >= |first|
    ensures |labels[i]| > |first| ==> labels[i][0] != ZERO
  {
    if i > 0 {
      hide Follows, DigitValue;
      DigitRunShape(labels, first, last, i - 1);
      DigitRun(labels, first, last, i - 1);
      StepOf(labels, first, last, i);
      DigitStep(labels[i - 1], labels[i], |last| + 1);
    }
  }

  /** What a digit axis needs to meet its last label: to grow only into labels without a leading zero. */
  predicate Meetable(first: Label, last: Label)
    requires last != []
  {
    |first| == |last| || last[0] != ZERO
  }

  lemma DigitRunMeetsLast(labels: seq<Label>, first: Label, last: Label, i: nat)
    requires IsRun(labels, first, last) && i < |labels|
    requires IsDigits(first) && IsDigits(last) && first != [] && |first| <= |last| && Meetable(first, last)
    requires DigitValue(last) == DigitValue(first) + i
    ensures EndsWell(labels, last)
  {
    hide DigitValue, Succ, Successor;
    DigitRun(labels, first, last, i);
    DigitRunShape(labels, first, last, i);
    SameNumber(labels[i], last);
  }

  /**
   * With digits an axis reaches its last label exactly when that is not before the first one and, if it is
   * longer, does not start with a zero: "8" to "11" ends, "8" to "011" fills the buffer.
   */
  lemma DigitAxisEndsWell(labels: seq<Label>, first: Label, last: Label)
    requires IsRun(labels, first, last) && (EndsWell(labels, last) || EndsFull(labels, last))
    requires IsDigits(first) && IsDigits(last) && first != [] && |first| <= |last|
    ensures EndsWell(labels, last) <==> DigitValue(first) <= DigitValue(last) && Meetable(first, last)
    ensures EndsWell(labels, last) ==> |labels| == DigitValue(last) - DigitValue(first) + 1
  {
    hide DigitValue, Succ;
    var end := |labels| - 1;
    DigitRun(labels, first, last, end);
    DigitRunShape(labels, first, last, end);
    if EndsFull(labels, last) && DigitValue(first) <= DigitValue(last) && Meetable(first, last) {
      SuccessorIsLater(labels[end], |last| + 1);
      LastDigitsOfItsLength(labels[end], last);
      DigitRunMeetsLast(labels, first, last, DigitValue(last) - DigitValue(first));
    }
  }

  lemma RankBelow(s: Label, e: nat)
    requires |s| <= e
    ensures Rank(s) < Pow(256, e)
  {
    RankBound(s);
    PowGrows(256, |s|, e);
  }

  lemma RunExtends(labels: seq<Label>, first: Label, last: Label, next: Label)
    requires IsRun(labels, first, last) && labels[|labels| - 1] != last
    requires Follows(labels[|labels| - 1], next, |last| + 1)
    ensures IsRun(labels + [next], first, last)
  {
    hide Follows;
    var longer := labels + [next];
    assert forall i :: 0 <= i < |labels| ==> longer[i] == labels[i];
  }

  // ---- which enumerations end ----

  /** The loop comes to an end: some run of labels finishes it. */
  ghost predicate Ends(first: Label, last: Label) {
    exists labels :: IsRun(labels, first, last) && HasEnded(labels, last)
  }

  ghost predicate HasEnded(labels: seq<Label>, last: Label) {
    |labels| > 0 && (EndsWell(labels, last) || EndsFull(labels, last))
  }

  /** From a startable label every run can be finished, since each step lies beyond the one before. */
  lemma RunFinishes(labels: seq<Label>, first: Label, last: Label)
    requires IsRun(labels, first, last) && IsStartable(first) && |first| <= |last|
    ensures Ends(first, last)
    decreases HighBytes(labels[|labels| - 1]), Pow(256, |last| + 1) - Rank(labels[|labels| - 1])
  {
    hide Follows, Successor, IsStartable, HighBytes, Rank, Pow;
    var current := labels[|labels| - 1];
    RunAdvances(labels, first, last, |labels| - 1, |labels| - 1);
    if current != last && !Successor(current, |last| + 1).NoRoom? {
      var next := Successor(current, |last| + 1).text;
      IsFollowed(current, |last| + 1);
      StartableStep(current, next, |last| + 1);
      RankBelow(next, |last| + 1);
      RunExtends(labels, first, last, next);
      RunFinishes(labels + [next], first, last);
    } else {
      assert HasEnded(labels, last);
    }
  }

  lemma IsFollowed(s: Label, size: nat)
    requires !Successor(s, size).NoRoom?
    ensures Follows(s, Successor(s, size).text, size)
  {
  }

  lemma OneLabelRun(first: Label, last: Label)
    ensures IsRun([first], first, last)
  {
  }

  /** Every label of a run from an unstartable first label is unstartable and no longer than the first. */
  lemma {:induction false} UnstartableRun(labels: seq<Label>, first: Label, last: Label, i: nat)
    requires IsRun(labels, first, last) && i < |labels|
    requires IsCString(first) && !IsStartable(first) && |first| <= |last|
    ensures IsCString(labels[i]) && !IsStartable(labels[i]) && |labels[i]| <= |first|
  {
    if i > 0 {
      hide IsStartable, IsCString;
      UnstartableRun(labels, first, last, i - 1);
      StepOf(labels, first, last, i);
      UnstartableStep(labels[i - 1], |last| + 1);
    }
  }

  /** A run that has been cut to the empty label stays there. */
  lemma {:induction false} EmptyStaysEmpty(labels: seq<Label>, first: Label, last: Label, i: nat, j: nat)
    requires IsRun(labels, first, last) && i <= j < |labels| && labels[i] == []
    ensures labels[j] == []
  {
    if i < j {
      EmptyStaysEmpty(labels, first, last, i, j - 1);
      StepOf(labels, first, last, j);
      EmptyLabelIsStuck(|last| + 1);
    }
  }

  /** So the buffer never gets full, and the loop ends exactly if it is counted up to the last label. */
  lemma UnstartableEndsIff(first: Label, last: Label)
    requires IsCString(first) && !IsStartable(first) && |first| <= |last|
    ensures Ends(first, last) <==> exists labels :: IsRun(labels, first, last) && EndsWell(labels, last)
  {
    hide IsStartable, IsCString, Successor;
    if labels :| IsRun(labels, first, last) && HasEnded(labels, last) {
      UnstartableRun(labels, first, last, |labels| - 1);
      UnstartableStep(labels[|labels| - 1], |last| + 1);
    }
    if labels :| IsRun(labels, first, last) && EndsWell(labels, last) {
      assert HasEnded(labels, last);
    }
  }

  /** Towards a startable last label it goes on for ever. */
  lemma {:induction false} RunOfLength(first: Label, last: Label, n: nat) returns (labels: seq<Label>)
    requires IsCString(first) && !IsStartable(first) && IsStartable(last) && |first| <= |last| && n > 0
    ensures |labels| == n && IsRun(labels, first, last)
  {
    if n == 1 {
      labels := [first];
    } else {
      hide Successor, IsCString, Follows;
      var shorter := RunOfLength(first, last, n - 1);
      var current := shorter[n - 2];
      UnstartableRun(shorter, first, last, n - 2);
      UnstartableStep(current, |last| + 1);
      IsFollowed(current, |last| + 1);
      RunExtends(shorter, first, last, Successor(current, |last| + 1).text);
      labels := shorter + [Successor(current, |last| + 1).text];
    }
  }

  ghost predicate HasRunOfLength(first: Label, last: Label, n: nat) {
    exists labels: seq<Label> :: |labels| == n && IsRun(labels, first, last)
  }

  /**
   * Towards a last label that starts with a byte up to 'z' the loop ends exactly if the first label does so too; else
   * it has runs of every length.
   */
  lemma EndsIffStartable(first: Label, last: Label)
    requires IsCString(first) && IsStartable(last) && |first| <= |last|
    ensures Ends(first, last) <==> IsStartable(first)
    ensures !IsStartable(first) ==> forall n: nat :: n > 0 ==> HasRunOfLength(first, last, n)
  {
    hide Follows, IsCString, Successor;
    if IsStartable(first) {
      OneLabelRun(first, last);
      RunFinishes([first], first, last);
    } else {
      UnstartableEndsIff(first, last);
      if labels :| IsRun(labels, first, last) && EndsWell(labels, last) {
        NeverMeets(labels, first, last);
      }
      forall n: nat | n > 0
        ensures HasRunOfLength(first, last, n)
      {
        var labels := RunOfLength(first, last, n);
      }
    }
  }

  lemma NeverMeets(labels: seq<Label>, first: Label, last: Label)
    requires IsRun(labels, first, last) && |first| <= |last|
    requires IsCString(first) && !IsStartable(first) && IsStartable(last)
    ensures !EndsWell(labels, last)
  {
    UnstartableRun(labels, first, last, |labels| - 1);
  }

  /** The labels from one byte above 'z' on: up to byte 255, and then the empty label. */
  function BytesFrom(c: Byte): (labels: seq<Label>)
    ensures |labels| == 257 - c && forall i :: 0 <= i < 256 - c ==> labels[i] == [c + i]
    ensures labels[256 - c] == []
  {
    var bytes: seq<Label> := seq(256 - c, i requires 0 <= i < 256 - c => [c + i]);
    bytes + [[]]
  }

  lemma HighByteUp(c: Byte, size: nat)
    requires IsHigh(c)
    ensures c < 255 ==> Follows([c], [c + 1], size)
    ensures c == 255 ==> Follows([c], [], size)
  {
    assert [c][..0] == [];
    if c < 255 {
      assert [] + [c + 1] == [c + 1];
    }
  }

  /** An axis from "{" to "aa": counted up to byte 255, cut to the empty label, and never at an end. */
  lemma BraceNeverEnds()
    ensures var brace: Label, last: Label := [LOWER_Z + 1], [LOWER_A, LOWER_A];
            && IsRun(BytesFrom(LOWER_Z + 1), brace, last) && BytesFrom(LOWER_Z + 1)[256 - (LOWER_Z + 1)] == []
            && !Ends(brace, last)
  {
    var brace: Label, last: Label := [LOWER_Z + 1], [LOWER_A, LOWER_A];
    var labels := BytesFrom(LOWER_Z + 1);
    forall i | 0 < i < |labels|
      ensures Follows(labels[i - 1], labels[i], |last| + 1)
    {
      HighByteUp(LOWER_Z + i, |last| + 1);
    }
    EndsIffStartable(brace, last);
  }

  // ---- runs that end ----

  lemma SameFollower(s: Label, a: Label, b: Label, size: nat)
    requires Follows(s, a, size) && Follows(s, b, size)
    ensures a == b && !Successor(s, size).NoRoom?
  {
  }

  /** Two places of a run with the same label are followed by the same labels. */
  lemma {:induction false} RunRepeats(labels: seq<Label>, first: Label, last: Label, i: nat, j: nat, k: nat)
    requires IsRun(labels, first, last) && i < j && j + k < |labels| && labels[i] == labels[j]
    ensures labels[i + k] == labels[j + k]
  {
    if k > 0 {
      hide Follows;
      RunRepeats(labels, first, last, i, j, k - 1);
      StepOf(labels, first, last, i + k);
      StepOf(labels, first, last, j + k);
      SameFollower(labels[i + k - 1], labels[i + k], labels[j + k], |last| + 1);
    }
  }

  /** No label appears twice in an enumeration that ends, whatever its first label. */
  lemma EndedRunIsDistinct(labels: seq<Label>, first: Label, last: Label, i: nat, j: nat)
    requires IsRun(labels, first, last) && HasEnded(labels, last) && i < j < |labels|
    ensures labels[i] != labels[j]
  {
    hide Follows;
    if labels[i] == labels[j] {
      var k := |labels| - 1 - j;
      RunRepeats(labels, first, last, i, j, k);
      StepOf(labels, first, last, i + k + 1);
      SameFollower(labels[i + k], labels[i + k + 1], labels[i + k + 1], |last| + 1);
    }
  }

  /** A run is determined by its first label: the shorter of two is the beginning of the longer. */
  lemma RunContinues(labels: seq<Label>, whole: seq<Label>, first: Label, last: Label, next: Label)
    requires IsRun(labels, first, last) && IsRun(whole, first, last) && |labels| < |whole|
    requires labels == whole[..|labels|] && Follows(labels[|labels| - 1], next, |last| + 1)
    ensures next == whole[|labels|]
  {
    hide Follows;
    StepOf(whole, first, last, |labels|);
    SameFollower(labels[|labels| - 1], next, whole[|labels|], |last| + 1);
  }

  /** Counts the buffer up and reads the label it then holds. */
  method NextLabel(buffer: array<Byte>, current: Label) returns (more: bool, next: Label)
    requires Holds(buffer, current)
    modifies buffer
    ensures more <==> !Successor(current, buffer.Length).NoRoom?
    ensures more ==> Follows(current, next, buffer.Length) && Holds(buffer, next)
  {
    more := Strinc(buffer, current);
    next := [];
    if more {
      var n := StrLen(buffer, Successor(current, buffer.Length).text);
      next := buffer[..n];
    }
  }

  /** One axis, through the buffer that has room for the last label and its terminator, whenever the loop ends. */
  method EnumerateAxis(first: Label, last: Label) returns (ok: bool, labels: seq<Label>)
    requires IsCString(first) && IsCString(last)
    requires |first| <= |last| ==> Ends(first, last)
    ensures |first| > |last| ==> !ok && labels == []
    ensures |first| <= |last| ==> IsRun(labels, first, last)
    ensures |first| <= |last| ==> if ok then EndsWell(labels, last) else EndsFull(labels, last)
  {
    if |first| > |last| {
      return false, [];
    }
    ghost var whole :| IsRun(whole, first, last) && HasEnded(whole, last);
    var buffer := new Byte[|last| + 1](i => if 0 <= i < |first| then first[i] else NUL);
    assert buffer[..|first|] == first;
    hide Succ, Successor, Follows;
    var current := first;
    labels := [first];
    while current != last
      invariant IsRun(labels, first, last) && labels[|labels| - 1] == current && Holds(buffer, current)
      invariant |labels| <= |whole| && labels == whole[..|labels|]
      decreases |whole| - |labels|
    {
      var more, next := NextLabel(buffer, current);
      if !more {
        return false, labels;
      }
      assert |labels| < |whole|;
      RunContinues(labels, whole, first, last, next);
      RunExtends(labels, first, last, next);
      labels := labels + [next];
      current := next;
    }
    return true, labels;
  }

  // ---- box labels ----

  /** The name of the box in column x and row y; an underscore stands for an axis without labels. */
  function BoxLabel(rowFirst: bool, x: Label, y: Label): Label {
    if x == [UNDERSCORE] then y
    else if y == [UNDERSCORE] then x
    else if rowFirst then y + x
    else x + y
  }

  /** A box is named by both labels, the row's first if so marked; by the other one alone where an axis has none. */
  lemma BoxLabelIs(rowFirst: bool, x: Label, y: Label)
    ensures x == [95] ==> BoxLabel(rowFirst, x, y) == y
    ensures y == [95] ==> BoxLabel(rowFirst, x, y) == x
    ensures x != [95] && y != [95] ==>
              && |BoxLabel(rowFirst, x, y)| == |x| + |y|
              && (if rowFirst then y <= BoxLabel(rowFirst, x, y) && BoxLabel(rowFirst, x, y)[|y|..] == x
                  else x <= BoxLabel(rowFirst, x, y) && BoxLabel(rowFirst, x, y)[|x|..] == y)
  {
  }

  /** So on a chart without labels on one axis, every box has the label of the other one for its name. */
  lemma OneLabelledAxis(rowFirst: bool, xs: seq<Label>, ys: seq<Label>, firstY: Label, lastY: Label, i: nat, j: nat)
    requires i < |xs| && IsRun(ys, firstY, lastY) && firstY == lastY == [UNDERSCORE] && j < |ys|
    ensures j == 0 && BoxLabel(rowFirst, xs[i], ys[j]) == xs[i] && BoxLabel(rowFirst, ys[j], xs[i]) == xs[i]
  {
    OnlyUnderscore(ys, firstY, lastY);
  }

  /** Two pairs of parts make one text exactly when one first part continues the other by what its second part lacks. */
  lemma SameTextIff(u1: Label, v1: Label, u2: Label, v2: Label)
    requires |u1| <= |u2|
    ensures u1 + v1 == u2 + v2 <==> exists t: Label :: u2 == u1 + t && v1 == t + v2
  {
    if u1 + v1 == u2 + v2 {
      var whole, t := u1 + v1, u2[|u1|..];
      assert u1 == whole[..|u1|] && v1 == whole[|u1|..];
      assert u2 == whole[..|u2|] && v2 == whole[|u2|..];
      assert u2 == u1 + t && v1 == t + v2;
    }
    if t: Label :| u2 == u1 + t && v1 == t + v2 {
      assert u1 + (t + v2) == (u1 + t) + v2;
    }
  }

  /** The part of a box name that comes first, and the part that follows it. */
  function FirstPart(rowFirst: bool, x: Label, y: Label): Label { if rowFirst then y else x }

  function SecondPart(rowFirst: bool, x: Label, y: Label): Label { if rowFirst then x else y }

  predicate IsNamed(x: Label) { x != [UNDERSCORE] }

  /** When two boxes of labelled axes share a name: exactly when a part of it can belong to either axis. */
  lemma SameNameIff(rowFirst: bool, x1: Label, y1: Label, x2: Label, y2: Label)
    requires IsNamed(x1) && IsNamed(y1) && IsNamed(x2) && IsNamed(y2)
    requires |FirstPart(rowFirst, x1, y1)| <= |FirstPart(rowFirst, x2, y2)|
    ensures BoxLabel(rowFirst, x1, y1) == BoxLabel(rowFirst, x2, y2) <==>
            exists t: Label :: FirstPart(rowFirst, x2, y2) == FirstPart(rowFirst, x1, y1) + t
                               && SecondPart(rowFirst, x1, y1) == t + SecondPart(rowFirst, x2, y2)
  {
    SameTextIff(FirstPart(rowFirst, x1, y1), SecondPart(rowFirst, x1, y1),
                FirstPart(rowFirst, x2, y2), SecondPart(rowFirst, x2, y2));
  }

  /** Labels of one length on either axis keep the names of boxes apart. */
  lemma EqualLengthsKeepApart(rowFirst: bool, x1: Label, y1: Label, x2: Label, y2: Label)
    requires IsNamed(x1) <==> IsNamed(x2)
    requires IsNamed(y1) <==> IsNamed(y2)
    requires |x1| == |x2| || |y1| == |y2|
    requires BoxLabel(rowFirst, x1, y1) == BoxLabel(rowFirst, x2, y2)
    ensures x1 == x2 && y1 == y2
  {
    if IsNamed(x1) && IsNamed(y1) {
      var u1, v1 := FirstPart(rowFirst, x1, y1), SecondPart(rowFirst, x1, y1);
      var u2, v2 := FirstPart(rowFirst, x2, y2), SecondPart(rowFirst, x2, y2);
      var whole := u1 + v1;
      assert whole == u2 + v2 && |u1| == |u2|;
      assert u1 == whole[..|u1|] && u2 == whole[..|u1|] && v1 == whole[|u1|..] && v2 == whole[|u1|..];
    }
  }

  /** An axis without labels has the underscore for its only one; an axis with labels never has it. */
  predicate AllOrNoneNamed(labels: seq<Label>, first: Label, last: Label) {
    (first == last == [UNDERSCORE]) || forall i :: 0 <= i < |labels| ==> IsNamed(labels[i])
  }

  predicate HaveOneLength(labels: seq<Label>) {
    forall i, j :: 0 <= i < |labels| && 0 <= j < |labels| ==> |labels[i]| == |labels[j]|
  }

  /** Without bytes above 'z' an axis has labels of one length if its first and its last label have. */
  lemma EqualEndsGiveOneLength(labels: seq<Label>, first: Label, last: Label)
    requires IsRun(labels, first, last) && IsStartable(first) && HighBytes(first) == 0 && |first| == |last|
    ensures HaveOneLength(labels)
  {
    forall i | 0 <= i < |labels|
      ensures |labels[i]| == |last|
    {
      RunAdvances(labels, first, last, i, i);
      if i > 0 {
        RunIsIncreasing(labels, first, last, 0, i);
      }
    }
  }

  /** With such a byte it may not: the label "a" and byte 255 is followed by "a". */
  lemma HighByteShortens(labels: seq<Label>, last: Label)
    requires IsRun(labels, [LOWER_A, 255], last) && |labels| > 1
    ensures labels[1] == [LOWER_A] && !HaveOneLength(labels)
  {
    StepOf(labels, [LOWER_A, 255], last, 1);
    assert [LOWER_A, 255][..1] == [LOWER_A];
    assert |labels[0]| != |labels[1]|;
  }

  /** A chart: two axes that were enumerated to their last label, each with labels or with the underscore for none. */
  ghost predicate IsChart(xs: seq<Label>, firstX: Label, lastX: Label, ys: seq<Label>, firstY: Label, lastY: Label) {
    && IsRun(xs, firstX, lastX) && EndsWell(xs, lastX) && AllOrNoneNamed(xs, firstX, lastX)
    && IsRun(ys, firstY, lastY) && EndsWell(ys, lastY) && AllOrNoneNamed(ys, firstY, lastY)
  }

  /** If the labels of either axis have one length, no two boxes of a chart share a name. */
  lemma ChartNamesAreDistinct(rowFirst: bool, xs: seq<Label>, firstX: Label, lastX: Label,
                              ys: seq<Label>, firstY: Label, lastY: Label, i: nat, j: nat, k: nat, l: nat)
    requires IsChart(xs, firstX, lastX, ys, firstY, lastY) && i < |xs| && k < |xs| && j < |ys| && l < |ys|
    requires HaveOneLength(xs) || HaveOneLength(ys)
    requires BoxLabel(rowFirst, xs[i], ys[j]) == BoxLabel(rowFirst, xs[k], ys[l])
    ensures i == k && j == l
  {
    hide Follows, BoxLabel;
    OnlyUnderscore(xs, firstX, lastX);
    OnlyUnderscore(ys, firstY, lastY);
    EqualLengthsKeepApart(rowFirst, xs[i], ys[j], xs[k], ys[l]);
    SameLabelSamePlace(xs, firstX, lastX, i, k);
    SameLabelSamePlace(ys, firstY, lastY, j, l);
  }

  predicate AreDistinct(labels: seq<Label>) {
    forall i, j :: 0 <= i < |labels| && 0 <= j < |labels| && labels[i] == labels[j] ==> i == j
  }

  /** Texts joined from two lists of parts are all different. */
  predicate TextsDiffer(us: seq<Label>, vs: seq<Label>) {
    forall i, j, k, l |
        0 <= i < |us| && 0 <= j < |vs| && 0 <= k < |us| && 0 <= l < |vs| && us[i] + vs[j] == us[k] + vs[l] ::
      i == k && j == l
  }

  /** Some first part continues another one, properly, by what a second part lacks of another one. */
  ghost predicate PartsOverlap(us: seq<Label>, vs: seq<Label>) {
    exists i, j, k, l ::
      0 <= i < |us| && 0 <= j < |vs| && 0 <= k < |us| && 0 <= l < |vs| && Overlap(us[i], vs[j], us[k], vs[l])
  }

  predicate Overlap(u1: Label, v1: Label, u2: Label, v2: Label) {
    |u1| < |u2| && |v2| <= |v1| && u1 == u2[..|u1|] && v2 == v1[|v1| - |v2|..] && u2[|u1|..] == v1[..|v1| - |v2|]
  }

  lemma OverlapIff(u1: Label, v1: Label, u2: Label, v2: Label)
    ensures Overlap(u1, v1, u2, v2) <==> exists t: Label :: t != [] && u2 == u1 + t && v1 == t + v2
    ensures Overlap(u1, v1, u2, v2) <==> |u1| < |u2| && u1 + v1 == u2 + v2
  {
    if Overlap(u1, v1, u2, v2) {
      var t := u2[|u1|..];
      assert t != [] && u2 == u1 + t && v1 == t + v2;
    }
    if t: Label :| t != [] && u2 == u1 + t && v1 == t + v2 {
      assert u1 == u2[..|u1|] && v2 == v1[|v1| - |v2|..] && u2[|u1|..] == t == v1[..|v1| - |v2|];
    }
    if |u1| <= |u2| {
      SameTextIff(u1, v1, u2, v2);
    }
  }

  lemma TextsDifferIff(us: seq<Label>, vs: seq<Label>)
    requires AreDistinct(us) && AreDistinct(vs)
    ensures TextsDiffer(us, vs) <==> !PartsOverlap(us, vs)
  {
    if i, j, k, l :| 0 <= i < |us| && 0 <= j < |vs| && 0 <= k < |us| && 0 <= l < |vs|
                     && Overlap(us[i], vs[j], us[k], vs[l]) {
      OverlapIff(us[i], vs[j], us[k], vs[l]);
      assert us[i] + vs[j] == us[k] + vs[l] && us[i] != us[k];
    } else {
      forall i, j, k, l | 0 <= i < |us| && 0 <= j < |vs| && 0 <= k < |us| && 0 <= l < |vs|
                          && us[i] + vs[j] == us[k] + vs[l]
        ensures i == k && j == l
      {
        OverlapIff(us[i], vs[j], us[k], vs[l]);
        OverlapIff(us[k], vs[l], us[i], vs[j]);
        SameLengthParts(us[i], vs[j], us[k], vs[l]);
      }
    }
  }

  lemma SameLengthParts(u1: Label, v1: Label, u2: Label, v2: Label)
    requires u1 + v1 == u2 + v2
    ensures |u1| == |u2| ==> u1 == u2 && v1 == v2
  {
    if |u1| == |u2| {
      var whole := u1 + v1;
      assert u1 == whole[..|u1|] && u2 == whole[..|u1|] && v1 == whole[|u1|..] && v2 == whole[|u1|..];
    }
  }

  /** The names of the boxes of a chart are all different. */
  predicate NamesDiffer(rowFirst: bool, xs: seq<Label>, ys: seq<Label>) {
    forall i, j, k, l |
        0 <= i < |xs| && 0 <= j < |ys| && 0 <= k < |xs| && 0 <= l < |ys|
        && BoxLabel(rowFirst, xs[i], ys[j]) == BoxLabel(rowFirst, xs[k], ys[l]) ::
      i == k && j == l
  }

  predicate AllNamed(labels: seq<Label>) {
    forall i :: 0 <= i < |labels| ==> IsNamed(labels[i])
  }

  lemma RowNames(xs: seq<Label>, ys: seq<Label>)
    requires AllNamed(xs) && AllNamed(ys)
    ensures NamesDiffer(true, xs, ys) <==> TextsDiffer(ys, xs)
  {
    assert forall i, j :: 0 <= i < |xs| && 0 <= j < |ys| ==> BoxLabel(true, xs[i], ys[j]) == ys[j] + xs[i];
  }

  lemma ColumnNames(xs: seq<Label>, ys: seq<Label>)
    requires AllNamed(xs) && AllNamed(ys)
    ensures NamesDiffer(false, xs, ys) <==> TextsDiffer(xs, ys)
  {
    assert forall i, j :: 0 <= i < |xs| && 0 <= j < |ys| ==> BoxLabel(false, xs[i], ys[j]) == xs[i] + ys[j];
  }

  /**
   * For a whole chart with labels on both axes: all names differ exactly if no label of the axis that comes first
   * continues another one by what a label of the other axis lacks.
   */
  lemma ChartNamesDifferIff(rowFirst: bool, xs: seq<Label>, firstX: Label, lastX: Label,
                            ys: seq<Label>, firstY: Label, lastY: Label)
    requires IsChart(xs, firstX, lastX, ys, firstY, lastY) && AllNamed(xs) && AllNamed(ys)
    ensures NamesDiffer(rowFirst, xs, ys) <==> !PartsOverlap(if rowFirst then ys else xs, if rowFirst then xs else ys)
  {
    hide NamesDiffer, TextsDiffer, PartsOverlap, AreDistinct, Follows;
    LabelsAreDistinct(xs, firstX, lastX);
    LabelsAreDistinct(ys, firstY, lastY);
    if rowFirst {
      RowNames(xs, ys);
      TextsDifferIff(ys, xs);
    } else {
      ColumnNames(xs, ys);
      TextsDifferIff(xs, ys);
    }
  }

  lemma LabelsAreDistinct(labels: seq<Label>, first: Label, last: Label)
    requires IsRun(labels, first, last) && EndsWell(labels, last)
    ensures AreDistinct(labels)
  {
    hide Follows;
    forall i, j | 0 <= i < |labels| && 0 <= j < |labels| && labels[i] == labels[j]
      ensures i == j
    {
      SameLabelSamePlace(labels, first, last, i, j);
    }
  }

  lemma OnlyUnderscore(labels: seq<Label>, first: Label, last: Label)
    requires IsRun(labels, first, last)
    ensures first == last ==> |labels| == 1
  {
    hide Follows;
    assert |labels| > 1 ==> labels[0] != last;
  }

  lemma SameLabelSamePlace(labels: seq<Label>, first: Label, last: Label, i: nat, k: nat)
    requires IsRun(labels, first, last) && EndsWell(labels, last) && i < |labels| && k < |labels|
    requires labels[i] == labels[k]
    ensures i == k
  {
    hide Follows;
    if i < k {
      EndedRunIsDistinct(labels, first, last, i, k);
    } else if k < i {
      EndedRunIsDistinct(labels, first, last, k, i);
    }
  }

  /** Text whose first part is made of bytes below 'A' exactly where its second part is not splits one way only. */
  lemma SplitIsUnique(low: bool, u1: Label, v1: Label, u2: Label, v2: Label)
    requires forall i :: 0 <= i < |u1| ==> (u1[i] < UPPER_A <==> low)
    requires forall i :: 0 <= i < |u2| ==> (u2[i] < UPPER_A <==> low)
    requires forall i :: 0 <= i < |v1| ==> (v1[i] < UPPER_A <==> !low)
    requires forall i :: 0 <= i < |v2| ==> (v2[i] < UPPER_A <==> !low)
    requires u1 + v1 == u2 + v2
    ensures u1 == u2 && v1 == v2
  {
    var whole := u1 + v1;
    assert forall i :: 0 <= i < |whole| ==> ((whole[i] < UPPER_A <==> low) <==> i < |u1|);
    assert forall i :: 0 <= i < |whole| ==> ((whole[i] < UPPER_A <==> low) <==> i < |u2|);
    var m := if |u1| < |u2| then |u1| else |u2|;
    assert m < |whole| ==> ((whole[m] < UPPER_A <==> low) <==> m < |u1|);
    assert |u1| == |u2|;
    assert u1 == whole[..|u1|] && v1 == whole[|u1|..];
  }

  /** With letters on one axis and digits on the other, no two boxes share a name, whatever the lengths. */
  lemma BoxLabelsAreDistinct(rowFirst: bool, x1: Label, y1: Label, x2: Label, y2: Label, a: Byte)
    requires IsLetters(x1, a) && IsLetters(x2, a) && IsDigits(y1) && IsDigits(y2)
    requires BoxLabel(rowFirst, x1, y1) == BoxLabel(rowFirst, x2, y2)
    ensures x1 == x2 && y1 == y2
  {
    NoUnderscore(x1, y1, a);
    NoUnderscore(x2, y2, a);
    if rowFirst {
      SplitIsUnique(true, y1, x1, y2, x2);
    } else {
      SplitIsUnique(false, x1, y1, x2, y2);
    }
  }

  lemma NoUnderscore(x: Label, y: Label, a: Byte)
    requires IsLetters(x, a) && IsDigits(y)
    ensures x != [UNDERSCORE] && y != [UNDERSCORE]
  {
    assert |x| == 1 ==> x[0] != UNDERSCORE;
    assert |y| == 1 ==> y[0] != UNDERSCORE;
  }

  lemma OneDigitUp(c: Byte, size: nat)
    requires ZERO <= c < NINE
    ensures Follows([c], [c + 1], size)
  {
    assert [c][..0] == [] && [] + [c + 1] == [c + 1];
  }

  function DigitLabels(): seq<Label> {
    [[49], [50], [51], [52], [53], [54], [55], [56], [57], [49, 48], [49, 49]]
  }

  /** The axis from 1 to 11. */
  lemma OneToEleven()
    ensures IsRun(DigitLabels(), [ONE], [ONE, ONE]) && EndsWell(DigitLabels(), [ONE, ONE])
  {
    var labels, size := DigitLabels(), 3;
    forall i | 0 < i < 9
      ensures Follows(labels[i - 1], labels[i], size)
    {
      OneDigitUp(48 + i, size);
    }
    assert Follows([NINE], [ONE, ZERO], size) by {
      assert [NINE][..0] == [];
    }
    assert Follows([ONE, ZERO], [ONE, ONE], size) by {
      assert [ONE, ZERO][..1] == [ONE] && [ONE] + [ONE] == [ONE, ONE];
    }
    forall i | 0 <= i < |labels| - 1
      ensures labels[i] != [ONE, ONE]
    {
      assert i < 9 ==> |labels[i]| == 1;
      assert labels[9][1] == ZERO;
    }
  }

  /** With digits on both axes names can be shared: on axes from 1 to 11 boxes (1, 11) and (11, 1) are both 111. */
  lemma DigitAxesMayCollide()
    ensures exists xs: seq<Label>, i, j, k, l ::
      && IsRun(xs, [ONE], [ONE, ONE]) && EndsWell(xs, [ONE, ONE])
      && 0 <= i < |xs| && 0 <= j < |xs| && 0 <= k < |xs| && 0 <= l < |xs| && xs[i] != xs[k]
      && BoxLabel(false, xs[i], xs[j]) == BoxLabel(false, xs[k], xs[l])
  {
    var xs: seq<Label> := DigitLabels();
    OneToEleven();
    assert xs[0] == [ONE] && xs[10] == [ONE, ONE] && |xs[0]| != |xs[10]|;
    var one: Label, eleven: Label := xs[0], xs[10];
    assert one + eleven == eleven + one;
    assert xs[0] != [UNDERSCORE] && xs[10] != [UNDERSCORE] by {
      assert xs[0][0] == ONE && xs[10][0] == ONE;
    }
    assert BoxLabel(false, xs[0], xs[10]) == BoxLabel(false, xs[10], xs[0]);
  }
}
