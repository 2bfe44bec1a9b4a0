/**
 * The gallery's three slide holders: an endless strip over n looping items of which only three
 * slides exist. A swipe moves indices only; the holders are brought up to date later, for
 * whatever distance has accumulated, by re-using the ones that have left the screen.
 */
module HolderRing {

  const NUM_HOLDERS := 3

  /** The item at an unbounded position of the strip, n items repeating in both directions. */
  function Wrap(i: int, n: nat): (r: int)
    requires n > 0
    ensures 0 <= r < n
    decreases if i < 0 then n - i else i
  {
    if i < 0 then Wrap(i + n, n)
    else if i >= n then Wrap(i - n, n)
    else i
  }

  lemma WrapShift(i: int, n: nat)
    requires n > 0
    ensures Wrap(i + n, n) == Wrap(i, n)
  {
  }

  /** Positions less than a full turn apart show different items. */
  lemma {:induction false} WrapDistinct(a: int, b: int, n: nat)
    requires 0 < b - a < n
    ensures Wrap(a, n) != Wrap(b, n)
    decreases a < 0, if a < 0 then -a else b
  {
    if a < 0 {
      WrapShift(a, n);
      WrapShift(b, n);
      WrapDistinct(a + n, b + n, n);
    } else if b >= n {
      if a >= n {
        WrapDistinct(a - n, b - n, n);
      } else {
        assert Wrap(b, n) == b - n;
      }
    }
  }

  /** One turn of wrapping in either direction, as the gallery computes it. */
  function LoopedId(index: int, n: nat): int {
    if index > n - 1 then index - n else if index < 0 then n + index else index
  }

  lemma LoopedIdIsWrap(index: int, n: nat)
    requires n > 0
    ensures 0 <= LoopedId(index, n) < n <==> 0 <= index + n < 3 * n
    ensures 0 <= index + n < 3 * n ==> LoopedId(index, n) == Wrap(index, n)
  {
  }

  class Holder {
    var index: int    // item shown
    var x: int        // horizontal offset inside the moving container

    constructor (index: int, x: int)
      ensures this.index == index && this.x == x
    {
      this.index, this.x := index, x;
    }
  }

  function Along(forward: bool, d: int): int { if forward then d else -d }

  function Abs(d: int): int { if d < 0 then -d else d }

  class Gallery {
    ghost const pool: set<Holder>   // the three holders, made once and re-used
    const numItems: nat
    var slideWidth: int
    var itemHolders: seq<Holder>
    var mounted: map<int, Holder>   // items that own a container element, and the holder it is in
    var currentItemIndex: int
    var currPositionIndex: int      // the container is translated by this many slide widths
    var containerShiftIndex: int
    var indexDiff: int              // items moved since the holders were last updated
    var mainScrollAnimating: bool
    var currZoomedItemIndex: int

    ghost predicate Shape()
      reads this`itemHolders, this`currentItemIndex
    {
      && numItems >= 3              // looping is switched off below three items
      && |itemHolders| == NUM_HOLDERS
      && itemHolders[0] in pool && itemHolders[1] in pool && itemHolders[2] in pool
      && itemHolders[0] != itemHolders[1] && itemHolders[1] != itemHolders[2] && itemHolders[0] != itemHolders[2]
      && 0 <= currentItemIndex < numItems
    }

    /** Holder j shows the j-th item from `first` on, at the j-th place from `position` on. */
    ghost predicate Slot(j: int, first: int, position: int)
      requires 0 <= j < |itemHolders| && numItems > 0
      reads this`itemHolders, this`slideWidth, itemHolders
    {
      itemHolders[j].index == Wrap(first + j, numItems) && itemHolders[j].x == (position + j) * slideWidth
    }

    /** The strip position of the leftmost holder's item, reckoned from the last update. */
    ghost function FirstItem(): int
      reads this`currentItemIndex, this`indexDiff
    {
      currentItemIndex - indexDiff - 1
    }

    /** Holders show three neighbours, around the item that was current at the last update. */
    ghost predicate Aligned()
      requires Shape()
      reads this`itemHolders, this`currentItemIndex, this`indexDiff, this`containerShiftIndex, this`slideWidth
      reads itemHolders
    {
      forall j :: 0 <= j < NUM_HOLDERS ==> Slot(j, FirstItem(), containerShiftIndex)
    }

    /** A full turn of the strip changes nothing in the holders. */
    lemma SameStrip(first: int, turned: int)
      requires Shape() && (turned == first || turned == first + numItems || turned == first - numItems)
      requires forall j :: 0 <= j < NUM_HOLDERS ==> Slot(j, first, containerShiftIndex)
      ensures forall j :: 0 <= j < NUM_HOLDERS ==> Slot(j, turned, containerShiftIndex)
    {
      forall j | 0 <= j < NUM_HOLDERS
        ensures Slot(j, turned, containerShiftIndex)
      {
        assert Slot(j, first, containerShiftIndex);
        WrapShift(first + j, numItems);
        WrapShift(turned + j, numItems);
      }
    }

    /** Exactly the three shown items own a container, each the one in its own holder. */
    ghost predicate Mounted()
      requires Shape()
      reads this`itemHolders, this`currentItemIndex, this`mounted, itemHolders
    {
      && itemHolders[0].index != itemHolders[1].index
      && itemHolders[1].index != itemHolders[2].index
      && itemHolders[0].index != itemHolders[2].index
      && mounted == map[itemHolders[0].index := itemHolders[0], itemHolders[1].index := itemHolders[1],
                        itemHolders[2].index := itemHolders[2]]
    }

    /** The pending distance between two updates is small, and zero outside animations. */
    ghost predicate Settled()
      reads this
    {
      && (mainScrollAnimating || indexDiff == 0)
      && Abs(indexDiff) <= 2
      && (Abs(indexDiff) == 2 ==> currentItemIndex == currZoomedItemIndex)
    }

    ghost predicate Balanced()
      reads this
    {
      currPositionIndex + containerShiftIndex + indexDiff == -1
    }

    ghost predicate Valid()
      reads this, itemHolders
    {
      Shape() && Aligned() && Mounted() && Settled() && Balanced()
    }

    /** The state once the opening zoom has ended and all three holders have content. */
    constructor (numItems: nat, current: int, slideWidth: int)
      requires numItems >= 3 && 0 <= current < numItems
      ensures Valid() && fresh(pool)
      ensures this.numItems == numItems && this.slideWidth == slideWidth
      ensures currentItemIndex == current && currPositionIndex == 0 && indexDiff == 0 && !mainScrollAnimating
    {
      this.numItems, this.slideWidth, currentItemIndex := numItems, slideWidth, current;
      currPositionIndex, containerShiftIndex, indexDiff := 0, -1, 0;
      mainScrollAnimating, currZoomedItemIndex := false, 0;
      var left := new Holder(LoopedId(current - 1, numItems), -slideWidth);
      var middle := new Holder(LoopedId(current, numItems), 0);
      var right := new Holder(LoopedId(current + 1, numItems), slideWidth);
      itemHolders, pool := [left, middle, right], {left, middle, right};
      mounted := map[left.index := left, middle.index := middle, right.index := right];
      new;
      LoopedIdIsWrap(current - 1, numItems);
      LoopedIdIsWrap(current, numItems);
      LoopedIdIsWrap(current + 1, numItems);
      WrapDistinct(current - 1, current, numItems);
      WrapDistinct(current, current + 1, numItems);
      WrapDistinct(current - 1, current + 1, numItems);
      assert Slot(0, FirstItem(), -1) && Slot(1, FirstItem(), -1) && Slot(2, FirstItem(), -1);
    }

    /** What is seen: holder j shows the item j - 1 - indexDiff places after the current one, that many slides away. */
    lemma WhatIsOnScreen(j: nat)
      requires Valid() && j < NUM_HOLDERS
      ensures itemHolders[j].index == Wrap(currentItemIndex + (j - 1 - indexDiff), numItems)
      ensures itemHolders[j].x + currPositionIndex * slideWidth == (j - 1 - indexDiff) * slideWidth
    {
      assert Slot(j, FirstItem(), containerShiftIndex);
      assert (containerShiftIndex + j) * slideWidth + currPositionIndex * slideWidth
          == (containerShiftIndex + j + currPositionIndex) * slideWidth;
    }

    method SetContent(holder: Holder, index: int)
      requires numItems > 0 && 0 <= index + numItems < 3 * numItems
      modifies this`mounted, holder`index
      ensures holder.index == Wrap(index, numItems)
      ensures mounted == (old(mounted) - {old(holder.index)})[holder.index := holder]
      ensures old(holder.index in mounted && mounted[holder.index] == holder) && old(holder.index) == holder.index
              ==> mounted == old(mounted)
    {
      LoopedIdIsWrap(index, numItems);
      mounted := mounted - {holder.index};
      holder.index := LoopedId(index, numItems);
      mounted := mounted[holder.index := holder];
    }

    /** Whether slot j has been refilled once k of the holders have been moved towards that side. */
    ghost predicate Refilled(j: int, k: int, forward: bool) {
      if forward then j >= NUM_HOLDERS - k else j < k
    }

    /** Between two moves: refilled slots continue the target strip; the others still hold the old one. */
    ghost predicate HalfMoved(k: int, forward: bool, aligned: bool, first: int, shift: int, target: int)
      requires Shape()
      reads this, itemHolders
    {
      forall j :: 0 <= j < NUM_HOLDERS ==>
        && (Refilled(j, k, forward) ==> Slot(j, target, containerShiftIndex))
        && (!Refilled(j, k, forward) && aligned ==> Slot(j, first, shift))
    }

    /** A target item differs from the ones the two staying holders show. */
    lemma FreshItem(k: int, forward: bool, first: int, shift: int, target: int, position: int, item: int)
      requires Shape() && HalfMoved(k, forward, true, first, shift, target) && 0 <= k < NUM_HOLDERS
      requires forward ==> item == target + 3 && first + 3 <= item < first + 1 + numItems && position > 0
      requires !forward ==> item == target - 1 && first + 1 - numItems < item <= first - 1 && position < 2
      requires 0 <= position < NUM_HOLDERS
      ensures Wrap(item, numItems) != itemHolders[position].index
    {
      var other := (if Refilled(position, k, forward) then target else first) + position;
      assert itemHolders[position].index == Wrap(other, numItems);
      if forward {
        WrapDistinct(other, item, numItems);
      } else {
        WrapDistinct(item, other, numItems);
      }
    }

    /** The holder left behind on the left becomes the rightmost one. */
    method MoveFirstToLast(index: int, ghost k: int, ghost aligned: bool, ghost first: int, ghost shift: int)
      requires Shape() && 0 <= index + numItems < 3 * numItems && 0 <= k < NUM_HOLDERS
      requires HalfMoved(k, true, aligned, first, shift, index - 3)
      modifies this`itemHolders, this`mounted, this`containerShiftIndex, itemHolders[0]
      ensures Shape() && containerShiftIndex == old(containerShiftIndex) + 1
      ensures itemHolders == old([itemHolders[1], itemHolders[2], itemHolders[0]])
      ensures HalfMoved(k + 1, true, aligned, first + 1, shift + 1, index - 2)
      ensures aligned && first + 3 <= index < first + 1 + numItems && old(Mounted()) ==> Mounted()
    {
      ghost var apart := aligned && first + 3 <= index < first + 1 + numItems;
      if apart {
        FreshItem(k, true, first, shift, index - 3, 1, index);
        FreshItem(k, true, first, shift, index - 3, 2, index);
      }
      var tempHolder := itemHolders[0];
      itemHolders := itemHolders[1..] + [tempHolder];
      containerShiftIndex := containerShiftIndex + 1;
      tempHolder.x := (containerShiftIndex + 2) * slideWidth;
      SetContent(tempHolder, index);
      assert Refilled(1, k, true) == Refilled(0, k + 1, true) && Refilled(2, k, true) == Refilled(1, k + 1, true);
    }

    /** The holder left behind on the right becomes the leftmost one. */
    method MoveLastToFirst(index: int, ghost k: int, ghost aligned: bool, ghost first: int, ghost shift: int)
      requires Shape() && 0 <= index + numItems < 3 * numItems && 0 <= k < NUM_HOLDERS
      requires HalfMoved(k, false, aligned, first, shift, index + 1)
      modifies this`itemHolders, this`mounted, this`containerShiftIndex, itemHolders[2]
      ensures Shape() && containerShiftIndex == old(containerShiftIndex) - 1
      ensures itemHolders == old([itemHolders[2], itemHolders[0], itemHolders[1]])
      ensures HalfMoved(k + 1, false, aligned, first - 1, shift - 1, index)
      ensures aligned && first + 1 - numItems < index <= first - 1 && old(Mounted()) ==> Mounted()
    {
      ghost var apart := aligned && first + 1 - numItems < index <= first - 1;
      if apart {
        FreshItem(k, false, first, shift, index + 1, 0, index);
        FreshItem(k, false, first, shift, index + 1, 1, index);
      }
      var tempHolder := itemHolders[2];
      itemHolders := [tempHolder] + itemHolders[..2];
      containerShiftIndex := containerShiftIndex - 1;
      tempHolder.x := containerShiftIndex * slideWidth;
      SetContent(tempHolder, index);
      assert Refilled(0, k, false) == Refilled(1, k + 1, false) && Refilled(1, k, false) == Refilled(2, k + 1, false);
    }

    /** No item enters one end of the strip before it has left the other. */
    ghost predicate NoClash(diffAbs: int, first: int)
      reads this`currentItemIndex, this`indexDiff
    {
      && first == FirstItem() && diffAbs <= Abs(indexDiff) <= numItems
      && (diffAbs == NUM_HOLDERS || diffAbs == Abs(indexDiff))
    }

    /** One round of the update loop: the i-th of `diffAbs` moves. */
    method MoveNext(i: int, diffAbs: int, ghost aligned: bool, ghost first: int, ghost shift: int)
      requires Shape() && indexDiff != 0 && 0 <= i < diffAbs <= NUM_HOLDERS
      requires HalfMoved(i, indexDiff > 0, aligned, first + Along(indexDiff > 0, i), shift + Along(indexDiff > 0, i),
                         currentItemIndex - 1 + Along(indexDiff > 0, i - diffAbs))
      modifies this`itemHolders, this`mounted, this`containerShiftIndex, pool
      ensures Shape() && containerShiftIndex == old(containerShiftIndex) + Along(indexDiff > 0, 1)
      ensures HalfMoved(i + 1, indexDiff > 0, aligned,
                        first + Along(indexDiff > 0, i + 1), shift + Along(indexDiff > 0, i + 1),
                        currentItemIndex - 1 + Along(indexDiff > 0, i + 1 - diffAbs))
      ensures old(Mounted()) && aligned && NoClash(diffAbs, first) ==> Mounted()
    {
      if indexDiff > 0 {
        MoveFirstToLast(currentItemIndex - diffAbs + i + 1 + 1, i, aligned, first + i, shift + i);
      } else {
        MoveLastToFirst(currentItemIndex + diffAbs - i - 1 - 1, i, aligned, first - i, shift - i);
      }
    }

    /** The loop: moves `diffAbs` holders, one at a time, from one end to the other. */
    method ShiftHolders(diffAbs: int, ghost aligned: bool, ghost first: int, ghost shift: int)
      requires Shape() && indexDiff != 0 && 0 <= diffAbs <= NUM_HOLDERS
      requires HalfMoved(0, indexDiff > 0, aligned, first, shift, currentItemIndex - 1 - Along(indexDiff > 0, diffAbs))
      modifies this`itemHolders, this`mounted, this`containerShiftIndex, pool
      ensures Shape() && containerShiftIndex == old(containerShiftIndex) + Along(indexDiff > 0, diffAbs)
      ensures HalfMoved(diffAbs, indexDiff > 0, aligned, first + Along(indexDiff > 0, diffAbs),
                        shift + Along(indexDiff > 0, diffAbs), currentItemIndex - 1)
      ensures old(Mounted()) && aligned && NoClash(diffAbs, first) ==> Mounted()
    {
      ghost var forward := indexDiff > 0;
      ghost var mounts := Mounted() && aligned && NoClash(diffAbs, first);
      var i := 0;
      while i < diffAbs
        invariant 0 <= i <= diffAbs && Shape()
        invariant containerShiftIndex == old(containerShiftIndex) + Along(forward, i)
        invariant HalfMoved(i, forward, aligned, first + Along(forward, i), shift + Along(forward, i),
                            currentItemIndex - 1 + Along(forward, i - diffAbs))
        invariant mounts ==> Mounted()
      {
        MoveNext(i, diffAbs, aligned, first, shift);
        i := i + 1;
      }
    }

    /**
     * Brings the holders up to date. For every pending distance the three holders end up around the
     * current item, if they were around the item the distance counts from (or the jump replaces all three).
     */
    method UpdateCurrItem(beforeAnimation: bool)
      requires Shape()
      modifies this`itemHolders, this`mounted, this`containerShiftIndex, this`indexDiff, pool
      ensures Shape()
      ensures beforeAnimation && Abs(old(indexDiff)) < 2 ==> indexDiff == old(indexDiff)
      ensures !(beforeAnimation && Abs(old(indexDiff)) < 2) ==> indexDiff == 0
      ensures containerShiftIndex + indexDiff == old(containerShiftIndex + indexDiff)
      ensures old(Aligned()) || (Abs(old(indexDiff)) >= NUM_HOLDERS && indexDiff == 0) ==> Aligned()
      ensures old(Aligned() && Mounted()) && Abs(old(indexDiff)) <= numItems ==> Mounted()
    {
      if indexDiff == 0 {
        return;
      }
      var diffAbs := Abs(indexDiff);
      if beforeAnimation && diffAbs < 2 {
        return;
      }
      ghost var aligned, first, shift := Aligned(), FirstItem(), containerShiftIndex;
      if diffAbs >= NUM_HOLDERS {
        containerShiftIndex := containerShiftIndex + indexDiff + (if indexDiff > 0 then -NUM_HOLDERS else NUM_HOLDERS);
        diffAbs := NUM_HOLDERS;
      }
      ShiftHolders(diffAbs, aligned, first, shift);
      indexDiff := 0;
    }

    /**
     * Jumps to any item. With no swipe pending the ring stays valid; the jump overwrites a pending
     * distance, and then the strip is off by exactly that distance.
     */
    method GoTo(index: int)
      requires Shape() && 0 <= index + numItems < 3 * numItems
      modifies this, pool
      ensures Shape() && currentItemIndex == Wrap(index, numItems) && indexDiff == 0 && !mainScrollAnimating
      ensures slideWidth == old(slideWidth) && currZoomedItemIndex == old(currZoomedItemIndex)
      ensures currPositionIndex == old(currPositionIndex) - (currentItemIndex - old(currentItemIndex))
      ensures currPositionIndex + containerShiftIndex + indexDiff == old(currPositionIndex + containerShiftIndex)
      ensures old(Balanced()) ==> (Balanced() <==> old(indexDiff) == 0)
      ensures old(Valid()) && old(indexDiff) == 0 ==> Valid()
    {
      LoopedIdIsWrap(index, numItems);
      var looped := LoopedId(index, numItems);
      var diff := looped - currentItemIndex;
      indexDiff := diff;
      currentItemIndex := looped;
      currPositionIndex := currPositionIndex - diff;
      mainScrollAnimating := false;
      if old(Valid()) && old(indexDiff) == 0 {
        assert FirstItem() == old(FirstItem());
        assert Aligned() && Mounted();
      }
      UpdateCurrItem(false);
    }

    method Next()
      requires Shape()
      modifies this, pool
      ensures Shape() && indexDiff == 0 && currentItemIndex == Wrap(old(currentItemIndex) + 1, numItems)
      ensures old(Valid()) && old(indexDiff) == 0 ==> Valid()
    {
      GoTo(currentItemIndex + 1);
    }

    method Prev()
      requires Shape()
      modifies this, pool
      ensures Shape() && indexDiff == 0 && currentItemIndex == Wrap(old(currentItemIndex) - 1, numItems)
      ensures old(Valid()) && old(indexDiff) == 0 ==> Valid()
    {
      GoTo(currentItemIndex - 1);
    }

    /** Index bookkeeping of a swipe, with the wrap at either end of the list. */
    method StepIndices(itemsDiff: int)
      requires Shape() && Aligned() && Mounted() && Balanced() && -1 <= itemsDiff <= 1
      modifies this`currentItemIndex, this`indexDiff, this`currPositionIndex
      ensures Shape() && Aligned() && Mounted() && Balanced()
      ensures currentItemIndex == Wrap(old(currentItemIndex) + itemsDiff, numItems)
      ensures currPositionIndex == old(currPositionIndex) - itemsDiff
      ensures indexDiff == old(indexDiff) + itemsDiff
    {
      WrapShift(currentItemIndex + itemsDiff, numItems);
      currentItemIndex := currentItemIndex + itemsDiff;
      if currentItemIndex < 0 {
        currentItemIndex := numItems - 1;
      } else if currentItemIndex >= numItems {
        currentItemIndex := 0;
      }
      indexDiff := indexDiff + itemsDiff;
      currPositionIndex := currPositionIndex - itemsDiff;
      SameStrip(old(FirstItem()), FirstItem());
    }

    /** The end of a swipe: itemsDiff is -1 or 1 when the gesture was long enough, 0 when it was not. */
    method FinishSwipe(itemsDiff: int) returns (itemChanged: bool)
      requires Valid() && -1 <= itemsDiff <= 1
      modifies this, pool
      ensures Valid() && mainScrollAnimating
      ensures currentItemIndex == Wrap(old(currentItemIndex) + itemsDiff, numItems)
      ensures currPositionIndex == old(currPositionIndex) - itemsDiff
      ensures currZoomedItemIndex ==
              if old(mainScrollAnimating) then old(currZoomedItemIndex) else old(currentItemIndex)
      ensures itemChanged <==> itemsDiff != 0 && currentItemIndex != currZoomedItemIndex
      ensures indexDiff == if itemChanged && Abs(old(indexDiff) + itemsDiff) >= 2 then 0 else old(indexDiff) + itemsDiff
      ensures slideWidth == old(slideWidth)
    {
      if !mainScrollAnimating {
        currZoomedItemIndex := currentItemIndex;
      }
      itemChanged := false;
      if itemsDiff != 0 {
        StepIndices(itemsDiff);
        itemChanged := true;
      }
      if currZoomedItemIndex == currentItemIndex {
        itemChanged := false;
      }
      mainScrollAnimating := true;
      if itemChanged {
        UpdateCurrItem(true);
      }
    }

    /** The callback of the scroll animation; it updates whether or not the item has changed. */
    method AnimationEnd(itemChanged: bool)
      requires Valid()
      modifies this, pool
      ensures Valid() && indexDiff == 0 && !mainScrollAnimating && currZoomedItemIndex == -1
      ensures currentItemIndex == old(currentItemIndex) && currPositionIndex == old(currPositionIndex)
    {
      mainScrollAnimating := false;
      currZoomedItemIndex := -1;
      assert FirstItem() == old(FirstItem());
      assert Aligned() && Mounted();
      if itemChanged || currZoomedItemIndex != currentItemIndex {
        UpdateCurrItem(false);
      }
    }

    /** Where a resize reckons the strip from for holder j. */
    ghost function Origin(stale: seq<bool>, j: int): int
      requires 0 <= j < |stale|
      reads this`currentItemIndex, this`indexDiff
    {
      if stale[j] then currentItemIndex - 1 else FirstItem()
    }

    /** The first i holders have been re-placed; the others still show what they showed. */
    ghost predicate RePlaced(i: int, stale: seq<bool>)
      requires Shape() && |stale| == NUM_HOLDERS
      reads this, itemHolders
    {
      && (forall j :: 0 <= j < i && j < NUM_HOLDERS ==> Slot(j, Origin(stale, j), containerShiftIndex))
      && (forall j :: i <= j < NUM_HOLDERS && 0 <= j ==> itemHolders[j].index == Wrap(FirstItem() + j, numItems))
    }

    /** Re-places one holder, and re-renders it if its item is stale. */
    method RePlace(i: int, stale: bool)
      requires Shape() && 0 <= i < NUM_HOLDERS && itemHolders[i].index == Wrap(FirstItem() + i, numItems)
      modifies this`mounted, itemHolders[i]
      ensures Slot(i, if stale then currentItemIndex - 1 else FirstItem(), containerShiftIndex)
      ensures old(Mounted()) && (indexDiff == 0 || !stale) ==> Mounted()
    {
      var holder := itemHolders[i];
      holder.x := (i + containerShiftIndex) * slideWidth;
      if stale {
        SetContent(holder, currentItemIndex + i - 1);
      }
    }

    /** One round of the resize loop. */
    method RePlaceNext(i: int, stale: seq<bool>)
      requires Shape() && |stale| == NUM_HOLDERS && 0 <= i < NUM_HOLDERS && RePlaced(i, stale)
      modifies this`mounted, itemHolders[i]
      ensures RePlaced(i + 1, stale)
      ensures old(Mounted()) && (indexDiff == 0 || !stale[i]) ==> Mounted()
    {
      RePlace(i, stale[i]);
      forall j | 0 <= j < i
        ensures Slot(j, Origin(stale, j), containerShiftIndex)
      {
        assert old(Slot(j, Origin(stale, j), containerShiftIndex));
      }
    }

    /** With a distance pending, a slide cannot be where it was and where it would be without it. */
    lemma MisplacedSlide(j: int)
      requires Shape() && 0 < Abs(indexDiff) <= 2 && 0 <= j < NUM_HOLDERS
      requires Slot(j, currentItemIndex - 1, containerShiftIndex)
      ensures !Slot(j, FirstItem(), containerShiftIndex)
    {
      if indexDiff > 0 {
        WrapDistinct(FirstItem() + j, currentItemIndex - 1 + j, numItems);
      } else {
        WrapDistinct(currentItemIndex - 1 + j, FirstItem() + j, numItems);
      }
    }

    /**
     * A resize re-places all holders and re-renders the ones marked `stale` with what they should show
     * if nothing were pending. During a swipe that assumption fails: a pending distance and a stale
     * slide together misplace that slide, and nothing else does.
     */
    method UpdateSize(newWidth: int, stale: seq<bool>)
      requires Valid() && |stale| == NUM_HOLDERS
      modifies this`slideWidth, this`mounted, pool
      ensures slideWidth == newWidth && Shape()
      ensures Valid() <==> old(indexDiff) == 0 || !(stale[0] || stale[1] || stale[2])
    {
      ghost var sound := indexDiff == 0 || !(stale[0] || stale[1] || stale[2]);
      assert Slot(0, FirstItem(), containerShiftIndex) && Slot(1, FirstItem(), containerShiftIndex)
          && Slot(2, FirstItem(), containerShiftIndex);
      slideWidth := newWidth;
      var i := 0;
      while i < NUM_HOLDERS
        invariant 0 <= i <= NUM_HOLDERS && slideWidth == newWidth
        invariant RePlaced(i, stale)
        invariant sound ==> Mounted()
      {
        RePlaceNext(i, stale);
        i := i + 1;
      }
      if sound {
        assert Origin(stale, 0) == Origin(stale, 1) == Origin(stale, 2) == FirstItem();
      } else {
        var j := if stale[0] then 0 else if stale[1] then 1 else 2;
        assert Slot(j, Origin(stale, j), containerShiftIndex);
        MisplacedSlide(j);
      }
    }
  }
  /** A jump while the animation of a swipe still runs: the strip is off by the pending slide from then on. */
  method JumpDuringSwipe() returns (gallery: Gallery)
    ensures gallery.Shape() && gallery.indexDiff == 0 && !gallery.Balanced()
  {
    gallery := new Gallery(5, 0, 100);
    var changed := gallery.FinishSwipe(1);
    gallery.GoTo(3);
  }

  /** A resize that re-renders the left slide in the same situation. */
  method ResizeDuringSwipe() returns (gallery: Gallery)
    ensures gallery.Shape() && !gallery.Valid()
  {
    gallery := new Gallery(5, 0, 100);
    var changed := gallery.FinishSwipe(1);
    gallery.UpdateSize(200, [true, false, false]);
  }
}
