/**
 * The hand-over of rendered previews between the thread that edits and the threads that deliver
 * renders, step by step as the fields of the turn context are written. Deliveries look the context
 * up, write the slot and set the event in three separate steps, at any time and in any number.
 */
module RenderHandoff {
  import opened Wrappers

  /** One delivered image; a delivery call is made once. */
  type Image = nat

  /** Where the editing thread stands within an edit step and the wait that follows it. */
  datatype Pc =
    | Outside                                     // not in apply_operations, or between two steps
    | Flagged                                     // requires_render_callback set
    | EventCleared
    | Waiting                                     // slot cleared, waiting for the event
    | Woken(arrived: bool)
    | Unflagged(arrived: bool)
    | SlotRead(arrived: bool, bytes: Option<Image>)
    | SlotEmptied(arrived: bool, bytes: Option<Image>)
    | LateWait                                    // the router's own wait, after another tool

  datatype Delivery = Found | Written | Signalled

  /** `clears` counts the edit steps that cleared the slot; the maps record its value at each step of a delivery. */
  datatype State = State(
    pc: Pc,
    requiresRender: bool,
    event: bool,
    slot: Option<Image>,
    clears: nat,
    deliveries: map<Image, Delivery>,
    foundAt: map<Image, nat>,
    writtenAt: map<Image, nat>,
    adopted: seq<(Image, nat)>)

  const INITIAL := State(Outside, false, false, None, 0, map[], map[], map[], [])

  datatype Event =
    | Flag | ClearEvent | ClearSlot | Wake(arrived: bool) | Unflag | ReadSlot | EmptySlot | Conclude
    | OtherToolDone | LateWaitOver
    | Find(image: Image) | Write(image: Image) | Signal(image: Image)

  predicate Enabled(s: State, e: Event) {
    match e
    case Flag => s.pc.Outside?
    case ClearEvent => s.pc.Flagged?
    case ClearSlot => s.pc.EventCleared?
    case Wake(arrived) => s.pc.Waiting? && (arrived ==> s.event)
    case Unflag => s.pc.Woken?
    case ReadSlot => s.pc.Unflagged?
    case EmptySlot => s.pc.SlotRead?
    case Conclude => s.pc.SlotEmptied?
    case OtherToolDone => s.pc.Outside?
    case LateWaitOver => s.pc.LateWait?
    case Find(image) => image !in s.deliveries
    case Write(image) => image in s.deliveries && s.deliveries[image].Found?
    case Signal(image) => image in s.deliveries && s.deliveries[image].Written?
  }

  function Step(s: State, e: Event): State
    requires Enabled(s, e)
  {
    match e
    case Flag => s.(pc := Flagged, requiresRender := true)
    case ClearEvent => s.(pc := EventCleared, event := false)
    case ClearSlot => s.(pc := Waiting, slot := None, clears := s.clears + 1)
    case Wake(arrived) => s.(pc := Woken(arrived))
    case Unflag => s.(pc := Unflagged(s.pc.arrived), requiresRender := false)
    case ReadSlot => s.(pc := SlotRead(s.pc.arrived, s.slot))
    case EmptySlot => s.(pc := SlotEmptied(s.pc.arrived, s.pc.bytes), slot := None)
    case Conclude =>
      s.(pc := Outside,
         adopted := if s.pc.arrived && s.pc.bytes.Some? then s.adopted + [(s.pc.bytes.value, s.clears)] else s.adopted)
    case OtherToolDone => if s.requiresRender then s.(pc := LateWait) else s
    case LateWaitOver => s.(pc := Outside, requiresRender := false, slot := None)
    case Find(image) =>
      s.(deliveries := s.deliveries[image := Found], foundAt := s.foundAt[image := s.clears])
    case Write(image) =>
      s.(deliveries := s.deliveries[image := Written], slot := Some(image), writtenAt := s.writtenAt[image := s.clears])
    case Signal(image) => s.(deliveries := s.deliveries[image := Signalled], event := true)
  }

  /** The flag is up exactly from the edit step until its wait is over. */
  predicate FlagInv(s: State) {
    && (s.requiresRender <==> s.pc.Flagged? || s.pc.EventCleared? || s.pc.Waiting? || s.pc.Woken?)
    && !s.pc.LateWait?
  }

  /** The image the editing thread holds in its hands, between reading the slot and concluding. */
  function Held(s: State): Option<Image> {
    if s.pc.SlotRead? || s.pc.SlotEmptied? then s.pc.bytes else None
  }

  predicate WrittenNow(s: State, image: Option<Image>) {
    image.Some? ==> image.value in s.writtenAt && s.writtenAt[image.value] == s.clears
  }

  /** What sits in the slot or was read from it was written since the last clear. */
  predicate FreshInv(s: State) {
    && WrittenNow(s, s.slot) && WrittenNow(s, Held(s))
    && (forall i :: i in s.writtenAt ==> i in s.deliveries && !s.deliveries[i].Found? && s.writtenAt[i] <= s.clears)
    && (forall k :: 0 <= k < |s.adopted| ==>
          s.adopted[k].0 in s.writtenAt && s.writtenAt[s.adopted[k].0] == s.adopted[k].1)
  }

  predicate NotAdopted(s: State, image: Option<Image>) {
    image.Some? ==> forall k :: 0 <= k < |s.adopted| ==> s.adopted[k].0 != image.value
  }

  /** No image is adopted twice. */
  predicate OnceInv(s: State) {
    && NotAdopted(s, s.slot) && NotAdopted(s, Held(s))
    && (s.pc.SlotEmptied? && s.pc.bytes.Some? ==> s.slot != s.pc.bytes)
    && forall k, l :: 0 <= k < l < |s.adopted| ==> s.adopted[k].0 != s.adopted[l].0
  }

  /** No edit step adopts twice. */
  predicate OrderInv(s: State) {
    && (forall k, l :: 0 <= k < l < |s.adopted| ==> s.adopted[k].1 < s.adopted[l].1)
    && (forall k :: 0 <= k < |s.adopted| ==> s.adopted[k].1 <= s.clears)
    && (MidStep(s.pc) ==> forall k :: 0 <= k < |s.adopted| ==> s.adopted[k].1 < s.clears)
  }

  /** From clearing the slot to concluding the wait. */
  predicate MidStep(pc: Pc) {
    pc.Waiting? || pc.Woken? || pc.Unflagged? || pc.SlotRead? || pc.SlotEmptied?
  }

  predicate Inv(s: State) {
    FlagInv(s) && FreshInv(s) && OnceInv(s) && OrderInv(s)
  }

  lemma FlagStep(s: State, e: Event)
    requires FlagInv(s) && Enabled(s, e)
    ensures FlagInv(Step(s, e))
  {
  }

  lemma FreshStep(s: State, e: Event)
    requires FlagInv(s) && FreshInv(s) && Enabled(s, e)
    ensures FreshInv(Step(s, e))
  {
  }

  lemma OnceStep(s: State, e: Event)
    requires FlagInv(s) && FreshInv(s) && OnceInv(s) && Enabled(s, e)
    ensures OnceInv(Step(s, e))
  {
  }

  lemma OrderStep(s: State, e: Event)
    requires FlagInv(s) && OrderInv(s) && Enabled(s, e)
    ensures OrderInv(Step(s, e))
  {
  }

  predicate Legal(s: State, events: seq<Event>)
    decreases |events|
  {
    events != [] ==> Enabled(s, events[0]) && Legal(Step(s, events[0]), events[1..])
  }

  function After(s: State, events: seq<Event>): State
    requires Legal(s, events)
    decreases |events|
  {
    if events == [] then s else After(Step(s, events[0]), events[1..])
  }

  lemma {:induction false} InvAlways(s: State, events: seq<Event>)
    requires Inv(s) && Legal(s, events)
    ensures Inv(After(s, events))
    decreases |events|
  {
    if events != [] {
      FlagStep(s, events[0]);
      FreshStep(s, events[0]);
      OnceStep(s, events[0]);
      OrderStep(s, events[0]);
      InvAlways(Step(s, events[0]), events[1..]);
    }
  }

  /**
   * Over every interleaving: an image adopted for the n-th edit step was written after that step
   * cleared the slot and before any later step did; no image is adopted twice, and no edit step
   * adopts two images.
   */
  lemma AdoptedImagesAreFresh(events: seq<Event>)
    requires Legal(INITIAL, events)
    ensures var s := After(INITIAL, events);
            && (forall k :: 0 <= k < |s.adopted| ==>
                  s.adopted[k].0 in s.writtenAt && s.writtenAt[s.adopted[k].0] == s.adopted[k].1)
            && (forall k, l :: 0 <= k < l < |s.adopted| ==>
                  s.adopted[k].0 != s.adopted[l].0 && s.adopted[k].1 < s.adopted[l].1)
  {
    InvAlways(INITIAL, events);
  }

  /** Outside an edit step no render is required, so the router's late wait is never entered. */
  lemma LateWaitIsUnreachable(events: seq<Event>)
    requires Legal(INITIAL, events)
    ensures var s := After(INITIAL, events);
            !s.pc.LateWait? && (s.pc.Outside? ==> !s.requiresRender)
  {
    InvAlways(INITIAL, events);
  }

  // ---- What one wait adopts ----

  predicate AreDeliveries(events: seq<Event>) {
    forall e :: e in events ==> e.Find? || e.Write? || e.Signal?
  }

  predicate Signals(events: seq<Event>) {
    exists e :: e in events && e.Signal?
  }

  /** The image written last, or what was there before. */
  function LastWritten(events: seq<Event>, slot: Option<Image>): Option<Image> {
    if events == [] then slot
    else LastWritten(events[1..], if events[0].Write? then Some(events[0].image) else slot)
  }

  /** Deliveries change the slot and the event and leave the editing thread where it is. */
  lemma {:induction false} DeliveriesOnly(s: State, events: seq<Event>)
    requires Legal(s, events) && AreDeliveries(events)
    ensures var t := After(s, events);
            && t.pc == s.pc && t.requiresRender == s.requiresRender && t.clears == s.clears && t.adopted == s.adopted
            && t.slot == LastWritten(events, s.slot) && (t.event <==> s.event || Signals(events))
    decreases |events|
  {
    if events != [] {
      assert events[0] in events;
      SignalsFirst(events);
      DeliveriesOnly(Step(s, events[0]), events[1..]);
    }
  }

  lemma SignalsFirst(events: seq<Event>)
    requires events != []
    ensures Signals(events) <==> events[0].Signal? || Signals(events[1..])
  {
    assert events == [events[0]] + events[1..];
  }

  lemma {:induction false} AfterBoth(s: State, a: seq<Event>, b: seq<Event>)
    requires Legal(s, a + b)
    ensures Legal(s, a) && Legal(After(s, a), b) && After(s, a + b) == After(After(s, a), b)
    decreases |a|
  {
    hide Step, Enabled;
    if a == [] {
      assert a + b == b;
    } else {
      assert (a + b)[1..] == a[1..] + b;
      AfterBoth(Step(s, a[0]), a[1..], b);
    }
  }

  /** What deliveries leave alone, and the slot. */
  datatype Own = Own(pc: Pc, requiresRender: bool, clears: nat, adopted: seq<(Image, nat)>, slot: Option<Image>)

  function OwnOf(s: State): Own { Own(s.pc, s.requiresRender, s.clears, s.adopted, s.slot) }

  /** The five steps that end a wait, from where the thread stands to where it stands then. */
  lemma OwnStep(t: State, e: Event)
    requires Enabled(t, e) && (e.Wake? || e.Unflag? || e.ReadSlot? || e.EmptySlot? || e.Conclude?)
    ensures OwnOf(Step(t, e)) ==
            match e
            case Wake(arrived) => OwnOf(t).(pc := Woken(arrived))
            case Unflag => OwnOf(t).(pc := Unflagged(t.pc.arrived), requiresRender := false)
            case ReadSlot => OwnOf(t).(pc := SlotRead(t.pc.arrived, t.slot))
            case EmptySlot => OwnOf(t).(pc := SlotEmptied(t.pc.arrived, t.pc.bytes), slot := None)
            case Conclude =>
              OwnOf(t).(pc := Outside,
                        adopted := t.adopted + if t.pc.arrived && t.pc.bytes.Some? then [(t.pc.bytes.value, t.clears)]
                                               else [])
            case _ => OwnOf(Step(t, e))
    ensures e.Wake? ==> t.pc.Waiting? && (e.arrived ==> t.event)
  {
    assert t.adopted + [] == t.adopted;
  }

  /** Deliveries, then one step of the editing thread, then the rest. */
  lemma Stage(s: State, deliveries: seq<Event>, e: Event, rest: seq<Event>) returns (t: State)
    requires AreDeliveries(deliveries) && Legal(s, deliveries + ([e] + rest))
    ensures Enabled(t, e) && Legal(Step(t, e), rest)
    ensures After(s, deliveries + ([e] + rest)) == After(Step(t, e), rest)
    ensures OwnOf(t) == OwnOf(s).(slot := LastWritten(deliveries, s.slot))
    ensures t.event <==> s.event || Signals(deliveries)
  {
    hide Step, Enabled, LastWritten, Signals, AreDeliveries;
    AfterBoth(s, deliveries, [e] + rest);
    t := After(s, deliveries);
    DeliveriesOnly(s, deliveries);
    assert ([e] + rest)[0] == e && ([e] + rest)[1..] == rest;
  }

  /** A whole wait: between any two of the thread's five steps any deliveries may happen. */
  function Wait(arrived: bool, d1: seq<Event>, d2: seq<Event>, d3: seq<Event>, d4: seq<Event>, d5: seq<Event>)
    : seq<Event>
  {
    d1 + ([Wake(arrived)] + (d2 + ([Unflag] + (d3 + ([ReadSlot] + (d4 + ([EmptySlot] + (d5 + ([Conclude] + [])))))))))
  }

  /**
   * For every interleaving of a wait with deliveries: if the event woke it, it adopts the image that was written last
   * before it read the slot, if there was one, for its own step; at its deadline it adopts nothing. The event wakes it
   * only if a delivery has set it. An image that is written between the reading and the emptying of the slot is lost.
   */
  lemma WaitAdopts(s: State, arrived: bool, d1: seq<Event>, d2: seq<Event>, d3: seq<Event>, d4: seq<Event>,
                   d5: seq<Event>)
    requires s.pc.Waiting? && AreDeliveries(d1) && AreDeliveries(d2) && AreDeliveries(d3) && AreDeliveries(d4)
    requires AreDeliveries(d5) && Legal(s, Wait(arrived, d1, d2, d3, d4, d5))
    ensures var t, image := After(s, Wait(arrived, d1, d2, d3, d4, d5)),
                            LastWritten(d3, LastWritten(d2, LastWritten(d1, s.slot)));
            && t.pc == Outside && !t.requiresRender && t.clears == s.clears && t.slot == LastWritten(d5, None)
            && t.adopted == s.adopted + (if arrived && image.Some? then [(image.value, s.clears)] else [])
    ensures arrived ==> s.event || Signals(d1)
  {
    hide LastWritten, Signals, AreDeliveries, Legal, After, Step, Enabled;
    var r5 := [Conclude] + [];
    var r4 := [EmptySlot] + (d5 + r5);
    var r3 := [ReadSlot] + (d4 + r4);
    var r2 := [Unflag] + (d3 + r3);
    var t1 := Stage(s, d1, Wake(arrived), d2 + r2);
    OwnStep(t1, Wake(arrived));
    var t2 := Stage(Step(t1, Wake(arrived)), d2, Unflag, d3 + r3);
    OwnStep(t2, Unflag);
    var t3 := Stage(Step(t2, Unflag), d3, ReadSlot, d4 + r4);
    OwnStep(t3, ReadSlot);
    var t4 := Stage(Step(t3, ReadSlot), d4, EmptySlot, d5 + r5);
    OwnStep(t4, EmptySlot);
    var t5 := Stage(Step(t4, EmptySlot), d5, Conclude, []);
    OwnStep(t5, Conclude);
    NoEvents(Step(t5, Conclude));
  }

  lemma NoEvents(s: State)
    ensures Legal(s, []) && After(s, []) == s
  {
  }

  // ---- Late deliveries ----

  /** The three times of a delivery: its context was found, then its image written, both before now. */
  predicate TimesInv(s: State) {
    && (forall i :: i in s.deliveries ==> i in s.foundAt && s.foundAt[i] <= s.clears)
    && (forall i :: i in s.deliveries && !s.deliveries[i].Found? ==> i in s.writtenAt)
    && (forall i :: i in s.writtenAt ==>
          i in s.deliveries && !s.deliveries[i].Found? && s.foundAt[i] <= s.writtenAt[i] <= s.clears)
  }

  lemma TimesStep(s: State, e: Event)
    requires TimesInv(s) && Enabled(s, e)
    ensures TimesInv(Step(s, e))
  {
  }

  /** The delivery has found its context and not written its image yet. */
  predicate Outstanding(s: State, image: Image) {
    image in s.deliveries && s.deliveries[image].Found?
  }

  /** Some edit step of the run clears the slot while the delivery is outstanding. */
  predicate ClearedWhileOutstanding(s: State, events: seq<Event>, image: Image)
    requires Legal(s, events)
    decreases |events|
  {
    events != [] &&
    ((events[0].ClearSlot? && Outstanding(s, image)) || ClearedWhileOutstanding(Step(s, events[0]), events[1..], image))
  }

  /** The delivery was found for an earlier edit step than it was written for, or would be if it were written now. */
  predicate Lags(s: State, image: Image)
    requires TimesInv(s)
  {
    image in s.deliveries && s.foundAt[image] < if Outstanding(s, image) then s.clears else s.writtenAt[image]
  }

  lemma LagStep(s: State, e: Event, image: Image)
    requires TimesInv(s) && Enabled(s, e)
    ensures TimesInv(Step(s, e))
    ensures Lags(Step(s, e), image) <==> Lags(s, image) || (e.ClearSlot? && Outstanding(s, image))
  {
    TimesStep(s, e);
  }

  lemma {:induction false} LagsIffCleared(s: State, events: seq<Event>, image: Image)
    requires TimesInv(s) && Legal(s, events)
    ensures TimesInv(After(s, events))
    ensures Lags(After(s, events), image) <==> Lags(s, image) || ClearedWhileOutstanding(s, events, image)
    decreases |events|
  {
    if events != [] {
      hide Step, Lags, Outstanding, TimesInv;
      LagStep(s, events[0], image);
      LagsIffCleared(Step(s, events[0]), events[1..], image);
    }
  }

  /**
   * For every run and every image that was written: it was found for an earlier edit step than the one it was written
   * for exactly when some edit step cleared the slot between its finding and its writing.
   */
  lemma LateIffCleared(events: seq<Event>, image: Image)
    requires Legal(INITIAL, events) && image in After(INITIAL, events).writtenAt
    ensures var s := After(INITIAL, events);
            && image in s.foundAt && s.foundAt[image] <= s.writtenAt[image]
            && (s.foundAt[image] < s.writtenAt[image] <==> ClearedWhileOutstanding(INITIAL, events, image))
  {
    LagsIffCleared(INITIAL, events, image);
  }

  /** So an adopted image serves the edit step it was found for, unless one cleared the slot while it was on its way. */
  lemma AdoptedServesItsStepIff(events: seq<Event>, k: nat)
    requires Legal(INITIAL, events) && k < |After(INITIAL, events).adopted|
    ensures var (image, n) := After(INITIAL, events).adopted[k];
            && image in After(INITIAL, events).foundAt && After(INITIAL, events).foundAt[image] <= n
            && (After(INITIAL, events).foundAt[image] == n <==> !ClearedWhileOutstanding(INITIAL, events, image))
  {
    AdoptedImagesAreFresh(events);
    LateIffCleared(events, After(INITIAL, events).adopted[k].0);
  }

  /** No edit step of the run clears the slot while any delivery is outstanding. */
  predicate ClearsAreQuiet(s: State, events: seq<Event>)
    requires Legal(s, events)
    decreases |events|
  {
    events != [] ==>
      && (events[0].ClearSlot? ==> forall i :: i in s.deliveries ==> !s.deliveries[i].Found?)
      && ClearsAreQuiet(Step(s, events[0]), events[1..])
  }

  lemma {:induction false} QuietClearsMissNothing(s: State, events: seq<Event>, image: Image)
    requires Legal(s, events) && ClearsAreQuiet(s, events)
    ensures !ClearedWhileOutstanding(s, events, image)
    decreases |events|
  {
    if events != [] {
      QuietClearsMissNothing(Step(s, events[0]), events[1..], image);
    }
  }

  /** If no delivery is outstanding whenever the slot is cleared, every adopted image was found for its own step. */
  lemma QuietClearsServeTheirStep(events: seq<Event>)
    requires Legal(INITIAL, events) && ClearsAreQuiet(INITIAL, events)
    ensures var s := After(INITIAL, events);
            forall k :: 0 <= k < |s.adopted| ==>
              s.adopted[k].0 in s.foundAt && s.foundAt[s.adopted[k].0] == s.adopted[k].1
  {
    var s := After(INITIAL, events);
    forall k | 0 <= k < |s.adopted|
      ensures s.adopted[k].0 in s.foundAt && s.foundAt[s.adopted[k].0] == s.adopted[k].1
    {
      AdoptedServesItsStepIff(events, k);
      QuietClearsMissNothing(INITIAL, events, s.adopted[k].0);
    }
  }

  // ---- What the hand-over does not promise ----

  ghost predicate Reachable(s: State) {
    exists events :: Legal(INITIAL, events) && After(INITIAL, events) == s
  }

  lemma {:induction false} AfterSnoc(s: State, events: seq<Event>, e: Event)
    requires Legal(s, events) && Enabled(After(s, events), e)
    ensures Legal(s, events + [e]) && After(s, events + [e]) == Step(After(s, events), e)
    decreases |events|
  {
    if events == [] {
      assert [e][1..] == [] && events + [e] == [e];
      assert Legal(Step(s, e), []);
    } else {
      AfterSnoc(Step(s, events[0]), events[1..], e);
      assert (events + [e])[1..] == events[1..] + [e];
    }
  }

  lemma Reach(s: State, e: Event)
    requires Reachable(s) && Enabled(s, e)
    ensures Reachable(Step(s, e))
  {
    var events :| Legal(INITIAL, events) && After(INITIAL, events) == s;
    AfterSnoc(INITIAL, events, e);
    assert Legal(INITIAL, events + [e]) && After(INITIAL, events + [e]) == Step(s, e);
  }

  /** An edit step up to its wait. */
  lemma EditStep(s: State) returns (t: State)
    requires Reachable(s) && s.pc.Outside?
    ensures t == s.(pc := Waiting, requiresRender := true, event := false, slot := None, clears := s.clears + 1)
    ensures Reachable(t)
  {
    Reach(s, Flag);
    t := Step(s, Flag);
    Reach(t, ClearEvent);
    t := Step(t, ClearEvent);
    Reach(t, ClearSlot);
    t := Step(t, ClearSlot);
  }

  /** The end of a wait. */
  lemma WaitOver(s: State, arrived: bool) returns (t: State)
    requires Reachable(s) && s.pc.Waiting? && (arrived ==> s.event)
    ensures t == s.(pc := Outside, requiresRender := false, slot := None,
                    adopted := if arrived && s.slot.Some? then s.adopted + [(s.slot.value, s.clears)] else s.adopted)
    ensures Reachable(t)
  {
    Reach(s, Wake(arrived));
    t := Step(s, Wake(arrived));
    Reach(t, Unflag);
    t := Step(t, Unflag);
    Reach(t, ReadSlot);
    t := Step(t, ReadSlot);
    Reach(t, EmptySlot);
    t := Step(t, EmptySlot);
    Reach(t, Conclude);
    t := Step(t, Conclude);
  }

  /** A delivery found earlier writes its image and sets the event. */
  lemma Deliver(s: State, image: Image) returns (t: State)
    requires Reachable(s) && image in s.deliveries && s.deliveries[image].Found?
    ensures t == s.(slot := Some(image), event := true, deliveries := t.deliveries, writtenAt := t.writtenAt)
    ensures Reachable(t)
  {
    Reach(s, Write(image));
    t := Step(s, Write(image));
    Reach(t, Signal(image));
    t := Step(t, Signal(image));
  }

  predicate ServesLaterStep(s: State) {
    exists k :: 0 <= k < |s.adopted| && s.adopted[k].0 in s.foundAt && s.foundAt[s.adopted[k].0] < s.adopted[k].1
  }

  /** Freshness is about the write only: a delivery begun for one edit step may serve the next. */
  lemma LateDeliveryMayServeNextStep()
    ensures exists s :: Reachable(s) && ServesLaterStep(s)
  {
    hide Step, Enabled;
    assert Legal(INITIAL, []) && After(INITIAL, []) == INITIAL;
    var s1 := EditStep(INITIAL);
    var s2 := Finds(s1, 7);
    var s3 := WaitOver(s2, false);
    var s4 := EditStep(s3);
    var s5 := Deliver(s4, 7);
    var s6 := WaitOver(s5, true);
    assert s6.adopted[0] == (7, 2) && s6.foundAt[7] == 1;
    assert ServesLaterStep(s6);
  }

  lemma Finds(s: State, image: Image) returns (t: State)
    requires Reachable(s) && image !in s.deliveries
    ensures t == s.(deliveries := s.deliveries[image := Found], foundAt := s.foundAt[image := s.clears])
    ensures Reachable(t)
  {
    Reach(s, Find(image));
    t := Step(s, Find(image));
  }
}
