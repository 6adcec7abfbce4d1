/** The one-slot mailbox between the CCD clients (producers of create and destroy events) and
    the master that listens.  Each lock, unlock, wait and field copy is a step of its own;
    the waits may be interrupted, and `listen_obj_rdy` is not read again once the mutex has
    been taken back. */
module CcdMailbox {
  import opened Options
  import opened Traces

  datatype Event = Event(name: nat, src: nat, cmd: nat)

  /** Where a thread stands.  `Entering` and `Woken` want the mutex; `Testing` to `Leaving`
      hold it; `Copying` counts the fields copied so far. */
  datatype Pc = Idle | Entering | Testing | Waiting | Woken | Copying(n: nat) | Leaving

  datatype Thread = Thread(pc: Pc, ev: Event)

  /** `got` is the listener's own buffer, in `listener.ev`. */
  datatype State = State(held: bool, ready: bool, slot: Event, producers: seq<Thread>, listener: Thread,
                         published: seq<Event>, received: seq<Event>)

  datatype Step = Start | Lock | Test | Wake | Interrupt | Copy | Finish | Unlock

  datatype Action = Produce(i: nat, step: Step, ev: Event) | Listen(step: Step)

  /** What lets a thread take a step; `waitFor` is the value of "ready" its wait is for. */
  predicate CanStep(s: State, t: Thread, step: Step, waitFor: bool) {
    match step
    case Start => t.pc == Idle
    case Lock => (t.pc == Entering || t.pc == Woken) && !s.held
    case Test => t.pc == Testing
    case Wake => t.pc == Waiting && s.ready == waitFor
    case Interrupt => t.pc == Waiting
    case Copy => t.pc.Copying? && t.pc.n < 3
    case Finish => t.pc == Copying(3)
    case Unlock => t.pc == Leaving
  }

  /** Where the thread stands after the step. */
  function NextPc(s: State, pc: Pc, step: Step, waitFor: bool): Pc {
    match step
    case Start => Entering
    case Lock => if pc == Woken then Copying(0) else Testing
    case Test => if s.ready == waitFor then Copying(0) else Waiting
    case Wake => Woken
    case Interrupt => Idle
    case Copy => if pc.Copying? then Copying(pc.n + 1) else pc
    case Finish => Leaving
    case Unlock => Idle
  }

  function Held(s: State, step: Step, next: Pc): bool {
    match step
    case Lock => true
    case Test => next.Copying?
    case Unlock => false
    case _ => s.held
  }

  /** `from` copied over `to`, field `n` only. */
  function CopyField(to: Event, from: Event, n: nat): Event {
    if n == 0 then to.(name := from.name)
    else if n == 1 then to.(src := from.src)
    else to.(cmd := from.cmd)
  }

  predicate Enabled(s: State, a: Action) {
    match a
    case Produce(i, step, _) => i < |s.producers| && CanStep(s, s.producers[i], step, false)
    case Listen(step) => CanStep(s, s.listener, step, true)
  }

  function Apply(s: State, a: Action): State
    requires Enabled(s, a)
  {
    match a
    case Produce(i, step, ev) =>
      var t := s.producers[i];
      var next := NextPc(s, t.pc, step, false);
      var s := s.(held := Held(s, step, next),
                  producers := s.producers[i := Thread(next, if step == Start then ev else t.ev)]);
      if step == Copy then s.(slot := CopyField(s.slot, t.ev, t.pc.n))
      else if step == Finish then s.(ready := true, published := s.published + [t.ev])
      else s
    case Listen(step) =>
      var t := s.listener;
      var next := NextPc(s, t.pc, step, true);
      var s := s.(held := Held(s, step, next), listener := t.(pc := next));
      if step == Copy then s.(listener := Thread(next, CopyField(t.ev, s.slot, t.pc.n)))
      else if step == Finish then s.(ready := false, received := s.received + [t.ev])
      else s
  }

  predicate Init(s: State) {
    && !s.held && !s.ready && s.published == s.received == []
    && s.listener.pc == Idle && forall i :: 0 <= i < |s.producers| ==> s.producers[i].pc == Idle
  }

  function Stepper(): (State, Action) -> Option<State> {
    (s: State, a: Action) => if Enabled(s, a) then Some(Apply(s, a)) else None
  }

  ghost predicate Run(ss: seq<State>, acts: seq<Action>) {
    Passes(Stepper(), ss, acts) && Init(ss[0])
  }

  /** At most one producer call is in progress. */
  predicate OneProducer(s: State) {
    forall i, j :: 0 <= i < j < |s.producers| ==> s.producers[i].pc == Idle || s.producers[j].pc == Idle
  }

  // -------------------------------------------------------------------- the invariant

  predicate InSection(pc: Pc) { pc == Testing || pc.Copying? || pc == Leaving }

  /** The first `n` fields agree. */
  predicate Agree(a: Event, b: Event, n: nat) {
    (n > 0 ==> a.name == b.name) && (n > 1 ==> a.src == b.src) && (n > 2 ==> a.cmd == b.cmd)
  }

  predicate LockOk(s: State) {
    && (s.held <==> InSection(s.listener.pc) || exists i :: 0 <= i < |s.producers| && InSection(s.producers[i].pc))
    && (forall i :: 0 <= i < |s.producers| ==> !(InSection(s.listener.pc) && InSection(s.producers[i].pc)))
  }

  /** A producer past its wait finds the slot free until it publishes; a listener past its
      wait finds it full until it has taken the event. */
  predicate SlotOk(s: State) {
    && (forall i :: 0 <= i < |s.producers| && (s.producers[i].pc == Woken || s.producers[i].pc.Copying?) ==> !s.ready)
    && (s.listener.pc == Woken || s.listener.pc.Copying? ==> s.ready)
    && (forall i :: 0 <= i < |s.producers| && s.producers[i].pc.Copying? ==>
         Agree(s.slot, s.producers[i].ev, s.producers[i].pc.n))
    && (s.listener.pc.Copying? ==> Agree(s.listener.ev, s.slot, s.listener.pc.n))
  }

  /** Everything published has been received, but for the event in the slot. */
  predicate Delivered(s: State) { s.published == s.received + (if s.ready then [s.slot] else []) }

  predicate Inv(s: State) { LockOk(s) && SlotOk(s) && Delivered(s) }

  lemma ProducerKeeps(s: State, i: nat, step: Step, ev: Event)
    requires Inv(s) && OneProducer(s) && Enabled(s, Produce(i, step, ev))
    requires OneProducer(Apply(s, Produce(i, step, ev)))
    ensures Inv(Apply(s, Produce(i, step, ev)))
  {
    var t := Apply(s, Produce(i, step, ev));
    assert t.producers[i].pc == NextPc(s, s.producers[i].pc, step, false);
    assert forall j :: 0 <= j < |s.producers| && j != i ==> t.producers[j] == s.producers[j];
    if InSection(s.producers[i].pc) { assert s.held; }
    if step == Finish { assert Agree(s.slot, s.producers[i].ev, 3); }
    assert forall j :: 0 <= j < |s.producers| && j != i && t.producers[i].pc != Idle ==> t.producers[j].pc == Idle;
    assert forall j :: 0 <= j < |s.producers| && j != i && s.producers[i].pc != Idle ==> s.producers[j].pc == Idle;
  }

  lemma ListenerKeeps(s: State, step: Step)
    requires Inv(s) && Enabled(s, Listen(step))
    ensures Inv(Apply(s, Listen(step)))
  {
    if step == Finish { assert Agree(s.listener.ev, s.slot, 3); }
  }

  lemma {:induction false} RunKeeps(ss: seq<State>, acts: seq<Action>, k: nat)
    requires Run(ss, acts) && k < |ss| && forall j :: 0 <= j <= k ==> OneProducer(ss[j])
    ensures Inv(ss[k])
  {
    if k > 0 {
      RunKeeps(ss, acts, k - 1);
      StepAt(Stepper(), ss, acts, k - 1);
      match acts[k - 1]
      case Produce(i, step, ev) => ProducerKeeps(ss[k - 1], i, step, ev);
      case Listen(step) => ListenerKeeps(ss[k - 1], step);
    }
  }

  /** With one producer call in progress at a time and one listener, in every interleaving and
      whichever waits are interrupted, the listener receives the published events whole, in
      order, without loss or repetition, and at most one is outstanding. */
  lemma NothingLost(ss: seq<State>, acts: seq<Action>, k: nat)
    requires Run(ss, acts) && k < |ss| && forall j :: 0 <= j <= k ==> OneProducer(ss[j])
    ensures ss[k].received <= ss[k].published && |ss[k].published| <= |ss[k].received| + 1
  {
    RunKeeps(ss, acts, k);
  }

  // ---------------------------------------------------------- why one producer at a time

  const NONE := Event(0, 0, 0)

  function P(i: nat, step: Step): Action { Produce(i, step, NONE) }

  /** The rest of a producer call that has the mutex and takes the slot to be free. */
  function Filling(i: nat): seq<Action> { [P(i, Copy), P(i, Copy), P(i, Copy), P(i, Finish), P(i, Unlock)] }

  function Filled(s: State, i: nat): State
    requires i < |s.producers|
  {
    var ev := s.producers[i].ev;
    s.(held := false, ready := true, slot := ev, producers := s.producers[i := Thread(Idle, ev)],
       published := s.published + [ev])
  }

  lemma FillingFills(s: State, i: nat)
    requires i < |s.producers| && s.producers[i].pc == Copying(0)
    ensures Leads(Stepper(), s, Filling(i), Filled(s, i))
  {
    var copied := s.(slot := s.producers[i].ev, producers := s.producers[i := Thread(Copying(3), s.producers[i].ev)]);
    ThreeCopies(s, i, copied);
    var s4 := Apply(copied, P(i, Finish));
    assert Apply(s4, P(i, Unlock)) == Filled(s, i);
    hide Leads;
    OneStep(Stepper(), copied, P(i, Finish), s4);
    OneStep(Stepper(), s4, P(i, Unlock), Filled(s, i));
    LeadsOn(Stepper(), copied, [P(i, Finish)], s4, [P(i, Unlock)], Filled(s, i));
    LeadsOn(Stepper(), s, [P(i, Copy), P(i, Copy), P(i, Copy)], copied, [P(i, Finish)] + [P(i, Unlock)], Filled(s, i));
    assert [P(i, Copy), P(i, Copy), P(i, Copy)] + ([P(i, Finish)] + [P(i, Unlock)]) == Filling(i);
  }

  lemma ThreeCopies(s: State, i: nat, t: State)
    requires i < |s.producers| && s.producers[i].pc == Copying(0)
    requires t == s.(slot := s.producers[i].ev, producers := s.producers[i := Thread(Copying(3), s.producers[i].ev)])
    ensures Leads(Stepper(), s, [P(i, Copy), P(i, Copy), P(i, Copy)], t)
  {
    var s1 := Apply(s, P(i, Copy));
    var s2 := Apply(s1, P(i, Copy));
    assert Apply(s2, P(i, Copy)) == t;
    hide Leads;
    OneStep(Stepper(), s, P(i, Copy), s1);
    LeadsStep(Stepper(), s, [P(i, Copy)], s1, P(i, Copy), s2);
    LeadsStep(Stepper(), s, [P(i, Copy)] + [P(i, Copy)], s2, P(i, Copy), t);
  }

  /** The listener's call on a full slot. */
  function Taking(): seq<Action> {
    [Listen(Start), Listen(Lock), Listen(Test)] +
    [Listen(Copy), Listen(Copy), Listen(Copy), Listen(Finish), Listen(Unlock)]
  }

  function Taken(s: State): State {
    s.(held := false, ready := false, listener := Thread(Idle, s.slot), received := s.received + [s.slot])
  }

  lemma TakingTakes(s: State)
    requires s.listener.pc == Idle && !s.held && s.ready
    ensures Leads(Stepper(), s, Taking(), Taken(s))
  {
    var s1 := Apply(s, Listen(Start));
    var s2 := Apply(s1, Listen(Lock));
    var s3 := s.(held := true, listener := s.listener.(pc := Copying(0)));
    assert Apply(s2, Listen(Test)) == s3;
    CopyingTakes(s3);
    hide Leads;
    OneStep(Stepper(), s, Listen(Start), s1);
    LeadsStep(Stepper(), s, [Listen(Start)], s1, Listen(Lock), s2);
    LeadsStep(Stepper(), s, [Listen(Start)] + [Listen(Lock)], s2, Listen(Test), s3);
    var tail := [Listen(Copy), Listen(Copy), Listen(Copy), Listen(Finish), Listen(Unlock)];
    LeadsOn(Stepper(), s, [Listen(Start)] + [Listen(Lock)] + [Listen(Test)], s3, tail, Taken(s));
    assert [Listen(Start)] + [Listen(Lock)] + [Listen(Test)] + tail == Taking();
  }

  lemma CopyingTakes(s: State)
    requires s.listener.pc == Copying(0) && s.held && s.ready
    ensures Leads(Stepper(), s, [Listen(Copy), Listen(Copy), Listen(Copy), Listen(Finish), Listen(Unlock)], Taken(s))
  {
    var s1 := Apply(s, Listen(Copy));
    var s2 := Apply(s1, Listen(Copy));
    var s3 := s.(listener := Thread(Copying(3), s.slot));
    assert Apply(s2, Listen(Copy)) == s3;
    var s4 := Apply(s3, Listen(Finish));
    hide Leads;
    OneStep(Stepper(), s, Listen(Copy), s1);
    LeadsStep(Stepper(), s, [Listen(Copy)], s1, Listen(Copy), s2);
    LeadsStep(Stepper(), s, [Listen(Copy)] + [Listen(Copy)], s2, Listen(Copy), s3);
    LeadsStep(Stepper(), s, [Listen(Copy)] + [Listen(Copy)] + [Listen(Copy)], s3, Listen(Finish), s4);
    LeadsStep(Stepper(), s, [Listen(Copy)] + [Listen(Copy)] + [Listen(Copy)] + [Listen(Finish)],
              s4, Listen(Unlock), Taken(s));
    assert [Listen(Copy)] + [Listen(Copy)] + [Listen(Copy)] + [Listen(Finish)] + [Listen(Unlock)]
        == [Listen(Copy), Listen(Copy), Listen(Copy), Listen(Finish), Listen(Unlock)];
  }

  /** A producer call up to where it waits, or has the mutex on a free slot. */
  function Calling(i: nat, ev: Event): seq<Action> { [Produce(i, Start, ev), P(i, Lock), P(i, Test)] }

  function Called(s: State, i: nat, ev: Event): State
    requires i < |s.producers|
  {
    s.(held := !s.ready, producers := s.producers[i := Thread(if s.ready then Waiting else Copying(0), ev)])
  }

  lemma CallingCalls(s: State, i: nat, ev: Event)
    requires i < |s.producers| && s.producers[i].pc == Idle && !s.held
    ensures Leads(Stepper(), s, Calling(i, ev), Called(s, i, ev))
  {
    var s1 := Apply(s, Produce(i, Start, ev));
    var s2 := Apply(s1, P(i, Lock));
    assert Apply(s2, P(i, Test)) == Called(s, i, ev);
    hide Leads;
    OneStep(Stepper(), s, Produce(i, Start, ev), s1);
    LeadsStep(Stepper(), s, [Produce(i, Start, ev)], s1, P(i, Lock), s2);
    LeadsStep(Stepper(), s, [Produce(i, Start, ev)] + [P(i, Lock)], s2, P(i, Test), Called(s, i, ev));
    assert [Produce(i, Start, ev)] + [P(i, Lock)] + [P(i, Test)] == Calling(i, ev);
  }

  /** One event published, then producers 0 and 1 waiting for the slot. */
  function Crowding(a: Event, b: Event, c: Event): seq<Action> {
    Calling(0, a) + Filling(0) + Calling(0, b) + Calling(1, c)
  }

  function Crowded(s: State, a: Event, b: Event, c: Event): State
    requires |s.producers| >= 2
  {
    s.(ready := true, slot := a, published := s.published + [a],
       producers := s.producers[0 := Thread(Waiting, b)][1 := Thread(Waiting, c)])
  }

  lemma CrowdingCrowds(s: State, a: Event, b: Event, c: Event)
    requires |s.producers| >= 2 && s.producers[0].pc == s.producers[1].pc == Idle && !s.ready && !s.held
    ensures Leads(Stepper(), s, Crowding(a, b, c), Crowded(s, a, b, c))
  {
    hide Leads, Enabled, Apply, Stepper;
    CallingCalls(s, 0, a);
    var s1 := Called(s, 0, a);
    FillingFills(s1, 0);
    var s2 := Filled(s1, 0);
    LeadsOn(Stepper(), s, Calling(0, a), s1, Filling(0), s2);
    CallingCalls(s2, 0, b);
    var s3 := Called(s2, 0, b);
    LeadsOn(Stepper(), s, Calling(0, a) + Filling(0), s2, Calling(0, b), s3);
    CallingCalls(s3, 1, c);
    var s4 := Called(s3, 1, c);
    LeadsOn(Stepper(), s, Calling(0, a) + Filling(0) + Calling(0, b), s3, Calling(1, c), s4);
    assert s4 == Crowded(s, a, b, c);
  }

  /** Both take the emptied slot to be theirs. */
  function Clashing(): seq<Action> {
    [P(0, Wake)] + [P(1, Wake)] + [P(0, Lock)] + Filling(0) + [P(1, Lock)] + Filling(1)
  }

  function Clashed(s: State): State
    requires |s.producers| >= 2
  {
    var b, c := s.producers[0].ev, s.producers[1].ev;
    s.(ready := true, slot := c, published := s.published + [b, c],
       producers := s.producers[0 := Thread(Idle, b)][1 := Thread(Idle, c)])
  }

  lemma ClashingClashes(s: State)
    requires |s.producers| >= 2 && s.producers[0].pc == s.producers[1].pc == Waiting && !s.ready && !s.held
    ensures Leads(Stepper(), s, Clashing(), Clashed(s))
  {
    var b, c := s.producers[0].ev, s.producers[1].ev;
    var s1 := s.(producers := s.producers[0 := Thread(Woken, b)]);
    var s2 := s.(producers := s1.producers[1 := Thread(Woken, c)]);
    var s3 := s2.(held := true, producers := s2.producers[0 := Thread(Copying(0), b)]);
    var s4 := Filled(s3, 0);
    var s5 := s4.(held := true, producers := s4.producers[1 := Thread(Copying(0), c)]);
    FillingFills(s3, 0);
    FillingFills(s5, 1);
    assert Filled(s5, 1) == Clashed(s);
    hide Leads, Filling;
    OneStep(Stepper(), s, P(0, Wake), s1);
    LeadsStep(Stepper(), s, [P(0, Wake)], s1, P(1, Wake), s2);
    LeadsStep(Stepper(), s, [P(0, Wake)] + [P(1, Wake)], s2, P(0, Lock), s3);
    var b1 := [P(0, Wake)] + [P(1, Wake)] + [P(0, Lock)];
    LeadsOn(Stepper(), s, b1, s3, Filling(0), s4);
    LeadsStep(Stepper(), s, b1 + Filling(0), s4, P(1, Lock), s5);
    LeadsOn(Stepper(), s, b1 + Filling(0) + [P(1, Lock)], s5, Filling(1), Clashed(s));
  }

  /** A system of `n` producers before anything has happened. */
  function Fresh(n: nat): State {
    State(false, false, NONE, seq(n, _ => Thread(Idle, NONE)), Thread(Idle, NONE), [], [])
  }

  function Losing(a: Event, b: Event, c: Event): seq<Action> {
    Crowding(a, b, c) + Taking() + Clashing() + Taking()
  }

  function Lost(n: nat, a: Event, b: Event, c: Event): State
    requires n >= 2
  {
    Taken(Clashed(Taken(Crowded(Fresh(n), a, b, c))))
  }

  lemma LosingLoses(n: nat, a: Event, b: Event, c: Event)
    requires n >= 2
    ensures Leads(Stepper(), Fresh(n), Losing(a, b, c), Lost(n, a, b, c))
  {
    hide Leads, Enabled, Apply, Taking, Crowding, Clashing, Stepper;
    var s0 := Fresh(n);
    var s1 := Crowded(s0, a, b, c);
    CrowdingCrowds(s0, a, b, c);
    TakingTakes(s1);
    LeadsOn(Stepper(), s0, Crowding(a, b, c), s1, Taking(), Taken(s1));
    var s2 := Taken(s1);
    ClashingClashes(s2);
    LeadsOn(Stepper(), s0, Crowding(a, b, c) + Taking(), s2, Clashing(), Clashed(s2));
    TakingTakes(Clashed(s2));
    LeadsOn(Stepper(), s0, Crowding(a, b, c) + Taking() + Clashing(), Clashed(s2), Taking(), Lost(n, a, b, c));
  }

  /** With two producers or more, two that waited out the same full slot both take it to be free:
      the second overwrites the first one's event, and the listener never sees it. */
  lemma TwoProducersLose(n: nat, a: Event, b: Event, c: Event) returns (ss: seq<State>, acts: seq<Action>)
    requires n >= 2 && b != c
    ensures Run(ss, acts) && |ss[0].producers| == n
    ensures ss[|acts|].published == [a, b, c] && ss[|acts|].received == [a, c]
    ensures !Lossless(ss[|acts|])
  {
    var t := Lost(n, a, b, c);
    acts := Losing(a, b, c);
    LosingLoses(n, a, b, c);
    assert Init(Fresh(n));
    hide Leads, Enabled, Apply, Losing, Init, Stepper;
    ss := Unfold(Stepper(), Fresh(n), acts, t);
    assert [a, c][1] != [a, b, c][1];
  }

  /** The listener has got a prefix of what was published. */
  predicate Lossless(s: State) { s.received <= s.published }

  /** No run of a system of `n` producers loses or reorders an event. */
  ghost predicate EveryRunLossless(n: nat) {
    forall ss: seq<State>, acts: seq<Action>, k: nat ::
      Run(ss, acts) && |ss[0].producers| == n && k < |ss| ==> Lossless(ss[k])
  }

  lemma {:induction false} ProducersStay(ss: seq<State>, acts: seq<Action>, k: nat)
    requires Run(ss, acts) && k < |ss|
    ensures |ss[k].producers| == |ss[0].producers|
  {
    if k > 0 {
      ProducersStay(ss, acts, k - 1);
      StepAt(Stepper(), ss, acts, k - 1);
    }
  }

  /** The mailbox is lossless exactly for at most one producer. */
  lemma LosslessIff(n: nat)
    ensures EveryRunLossless(n) <==> n <= 1
  {
    if n <= 1 {
      forall ss: seq<State>, acts: seq<Action>, k: nat
        | Run(ss, acts) && |ss[0].producers| == n && k < |ss|
        ensures Lossless(ss[k])
      {
        forall j | 0 <= j <= k ensures OneProducer(ss[j]) { ProducersStay(ss, acts, j); }
        NothingLost(ss, acts, k);
      }
    } else {
      var ss, acts := TwoProducersLose(n, NONE, NONE, Event(1, 0, 0));
      assert !Lossless(ss[|acts|]);
    }
  }
}
