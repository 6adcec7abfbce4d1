/** The message queue of a CCD endpoint: senders append and count, one reader and the drain of
    `mtk_rpmsg_destroy_ept` pop.  The count is read without the lock, so every lock, list
    operation, count update and wait is a step of its own. */
module CcdFifo {
  import opened Options
  import opened Traces

  type Msg = nat

  // ------------------------------------------------------------ one operation at a time

  /** `pending_sendq` and `ccd_cmd_sent` */
  datatype Core = Core(queue: seq<Msg>, cmdSent: int)

  function Pushed(c: Core, m: Msg): Core { Core(c.queue + [m], c.cmdSent + 1) }

  function Popped(c: Core): Core
    requires c.queue != []
  {
    Core(c.queue[1..], c.cmdSent - 1)
  }

  /** The endpoint's queue as the code updates it, one lock section at a time. */
  class Endpoint {
    var queue: seq<Msg>
    var cmdSent: int

    ghost function Contents(): Core
      reads this
    {
      Core(queue, cmdSent)
    }

    ghost predicate Valid()
      reads this
    {
      cmdSent == |queue|
    }

    constructor ()
      ensures Valid() && queue == []
    {
      queue, cmdSent := [], 0;
    }

    /** `rpmsg_ccd_ipi_send` */
    method Send(m: Msg)
      requires Valid()
      modifies this
      ensures Valid() && Contents() == Pushed(old(Contents()), m)
    {
      queue := queue + [m];
      cmdSent := cmdSent + 1;
    }

    /** The section shared by `ccd_worker_read` and the drain. */
    method Pop() returns (m: Msg)
      requires Valid() && queue != []
      modifies this
      ensures Valid() && m == old(queue)[0] && Contents() == Popped(old(Contents()))
    {
      m := queue[0];
      queue := queue[1..];
      cmdSent := cmdSent - 1;
    }

    /** With no sender left, the drain ends, having handed back every message in order. */
    method Drain() returns (back: seq<Msg>)
      requires Valid()
      modifies this
      ensures Valid() && queue == [] && back == old(queue)
    {
      back := [];
      while cmdSent > 0
        invariant Valid() && back + queue == old(queue)
        decreases cmdSent
      {
        ghost var before := queue;
        var m := Pop();
        assert before == [m] + queue;
        back := back + [m];
      }
    }
  }

  // ---------------------------------------------------------------------- interleavings

  /** A sender: wanting the lock, in the section before and after the list append, after the
      count, and about to look whether the reader needs waking. */
  datatype Sender = SIdle | SWant(m: Msg) | SIn(m: Msg) | SPushed | SCounted | SWake

  datatype Reader =
    | RIdle | RTest | RSetRdy | RWait | RAsleep | RClear(ok: bool) | RCheck
    | RLock | RIn | RPopped | RUnlock

  datatype Drain = DIdle | DWake | DTest | DLock | DIn | DPopped | DUnlock | DDone

  datatype Holder = Free | BySender(i: nat) | ByReader | ByDrain

  datatype State = State(lock: Holder, queue: seq<Msg>, cmdSent: int, rdy: bool, destroyed: bool,
                         senders: seq<Sender>, reader: Reader, drain: Drain,
                         sent: seq<Msg>, popped: seq<Msg>, emptyPop: bool)

  datatype Action = Send(i: nat, m: Msg) | SStep(i: nat) | RStep | Interrupt | DStep

  predicate Enabled(s: State, a: Action) {
    match a
    case Send(i, _) => i < |s.senders| && s.senders[i] == SIdle
    case SStep(i) => i < |s.senders| && s.senders[i] != SIdle && (s.senders[i].SWant? ==> s.lock == Free)
    case RStep => s.reader != RAsleep && (s.reader == RLock ==> s.lock == Free)
    case Interrupt => s.reader == RAsleep
    case DStep => s.drain != DDone && (s.drain == DLock ==> s.lock == Free)
  }

  /** `wake_up`: a sleeping reader tests its condition again. */
  function Woken(s: State): Reader { if s.rdy && s.reader == RAsleep then RWait else s.reader }

  /** The first entry taken off the list; `emptyPop` records that there was none. */
  function Pop(s: State): State {
    if s.queue == [] then s.(emptyPop := true)
    else s.(queue := s.queue[1..], popped := s.popped + [s.queue[0]])
  }

  function SenderStep(s: State, i: nat): State
    requires i < |s.senders|
  {
    match s.senders[i]
    case SIdle => s
    case SWant(m) => s.(lock := BySender(i), senders := s.senders[i := SIn(m)])
    case SIn(m) => s.(queue := s.queue + [m], sent := s.sent + [m], senders := s.senders[i := SPushed])
    case SPushed => s.(cmdSent := s.cmdSent + 1, senders := s.senders[i := SCounted])
    case SCounted => s.(lock := Free, senders := s.senders[i := SWake])
    case SWake => s.(reader := Woken(s), senders := s.senders[i := SIdle])
  }

  function ReaderStep(s: State): State {
    match s.reader
    case RIdle => if s.destroyed then s else s.(reader := RTest)
    case RTest => s.(reader := if s.cmdSent == 0 then RSetRdy else RCheck)
    case RSetRdy => s.(rdy := true, reader := RWait)
    case RWait => s.(reader := if s.cmdSent > 0 || s.destroyed then RClear(true) else RAsleep)
    case RAsleep => s
    case RClear(ok) => s.(rdy := false, reader := if ok then RCheck else RIdle)
    case RCheck => s.(reader := if s.destroyed then RIdle else RLock)
    case RLock => s.(lock := ByReader, reader := RIn)
    case RIn => Pop(s).(reader := RPopped)
    case RPopped => s.(cmdSent := s.cmdSent - 1, reader := RUnlock)
    case RUnlock => s.(lock := Free, reader := RIdle)
  }

  function DrainStep(s: State): State {
    match s.drain
    case DIdle => s.(destroyed := true, drain := DWake)
    case DWake => s.(reader := Woken(s), drain := DTest)
    case DTest => s.(drain := if s.cmdSent > 0 then DLock else DDone)
    case DLock => s.(lock := ByDrain, drain := DIn)
    case DIn => Pop(s).(drain := DPopped)
    case DPopped => s.(cmdSent := s.cmdSent - 1, drain := DUnlock)
    case DUnlock => s.(lock := Free, drain := DTest)
    case DDone => s
  }

  function Apply(s: State, a: Action): State
    requires Enabled(s, a)
  {
    match a
    case Send(i, m) => s.(senders := s.senders[i := SWant(m)])
    case SStep(i) => SenderStep(s, i)
    case RStep => ReaderStep(s)
    case Interrupt => s.(reader := RClear(false))
    case DStep => DrainStep(s)
  }

  predicate Init(s: State) {
    && s.lock == Free && s.queue == s.sent == s.popped == [] && s.cmdSent == 0
    && !s.rdy && !s.destroyed && !s.emptyPop && s.reader == RIdle && s.drain == DIdle
    && forall i :: 0 <= i < |s.senders| ==> s.senders[i] == SIdle
  }

  function Stepper(): (State, Action) -> Option<State> {
    (s: State, a: Action) => if Enabled(s, a) then Some(Apply(s, a)) else None
  }

  ghost predicate Run(ss: seq<State>, acts: seq<Action>) {
    Passes(Stepper(), ss, acts) && Init(ss[0])
  }

  function One(b: bool): nat { if b then 1 else 0 }

  /** The consumers that have seen a message counted and not popped it yet. */
  function Waiting(s: State): nat {
    One(s.reader == RLock || s.reader == RIn) + One(s.drain == DLock || s.drain == DIn)
  }

  /** The messages queued, with the one a sender in its section is about to append. */
  function Coming(s: State): nat {
    |s.queue| + One(s.lock.BySender? && s.lock.i < |s.senders| && s.senders[s.lock.i].SIn?)
  }

  /** There is a message for every consumer waiting. */
  predicate Enough(s: State) { Waiting(s) <= Coming(s) }

  // -------------------------------------------------------------------- the invariant

  predicate SInside(t: Sender) { t.SIn? || t.SPushed? || t.SCounted? }

  predicate LockOk(s: State) {
    && (forall i :: 0 <= i < |s.senders| ==> (SInside(s.senders[i]) <==> s.lock == BySender(i)))
    && (s.lock.BySender? ==> s.lock.i < |s.senders|)
    && (s.reader == RIn || s.reader == RPopped || s.reader == RUnlock <==> s.lock == ByReader)
    && (s.drain == DIn || s.drain == DPopped || s.drain == DUnlock <==> s.lock == ByDrain)
  }

  /** How far the count is ahead of the queue, inside a lock section. */
  function Ahead(s: State): int {
    if s.lock.BySender? && s.lock.i < |s.senders| && s.senders[s.lock.i] == SPushed then -1
    else if s.lock == ByReader && s.reader == RPopped then 1
    else if s.lock == ByDrain && s.drain == DPopped then 1
    else 0
  }

  predicate CountOk(s: State) {
    && s.popped + s.queue == s.sent
    && s.cmdSent == |s.queue| + Ahead(s) && s.cmdSent >= 0
    && !s.emptyPop
  }

  predicate WindowOk(s: State) {
    && (s.drain == DIdle <==> !s.destroyed)
    && (s.reader == RCheck || s.reader == RClear(true) ==> s.cmdSent > 0 || s.destroyed)
  }

  predicate Waking(s: State) { exists i :: 0 <= i < |s.senders| && (s.senders[i] == SCounted || s.senders[i] == SWake) }

  predicate SleepOk(s: State) {
    && (s.rdy <==> s.reader == RWait || s.reader == RAsleep || s.reader.RClear?)
    && (s.reader == RAsleep && s.cmdSent > 0 ==> Waking(s))
    && (s.reader == RAsleep && s.destroyed ==> s.drain == DWake)
  }

  predicate Inv(s: State) { LockOk(s) && CountOk(s) && WindowOk(s) && SleepOk(s) }

  lemma SenderCounts(s: State, i: nat)
    requires LockOk(s) && CountOk(s) && WindowOk(s) && Enabled(s, SStep(i))
    ensures var t := Apply(s, SStep(i)); LockOk(t) && CountOk(t) && WindowOk(t)
  {
    var t := Apply(s, SStep(i));
    assert forall j :: 0 <= j < |s.senders| && j != i ==> t.senders[j] == s.senders[j];
    if s.senders[i].SIn? {
      assert t.popped + t.queue == (s.popped + s.queue) + [s.senders[i].m];
    }
  }

  lemma SenderSleeps(s: State, i: nat)
    requires SleepOk(s) && Enabled(s, SStep(i))
    ensures SleepOk(Apply(s, SStep(i)))
  {
    var t := Apply(s, SStep(i));
    if t.reader == RAsleep && t.cmdSent > 0 {
      if s.senders[i] == SPushed || s.senders[i] == SCounted {
        assert t.senders[i] == SCounted || t.senders[i] == SWake;
      } else {
        var j :| 0 <= j < |s.senders| && (s.senders[j] == SCounted || s.senders[j] == SWake);
        assert t.senders[j] == s.senders[j];
      }
    }
  }

  lemma SendKeeps(s: State, i: nat, m: Msg)
    requires Inv(s) && Enabled(s, Send(i, m))
    ensures Inv(Apply(s, Send(i, m)))
  {
    var t := Apply(s, Send(i, m));
    assert forall j :: 0 <= j < |s.senders| && j != i ==> t.senders[j] == s.senders[j];
    if Waking(s) {
      var j :| 0 <= j < |s.senders| && (s.senders[j] == SCounted || s.senders[j] == SWake);
      assert t.senders[j] == s.senders[j];
    }
  }

  lemma ReaderCounts(s: State)
    requires LockOk(s) && CountOk(s) && WindowOk(s) && Enabled(s, RStep) && !Apply(s, RStep).emptyPop
    ensures var t := Apply(s, RStep); LockOk(t) && CountOk(t) && WindowOk(t)
  {
    if s.reader == RIn {
      assert s.popped + s.queue == (s.popped + [s.queue[0]]) + s.queue[1..];
    }
  }

  lemma ReaderSleeps(s: State)
    requires CountOk(s) && WindowOk(s) && SleepOk(s) && Enabled(s, RStep)
    ensures SleepOk(Apply(s, RStep))
  {
    hide CountOk, WindowOk;
    assert Waking(s) == Waking(Apply(s, RStep));
  }

  lemma InterruptKeeps(s: State)
    requires Inv(s) && Enabled(s, Interrupt)
    ensures Inv(Apply(s, Interrupt))
  {
    assert Waking(s) == Waking(Apply(s, Interrupt));
  }

  lemma DrainCounts(s: State)
    requires LockOk(s) && CountOk(s) && WindowOk(s) && Enabled(s, DStep) && !Apply(s, DStep).emptyPop
    ensures var t := Apply(s, DStep); LockOk(t) && CountOk(t) && WindowOk(t)
  {
    if s.drain == DIn {
      assert s.popped + s.queue == (s.popped + [s.queue[0]]) + s.queue[1..];
    }
  }

  lemma DrainSleeps(s: State)
    requires CountOk(s) && WindowOk(s) && SleepOk(s) && Enabled(s, DStep)
    ensures SleepOk(Apply(s, DStep))
  {
    assert Waking(s) == Waking(Apply(s, DStep));
  }

  lemma StepKeeps(s: State, a: Action)
    requires Inv(s) && Enabled(s, a) && !Apply(s, a).emptyPop
    ensures Inv(Apply(s, a))
  {
    hide Apply, Enabled, LockOk, CountOk, WindowOk, SleepOk;
    match a
    case Send(i, m) => SendKeeps(s, i, m);
    case SStep(i) =>
      SenderCounts(s, i);
      SenderSleeps(s, i);
    case RStep =>
      ReaderCounts(s);
      ReaderSleeps(s);
    case Interrupt => InterruptKeeps(s);
    case DStep =>
      DrainCounts(s);
      DrainSleeps(s);
  }

  /** The drain has not looked at the count yet. */
  predicate Early(s: State) { s.drain == DIdle || s.drain == DWake }

  /** What has happened has happened. */
  lemma NoWayBack(s: State, a: Action)
    requires Enabled(s, a)
    ensures s.emptyPop ==> Apply(s, a).emptyPop
    ensures Early(Apply(s, a)) ==> Early(s)
  {
  }

  lemma {:induction false} RunKeeps(ss: seq<State>, acts: seq<Action>, k: nat)
    requires Run(ss, acts) && k < |ss| && !ss[k].emptyPop
    ensures Inv(ss[k])
  {
    if k > 0 {
      hide Apply, Enabled, Inv;
      StepAt(Stepper(), ss, acts, k - 1);
      NoWayBack(ss[k - 1], acts[k - 1]);
      RunKeeps(ss, acts, k - 1);
      StepKeeps(ss[k - 1], acts[k - 1]);
    }
  }

  lemma EnoughPops(s: State, a: Action)
    requires Inv(s) && Enough(s) && Enabled(s, a)
    ensures !Apply(s, a).emptyPop
    ensures Apart(Apply(s, a)) ==> Enough(Apply(s, a))
  {
  }

  /** In every interleaving of any number of senders, the reader and the drain: messages popped,
      then queued, are the messages sent, in order, and whenever the lock is free the count is
      the queue's length, unless an empty list was popped. */
  lemma Conserved(ss: seq<State>, acts: seq<Action>, k: nat)
    requires Run(ss, acts) && k < |ss| && !ss[k].emptyPop
    ensures ss[k].popped + ss[k].queue == ss[k].sent
    ensures ss[k].lock == Free ==> ss[k].cmdSent == |ss[k].queue|
  {
    RunKeeps(ss, acts, k);
  }

  /** At most one consumer is between its look at the count and its update of it. */
  predicate Apart(s: State) {
    !((s.reader == RLock || s.reader == RIn || s.reader == RPopped) &&
      (s.drain == DLock || s.drain == DIn || s.drain == DPopped))
  }

  /** With one consumer at a time between count check and count update, no pop meets an empty list,
      and there is a message for every consumer waiting. */
  lemma {:induction false} OneInside(ss: seq<State>, acts: seq<Action>, k: nat)
    requires Run(ss, acts) && k < |ss| && forall j :: 0 <= j <= k ==> Apart(ss[j])
    ensures !ss[k].emptyPop && Enough(ss[k])
  {
    if k > 0 {
      hide Enough, Apart, Apply, Enabled, Inv;
      OneInside(ss, acts, k - 1);
      RunKeeps(ss, acts, k - 1);
      StepAt(Stepper(), ss, acts, k - 1);
      EnoughPops(ss[k - 1], acts[k - 1]);
    }
  }

  /** No wake-up is lost: a reader asleep while a message waits, or while the endpoint is being
      destroyed, is one that some sender, or the drain, is about to wake. */
  lemma NoLostWakeUp(ss: seq<State>, acts: seq<Action>, k: nat)
    requires Run(ss, acts) && k < |ss| && !ss[k].emptyPop
    requires ss[k].reader == RAsleep && ss[k].lock == Free && !Waking(ss[k]) && ss[k].drain != DWake
    ensures ss[k].queue == [] && ss[k].cmdSent == 0 && !ss[k].destroyed
  {
    RunKeeps(ss, acts, k);
  }

  // ------------------------------------------------------------- when consumers clash

  function SenderLeft(t: Sender): nat {
    match t
    case SWant(_) => 14
    case SIn(_) => 13
    case SPushed => 4
    case SCounted => 3
    case SWake => 2
    case SIdle => 0
  }

  function SendersLeft(ts: seq<Sender>): nat {
    if ts == [] then 0 else SenderLeft(ts[0]) + SendersLeft(ts[1..])
  }

  function ReaderLeft(r: Reader): nat {
    match r
    case RTest => 5
    case RSetRdy => 4
    case RWait => 3
    case RAsleep => 2
    case RClear(ok) => if ok then 2 else 1
    case RCheck => 1
    case RLock => 4
    case RIn => 3
    case RPopped => 2
    case RUnlock => 1
    case RIdle => 0
  }

  function DrainLeft(d: Drain): nat {
    match d
    case DIdle => 8
    case DWake => 7
    case DTest => 5
    case DLock => 4
    case DIn => 3
    case DPopped => 7
    case DUnlock => 6
    case DDone => 0
  }

  /** What is left to do once the endpoint is being destroyed: for every message queued a round of
      the drain, and what each thread has begun. */
  function Left(s: State): nat {
    8 * |s.queue| + DrainLeft(s.drain) + ReaderLeft(s.reader) + SendersLeft(s.senders)
  }

  lemma {:induction false} SendersLeftUpdate(ts: seq<Sender>, i: nat, t: Sender)
    requires i < |ts|
    ensures SendersLeft(ts[i := t]) == SendersLeft(ts) - SenderLeft(ts[i]) + SenderLeft(t)
  {
    if i == 0 {
      assert ts[i := t][1..] == ts[1..];
    } else {
      assert ts[i := t][1..] == ts[1..][i - 1 := t];
      SendersLeftUpdate(ts[1..], i - 1, t);
    }
  }

  lemma SenderUses(s: State, i: nat)
    requires Enabled(s, SStep(i))
    ensures Left(Apply(s, SStep(i))) < Left(s)
  {
    SendersLeftUpdate(s.senders, i, Apply(s, SStep(i)).senders[i]);
  }

  /** The next step of whoever holds the lock, or else of a consumer waiting for it. */
  function Next(s: State): Action {
    match s.lock
    case BySender(i) => SStep(i)
    case ByReader => RStep
    case ByDrain => DStep
    case Free => if s.reader == RLock then RStep else DStep
  }

  /** Once the endpoint is being destroyed: a reader past its last check of the state will pop, and
      the drain may still take the message it counts on. */
  predicate Danger(s: State) {
    || !Enough(s)
    || (s.reader == RLock && s.drain != DDone)
    || ((s.drain == DWake || s.drain == DTest) && s.reader == RIn && |s.queue| < 2)
    || ((s.drain == DWake || s.drain == DTest) && s.reader == RPopped && s.queue == [])
  }

  predicate Doomed(s: State) { if s.destroyed then Danger(s) else !Enough(s) }

  /** Towards the clash the reader waits, behind a sender in its section, until the drain is after
      its message; then whoever holds the lock goes on, or else a consumer waiting for it. */
  function Toward(s: State): Action {
    if Enough(s) then if s.lock.BySender? then SStep(s.lock.i) else DStep else Next(s)
  }

  lemma DoomedStays(s: State)
    requires Inv(s) && Doomed(s)
    ensures Enabled(s, Toward(s))
    ensures var t := Apply(s, Toward(s)); t.emptyPop || (Doomed(t) && Left(t) < Left(s))
    ensures !s.lock.BySender? ==> !Apply(s, Toward(s)).lock.BySender? && Apply(s, Toward(s)).sent == s.sent
  {
    if s.lock.BySender? { SenderUses(s, s.lock.i); }
  }

  /** From a state with more consumers waiting than messages coming, or on the way to one, the
      threads inside can be scheduled so that one pops an empty list. */
  lemma {:induction false} Clash(s: State) returns (acts: seq<Action>, t: State)
    requires s.emptyPop || (Inv(s) && Doomed(s))
    ensures Leads(Stepper(), s, acts, t) && t.emptyPop
    ensures !s.lock.BySender? ==> t.sent == s.sent
    decreases Left(s)
  {
    if s.emptyPop {
      acts, t := [], s;
    } else {
      hide Inv, Doomed, Apply, Enabled, Left, Toward;
      var a := Toward(s);
      DoomedStays(s);
      var u := Apply(s, a);
      if !u.emptyPop { StepKeeps(s, a); }
      if u.emptyPop {
        acts, t := [a], u;
        OneStep(Stepper(), s, a, u);
      } else {
        var rest;
        rest, t := Clash(u);
        acts := [a] + rest;
        OneStep(Stepper(), s, a, u);
        LeadsOn(Stepper(), s, [a], u, rest, t);
      }
    }
  }

  /** Once more consumers wait than messages are coming, the run can be continued to a pop from an
      empty list. */
  lemma ShortfallClashes(ss: seq<State>, acts: seq<Action>) returns (ss': seq<State>, more: seq<Action>)
    requires Run(ss, acts) && !Enough(ss[|acts|])
    ensures Run(ss', acts + more) && ss <= ss' && ss'[|acts + more|].emptyPop
  {
    if !ss[|acts|].emptyPop { RunKeeps(ss, acts, |acts|); }
    var t;
    more, t := Clash(ss[|acts|]);
    ss' := Extend(Stepper(), ss, acts, more, t);
  }

  // --------------------------------------------------------- when destroying is dangerous

  predicate Safe(s: State) { s.destroyed && !Danger(s) }

  lemma SafeKeeps(s: State, a: Action)
    requires Inv(s) && Safe(s) && Enabled(s, a)
    ensures !Apply(s, a).emptyPop && Safe(Apply(s, a))
  {
    if a.SStep? {
      var t := Apply(s, a);
      assert forall j :: 0 <= j < |s.senders| && j != a.i ==> t.senders[j] == s.senders[j];
    }
  }

  lemma {:induction false} SafeRun(ss: seq<State>, acts: seq<Action>, j: nat, k: nat)
    requires Run(ss, acts) && j <= k < |ss| && !ss[j].emptyPop && Safe(ss[j])
    ensures !ss[k].emptyPop && Safe(ss[k])
    decreases k
  {
    if j < k {
      hide Safe, Apply, Enabled, Inv;
      SafeRun(ss, acts, j, k - 1);
      RunKeeps(ss, acts, k - 1);
      StepAt(Stepper(), ss, acts, k - 1);
      SafeKeeps(ss[k - 1], acts[k - 1]);
    }
  }

  /** The run can be continued, by whatever calls and schedule, to a pop from an empty list. */
  ghost predicate CanClash(ss: seq<State>, acts: seq<Action>) {
    exists ss': seq<State>, more: seq<Action> ::
      Run(ss', acts + more) && ss <= ss' && ss'[|acts + more|].emptyPop
  }

  /** After destruction has begun, `Danger` is the exact condition. */
  lemma ClashIff(ss: seq<State>, acts: seq<Action>)
    requires Run(ss, acts) && ss[|acts|].destroyed && !ss[|acts|].emptyPop
    ensures CanClash(ss, acts) <==> Danger(ss[|acts|])
  {
    var s := ss[|acts|];
    RunKeeps(ss, acts, |acts|);
    hide Danger, Inv, Leads;
    if Danger(s) {
      var more, t := Clash(s);
      var ss' := Extend(Stepper(), ss, acts, more, t);
      assert Run(ss', acts + more);
    } else {
      forall ss': seq<State>, more: seq<Action> | Run(ss', acts + more) && ss <= ss'
        ensures !ss'[|acts + more|].emptyPop
      {
        assert ss'[|acts|] == s;
        SafeRun(ss', acts + more, |acts|, |acts + more|);
      }
    }
  }

  /** A reader that the beginning of destruction catches on its way to the last message. */
  predicate Caught(s: State) {
    s.reader == RLock || (s.reader == RIn && |s.queue| < 2) || (s.reader == RPopped && s.queue == [])
  }

  /** The drain has been nowhere near a message before it first looks at the count. */
  lemma {:induction false} Arrives(ss: seq<State>, acts: seq<Action>, k: nat)
    requires Run(ss, acts) && k < |ss| && Early(ss[k])
    ensures !ss[k].emptyPop && Enough(ss[k])
  {
    if k > 0 {
      hide Inv, Enough, Apply, Enabled;
      StepAt(Stepper(), ss, acts, k - 1);
      NoWayBack(ss[k - 1], acts[k - 1]);
      Arrives(ss, acts, k - 1);
      RunKeeps(ss, acts, k - 1);
      EnoughPops(ss[k - 1], acts[k - 1]);
    }
  }

  /** Destroying an endpoint can make a consumer pop an empty list if and only if it begins while
      the reader is past its check of the state and has not taken its message, or has just taken
      the last one and not counted it off. */
  lemma DestroyClashIff(ss: seq<State>, acts: seq<Action>)
    requires Run(ss, acts) && ss[|acts|].drain == DWake
    ensures CanClash(ss, acts) <==> Caught(ss[|acts|])
  {
    Arrives(ss, acts, |acts|);
    RunKeeps(ss, acts, |acts|);
    ClashIff(ss, acts);
  }

  // --------------------------------------------------------------------- whole operations

  function CoreOf(s: State): Core { Core(s.queue, s.cmdSent) }

  /** A send, undisturbed, is the one of `Endpoint`. */
  lemma SendWhole(s: State, i: nat, m: Msg) returns (acts: seq<Action>, t: State)
    requires i < |s.senders| && s.senders[i] == SIdle && s.lock == Free && s.reader != RAsleep
    ensures Leads(Stepper(), s, acts, t) && CoreOf(t) == Pushed(CoreOf(s), m)
    ensures t == s.(queue := t.queue, cmdSent := t.cmdSent, sent := s.sent + [m])
  {
    var s1 := Apply(s, Send(i, m));
    var s2 := Apply(s1, SStep(i));
    var s3 := Apply(s2, SStep(i));
    var s4 := Apply(s3, SStep(i));
    var s5 := Apply(s4, SStep(i));
    t := Apply(s5, SStep(i));
    assert t.senders == s.senders;
    hide Leads;
    OneStep(Stepper(), s, Send(i, m), s1);
    LeadsStep(Stepper(), s, [Send(i, m)], s1, SStep(i), s2);
    LeadsStep(Stepper(), s, [Send(i, m)] + [SStep(i)], s2, SStep(i), s3);
    LeadsStep(Stepper(), s, [Send(i, m)] + [SStep(i)] + [SStep(i)], s3, SStep(i), s4);
    LeadsStep(Stepper(), s, [Send(i, m)] + [SStep(i)] + [SStep(i)] + [SStep(i)], s4, SStep(i), s5);
    acts := [Send(i, m)] + [SStep(i)] + [SStep(i)] + [SStep(i)] + [SStep(i)] + [SStep(i)];
    LeadsStep(Stepper(), s, [Send(i, m)] + [SStep(i)] + [SStep(i)] + [SStep(i)] + [SStep(i)], s5, SStep(i), t);
  }

  /** A read from the lock on, undisturbed, is the pop of `Endpoint`. */
  lemma ReadWhole(s: State) returns (acts: seq<Action>, t: State)
    requires s.reader == RLock && s.lock == Free && s.queue != []
    ensures Leads(Stepper(), s, acts, t) && CoreOf(t) == Popped(CoreOf(s))
    ensures t == s.(queue := t.queue, cmdSent := t.cmdSent, reader := RIdle, popped := s.popped + [s.queue[0]])
  {
    var s1 := Apply(s, RStep);
    var s2 := Apply(s1, RStep);
    var s3 := Apply(s2, RStep);
    t := Apply(s3, RStep);
    hide Leads;
    OneStep(Stepper(), s, RStep, s1);
    LeadsStep(Stepper(), s, [RStep], s1, RStep, s2);
    LeadsStep(Stepper(), s, [RStep] + [RStep], s2, RStep, s3);
    LeadsStep(Stepper(), s, [RStep] + [RStep] + [RStep], s3, RStep, t);
    acts := [RStep] + [RStep] + [RStep] + [RStep];
  }

  /** A run from the start, with the endpoint destroyed as the reader goes for the only message,
      that pops an empty list. */
  lemma EmptyPopRun(m: Msg) returns (ss: seq<State>, acts: seq<Action>)
    ensures Run(ss, acts) && ss[|acts|].emptyPop && ss[|acts|].sent == [m]
  {
    var s0 := State(Free, [], 0, false, false, [SIdle], RIdle, DIdle, [], [], false);
    var a1, s1 := SendWhole(s0, 0, m);
    var s2 := Apply(s1, RStep);
    var s3 := Apply(s2, RStep);
    var s4 := Apply(s3, RStep);
    var s5 := Apply(s4, DStep);
    assert Doomed(s5) && Inv(s5) && Init(s0);
    var a2, t := Clash(s5);
    hide Leads, Init;
    LeadsStep(Stepper(), s0, a1, s1, RStep, s2);
    LeadsStep(Stepper(), s0, a1 + [RStep], s2, RStep, s3);
    LeadsStep(Stepper(), s0, a1 + [RStep] + [RStep], s3, RStep, s4);
    LeadsStep(Stepper(), s0, a1 + [RStep] + [RStep] + [RStep], s4, DStep, s5);
    LeadsOn(Stepper(), s0, a1 + [RStep] + [RStep] + [RStep] + [DStep], s5, a2, t);
    acts := a1 + [RStep] + [RStep] + [RStep] + [DStep] + a2;
    ss := Unfold(Stepper(), s0, acts, t);
  }

  // ----------------------------------------------------------------------- the drain ends

  /** A call on the endpoint begun, or one refused because it is being destroyed. */
  predicate Fresh(s: State, a: Action) { a.Send? || (a == RStep && s.reader == RIdle) }

  /** Everything but a new call uses up some of what is left. */
  lemma StepUses(s: State, a: Action)
    requires Inv(s) && s.destroyed && Enabled(s, a) && !Fresh(s, a) && !Apply(s, a).emptyPop
    ensures Left(Apply(s, a)) < Left(s) && Apply(s, a).destroyed
  {
    if a.SStep? { SenderUses(s, a.i); }
  }

  /** Once no call is begun any more, only so many steps remain, with readers and senders still
      inside their calls. */
  lemma {:induction false} StepsLeft(ss: seq<State>, acts: seq<Action>, j: nat, k: nat)
    requires Run(ss, acts) && |ss| == |acts| + 1 && j <= k < |ss| && ss[j].destroyed && !ss[k].emptyPop
    requires forall i {:trigger acts[i]} :: j <= i < k ==> !Fresh(ss[i], acts[i])
    ensures k - j <= Left(ss[j]) - Left(ss[k]) && ss[k].destroyed
    decreases k - j
  {
    hide Left, Fresh, Apply, Enabled, Init, Inv;
    if j < k {
      StepAt(Stepper(), ss, acts, k - 1);
      NoWayBack(ss[k - 1], acts[k - 1]);
      StepsLeft(ss, acts, j, k - 1);
      RunKeeps(ss, acts, k - 1);
      StepUses(ss[k - 1], acts[k - 1]);
    }
  }

  /** The drain ends: however the threads are scheduled, a run without new calls is at most `Left`
      long, and one that cannot go on has the drain done. */
  lemma DrainEnds(ss: seq<State>, acts: seq<Action>, j: nat)
    requires Run(ss, acts) && j <= |acts| && ss[j].destroyed && !ss[|acts|].emptyPop
    requires forall i {:trigger acts[i]} :: j <= i < |acts| ==> !Fresh(ss[i], acts[i])
    ensures |acts| - j <= Left(ss[j])
    ensures (forall a :: Enabled(ss[|acts|], a) ==> Fresh(ss[|acts|], a)) ==> ss[|acts|].drain == DDone
  {
    hide Left, Apply;
    StepsLeft(ss, acts, j, |acts|);
    RunKeeps(ss, acts, |acts|);
    var s := ss[|acts|];
    assert s.drain != DDone ==> Enabled(s, if s.drain == DLock then Next(s) else DStep);
  }

  // --------------------------------------------------------------- what the drain leaves

  predicate NoSends(acts: seq<Action>) { forall k :: 0 <= k < |acts| ==> !acts[k].Send? }

  predicate Appending(s: State) {
    s.lock.BySender? && s.lock.i < |s.senders| && (s.senders[s.lock.i].SIn? || s.senders[s.lock.i].SPushed?)
  }

  /** A sender can still append after the drain has read the count for the last time. */
  predicate Late(s: State) {
    || (exists i :: 0 <= i < |s.senders| && s.senders[i].SWant?)
    || (Appending(s) && s.cmdSent == 0 && (s.drain == DWake || s.drain == DTest))
  }

  /** However the calls already begun are scheduled, the drain leaves the queue empty. */
  ghost predicate Drains(s: State) {
    forall acts: seq<Action>, t: State ::
      Leads(Stepper(), s, acts, t) && NoSends(acts) && !t.emptyPop && t.drain == DDone ==> t.queue == []
  }

  predicate Settled(s: State) { !Late(s) && (s.drain == DDone ==> s.queue == [] && !Appending(s)) }

  lemma SettledKeeps(s: State, a: Action)
    requires Inv(s) && s.destroyed && Settled(s) && Enabled(s, a) && !a.Send? && !Apply(s, a).emptyPop
    ensures Settled(Apply(s, a)) && Apply(s, a).destroyed
  {
    var t := Apply(s, a);
    assert forall i :: 0 <= i < |t.senders| && t.senders[i].SWant? ==> s.senders[i].SWant?;
  }

  lemma {:induction false} SettledRun(ss: seq<State>, acts: seq<Action>, j: nat, k: nat)
    requires Run(ss, acts) && j <= k < |ss| && !ss[k].emptyPop && ss[j].destroyed && Settled(ss[j])
    requires forall i {:trigger acts[i]} :: j <= i < k ==> !acts[i].Send?
    ensures Settled(ss[k]) && ss[k].destroyed
    decreases k
  {
    hide Settled, Apply, Enabled, Init, Inv;
    if j < k {
      StepAt(Stepper(), ss, acts, k - 1);
      NoWayBack(ss[k - 1], acts[k - 1]);
      SettledRun(ss, acts, j, k - 1);
      RunKeeps(ss, acts, k - 1);
      SettledKeeps(ss[k - 1], acts[k - 1]);
    }
  }

  lemma NextKeepsEnough(s: State)
    requires Inv(s) && Enough(s) && s.destroyed && s.drain != DDone
    ensures Enabled(s, Next(s)) && !Fresh(s, Next(s)) && !Apply(s, Next(s)).emptyPop
    ensures Enough(Apply(s, Next(s)))
    ensures Apply(s, Next(s)).drain == DDone ==> Apply(s, Next(s)).lock == Free
    ensures forall i :: 0 <= i < |s.senders| && s.senders[i].SWant? ==>
      i < |Apply(s, Next(s)).senders| && Apply(s, Next(s)).senders[i] == s.senders[i]
  {
  }

  /** The drain can finish before a sender that is still waiting for the lock. */
  lemma {:induction false} DrainFirst(s: State, i: nat) returns (acts: seq<Action>, t: State)
    requires Inv(s) && Enough(s) && s.destroyed
    requires s.drain == DDone ==> s.lock == Free
    requires i < |s.senders| && s.senders[i].SWant?
    ensures Leads(Stepper(), s, acts, t) && NoSends(acts) && !t.emptyPop
    ensures t.drain == DDone && t.lock == Free && i < |t.senders| && t.senders[i].SWant?
    decreases Left(s)
  {
    if s.drain == DDone {
      acts, t := [], s;
    } else {
      hide Inv, Enough, Apply, Enabled, Left, Fresh;
      var a := Next(s);
      NextKeepsEnough(s);
      StepKeeps(s, a);
      StepUses(s, a);
      var u := Apply(s, a);
      var rest;
      rest, t := DrainFirst(u, i);
      acts := [a] + rest;
      OneStep(Stepper(), s, a, u);
      LeadsOn(Stepper(), s, [a], u, rest, t);
    }
  }

  lemma LateLeaves(s: State) returns (acts: seq<Action>, t: State)
    requires Inv(s) && Enough(s) && s.destroyed && s.drain != DDone && Late(s)
    ensures Leads(Stepper(), s, acts, t) && NoSends(acts) && !t.emptyPop && t.drain == DDone && t.queue != []
  {
    if i :| 0 <= i < |s.senders| && s.senders[i].SWant? {
      var before, u := DrainFirst(s, i);
      var v := Apply(u, SStep(i));
      t := Apply(v, SStep(i));
      LeadsStep(Stepper(), s, before, u, SStep(i), v);
      LeadsStep(Stepper(), s, before + [SStep(i)], v, SStep(i), t);
      acts := before + [SStep(i)] + [SStep(i)];
    } else {
      var wake := if s.drain == DWake then [DStep] else [];
      var u := if s.drain == DWake then Apply(s, DStep) else s;
      assert Leads(Stepper(), s, wake, u) by { if s.drain == DWake { OneStep(Stepper(), s, DStep, u); } }
      var v := Apply(u, DStep);
      LeadsStep(Stepper(), s, wake, u, DStep, v);
      var i := s.lock.i;
      if s.senders[i].SIn? {
        t := Apply(v, SStep(i));
        LeadsStep(Stepper(), s, wake + [DStep], v, SStep(i), t);
        acts := wake + [DStep] + [SStep(i)];
      } else {
        acts, t := wake + [DStep], v;
      }
    }
  }

  /** Destroying leaves no message behind, however the calls begun go on, if and only if no sender
      can still append after the drain's last look at the count. */
  lemma DrainsIff(ss: seq<State>, acts: seq<Action>)
    requires Run(ss, acts)
    requires var s := ss[|acts|]; !s.emptyPop && Enough(s) && s.destroyed && s.drain != DDone
    ensures Drains(ss[|acts|]) <==> !Late(ss[|acts|])
  {
    var s := ss[|acts|];
    RunKeeps(ss, acts, |acts|);
    hide Inv, Enough, Leads, Appending;
    if Late(s) {
      var more, t := LateLeaves(s);
    } else {
      forall more: seq<Action>, t: State |
        Leads(Stepper(), s, more, t) && NoSends(more) && !t.emptyPop && t.drain == DDone
        ensures t.queue == []
      {
        var ss' := Extend(Stepper(), ss, acts, more, t);
        SettledRun(ss', acts + more, |acts|, |acts + more|);
      }
    }
  }

  /** A run from the start in which a sender gets the lock only after the drain's last look: the
      drain is done, and the message is left. */
  lemma LeftMessageRun(m: Msg) returns (ss: seq<State>, acts: seq<Action>)
    ensures Run(ss, acts) && acts == [Send(0, m), DStep, DStep, DStep, SStep(0), SStep(0)]
    ensures Late(ss[2]) && ss[2].destroyed && ss[2].drain != DDone
    ensures ss[|acts|].drain == DDone && ss[|acts|].queue == [m] && !ss[|acts|].emptyPop
  {
    var s0 := State(Free, [], 0, false, false, [SIdle], RIdle, DIdle, [], [], false);
    var s1 := Apply(s0, Send(0, m));
    var s2 := Apply(s1, DStep);
    var s3 := Apply(s2, DStep);
    var s4 := Apply(s3, DStep);
    var s5 := Apply(s4, SStep(0));
    var s6 := Apply(s5, SStep(0));
    assert s2.senders[0].SWant?;
    ss := [s0, s1, s2, s3, s4, s5, s6];
    acts := [Send(0, m), DStep, DStep, DStep, SStep(0), SStep(0)];
  }

  /** Unless the reader is caught, destroying is safe, whatever is called and however it is
      scheduled: no pop meets an empty list, the messages popped, then queued, are those sent,
      with the count right whenever the lock is free; and the drain ends. */
  lemma DestroyedSafely(ss: seq<State>, acts: seq<Action>, j: nat, k: nat)
    requires Run(ss, acts) && j <= k < |ss| && ss[j].drain == DWake && !Caught(ss[j])
    ensures !ss[k].emptyPop && ss[k].popped + ss[k].queue == ss[k].sent
    ensures ss[k].lock == Free ==> ss[k].cmdSent == |ss[k].queue|
    ensures (forall i {:trigger acts[i]} :: j <= i < k ==> !Fresh(ss[i], acts[i])) ==> k - j <= Left(ss[j])
    ensures (forall a :: Enabled(ss[k], a) ==> Fresh(ss[k], a)) ==> ss[k].drain == DDone
  {
    Arrives(ss, acts, j);
    RunKeeps(ss, acts, j);
    SafeRun(ss, acts, j, k);
    Conserved(ss, acts, k);
    RunKeeps(ss, acts, k);
    if forall i {:trigger acts[i]} :: j <= i < k ==> !Fresh(ss[i], acts[i]) { StepsLeft(ss, acts, j, k); }
    assert ss[k].drain != DDone ==> Enabled(ss[k], if ss[k].drain == DLock then Next(ss[k]) else DStep);
  }

  /** And it leaves the queue empty, however the calls begun go on, if and only if no sender could
      still append. */
  lemma SafeDrainsIff(ss: seq<State>, acts: seq<Action>)
    requires Run(ss, acts) && ss[|acts|].drain == DWake && !Caught(ss[|acts|])
    ensures !Late(ss[|acts|]) <==>
      forall more: seq<Action>, t: State ::
        Leads(Stepper(), ss[|acts|], more, t) && NoSends(more) && t.drain == DDone ==> t.queue == []
  {
    var s := ss[|acts|];
    Arrives(ss, acts, |acts|);
    RunKeeps(ss, acts, |acts|);
    assert Safe(s);
    DrainsIff(ss, acts);
    hide Late, Leads, Safe;
    forall more: seq<Action>, t: State | Leads(Stepper(), s, more, t) ensures !t.emptyPop {
      var ss' := Extend(Stepper(), ss, acts, more, t);
      SafeRun(ss', acts + more, |acts|, |acts + more|);
    }
  }
}
