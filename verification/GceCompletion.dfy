/** Completion: a sender still building and flushing tasks while earlier ones complete.

    The sender, the GCE (which completes what was flushed, in any order), and the one ordered
    work queue that runs `imgsys_cmdq_cb_work` take interleaved steps.  `total_taskcnt` is
    written by the sender and read twice by the work, at different moments. */
module GceCompletion {
  import opened GceCommands
  import opened GcePacking
  import opened GceSend
  import opened GceProgram
  import opened GceFlush

  /** One user callback: the task it was made for, and isLastTaskInReq. */
  datatype Call = Call(id: nat, isLast: bool)

  /** Where `imgsys_cmdq_cb_work` stands: about to test `total_taskcnt` against its count, or
      about to read it again for the callback. */
  datatype Pc = Idle | Testing(id: nat, cnt: nat) | Calling(id: nat, cnt: nat)

  datatype State = State(
    pos: nat,              // effects of the send that have happened
    total: nat,            // total_taskcnt
    failed: nat,           // packets the flush call refused: they never complete
    inGce: set<nat>,       // flushed tasks not completed yet
    queue: seq<nat>,       // completed tasks whose work is queued
    started: seq<nat>,     // tasks whose work has begun, in order; cb_frmcnt is its length
    pc: Pc,
    calls: seq<Call>)

  datatype Action = Send(ok: bool) | GceDone(id: nat) | Begin | Test | Report

  /** What a send does, whether or not it completes: tasks numbered in order, and the total
      published at most once, right before the last flush, whose task is block-last. */
  predicate WellFormed(prog: seq<Effect>) {
    && (forall i :: 0 <= i < |Flushed(prog)| ==> Flushed(prog)[i].taskId == i)
    && (Published(prog) != [] ==> EndsPublished(prog))
  }

  predicate EndsPublished(prog: seq<Effect>) {
    var n := |prog|;
    && n >= 2 && prog[n - 2] == Publish(|Flushed(prog)|) && prog[n - 1].Flush? && prog[n - 1].task.isBlkLast
    && Published(prog[..n - 2]) == []
  }

  predicate Init(s: State) { s == State(0, 0, 0, {}, [], [], Idle, []) }

  function N(prog: seq<Effect>): nat { |Flushed(prog)| }

  predicate Enabled(prog: seq<Effect>, s: State, a: Action) {
    match a
    case Send(_) => s.pos < |prog|
    case GceDone(id) => id in s.inGce
    case Begin => s.pc == Idle && s.queue != []
    case Test => s.pc.Testing? && s.pc.id < N(prog)
    case Report => s.pc.Calling?
  }

  function Apply(prog: seq<Effect>, s: State, a: Action): State
    requires Enabled(prog, s, a)
  {
    match a
    case Send(ok) =>
      (match prog[s.pos]
       case Publish(n) => s.(pos := s.pos + 1, total := n)
       case Flush(t) =>
         if ok then s.(pos := s.pos + 1, inGce := s.inGce + {t.taskId})
         else s.(pos := s.pos + 1, failed := s.failed + 1))
    case GceDone(id) => s.(inGce := s.inGce - {id}, queue := s.queue + [id])
    case Begin =>
      s.(queue := s.queue[1..], started := s.started + [s.queue[0]],
         pc := Testing(s.queue[0], |s.started| + 1))
    case Test =>
      var t := Flushed(prog)[s.pc.id];
      if t.isBlkLast && (s.total == s.pc.cnt || t.isEarly)
      then s.(pc := Calling(s.pc.id, s.pc.cnt)) else s.(pc := Idle)
    case Report => s.(pc := Idle, calls := s.calls + [Call(s.pc.id, s.total == s.pc.cnt)])
  }

  predicate Run(prog: seq<Effect>, ss: seq<State>, acts: seq<Action>) {
    && |ss| == |acts| + 1 && Init(ss[0])
    && forall k :: 0 <= k < |acts| ==> Enabled(prog, ss[k], acts[k]) && ss[k + 1] == Apply(prog, ss[k], acts[k])
  }

  // -------------------------------------------------------------------- the invariant

  /** Every task flushed so far is refused, in the GCE, queued, or begun. */
  ghost predicate Accounted(prog: seq<Effect>, s: State) {
    && s.pos <= |prog|
    && s.failed + |s.inGce| + |s.queue| + |s.started| == N(prog[..s.pos])
    && (forall id :: id in s.inGce ==> id < N(prog[..s.pos]))
    && (forall k :: 0 <= k < |s.queue| ==> s.queue[k] < N(prog[..s.pos]))
    && (forall k :: 0 <= k < |s.started| ==> s.started[k] < N(prog[..s.pos]))
  }

  predicate TotalOk(prog: seq<Effect>, s: State) {
    s.pos <= |prog| && s.total == if Published(prog[..s.pos]) == [] then 0 else N(prog)
  }

  predicate PcOk(prog: seq<Effect>, s: State) {
    && (s.pc.Testing? ==> s.started != [] && s.pc == Testing(s.started[|s.started| - 1], |s.started|))
    && (s.pc.Calling? ==> s.started != [] && s.pc == Calling(s.started[|s.started| - 1], |s.started|))
  }

  predicate HasLast(calls: seq<Call>) { exists k :: 0 <= k < |calls| && calls[k].isLast }

  predicate AllBegun(prog: seq<Effect>, s: State) {
    Published(prog) != [] && |s.started| == N(prog)
  }

  /** Whether the work begun last is entitled to a callback. */
  predicate LastIsBlkLast(prog: seq<Effect>, s: State) {
    s.started != [] && s.started[|s.started| - 1] < N(prog) && Flushed(prog)[s.started[|s.started| - 1]].isBlkLast
  }

  predicate CallsOk(prog: seq<Effect>, s: State) {
    && (forall k :: 0 <= k < |s.calls| && s.calls[k].isLast ==> k == |s.calls| - 1 && AllBegun(prog, s) && s.pc == Idle)
    && (AllBegun(prog, s) && s.pc == Idle ==> (HasLast(s.calls) <==> LastIsBlkLast(prog, s)))
    && (AllBegun(prog, s) && s.pc.Calling? ==> LastIsBlkLast(prog, s))
  }

  ghost predicate Inv(prog: seq<Effect>, s: State) {
    Accounted(prog, s) && TotalOk(prog, s) && PcOk(prog, s) && CallsOk(prog, s)
  }

  lemma FlushedStep(prog: seq<Effect>, pos: nat)
    requires pos < |prog|
    ensures Flushed(prog[..pos + 1]) == Flushed(prog[..pos]) + (if prog[pos].Flush? then [prog[pos].task] else [])
    ensures Published(prog[..pos + 1]) == Published(prog[..pos]) + (if prog[pos].Publish? then [prog[pos].n] else [])
  {
    assert prog[..pos + 1][..pos] == prog[..pos];
  }

  lemma {:induction false} FlushedGrows(prog: seq<Effect>, m: nat, n: nat)
    requires m <= n <= |prog|
    ensures Flushed(prog[..m]) <= Flushed(prog[..n]) && Published(prog[..m]) <= Published(prog[..n])
    decreases n - m
  {
    if m < n {
      FlushedStep(prog, m);
      FlushedGrows(prog, m + 1, n);
    }
  }

  lemma FlushedPrefix(prog: seq<Effect>, pos: nat)
    requires pos <= |prog|
    ensures Flushed(prog[..pos]) <= Flushed(prog) && Published(prog[..pos]) <= Published(prog)
  {
    FlushedGrows(prog, pos, |prog|);
    assert prog[..|prog|] == prog;
  }

  /** Once the total is published, one flush is left or none. */
  lemma PublishedLate(prog: seq<Effect>, pos: nat)
    requires WellFormed(prog) && pos <= |prog| && Published(prog[..pos]) != []
    ensures Published(prog) != [] && pos + 1 >= |prog|
  {
    hide Flushed, Published, WellFormed;
    FlushedGrows(prog, pos, |prog|);
    assert prog[..|prog|] == prog;
    assert EndsPublished(prog) by { WellFormedEnds(prog); }
    if pos + 1 < |prog| {
      FlushedGrows(prog, pos, |prog| - 2);
    }
  }

  lemma WellFormedEnds(prog: seq<Effect>)
    requires WellFormed(prog) && Published(prog) != []
    ensures EndsPublished(prog)
  {
  }

  lemma SendKeeps(prog: seq<Effect>, s: State, ok: bool)
    requires WellFormed(prog) && Inv(prog, s) && s.pos < |prog|
    ensures Inv(prog, Apply(prog, s, Send(ok)))
  {
    hide Flushed, Published;
    var s' := Apply(prog, s, Send(ok));
    FlushedStep(prog, s.pos);
    FlushedPrefix(prog, s.pos);
    FlushedPrefix(prog, s.pos + 1);
    if prog[s.pos].Publish? {
      PublishedLate(prog, s.pos + 1);
    } else {
      var id := N(prog[..s.pos]);
      assert Flushed(prog)[id] == Flushed(prog[..s.pos + 1])[id] == prog[s.pos].task;
      assert prog[s.pos].task.taskId == id && id !in s.inGce;
    }
    assert TotalOk(prog, s');
    assert HasLast(s.calls) <==> HasLast(s'.calls);
  }

  lemma DoneKeeps(prog: seq<Effect>, s: State, id: nat)
    requires WellFormed(prog) && Inv(prog, s) && id in s.inGce
    ensures Inv(prog, Apply(prog, s, GceDone(id)))
  {
    hide Flushed, Published;
  }

  /** A work that begins last of all finds the total published: its flush came after. */
  lemma LastBeginsAfterPublish(prog: seq<Effect>, s: State)
    requires WellFormed(prog) && Accounted(prog, s) && TotalOk(prog, s) && AllBegun(prog, s)
    ensures s.pos == |prog| && s.total == N(prog) && s.queue == [] && s.inGce == {} && s.failed == 0
  {
    FlushedPrefix(prog, s.pos);
    if s.pos < |prog| {
      FlushedStep(prog, |prog| - 1);
      assert prog[..|prog|] == prog;
      FlushedGrows(prog, s.pos, |prog| - 1);
    } else {
      assert prog[..s.pos] == prog;
    }
  }

  lemma WorkKeeps(prog: seq<Effect>, s: State, a: Action)
    requires WellFormed(prog) && Inv(prog, s) && Enabled(prog, s, a) && (a.Begin? || a.Test?)
    ensures Inv(prog, Apply(prog, s, a))
  {
    hide Flushed, Published, WellFormed;
    var s' := Apply(prog, s, a);
    FlushedPrefix(prog, s.pos);
    if AllBegun(prog, s') { LastBeginsAfterPublish(prog, s'); }
    if AllBegun(prog, s) { LastBeginsAfterPublish(prog, s); }
  }

  lemma ReportKeeps(prog: seq<Effect>, s: State)
    requires WellFormed(prog) && Inv(prog, s) && s.pc.Calling?
    ensures Inv(prog, Apply(prog, s, Report))
  {
    hide Flushed, Published, WellFormed;
    var s' := Apply(prog, s, Report);
    FlushedPrefix(prog, s.pos);
    var c := s'.calls[|s.calls|];
    if AllBegun(prog, s) {
      LastBeginsAfterPublish(prog, s);
      assert c.isLast;
    } else if c.isLast {
      assert false;
    }
    assert forall k :: 0 <= k < |s.calls| ==> s'.calls[k] == s.calls[k];
    assert !HasLast(s.calls);
  }

  lemma {:induction false} RunKeeps(prog: seq<Effect>, ss: seq<State>, acts: seq<Action>, k: nat)
    requires WellFormed(prog) && Run(prog, ss, acts) && k < |ss|
    ensures Inv(prog, ss[k])
  {
    if k == 0 {
      assert prog[..0] == [];
    } else {
      RunKeeps(prog, ss, acts, k - 1);
      match acts[k - 1]
      case Send(ok) => SendKeeps(prog, ss[k - 1], ok);
      case GceDone(id) => DoneKeeps(prog, ss[k - 1], id);
      case Report => ReportKeeps(prog, ss[k - 1]);
      case _ => WorkKeeps(prog, ss[k - 1], acts[k - 1]);
    }
  }

  // --------------------------------------------------------------------- main results

  /** In every run at most one callback says "last"; it is the final one, and when it has been
      made the request is over: nothing more can happen for it. */
  lemma LastIsFinal(prog: seq<Effect>, ss: seq<State>, acts: seq<Action>, k: nat)
    requires WellFormed(prog) && Run(prog, ss, acts) && k < |ss| && HasLast(ss[k].calls)
    ensures forall i :: 0 <= i < |ss[k].calls| ==> (ss[k].calls[i].isLast <==> i == |ss[k].calls| - 1)
    ensures forall a :: !Enabled(prog, ss[k], a)
    ensures k == |ss| - 1
  {
    RunKeeps(prog, ss, acts, k);
    hide Flushed, Published, WellFormed;
    LastBeginsAfterPublish(prog, ss[k]);
  }

  /** Nothing is left to do. */
  predicate Quiet(prog: seq<Effect>, s: State) {
    s.pos == |prog| && s.inGce == {} && s.queue == [] && s.pc == Idle
  }

  /** When a run has come to rest, the request has had its "last" callback exactly when the
      total was published, no flush failed, and the task completed last is block-last. */
  lemma CompletionIff(prog: seq<Effect>, ss: seq<State>, acts: seq<Action>, k: nat)
    requires WellFormed(prog) && Run(prog, ss, acts) && k < |ss| && Quiet(prog, ss[k])
    ensures HasLast(ss[k].calls) <==>
      Published(prog) != [] && ss[k].failed == 0 && LastIsBlkLast(prog, ss[k])
  {
    RunKeeps(prog, ss, acts, k);
    assert prog[..|prog|] == prog;
  }

  /** One GCE thread: packets complete in the order they were flushed. */
  predicate OneThread(ss: seq<State>, acts: seq<Action>)
    requires |ss| == |acts| + 1
  {
    forall k :: 0 <= k < |acts| && acts[k].GceDone? ==> forall id :: id in ss[k].inGce ==> acts[k].id <= id
  }

  predicate InOrder(s: State) {
    var seen := s.started + s.queue;
    && (forall k :: 0 <= k < |seen| ==> seen[k] == k)
    && (forall id :: id in s.inGce ==> |seen| <= id)
  }

  lemma {:induction false} OneThreadKeepsOrder(prog: seq<Effect>, ss: seq<State>, acts: seq<Action>, k: nat)
    requires WellFormed(prog) && Run(prog, ss, acts) && OneThread(ss, acts) && k < |ss| && ss[k].failed == 0
    ensures InOrder(ss[k])
  {
    hide Flushed, Published, WellFormed, TotalOk, PcOk, CallsOk;
    if k > 0 {
      var s, a := ss[k - 1], acts[k - 1];
      RunKeeps(prog, ss, acts, k - 1);
      OneThreadKeepsOrder(prog, ss, acts, k - 1);
      if a.Send? && prog[s.pos].Flush? {
        NextId(prog, s.pos);
      } else if a.GceDone? {
        LeastIsNext(prog, s, a.id);
        assert ss[k].started + ss[k].queue == (s.started + s.queue) + [a.id];
      } else if a.Begin? {
        assert ss[k].started + ss[k].queue == s.started + s.queue;
      }
    }
  }

  lemma NextId(prog: seq<Effect>, pos: nat)
    requires WellFormed(prog) && pos < |prog| && prog[pos].Flush?
    ensures prog[pos].task.taskId == N(prog[..pos])
  {
    FlushedStep(prog, pos);
    FlushedPrefix(prog, pos + 1);
    var id := N(prog[..pos]);
    assert Flushed(prog)[id] == Flushed(prog[..pos + 1])[id];
  }

  /** If nothing was refused, the tasks in the GCE are the ones after those already seen. */
  lemma LeastIsNext(prog: seq<Effect>, s: State, id: nat)
    requires Accounted(prog, s) && InOrder(s) && s.failed == 0
    requires id in s.inGce && forall j :: j in s.inGce ==> id <= j
    ensures id == |s.started + s.queue|
  {
    var m, n := |s.started + s.queue|, N(prog[..s.pos]);
    var after := Ids(m, n);
    assert s.inGce <= after;
    SubsetOfSameSize(s.inGce, after);
    assert m in after;
  }

  function Ids(m: nat, n: nat): (r: set<nat>)
    requires m <= n
    ensures |r| == n - m && forall i :: i in r <==> m <= i < n
    decreases n - m
  {
    if m == n then {} else {m} + Ids(m + 1, n)
  }

  lemma SubsetOfSameSize(a: set<nat>, b: set<nat>)
    requires a <= b && |a| == |b|
    ensures a == b
  {
    assert |b - a| == |b| - |a|;
  }

  /** On one thread, a request whose flushes all succeed gets its "last" callback. */
  lemma OneThreadCompletes(prog: seq<Effect>, ss: seq<State>, acts: seq<Action>, k: nat)
    requires WellFormed(prog) && Run(prog, ss, acts) && k < |ss| && Quiet(prog, ss[k])
    requires OneThread(ss, acts) && ss[k].failed == 0 && Published(prog) != []
    ensures HasLast(ss[k].calls)
  {
    RunKeeps(prog, ss, acts, k);
    OneThreadKeepsOrder(prog, ss, acts, k);
    assert prog[..|prog|] == prog;
    FlushedStep(prog, |prog| - 1);
    CompletionIff(prog, ss, acts, k);
    var seen := ss[k].started + ss[k].queue;
    assert seen == ss[k].started && seen[|seen| - 1] == |seen| - 1;
  }

  // ------------------------------------------------------- which tasks are called back

  /** The task begun as the `cnt`-th is owed a callback. */
  predicate Owed(prog: seq<Effect>, id: nat, cnt: nat) {
    && id < N(prog) && Flushed(prog)[id].isBlkLast
    && (Flushed(prog)[id].isEarly || (Published(prog) != [] && cnt == N(prog)))
  }

  /** Those owed one among the tasks begun, in the order they began. */
  function OwedOf(prog: seq<Effect>, ids: seq<nat>): seq<nat> {
    if ids == [] then []
    else
      var n := |ids| - 1;
      OwedOf(prog, ids[..n]) + (if Owed(prog, ids[n], n + 1) then [ids[n]] else [])
  }

  function Called(calls: seq<Call>): (r: seq<nat>)
    ensures |r| == |calls|
  {
    seq(|calls|, i requires 0 <= i < |calls| => calls[i].id)
  }

  /** The tasks whose work is over. */
  function Worked(s: State): seq<nat> {
    if s.pc == Idle || s.started == [] then s.started else s.started[..|s.started| - 1]
  }

  predicate CalledOk(prog: seq<Effect>, s: State) {
    && Called(s.calls) == OwedOf(prog, Worked(s))
    && (s.pc.Calling? ==> Owed(prog, s.pc.id, s.pc.cnt))
  }

  function Seen(s: State): seq<nat> { s.started + s.queue }

  /** Every task flushed is in the GCE or seen to complete. */
  predicate NoneMissing(prog: seq<Effect>, s: State) {
    s.pos <= |prog| && forall id :: 0 <= id < N(prog[..s.pos]) ==> id in s.inGce || id in Seen(s)
  }

  predicate NoRepeat(ids: seq<nat>) { forall a, b :: 0 <= a < b < |ids| ==> ids[a] != ids[b] }

  /** No task is seen twice, or seen while the GCE still has it. */
  predicate SeenOnce(s: State) {
    NoRepeat(Seen(s)) && forall a :: 0 <= a < |Seen(s)| ==> Seen(s)[a] !in s.inGce
  }

  lemma SeenOnceKeeps(prog: seq<Effect>, s: State, a: Action)
    requires WellFormed(prog) && Accounted(prog, s) && SeenOnce(s) && Enabled(prog, s, a)
    ensures SeenOnce(Apply(prog, s, a))
  {
    hide Flushed, WellFormed;
    var t := Apply(prog, s, a);
    if a.Send? {
      if prog[s.pos].Flush? { NextId(prog, s.pos); }
      assert Seen(t) == Seen(s) && forall k :: 0 <= k < |Seen(s)| ==> Seen(s)[k] < N(prog[..s.pos]);
    } else if a.GceDone? {
      assert Seen(t) == Seen(s) + [a.id];
    } else {
      assert Seen(t) == Seen(s);
    }
  }

  lemma FailedGrows(prog: seq<Effect>, s: State, a: Action)
    requires Enabled(prog, s, a)
    ensures s.failed <= Apply(prog, s, a).failed
  {
  }

  lemma NoneMissingKeeps(prog: seq<Effect>, s: State, a: Action)
    requires WellFormed(prog) && NoneMissing(prog, s) && Enabled(prog, s, a) && Apply(prog, s, a).failed == 0
    ensures NoneMissing(prog, Apply(prog, s, a))
  {
    hide Flushed, Published, WellFormed;
    var t := Apply(prog, s, a);
    if a.Send? {
      FlushedStep(prog, s.pos);
      if prog[s.pos].Flush? { NextId(prog, s.pos); }
    }
    assert Seen(t) == if a.GceDone? then Seen(s) + [a.id] else Seen(s);
  }

  /** The total shows in the test exactly when the last task of a published send is at work. */
  lemma TotalShows(prog: seq<Effect>, s: State)
    requires WellFormed(prog) && Accounted(prog, s) && TotalOk(prog, s) && s.started != []
    ensures s.total == |s.started| <==> Published(prog) != [] && |s.started| == N(prog)
  {
    hide Flushed, Published, WellFormed;
    FlushedPrefix(prog, s.pos);
    if AllBegun(prog, s) { LastBeginsAfterPublish(prog, s); }
  }

  lemma TestCalls(prog: seq<Effect>, s: State)
    requires WellFormed(prog) && Accounted(prog, s) && TotalOk(prog, s) && PcOk(prog, s) && CalledOk(prog, s)
    requires Enabled(prog, s, Test)
    ensures CalledOk(prog, Apply(prog, s, Test))
  {
    hide Flushed, Published, WellFormed, Accounted, TotalOk, OwedOf, Called;
    TotalShows(prog, s);
    OwedSnoc(prog, s.started);
  }

  lemma ReportCalls(prog: seq<Effect>, s: State)
    requires PcOk(prog, s) && CalledOk(prog, s) && Enabled(prog, s, Report)
    ensures CalledOk(prog, Apply(prog, s, Report))
  {
    hide Owed, OwedOf;
    OwedSnoc(prog, s.started);
    var t := Apply(prog, s, Report);
    assert Called(t.calls) == Called(s.calls) + [s.pc.id];
  }

  lemma OwedSnoc(prog: seq<Effect>, ids: seq<nat>)
    requires ids != []
    ensures var n := |ids| - 1;
      OwedOf(prog, ids) == OwedOf(prog, ids[..n]) + (if Owed(prog, ids[n], n + 1) then [ids[n]] else [])
  {
    hide Owed;
  }

  lemma OthersCall(prog: seq<Effect>, s: State, a: Action)
    requires PcOk(prog, s) && CalledOk(prog, s) && Enabled(prog, s, a) && !a.Test? && !a.Report?
    ensures CalledOk(prog, Apply(prog, s, a))
  {
    hide Owed, OwedOf, Called;
    var t := Apply(prog, s, a);
    if a.Begin? { assert t.started[..|s.started|] == s.started; }
  }

  lemma RunParts(prog: seq<Effect>, ss: seq<State>, acts: seq<Action>, k: nat)
    requires WellFormed(prog) && Run(prog, ss, acts) && k < |ss|
    ensures Accounted(prog, ss[k]) && TotalOk(prog, ss[k]) && PcOk(prog, ss[k])
  {
    hide Run, WellFormed, Accounted, TotalOk, PcOk;
    RunKeeps(prog, ss, acts, k);
  }

  lemma StepOf(prog: seq<Effect>, ss: seq<State>, acts: seq<Action>, k: nat)
    requires Run(prog, ss, acts) && k < |acts|
    ensures |ss| == |acts| + 1 && Enabled(prog, ss[k], acts[k]) && ss[k + 1] == Apply(prog, ss[k], acts[k])
  {
    hide Enabled, Apply;
  }

  lemma {:induction false} RunCalls(prog: seq<Effect>, ss: seq<State>, acts: seq<Action>, k: nat)
    requires WellFormed(prog) && Run(prog, ss, acts) && k < |ss|
    ensures CalledOk(prog, ss[k]) && SeenOnce(ss[k]) && (ss[k].failed == 0 ==> NoneMissing(prog, ss[k]))
  {
    if k == 0 {
      assert prog[..0] == [];
    } else {
      hide Run, WellFormed, CalledOk, SeenOnce, NoneMissing, Enabled, Apply, Accounted, TotalOk, PcOk;
      StepOf(prog, ss, acts, k - 1);
      RunCalls(prog, ss, acts, k - 1);
      RunParts(prog, ss, acts, k - 1);
      match acts[k - 1] {
        case Test => TestCalls(prog, ss[k - 1]);
        case Report => ReportCalls(prog, ss[k - 1]);
        case _ => OthersCall(prog, ss[k - 1], acts[k - 1]);
      }
      SeenOnceKeeps(prog, ss[k - 1], acts[k - 1]);
      FailedGrows(prog, ss[k - 1], acts[k - 1]);
      if ss[k].failed == 0 { NoneMissingKeeps(prog, ss[k - 1], acts[k - 1]); }
    }
  }

  /** The elements of `xs` stand in `ys` in the same order. */
  predicate SameOrder(xs: seq<nat>, ys: seq<nat>) { forall i, j :: 0 <= i < j < |xs| ==> Before(ys, xs[i], xs[j]) }

  predicate Before(ys: seq<nat>, x: nat, y: nat) { exists a, b :: 0 <= a < b < |ys| && ys[a] == x && ys[b] == y }

  lemma {:induction false} OwedOnce(prog: seq<Effect>, ids: seq<nat>, id: nat, c: nat)
    requires NoRepeat(ids)
    requires if id in ids then c < |ids| && ids[c] == id else true
    ensures multiset(OwedOf(prog, ids))[id] == if id in ids && Owed(prog, id, c + 1) then 1 else 0
  {
    hide Owed;
    if ids != [] {
      var n := |ids| - 1;
      assert ids == ids[..n] + [ids[n]];
      OwedOnce(prog, ids[..n], id, c);
      assert id in ids[..n] ==> c < n;
    }
  }

  lemma {:induction false} OwedOrder(prog: seq<Effect>, ids: seq<nat>)
    ensures forall id :: id in OwedOf(prog, ids) ==> id in ids
    ensures SameOrder(OwedOf(prog, ids), ids)
  {
    hide Owed;
    if ids != [] {
      var n := |ids| - 1;
      var init, xs, ys := ids[..n], OwedOf(prog, ids[..n]), OwedOf(prog, ids);
      assert ids == init + [ids[n]];
      OwedOrder(prog, init);
      forall i, j | 0 <= i < j < |ys| ensures Before(ids, ys[i], ys[j]) {
        assert ys[i] == xs[i] && xs[i] in init;
        if j < |xs| {
          assert Before(init, xs[i], xs[j]);
          var a, b :| 0 <= a < b < |init| && init[a] == xs[i] && init[b] == xs[j];
          assert ids[a] == ys[i] && ids[b] == ys[j];
        } else {
          var a :| 0 <= a < n && init[a] == xs[i];
          assert ids[a] == ys[i] && ids[n] == ys[j];
        }
      }
    }
  }

  /** When a run has come to rest, a task has been called back once if its work was done, it is
      block-last, and it is an early-callback task or the last one of a request whose total was
      published and none of whose flushes failed; any other task not at all. The callbacks come in
      the order the tasks began. */
  lemma CalledBackOnce(prog: seq<Effect>, ss: seq<State>, acts: seq<Action>, k: nat)
    requires WellFormed(prog) && Run(prog, ss, acts) && k < |ss| && Quiet(prog, ss[k])
    ensures var s := ss[k];
      && (forall id :: 0 <= id < N(prog) ==>
           var t := Flushed(prog)[id];
           multiset(Called(s.calls))[id] ==
             if && id in s.started && t.isBlkLast
                && (t.isEarly || (Published(prog) != [] && s.failed == 0 && id == s.started[|s.started| - 1]))
             then 1 else 0)
      && (forall i :: 0 <= i < |s.calls| ==> s.calls[i].id < N(prog))
      && SameOrder(Called(s.calls), s.started)
  {
    hide Flushed, Published, WellFormed, SameOrder, NoneMissing, NoRepeat;
    var s := ss[k];
    RunKeeps(prog, ss, acts, k);
    RunCalls(prog, ss, acts, k);
    assert prog[..|prog|] == prog && Seen(s) == s.started;
    OwedOrder(prog, s.started);
    forall i | 0 <= i < |s.calls| ensures s.calls[i].id < N(prog) {
      assert s.calls[i].id == Called(s.calls)[i] && Called(s.calls)[i] in OwedOf(prog, s.started);
    }
    forall id | 0 <= id < N(prog)
      ensures multiset(Called(s.calls))[id] ==
        if id in s.started && Owed(prog, id, if id == s.started[|s.started| - 1] then |s.started| else 0) then 1 else 0
    {
      var c :| id in s.started ==> 0 <= c < |s.started| && s.started[c] == id;
      OwedOnce(prog, s.started, id, if id in s.started then c else 0);
    }
  }

  // --------------------------------------------------------------- several GCE threads

  predicate SameThread(prog: seq<Effect>, a: nat, b: nat) {
    a < N(prog) && b < N(prog) && Flushed(prog)[a].clt == Flushed(prog)[b].clt
  }

  /** Each GCE thread completes its own packets in the order they were flushed. */
  predicate ThreadOrder(prog: seq<Effect>, ss: seq<State>, acts: seq<Action>)
    requires |ss| == |acts| + 1
  {
    forall k :: 0 <= k < |acts| && acts[k].GceDone? ==> LeastOfThread(prog, ss[k], acts[k].id)
  }

  predicate LeastOfThread(prog: seq<Effect>, s: State, id: nat) {
    forall j :: j in s.inGce && SameThread(prog, id, j) ==> id <= j
  }

  /** The tasks of one thread are seen in flush order, before those still in the GCE. */
  predicate ThreadsInOrder(prog: seq<Effect>, s: State) {
    && (forall a, b :: 0 <= a < b < |Seen(s)| && SameThread(prog, Seen(s)[a], Seen(s)[b]) ==> Seen(s)[a] < Seen(s)[b])
    && (forall a, id :: 0 <= a < |Seen(s)| && id in s.inGce && SameThread(prog, Seen(s)[a], id) ==> Seen(s)[a] < id)
  }

  lemma SendKeepsOrder(prog: seq<Effect>, s: State, ok: bool)
    requires WellFormed(prog) && Accounted(prog, s) && s.pos < |prog| && ThreadsInOrder(prog, s)
    ensures ThreadsInOrder(prog, Apply(prog, s, Send(ok)))
  {
    hide Flushed, Published, WellFormed, SameThread;
    assert Seen(Apply(prog, s, Send(ok))) == Seen(s);
    if prog[s.pos].Flush? { NextId(prog, s.pos); }
    assert forall a :: 0 <= a < |Seen(s)| ==> Seen(s)[a] < N(prog[..s.pos]);
  }

  lemma DoneKeepsOrder(prog: seq<Effect>, s: State, id: nat)
    requires id in s.inGce && LeastOfThread(prog, s, id) && ThreadsInOrder(prog, s)
    ensures ThreadsInOrder(prog, Apply(prog, s, GceDone(id)))
  {
    hide Flushed;
    assert Seen(Apply(prog, s, GceDone(id))) == Seen(s) + [id];
  }

  lemma WorkKeepsOrder(prog: seq<Effect>, s: State, a: Action)
    requires Enabled(prog, s, a) && !a.Send? && !a.GceDone? && ThreadsInOrder(prog, s)
    ensures ThreadsInOrder(prog, Apply(prog, s, a))
  {
    hide Flushed, SameThread;
    assert Seen(Apply(prog, s, a)) == Seen(s);
  }

  lemma {:induction false} ThreadsKeepOrder(prog: seq<Effect>, ss: seq<State>, acts: seq<Action>, k: nat)
    requires |ss| == |acts| + 1 && k < |ss|
    requires WellFormed(prog) && Run(prog, ss, acts) && ThreadOrder(prog, ss, acts)
    ensures ThreadsInOrder(prog, ss[k])
  {
    if k > 0 {
      hide Run, WellFormed, ThreadsInOrder, LeastOfThread, Apply, Accounted, TotalOk, PcOk;
      StepOf(prog, ss, acts, k - 1);
      RunParts(prog, ss, acts, k - 1);
      ThreadsKeepOrder(prog, ss, acts, k - 1);
      match acts[k - 1]
      case Send(ok) => SendKeepsOrder(prog, ss[k - 1], ok);
      case GceDone(id) => DoneKeepsOrder(prog, ss[k - 1], id);
      case _ => WorkKeepsOrder(prog, ss[k - 1], acts[k - 1]);
    }
  }

  /** A task that is not block-last is followed by one of the same thread. */
  predicate Chained(prog: seq<Effect>) {
    forall i :: 0 <= i < N(prog) && !Flushed(prog)[i].isBlkLast ==> SameThread(prog, i, i + 1)
  }

  /** On such a program the task seen last is block-last, in whatever order the threads run. */
  lemma ChainEndsBlkLast(prog: seq<Effect>, ss: seq<State>, acts: seq<Action>, k: nat)
    requires |ss| == |acts| + 1 && k < |ss| && ss[k].failed == 0 && Quiet(prog, ss[k])
    requires WellFormed(prog) && Run(prog, ss, acts) && ThreadOrder(prog, ss, acts)
    requires Chained(prog) && N(prog) > 0
    ensures LastIsBlkLast(prog, ss[k])
  {
    hide Flushed, Published, WellFormed, Run, ThreadOrder;
    var s := ss[k];
    RunKeeps(prog, ss, acts, k);
    RunCalls(prog, ss, acts, k);
    ThreadsKeepOrder(prog, ss, acts, k);
    assert prog[..|prog|] == prog && Seen(s) == s.started;
    var n := |s.started| - 1;
    var last := s.started[n];
    NothingAfterLast(prog, s, last + 1);
  }

  /** No later task of the thread of the task seen last is still to come. */
  lemma NothingAfterLast(prog: seq<Effect>, s: State, id: nat)
    requires NoneMissing(prog, s) && ThreadsInOrder(prog, s) && s.pos == |prog| && s.inGce == {} && s.queue == []
    requires s.started != [] && id > s.started[|s.started| - 1]
    ensures !SameThread(prog, s.started[|s.started| - 1], id)
  {
    hide Flushed;
    assert prog[..|prog|] == prog && Seen(s) == s.started;
    assert id < N(prog) ==> id in Seen(s);
  }

  /** Whatever a send gets done is well formed, and a send that stops before the last block of
      the last frame publishes nothing, so it never leads to a "last" callback. */
  lemma SendIsWellFormed(cfg: Config, size: seq<Instr> -> nat, req: Request, now: seq<Unit>)
    requires now <= UnitsOf(req)
    ensures NonEmptyGroups(Closed(now)) && WellFormed(Log(Tasks(cfg, size, Closed(now))))
    ensures now < UnitsOf(req) ==> Published(Log(Tasks(cfg, size, Closed(now)))) == []
  {
    hide Closed, Open, UnitsOf, TaskOf, Flushed, Published, Tasks, Log, IsFinal;
    PublishedOnce(cfg, size, req, now);
    var ts := Tasks(cfg, size, Closed(now));
    LogFlushesAll(ts);
    forall i | 0 <= i < |ts| ensures ts[i].taskId == i { TaskEnds(cfg, size, Closed(now), i); }
    if now != [] && IsFinal(now[|now| - 1]) {
      var n := |ts|;
      var prog := Log(ts);
      assert prog[..|prog| - 2] == Log(ts[..n - 1]);
      FinalTaskIsBlkLast(cfg, size, req);
    }
  }

  lemma TaskEnds(cfg: Config, size: seq<Instr> -> nat, gs: seq<seq<Unit>>, i: nat)
    requires NonEmptyGroups(gs) && i < |gs|
    ensures var t, u := Tasks(cfg, size, gs)[i], gs[i][|gs[i]| - 1];
      t.taskId == i && t.clt == u.clt && (t.isBlkLast <==> u.blk + 1 == u.blkNum) && (t.isTaskLast ==> t.isBlkLast)
  {
  }

  lemma FinalTaskIsBlkLast(cfg: Config, size: seq<Instr> -> nat, req: Request)
    requires UnitsOf(req) != [] && IsFinal(UnitsOf(req)[|UnitsOf(req)| - 1])
    ensures NonEmptyGroups(Closed(UnitsOf(req)))
    ensures var ts := Tasks(cfg, size, Closed(UnitsOf(req))); ts != [] && ts[|ts| - 1].isBlkLast
  {
    NoEmptyGroup(UnitsOf(req));
    FinalCloses(req);
    FinalTask(cfg, size, UnitsOf(req));
    TaskEnds(cfg, size, Closed(UnitsOf(req)), |Closed(UnitsOf(req))| - 1);
  }

  /** In a request sent whole, a task that is not block-last belongs to a frame that flushes after
      every block, so the next task is the frame's next block, on the frame's thread. */
  lemma SendIsChained(cfg: Config, size: seq<Instr> -> nat, req: Request)
    requires Translatable(req) && NonEmptyGroups(Closed(UnitsOf(req)))
    requires req.frames != [] && req.frames[|req.frames| - 1].blocks > 0
    ensures Chained(SendLog(cfg, size, UnitsOf(req))) && N(SendLog(cfg, size, UnitsOf(req))) > 0
  {
    hide Translatable, Closed, UnitsOf, Tasks, TaskOf, Log, Flushed;
    var gs := Closed(UnitsOf(req));
    var ts := Tasks(cfg, size, gs);
    LogFlushesAll(ts);
    forall i | 0 <= i < |ts| && !ts[i].isBlkLast
      ensures i + 1 < |ts| && ts[i].clt == ts[i + 1].clt
    {
      TaskEnds(cfg, size, gs, i);
      NextGroup(req, i);
      TaskEnds(cfg, size, gs, i + 1);
    }
    SomeGroup(req);
  }

  /** What a send that packed the units `now` does to the world. */
  function SendLog(cfg: Config, size: seq<Instr> -> nat, now: seq<Unit>): seq<Effect>
    requires NonEmptyGroups(Closed(now))
  {
    Log(Tasks(cfg, size, Closed(now)))
  }

  /** A request sent whole, on any number of GCE threads, gets a "last" callback if and only if its
      last frame has a block and no flush failed; and then exactly one, as its final callback. */
  lemma WholeSendCompletes(cfg: Config, size: seq<Instr> -> nat, req: Request,
                           ss: seq<State>, acts: seq<Action>, k: nat)
    requires Translatable(req) && NonEmptyGroups(Closed(UnitsOf(req))) && k < |ss| == |acts| + 1
    requires var prog := SendLog(cfg, size, UnitsOf(req));
      Run(prog, ss, acts) && ThreadOrder(prog, ss, acts) && Quiet(prog, ss[k])
    ensures HasLast(ss[k].calls) <==>
      ss[k].failed == 0 && req.frames != [] && req.frames[|req.frames| - 1].blocks > 0
    ensures var calls := ss[k].calls;
      HasLast(calls) ==> forall i :: 0 <= i < |calls| ==> (calls[i].isLast <==> i == |calls| - 1)
  {
    hide Translatable, UnitsOf, Closed, Tasks, Log, Run, Quiet, ThreadOrder, LastIsBlkLast, WellFormed;
    hide Published, Chained, HasLast;
    var prog := SendLog(cfg, size, UnitsOf(req));
    SendIsWellFormed(cfg, size, req, UnitsOf(req));
    PublishedIff(cfg, size, req);
    CompletionIff(prog, ss, acts, k);
    if ss[k].failed == 0 && Published(prog) != [] {
      SendIsChained(cfg, size, req);
      ChainEndsBlkLast(prog, ss, acts, k);
    }
    if HasLast(ss[k].calls) { LastIsFinal(prog, ss, acts, k); }
  }

  /** A send that stopped early never leads to a "last" callback, in any run. */
  lemma PartialSendNeverCompletes(cfg: Config, size: seq<Instr> -> nat, req: Request, now: seq<Unit>,
                                  ss: seq<State>, acts: seq<Action>, k: nat)
    requires now < UnitsOf(req) && NonEmptyGroups(Closed(now)) && k < |ss|
    requires Run(SendLog(cfg, size, now), ss, acts)
    ensures !HasLast(ss[k].calls)
  {
    hide UnitsOf, Closed, Tasks, Log, Run, WellFormed, Published;
    var prog := SendLog(cfg, size, now);
    SendIsWellFormed(cfg, size, req, now);
    RunKeeps(prog, ss, acts, k);
    assert forall i :: 0 <= i < |ss[k].calls| ==> !ss[k].calls[i].isLast;
  }

  /** In a request sent whole and at rest, a task has been called back once if its work was done, it
      is for the last block of its frame, and the frame asks for an early callback or the task is the
      last one of a request with no failed flush and a block in its last frame; otherwise never. */
  lemma WholeSendCallsBack(cfg: Config, size: seq<Instr> -> nat, req: Request,
                           ss: seq<State>, acts: seq<Action>, k: nat, j: nat)
    requires Translatable(req) && NonEmptyGroups(Closed(UnitsOf(req))) && k < |ss|
    requires var prog := SendLog(cfg, size, UnitsOf(req)); Run(prog, ss, acts) && Quiet(prog, ss[k]) && j < N(prog)
    ensures var s, t := ss[k], Flushed(SendLog(cfg, size, UnitsOf(req)))[j];
      && IsBlock(req, t.frmIdx, t.blkIdx)
      && var f := req.frames[t.frmIdx];
         multiset(Called(s.calls))[j] ==
           if && j in s.started && t.blkIdx + 1 == f.blocks
              && (f.earlyCb || (&& s.failed == 0 && req.frames[|req.frames| - 1].blocks > 0
                                && j == s.started[|s.started| - 1]))
           then 1 else 0
  {
    hide Translatable, UnitsOf, Closed, Tasks, Log, Run, WellFormed, Published, Flushed, Called;
    var us := UnitsOf(req);
    var prog, ts := SendLog(cfg, size, us), Tasks(cfg, size, Closed(us));
    SendIsWellFormed(cfg, size, req, us);
    PublishedIff(cfg, size, req);
    LogFlushesAll(ts);
    TaskParams(cfg, size, req, us, j);
    CalledBackOnce(prog, ss, acts, k);
  }

  /** With no failed flush, every early-callback frame that has a block is called back, by the task of
      its last block, whatever the GCE threads do. */
  lemma EarlyFrameCalledBack(cfg: Config, size: seq<Instr> -> nat, req: Request,
                             ss: seq<State>, acts: seq<Action>, k: nat, i: nat) returns (j: nat)
    requires Translatable(req) && NonEmptyGroups(Closed(UnitsOf(req))) && k < |ss|
    requires var prog := SendLog(cfg, size, UnitsOf(req)); Run(prog, ss, acts) && Quiet(prog, ss[k])
    requires ss[k].failed == 0 && i < |req.frames| && req.frames[i].earlyCb && req.frames[i].blocks > 0
    ensures var ts := Flushed(SendLog(cfg, size, UnitsOf(req)));
      j < |ts| && ts[j].frmIdx == i && ts[j].blkIdx + 1 == req.frames[i].blocks
    ensures multiset(Called(ss[k].calls))[j] == 1
  {
    hide Translatable, UnitsOf, Closed, Tasks, Log, Run, WellFormed, Published, Called;
    var us := UnitsOf(req);
    var prog := SendLog(cfg, size, us);
    BlockHasUnit(req, i, req.frames[i].blocks - 1);
    FlushedBlocks(cfg, size, req, us, i, req.frames[i].blocks - 1);
    hide Flushed;
    j :| 0 <= j < N(prog) && Flushed(prog)[j].frmIdx == i && Flushed(prog)[j].blkIdx == req.frames[i].blocks - 1;
    SendIsWellFormed(cfg, size, req, us);
    RunCalls(prog, ss, acts, k);
    assert prog[..|prog|] == prog;
    assert j in ss[k].inGce || j in Seen(ss[k]);
    WholeSendCallsBack(cfg, size, req, ss, acts, k, j);
  }
}
