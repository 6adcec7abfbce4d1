/** Packing: how the stream of translated blocks is cut into GCE tasks.

    A unit is one block of one frame.  Units are appended to the packet being built until
    a unit of a closing frame (time-shared, secure, early-callback, or the last frame of
    the request), which flushes the packet as a task.
*/
module GcePacking {
  import opened GceCommands

  const INST_SIZE: nat := 8
  const SIZE_MOD: nat := 0x1_0000_0000_0000_0000

  datatype Unit = Unit(frm: nat, blk: nat, blkNum: nat, frmNum: nat, cmds: seq<Command>,
                       closes: bool, early: bool, clt: nat)

  /** `mtk_imgsys_cb_param` with the packet it owns. */
  datatype Task = Task(instrs: seq<Instr>, frmIdx: nat, frmNum: nat, blkIdx: nat, blkNum: nat,
                       isBlkLast: bool, isFrmLast: bool, isTaskLast: bool, isEarly: bool, clt: nat,
                       taskId: nat, taskNum: nat, taskCnt: nat, pktOfst: seq<nat>)

  // --------------------------------------------------------------------- grouping

  /** The packets already closed by `us`, and the units still waiting in the open one. */
  function Closed(us: seq<Unit>): seq<seq<Unit>> {
    if us == [] then []
    else
      var init, u := us[..|us| - 1], us[|us| - 1];
      if u.closes then Closed(init) + [Open(init) + [u]] else Closed(init)
  }

  function Open(us: seq<Unit>): seq<Unit> {
    if us == [] then []
    else
      var init, u := us[..|us| - 1], us[|us| - 1];
      if u.closes then [] else Open(init) + [u]
  }

  function Flatten<T>(gs: seq<seq<T>>): seq<T> {
    if gs == [] then [] else Flatten(gs[..|gs| - 1]) + gs[|gs| - 1]
  }

  /** A packet ends at its first closing unit. */
  predicate IsGroup(g: seq<Unit>) {
    g != [] && g[|g| - 1].closes && forall k :: 0 <= k < |g| - 1 ==> !g[k].closes
  }

  /** The reference definition of packing: the units in order, cut after every closing one. */
  predicate IsPacking(us: seq<Unit>, gs: seq<seq<Unit>>, open: seq<Unit>) {
    && us == Flatten(gs) + open
    && (forall i :: 0 <= i < |gs| ==> IsGroup(gs[i]))
    && (forall k :: 0 <= k < |open| ==> !open[k].closes)
  }

  lemma FlattenSnoc<T>(gs: seq<seq<T>>, g: seq<T>)
    ensures Flatten(gs + [g]) == Flatten(gs) + g
  {
    assert (gs + [g])[..|gs|] == gs;
  }

  lemma ClosedSnoc(us: seq<Unit>, u: Unit)
    ensures Closed(us + [u]) == if u.closes then Closed(us) + [Open(us) + [u]] else Closed(us)
    ensures Open(us + [u]) == if u.closes then [] else Open(us) + [u]
  {
    assert (us + [u])[..|us|] == us;
  }

  lemma {:induction false} GroupingKeepsOrder(us: seq<Unit>)
    ensures Flatten(Closed(us)) + Open(us) == us
  {
    if us != [] {
      var init, u := us[..|us| - 1], us[|us| - 1];
      GroupingKeepsOrder(init);
      var f, o := Flatten(Closed(init)), Open(init);
      assert us == (f + o) + [u] && (f + o) + [u] == f + (o + [u]);
      if u.closes {
        FlattenSnoc(Closed(init), o + [u]);
      }
    }
  }

  lemma {:induction false} GroupingCutsAtClosers(us: seq<Unit>)
    ensures forall i :: 0 <= i < |Closed(us)| ==> IsGroup(Closed(us)[i])
    ensures forall k :: 0 <= k < |Open(us)| ==> !Open(us)[k].closes
  {
    if us != [] {
      GroupingCutsAtClosers(us[..|us| - 1]);
    }
  }

  lemma {:induction false} GroupingIsPacking(us: seq<Unit>)
    ensures IsPacking(us, Closed(us), Open(us))
  {
    GroupingKeepsOrder(us);
    GroupingCutsAtClosers(us);
  }

  /** The cut is the only one possible, so each unit has exactly one packet. */
  lemma {:induction false} PackingIsUnique(us: seq<Unit>, gs: seq<seq<Unit>>, open: seq<Unit>)
    requires IsPacking(us, gs, open)
    ensures gs == Closed(us) && open == Open(us)
    decreases |us|, |gs|
  {
    if us == [] {
      if gs != [] {
        assert false;
      }
    } else {
      var init, u := us[..|us| - 1], us[|us| - 1];
      if open != [] {
        assert open[|open| - 1] == u;
        assert init == Flatten(gs) + open[..|open| - 1];
        PackingIsUnique(init, gs, open[..|open| - 1]);
      } else {
        var g := gs[|gs| - 1];
        assert IsGroup(g);
        assert us == Flatten(gs[..|gs| - 1]) + g;
        assert g[|g| - 1] == u && init == Flatten(gs[..|gs| - 1]) + g[..|g| - 1];
        PackingIsUnique(init, gs[..|gs| - 1], g[..|g| - 1]);
        assert g == g[..|g| - 1] + [u] && gs == gs[..|gs| - 1] + [g];
      }
    }
  }

  /** Nothing is left unflushed exactly when the last unit closes its packet. */
  lemma OpenEmptyIff(us: seq<Unit>)
    ensures Open(us) == [] <==> us == [] || us[|us| - 1].closes
  {
  }

  lemma {:induction false} GroupsAreGroups(us: seq<Unit>, i: nat)
    requires i < |Closed(us)|
    ensures IsGroup(Closed(us)[i])
  {
    GroupingIsPacking(us);
  }

  // ------------------------------------------------------------------------ tasks

  function Words(us: seq<Unit>): seq<Command> {
    if us == [] then [] else Words(us[..|us| - 1]) + us[|us| - 1].cmds
  }

  lemma WordsSnoc(us: seq<Unit>, u: Unit)
    ensures Words(us + [u]) == Words(us) + u.cmds
  {
    assert (us + [u])[..|us|] == us;
  }

  /** The packet that holds the units `g`: READ slots start again in every packet. */
  function Packet(cfg: Config, g: seq<Unit>): seq<Instr> { Translate(cfg, Words(g), 0) }

  /** The byte offset recorded after a unit: where the packet's last instruction starts, in
      `size_t` arithmetic.  `size` is the library's measure of a packet in bytes. */
  function LastOfst(size: seq<Instr> -> nat, p: seq<Instr>): nat {
    (size(p) + SIZE_MOD - INST_SIZE) % SIZE_MOD
  }

  function Ofsts(cfg: Config, size: seq<Instr> -> nat, g: seq<Unit>): (r: seq<nat>)
    ensures |r| == |g|
  {
    seq(|g|, k requires 0 <= k < |g| => LastOfst(size, Packet(cfg, g[..k + 1])))
  }

  function TaskOf(cfg: Config, size: seq<Instr> -> nat, g: seq<Unit>, id: nat): Task
    requires g != []
  {
    var u := g[|g| - 1];
    var isBlkLast, isFrmLast := u.blk + 1 == u.blkNum, u.frm + 1 == u.frmNum;
    Task(Packet(cfg, g), u.frm, u.frmNum, u.blk, u.blkNum,
         isBlkLast, isFrmLast, isBlkLast && isFrmLast, u.early, u.clt,
         id, if isBlkLast && isFrmLast then id + 1 else 0, |g|, Ofsts(cfg, size, g))
  }

  /** What the send does to the world outside: it publishes the number of tasks, and it
      hands packets over. */
  datatype Effect = Publish(n: nat) | Flush(task: Task)

  function TaskEffects(t: Task): seq<Effect> {
    (if t.isTaskLast then [Publish(t.taskNum)] else []) + [Flush(t)]
  }

  function Log(ts: seq<Task>): seq<Effect> {
    if ts == [] then [] else Log(ts[..|ts| - 1]) + TaskEffects(ts[|ts| - 1])
  }

  predicate NonEmptyGroups(gs: seq<seq<Unit>>) { forall i :: 0 <= i < |gs| ==> gs[i] != [] }

  /** One task per packet, numbered 0, 1, 2, ... */
  function Tasks(cfg: Config, size: seq<Instr> -> nat, gs: seq<seq<Unit>>): (ts: seq<Task>)
    requires NonEmptyGroups(gs)
    ensures |ts| == |gs|
  {
    seq(|gs|, i requires 0 <= i < |gs| => TaskOf(cfg, size, gs[i], i))
  }

  lemma TasksSnoc(cfg: Config, size: seq<Instr> -> nat, gs: seq<seq<Unit>>, g: seq<Unit>)
    requires NonEmptyGroups(gs) && g != []
    ensures Tasks(cfg, size, gs + [g]) == Tasks(cfg, size, gs) + [TaskOf(cfg, size, g, |gs|)]
  {
    hide TaskOf;
  }

  function Flushed(log: seq<Effect>): seq<Task> {
    if log == [] then []
    else
      var e := log[|log| - 1];
      Flushed(log[..|log| - 1]) + (if e.Flush? then [e.task] else [])
  }

  function Published(log: seq<Effect>): seq<nat> {
    if log == [] then []
    else
      var e := log[|log| - 1];
      Published(log[..|log| - 1]) + (if e.Publish? then [e.n] else [])
  }

  lemma LogOneTask(log: seq<Effect>, t: Task)
    ensures Flushed(log + TaskEffects(t)) == Flushed(log) + [t]
    ensures Published(log + TaskEffects(t)) == Published(log) + (if t.isTaskLast then [t.taskNum] else [])
  {
    assert (log + [Flush(t)])[..|log|] == log;
    if t.isTaskLast {
      var l := log + [Publish(t.taskNum)];
      assert l[..|log|] == log;
      assert log + TaskEffects(t) == l + [Flush(t)];
      assert (l + [Flush(t)])[..|l|] == l;
    } else {
      assert log + TaskEffects(t) == log + [Flush(t)];
    }
  }

  /** The log hands over every task, in order. */
  lemma {:induction false} LogFlushesAll(ts: seq<Task>)
    ensures Flushed(Log(ts)) == ts
  {
    if ts != [] {
      var init := ts[..|ts| - 1];
      LogFlushesAll(init);
      LogOneTask(Log(init), ts[|ts| - 1]);
    }
  }

  // ------------------------------------------------------- what packing preserves

  function Instrs(ts: seq<Task>): seq<Instr> {
    if ts == [] then [] else Instrs(ts[..|ts| - 1]) + ts[|ts| - 1].instrs
  }

  function TaskCnts(ts: seq<Task>): nat {
    if ts == [] then 0 else TaskCnts(ts[..|ts| - 1]) + ts[|ts| - 1].taskCnt
  }

  lemma {:induction false} WordsConcat(a: seq<Unit>, b: seq<Unit>)
    ensures Words(a + b) == Words(a) + Words(b)
  {
    if b == [] {
      assert a + b == a;
    } else {
      var init := b[..|b| - 1];
      assert (a + b)[..|a + b| - 1] == a + init;
      WordsConcat(a, init);
      assert Words(a) + (Words(init) + b[|b| - 1].cmds) == (Words(a) + Words(init)) + b[|b| - 1].cmds;
    }
  }

  /** The packets in flush order, concatenated, are the in-order translation of all their
      units' commands; READ results are only renumbered. */
  lemma {:induction false} PacketsConcat(cfg: Config, size: seq<Instr> -> nat, gs: seq<seq<Unit>>)
    requires NonEmptyGroups(gs)
    ensures Program(Instrs(Tasks(cfg, size, gs))) == Program(Translate(cfg, Words(Flatten(gs)), 0))
    ensures TaskCnts(Tasks(cfg, size, gs)) == |Flatten(gs)|
  {
    if gs != [] {
      var n := |gs| - 1;
      var init, g := gs[..n], gs[n];
      var before, t := Tasks(cfg, size, init), TaskOf(cfg, size, g, n);
      PacketsConcat(cfg, size, init);
      assert gs == init + [g];
      TasksSnoc(cfg, size, init, g);
      assert (before + [t])[..|before|] == before;
      WordsConcat(Flatten(init), g);
      ProgramConcat(Instrs(before), t.instrs);
      ProgramJoin(cfg, Words(Flatten(init)), Words(g));
    }
  }

  lemma ProgramJoin(cfg: Config, a: seq<Command>, b: seq<Command>)
    ensures Program(Translate(cfg, a, 0)) + Program(Translate(cfg, b, 0)) == Program(Translate(cfg, a + b, 0))
  {
    ProgramIgnoresSlots(cfg, b, 0, Slots(cfg, a));
    ProgramConcat(Translate(cfg, a, 0), Translate(cfg, b, Slots(cfg, a)));
    TranslateConcat(cfg, a, b, 0);
  }

  /** All units of one packet go to one GCE thread if neighbours do. */
  lemma {:induction false} GroupIsContiguous(us: seq<Unit>, i: nat)
    requires i < |Closed(us)|
    ensures var from := |Flatten(Closed(us)[..i])|;
      && from + |Closed(us)[i]| <= |us|
      && Closed(us)[i] == us[from..from + |Closed(us)[i]|]
  {
    GroupingIsPacking(us);
    FlattenSlice(Closed(us), i);
  }

  lemma {:induction false} FlattenSlice<T>(gs: seq<seq<T>>, i: nat)
    requires i < |gs|
    ensures var from := |Flatten(gs[..i])|;
      && from + |gs[i]| <= |Flatten(gs)|
      && gs[i] == Flatten(gs)[from..from + |gs[i]|]
  {
    var n := |gs| - 1;
    if i < n {
      FlattenSlice(gs[..n], i);
      assert gs[..n][..i] == gs[..i];
    }
  }
}
