/** `imgsys_cmdq_sendtask`: frames x blocks to flushed GCE packets. */
module GceSend {
  import opened GceCommands
  import opened GcePacking
  import opened Options

  const ENG_MAX: nat := 10
  const DIP_BIT: nat := 4            // IMGSYS_ENG_DIP == 1 << 4, and its GCE thread
  const CMD_MAX_SZ_N: nat := 0x9000
  const CMD_MAX_SZ_V: nat := 0x50000
  const MAX_FRAME_IN_TASK: nat := 64

  /** `hw` holds the bit positions set in hw_comb; `cmds` the curr_length / 24 commands found
      at cmd_offset. */
  datatype Frame = Frame(headerCode: nat, checkPre: nat, checkPost: nat, footerCode: nat,
                         cmdOffset: nat, blocks: nat, cmds: seq<Command>, hw: set<nat>,
                         timeShared: bool, secFrm: bool, earlyCb: bool)

  datatype Request = Request(groupId: int, syncId: int, frames: seq<Frame>)

  predicate HeaderOk(f: Frame) {
    && f.headerCode == 0x5A5A5A5A && f.checkPre == 0x55AA55AA
    && f.checkPost == 0xAA55AA55 && f.footerCode == 0xA5A5A5A5
    && f.cmdOffset <= (if f.timeShared then CMD_MAX_SZ_V else CMD_MAX_SZ_N)
  }

  /** Frames that flush after each of their blocks. */
  predicate Closes(req: Request, i: nat)
    requires i < |req.frames|
  {
    var f := req.frames[i];
    f.timeShared || f.secFrm || f.earlyCb || i + 1 == |req.frames|
  }

  function LowestEngine(hw: set<nat>, from: nat): Option<nat>
    decreases ENG_MAX - from
  {
    if from >= ENG_MAX then None
    else if from in hw then Some(from)
    else LowestEngine(hw, from + 1)
  }

  /** The GCE thread for a frame that starts a packet; `prev` is the one chosen before, which
      stays when no engine bit is set. */
  function Select(req: Request, hw: set<nat>, prev: Option<nat>): Option<nat> {
    if req.groupId != -1 && !(0 <= req.groupId < ENG_MAX) then None
    else if req.syncId != -1 then Some(0)
    else if req.groupId != -1 then Some(req.groupId)
    else if DIP_BIT in hw then Some(DIP_BIT)
    else if LowestEngine(hw, 0).Some? then LowestEngine(hw, 0)
    else prev
  }

  /** The GCE thread a packet goes to, by the frame that starts it: thread 0 for a request with a sync
      id, else that of its group, else DIP's if DIP takes part, else that of the lowest engine. */
  predicate ThreadFor(req: Request, hw: set<nat>, c: nat) {
    if req.syncId != -1 then c == 0
    else if req.groupId != -1 then c == req.groupId
    else if 4 in hw then c == 4
    else HasEngine(hw) ==> c in hw && forall e :: e in hw ==> c <= e
  }

  predicate HasEngine(hw: set<nat>) { exists e :: e in hw && e < 10 }

  predicate GroupInRange(req: Request) { req.groupId == -1 || 0 <= req.groupId < 10 }

  lemma {:induction false} Lowest(hw: set<nat>, from: nat)
    ensures match LowestEngine(hw, from)
      case Some(c) => from <= c < 10 && c in hw && forall e :: e in hw && from <= e ==> c <= e
      case None => forall e :: e in hw && from <= e ==> e >= 10
    decreases ENG_MAX - from
  {
    if from < ENG_MAX && from !in hw { Lowest(hw, from + 1); }
  }

  lemma SelectIsFor(req: Request, hw: set<nat>, prev: Option<nat>)
    ensures Select(req, hw, prev).Some? <==>
      GroupInRange(req) && (req.syncId != -1 || req.groupId != -1 || HasEngine(hw) || prev.Some?)
    ensures Select(req, hw, prev).Some? ==> ThreadFor(req, hw, Select(req, hw, prev).value)
    ensures req.syncId == req.groupId == -1 && !HasEngine(hw) ==> Select(req, hw, prev) == prev
  {
    Lowest(hw, 0);
  }

  function UnitOf(req: Request, i: nat, b: nat, clt: nat, words: seq<Command>): Unit
    requires i < |req.frames|
  {
    var f := req.frames[i];
    Unit(i, b, f.blocks, |req.frames|, words, Closes(req, i), f.earlyCb, clt)
  }

  /** The blocks of frame `i` from block `b` (whose commands start at `at`), up to the first
      one the parser does not accept. */
  function FrameUnits(req: Request, i: nat, clt: nat, b: nat, at: nat): seq<Unit>
    requires i < |req.frames| && b <= req.frames[i].blocks && at <= |req.frames[i].cmds|
    decreases req.frames[i].blocks - b
  {
    var f := req.frames[i];
    if b == f.blocks then []
    else
      var o := ParseFrom(f.cmds, at, 0);
      if !o.Parsed? then []
      else [UnitOf(req, i, b, clt, Accepted(f.cmds, at, o))] + FrameUnits(req, i, clt, b + 1, at + o.done)
  }

  /** How the blocks of frame `i` from block `b` on come out. */
  function FrameCause(req: Request, i: nat, b: nat, at: nat): Cause
    requires i < |req.frames| && b <= req.frames[i].blocks && at <= |req.frames[i].cmds|
  {
    StreamCause(req.frames[i].cmds, at, req.frames[i].blocks - b)
  }

  predicate FrameAccepted(req: Request, i: nat, b: nat, at: nat)
    requires i < |req.frames| && b <= req.frames[i].blocks && at <= |req.frames[i].cmds|
  {
    FrameCause(req, i, b, at) == Fine
  }

  lemma {:induction false} FrameUnitsFull(req: Request, i: nat, clt: nat, b: nat, at: nat)
    requires i < |req.frames| && b <= req.frames[i].blocks && at <= |req.frames[i].cmds|
    ensures FrameAccepted(req, i, b, at) <==> |FrameUnits(req, i, clt, b, at)| == req.frames[i].blocks - b
    ensures |FrameUnits(req, i, clt, b, at)| <= req.frames[i].blocks - b
    decreases req.frames[i].blocks - b
  {
    var o := ParseFrom(req.frames[i].cmds, at, 0);
    if b < req.frames[i].blocks && o.Parsed? {
      FrameUnitsFull(req, i, clt, b + 1, at + o.done);
    }
  }

  /** Whether a packet is still open after frame `i`. */
  predicate PackAfter(req: Request, i: nat, isPack: bool)
    requires i < |req.frames|
  {
    if req.frames[i].blocks == 0 then isPack else !Closes(req, i)
  }

  /** The units the request stands for, from frame `i` on: every block, in order, up to the
      first one the driver cannot translate.  Threads are chosen only when no packet is open. */
  function Units(req: Request, i: nat, isPack: bool, clt: Option<nat>): seq<Unit>
    decreases |req.frames| - i
  {
    if i >= |req.frames| || !HeaderOk(req.frames[i]) then []
    else
      var c := if isPack then clt else Select(req, req.frames[i].hw, clt);
      if c == None then []
      else
        FrameUnits(req, i, c.value, 0, 0)
        + (if FrameAccepted(req, i, 0, 0) then Units(req, i + 1, PackAfter(req, i, isPack), c) else [])
  }

  /** What stops the send of the frames from `i` on: every frame must be well formed, have a
      thread, and parse. */
  function CauseFrom(req: Request, i: nat, isPack: bool, clt: Option<nat>): Cause
    decreases |req.frames| - i
  {
    if i >= |req.frames| then Fine
    else if !HeaderOk(req.frames[i]) then Malformed
    else
      var c := if isPack then clt else Select(req, req.frames[i].hw, clt);
      if c == None then NoThread
      else if !FrameAccepted(req, i, 0, 0) then FrameCause(req, i, 0, 0)
      else CauseFrom(req, i + 1, PackAfter(req, i, isPack), c)
  }

  predicate Complete(req: Request, i: nat, isPack: bool, clt: Option<nat>) { CauseFrom(req, i, isPack, clt) == Fine }

  function CauseOf(req: Request): Cause { CauseFrom(req, 0, false, None) }

  function UnitsOf(req: Request): seq<Unit> { Units(req, 0, false, None) }

  lemma NothingAfter(req: Request, isPack: bool, clt: Option<nat>)
    ensures Units(req, |req.frames|, isPack, clt) == [] && CauseFrom(req, |req.frames|, isPack, clt) == Fine
  {
  }

  predicate Translatable(req: Request) { Complete(req, 0, false, None) }

  /** No packing run outgrows `pkt_ofst`. */
  predicate Fits(us: seq<Unit>) {
    us != [] ==> Fits(us[..|us| - 1]) && |Open(us[..|us| - 1])| < MAX_FRAME_IN_TASK
  }

  /** The number of blocks in the frames before frame `n`. */
  function BlocksBefore(req: Request, n: nat): nat
    requires n <= |req.frames|
  {
    if n == 0 then 0 else BlocksBefore(req, n - 1) + req.frames[n - 1].blocks
  }

  predicate IsBlock(req: Request, i: nat, b: nat) { i < |req.frames| && b < req.frames[i].blocks }

  lemma {:induction false} BlocksGrow(req: Request, m: nat, n: nat)
    requires m <= n <= |req.frames|
    ensures BlocksBefore(req, m) <= BlocksBefore(req, n)
  {
    if m < n { BlocksGrow(req, m, n - 1); }
  }

  /** No two blocks have the same place. */
  lemma SamePlace(req: Request, i: nat, b: nat, i': nat, b': nat)
    requires IsBlock(req, i, b) && IsBlock(req, i', b')
    ensures BlocksBefore(req, i) + b == BlocksBefore(req, i') + b' <==> i == i' && b == b'
  {
    if i < i' {
      BlocksGrow(req, i + 1, i');
    } else if i' < i {
      BlocksGrow(req, i' + 1, i);
    }
  }

  /** Every allocation made for the units `us` succeeded: a packet's for the unit that starts it, and
      the callback parameters' for the unit that completes it. */
  predicate Supplied(pktOk: (nat, nat) -> bool, memOk: (nat, nat) -> bool, us: seq<Unit>) {
    us != [] ==>
      var init, u := us[..|us| - 1], us[|us| - 1];
      && Supplied(pktOk, memOk, init)
      && (Open(init) == [] ==> pktOk(u.frm, u.blk)) && (u.closes ==> memOk(u.frm, u.blk))
  }

  /** Behind the units `us`, an allocation for block `b` of frame `i` fails; `parsed` says that its
      commands are accepted. */
  predicate Starves(req: Request, pktOk: (nat, nat) -> bool, memOk: (nat, nat) -> bool, us: seq<Unit>,
                    i: nat, b: nat, parsed: bool)
    requires i < |req.frames|
  {
    || (Open(us) == [] && !pktOk(i, b))
    || (parsed && |Open(us)| < MAX_FRAME_IN_TASK && Closes(req, i) && !memOk(i, b))
  }

  /** Behind the units `us` of `all`, the next block finds no memory. */
  ghost predicate Short(req: Request, pktOk: (nat, nat) -> bool, memOk: (nat, nat) -> bool,
                        us: seq<Unit>, all: seq<Unit>)
  {
    exists i, b :: IsBlock(req, i, b) && BlocksBefore(req, i) + b == |us|
                   && Starves(req, pktOk, memOk, us, i, b, |us| < |all|)
  }

  /** The next block is the only one at its place. */
  lemma ShortIs(req: Request, pktOk: (nat, nat) -> bool, memOk: (nat, nat) -> bool, us: seq<Unit>, all: seq<Unit>,
                i: nat, b: nat)
    requires IsBlock(req, i, b) && BlocksBefore(req, i) + b == |us|
    ensures Short(req, pktOk, memOk, us, all) <==> Starves(req, pktOk, memOk, us, i, b, |us| < |all|)
  {
    hide Starves;
    forall j, c | IsBlock(req, j, c) && BlocksBefore(req, j) + c == |us| ensures j == i && c == b {
      SamePlace(req, i, b, j, c);
    }
  }

  lemma NoneShort(req: Request, pktOk: (nat, nat) -> bool, memOk: (nat, nat) -> bool, us: seq<Unit>, all: seq<Unit>)
    requires |us| == BlocksBefore(req, |req.frames|)
    ensures !Short(req, pktOk, memOk, us, all)
  {
    forall i: nat, b: nat | IsBlock(req, i, b) ensures BlocksBefore(req, i) + b != |us| {
      BlocksGrow(req, i + 1, |req.frames|);
    }
  }

  lemma SuppliedSnoc(pktOk: (nat, nat) -> bool, memOk: (nat, nat) -> bool, us: seq<Unit>, u: Unit)
    requires Supplied(pktOk, memOk, us)
    requires (Open(us) == [] ==> pktOk(u.frm, u.blk)) && (u.closes ==> memOk(u.frm, u.blk))
    ensures Supplied(pktOk, memOk, us + [u])
  {
    hide Open;
    assert (us + [u])[..|us|] == us;
  }

  /** Some allocation fails. */
  ghost predicate Shortage(pktOk: (nat, nat) -> bool, memOk: (nat, nat) -> bool) {
    exists i, b :: !pktOk(i, b) || !memOk(i, b)
  }

  lemma ShortIsShortage(req: Request, pktOk: (nat, nat) -> bool, memOk: (nat, nat) -> bool,
                        us: seq<Unit>, all: seq<Unit>)
    requires Short(req, pktOk, memOk, us, all)
    ensures Shortage(pktOk, memOk)
  {
  }

  /** `OutOfBounds` stands for the two places where the original leaves its arrays: a parse
      running off the frame's commands, and a 65th entry of `pkt_ofst`. */
  datatype Status = Sent | Rejected | OutOfBounds

  /** How a send without allocation failures ends: having packed the units `now` of `all`, it
      succeeds with all of them, is refused after the last translatable one, or leaves an
      array, either after the last translatable one or with a full offset table. */
  predicate Ended(st: Status, now: seq<Unit>, all: seq<Unit>, cause: Cause) {
    && now <= all && Fits(now)
    && match st
       case Sent => now == all && cause == Fine
       case Rejected => now == all && cause != Fine && cause != RanOff
       case OutOfBounds => (now == all && cause == RanOff) || (now < all && |Open(now)| == MAX_FRAME_IN_TASK)
  }

  /** So the way it ends is decided by the request alone. */
  lemma EndedIff(st: Status, now: seq<Unit>, all: seq<Unit>, cause: Cause)
    requires Ended(st, now, all, cause)
    ensures st == Sent <==> cause == Fine && Fits(all)
    ensures st == Rejected <==> cause != Fine && cause != RanOff && Fits(all)
    ensures st == OutOfBounds <==> cause == RanOff || !Fits(all)
  {
    if now < all {
      var next := all[..|now| + 1];
      assert next[..|now|] == now;
      if Fits(all) { FitsPrefix(all, next); }
    }
  }

  class Sender {
    const rec: Recorder
    const size: seq<Instr> -> nat
    const pktOfst: array<nat>
    var isPack: bool
    var taskCnt: nat
    var taskNum: nat              // also the next task_id
    var totalTaskCnt: nat         // frm_info->total_taskcnt
    var log: seq<Effect>          // what this send has published and flushed, in order

    ghost const Repr: set<object> := {this, rec, rec.hist, pktOfst}

    constructor (cfg: Config, size: seq<Instr> -> nat)
      ensures Ready() && rec.cfg == cfg && this.size == size && fresh(Repr)
    {
      this.size := size;
      rec := new Recorder(cfg);
      pktOfst := new nat[MAX_FRAME_IN_TASK](_ => 0);
      isPack, taskCnt, taskNum, totalTaskCnt, log := false, 0, 0, 0, [];
    }

    ghost predicate Ready()
      reads this, rec
    {
      rec.hist.Length == POOL_NUM && pktOfst.Length == MAX_FRAME_IN_TASK
    }

    /** Every packet closed by `us` is flushed, and nothing else. */
    ghost predicate Logged(us: seq<Unit>)
      reads `log, `taskNum, `totalTaskCnt
    {
      && NonEmptyGroups(Closed(us))
      && log == Log(Tasks(rec.cfg, size, Closed(us)))
      && taskNum == |Closed(us)|
      && totalTaskCnt == Total(log)
    }

    ghost predicate Holds(g: seq<Unit>)
      reads rec
    {
      rec.pkt == Packet(rec.cfg, g) && rec.slots == Slots(rec.cfg, Words(g))
    }

    ghost predicate Noted(g: seq<Unit>)
      reads `taskCnt, pktOfst
    {
      taskCnt == |g| <= pktOfst.Length && pktOfst[..taskCnt] == Ofsts(rec.cfg, size, g)
    }

    /** The sender after the units `us`: closed packets flushed, the open one under way. */
    ghost predicate After(us: seq<Unit>)
      reads this, rec, pktOfst
    {
      Ready() && Logged(us) && Noted(Open(us)) && isPack == (Open(us) != []) && (isPack ==> Holds(Open(us)))
    }

    /** As `After(us)`, with unit `u` appended to the packet but the packet not yet flushed. */
    ghost predicate Appended(us: seq<Unit>, u: Unit)
      reads this, rec, pktOfst
    {
      Ready() && Logged(us) && Noted(Open(us) + [u]) && Holds(Open(us) + [u])
    }

    /** `thd_idx` search over the engine bits. */
    method ChooseThread(req: Request, hw: set<nat>, prev: Option<nat>) returns (clt: Option<nat>)
      ensures clt == Select(req, hw, prev)
      ensures clt.Some? <==>
        GroupInRange(req) && (req.syncId != -1 || req.groupId != -1 || HasEngine(hw) || prev.Some?)
      ensures clt.Some? ==> ThreadFor(req, hw, clt.value)
      ensures req.syncId == req.groupId == -1 && !HasEngine(hw) ==> clt == prev
    {
      SelectIsFor(req, hw, prev);
      clt := prev;
      if req.groupId == -1 {
        var thd := 0;
        while thd < ENG_MAX && thd !in hw
          invariant thd <= ENG_MAX && LowestEngine(hw, 0) == LowestEngine(hw, thd)
        {
          thd := thd + 1;
        }
        if thd < ENG_MAX { clt := Some(thd); }
        if DIP_BIT in hw { clt := Some(DIP_BIT); }
      } else if 0 <= req.groupId < ENG_MAX {
        clt := Some(req.groupId);
      } else {
        return None;
      }
      if req.syncId != -1 { clt := Some(0); }
    }

    /** Start a packet if none is open. */
    method OpenPacket(pktOk: bool, ghost us: seq<Unit>) returns (ok: bool)
      requires After(us)
      modifies rec`pkt, rec`slots
      ensures ok <==> Open(us) != [] || pktOk
      ensures ok ==> Holds(Open(us))
    {
      if !isPack {
        if !pktOk { return false; }
        rec.pkt, rec.slots := [], 0;
      }
      return true;
    }

    /** The parser call: the accepted words follow the ones already in the packet. */
    method FillPacket(f: Frame, at: nat, ghost g: seq<Unit>, ghost u: Unit) returns (o: Outcome)
      requires at <= |f.cmds| && Ready() && Holds(g)
      requires u.cmds == Accepted(f.cmds, at, ParseFrom(f.cmds, at, 0))
      modifies rec, rec.hist
      ensures o == ParseFrom(f.cmds, at, 0)
      ensures Holds(g + [u]) && rec.hist[..] == Counted(old(rec.hist[..]), u.cmds)
    {
      hide Translate, Packet, Words, Slots, ParseFrom, Counted, Accepted;
      o := rec.ParseBlock(f.cmds, at);
      PacketSnoc(rec.cfg, g, u);
    }

    /** Remember where the packet ends after the unit just translated. */
    method NoteOffset(ghost g: seq<Unit>, ghost u: Unit)
      requires Noted(g) && taskCnt < pktOfst.Length && Holds(g + [u])
      modifies pktOfst, this`taskCnt
      ensures Noted(g + [u])
    {
      OfstsSnoc(rec.cfg, size, g, u);
      pktOfst[taskCnt] := LastOfst(size, rec.pkt);
      taskCnt := taskCnt + 1;
      assert pktOfst[..taskCnt] == pktOfst[..taskCnt - 1] + [pktOfst[taskCnt - 1]];
    }

    /** Translate one block into the packet and note its offset. */
    method AppendBlock(f: Frame, at: nat, pktOk: bool, ghost us: seq<Unit>, ghost u: Unit)
      returns (o: Outcome, noMem: bool, full: bool)
      requires at <= |f.cmds| && After(us)
      requires u.cmds == Accepted(f.cmds, at, ParseFrom(f.cmds, at, 0))
      modifies rec, rec.hist, pktOfst, this`taskCnt
      ensures o == ParseFrom(f.cmds, at, 0)
      ensures noMem <==> Open(us) == [] && !pktOk
      ensures full ==> o.Parsed? && |Open(us)| == MAX_FRAME_IN_TASK
      ensures o.Parsed? && !noMem && !full ==> |Open(us)| < MAX_FRAME_IN_TASK && Appended(us, u)
      ensures !noMem ==> rec.hist[..] == Counted(old(rec.hist[..]), u.cmds)
      ensures Ready() && Logged(us)
    {
      hide Closed, Open, Tasks, Log, Ofsts, Counted, ParseFrom, Accepted, Total, Holds, Logged;
      o, full := ParseFrom(f.cmds, at, 0), false;
      var ok := OpenPacket(pktOk, us);
      noMem := !ok;
      if ok {
        o := FillPacket(f, at, Open(us), u);
        if o.Parsed? {
          full := taskCnt == MAX_FRAME_IN_TASK;
          if !full { NoteOffset(Open(us), u); }
        }
      }
    }

    /** Fill in the callback parameters of the packet that unit `words` completes. */
    method MakeTask(req: Request, i: nat, b: nat, clt: nat, ghost us: seq<Unit>, ghost words: seq<Command>)
      returns (task: Task)
      requires i < |req.frames| && Appended(us, UnitOf(req, i, b, clt, words))
      modifies this`taskNum
      ensures taskNum == old(taskNum) + 1
      ensures task == TaskOf(rec.cfg, size, Open(us) + [UnitOf(req, i, b, clt, words)], |Closed(us)|)
    {
      var f := req.frames[i];
      var isBlkLast, isFrmLast := b + 1 == f.blocks, i + 1 == |req.frames|;
      var isTaskLast := isBlkLast && isFrmLast;
      taskNum := taskNum + 1;
      task := Task(rec.pkt, i, |req.frames|, b, f.blocks, isBlkLast, isFrmLast, isTaskLast,
                   f.earlyCb, clt, taskNum - 1, if isTaskLast then taskNum else 0,
                   taskCnt, pktOfst[..taskCnt]);
    }

    /** Publish the task total with the last block of the last frame, and hand the packet over. */
    method FlushTask(task: Task, ghost us: seq<Unit>, ghost u: Unit)
      requires NonEmptyGroups(Closed(us)) && u.closes && Ready()
      requires log == Log(Tasks(rec.cfg, size, Closed(us))) && totalTaskCnt == Total(log)
      requires taskNum == |Closed(us)| + 1
      requires task == TaskOf(rec.cfg, size, Open(us) + [u], |Closed(us)|)
      modifies this`taskCnt, this`totalTaskCnt, this`log, this`isPack
      ensures After(us + [u]) && !isPack
    {
      hide Tasks, Log;
      TaskLogged(rec.cfg, size, us, u);
      TotalOneTask(log, task);
      ghost var before := log;
      if task.isTaskLast {
        totalTaskCnt := taskNum;
        log := log + [Publish(taskNum)];
      }
      log := log + [Flush(task)];
      assert log == before + TaskEffects(task);
      taskCnt, isPack := 0, false;
    }

    /** The block was not a closing one: the packet stays open. */
    method KeepOpen(ghost us: seq<Unit>, ghost u: Unit)
      requires !u.closes && Appended(us, u)
      modifies this`isPack
      ensures After(us + [u]) && isPack
    {
      hide Tasks, Log, Total, Holds, Noted, NonEmptyGroups, Closed, Open;
      isPack := true;
      ClosedSnoc(us, u);
    }

    method ClosePacket(req: Request, i: nat, b: nat, clt: nat, ghost us: seq<Unit>, ghost u: Unit)
      requires i < |req.frames| && Closes(req, i) && Appended(us, u) && u == UnitOf(req, i, b, clt, u.cmds)
      modifies this
      ensures After(us + [u]) && !isPack
    {
      var task := MakeTask(req, i, b, clt, us, u.cmds);
      FlushTask(task, us, u);
    }

    /** Flush, or leave open, the packet a block was appended to. */
    method Settle(req: Request, i: nat, b: nat, clt: nat, memOk: bool, ghost us: seq<Unit>, ghost u: Unit)
      returns (ok: bool)
      requires i < |req.frames| && Appended(us, u) && u == UnitOf(req, i, b, clt, u.cmds)
      modifies this
      ensures if ok then After(us + [u]) && isPack == !Closes(req, i) else Ready() && Logged(us)
      ensures ok <==> !Closes(req, i) || memOk
    {
      var f := req.frames[i];
      if f.timeShared || f.secFrm || f.earlyCb || i + 1 == |req.frames| {
        if !memOk { return false; }
        ClosePacket(req, i, b, clt, us, u);
      } else {
        KeepOpen(us, u);
      }
      return true;
    }

    /** One turn of the block loop: `Sent` when the block is in its packet.  `pktOk` and `memOk`
        say whether the packet and callback-parameter allocations succeed. */
    method SendBlock(req: Request, i: nat, b: nat, at: nat, clt: nat, pktOk: bool, memOk: bool,
                     ghost us: seq<Unit>, ghost u: Unit) returns (st: Status, o: Outcome)
      requires i < |req.frames| && b < req.frames[i].blocks && at <= |req.frames[i].cmds|
      requires After(us)
      requires u == UnitOf(req, i, b, clt, Accepted(req.frames[i].cmds, at, ParseFrom(req.frames[i].cmds, at, 0)))
      modifies Repr
      ensures o == ParseFrom(req.frames[i].cmds, at, 0)
      ensures st == Sent ==> o.Parsed? && |Open(us)| < MAX_FRAME_IN_TASK && After(us + [u])
      ensures st == Sent ==> rec.hist[..] == Counted(old(rec.hist[..]), u.cmds)
      ensures st == Sent ==> isPack == !Closes(req, i)
      ensures st != Sent ==> Ready() && Logged(us)
      ensures st == Sent ==> (Open(us) == [] ==> pktOk) && (Closes(req, i) ==> memOk)
      ensures st == Rejected ==>
        || o.Refused? || (Open(us) == [] && !pktOk)
        || (o.Parsed? && |Open(us)| < MAX_FRAME_IN_TASK && Closes(req, i) && !memOk)
      ensures st == OutOfBounds ==>
        (o.Overrun? || (o.Parsed? && |Open(us)| == MAX_FRAME_IN_TASK)) && (Open(us) == [] ==> pktOk)
    {
      hide After, Appended, Open, Counted, ParseFrom;
      var noMem, full;
      o, noMem, full := AppendBlock(req.frames[i], at, pktOk, us, u);
      if noMem || o.Refused? {
        st := Rejected;
      } else if o.Overrun? || full {
        st := OutOfBounds;
      } else {
        var ok := Settle(req, i, b, clt, memOk, us, u);
        st := if ok then Sent else Rejected;
      }
    }

    /** `After(us)`, having packed within bounds and counted every event since `h`. */
    ghost predicate Progress(us: seq<Unit>, h: seq<int>)
      reads this, rec, rec.hist, pktOfst
    {
      After(us) && Fits(us) && rec.hist[..] == Counted(h, Words(us))
    }

    /** One turn of the block loop, as progress on the request. */
    method NextBlock(req: Request, i: nat, b: nat, at: nat, clt: nat, pktOk: bool, memOk: bool,
                     ghost us: seq<Unit>, ghost u: Unit, ghost h: seq<int>) returns (st: Status, o: Outcome)
      requires i < |req.frames| && b < req.frames[i].blocks && at <= |req.frames[i].cmds|
      requires Progress(us, h)
      requires u == UnitOf(req, i, b, clt, Accepted(req.frames[i].cmds, at, ParseFrom(req.frames[i].cmds, at, 0)))
      modifies Repr
      ensures o == ParseFrom(req.frames[i].cmds, at, 0)
      ensures st == Sent ==> o.Parsed? && Progress(us + [u], h) && isPack == !Closes(req, i)
      ensures st != Sent ==> Ready() && Logged(us)
      ensures st == Sent ==> (Open(us) == [] ==> pktOk) && (Closes(req, i) ==> memOk)
      ensures st == Rejected ==>
        || o.Refused? || (Open(us) == [] && !pktOk)
        || (o.Parsed? && |Open(us)| < MAX_FRAME_IN_TASK && Closes(req, i) && !memOk)
      ensures st == OutOfBounds ==>
        (o.Overrun? || (o.Parsed? && |Open(us)| == MAX_FRAME_IN_TASK)) && (Open(us) == [] ==> pktOk)
    {
      hide After, Open, Closed, Counted, ParseFrom, Words, Accepted, Logged, Closes;
      st, o := SendBlock(req, i, b, at, clt, pktOk, memOk, us, u);
      assert (us + [u])[..|us|] == us;
      WordsSnoc(us, u);
      CountedConcat(h, Words(us), u.cmds);
    }

    /** The block loop of one frame. */
    method SendFrame(req: Request, i: nat, clt: nat, pktOk: (nat, nat) -> bool, memOk: (nat, nat) -> bool,
                     ghost us: seq<Unit>, ghost h: seq<int>) returns (st: Status, ghost now: seq<Unit>)
      requires i < |req.frames| && Progress(us, h) && Supplied(pktOk, memOk, us)
      modifies Repr
      ensures us <= now <= us + FrameUnits(req, i, clt, 0, 0) && Supplied(pktOk, memOk, now)
      ensures Fits(now)
      ensures Ready() && Logged(now)
      ensures st == Sent ==> now == us + FrameUnits(req, i, clt, 0, 0) && FrameAccepted(req, i, 0, 0)
      ensures st == Sent ==> Progress(now, h) && isPack == PackAfter(req, i, old(isPack))
      ensures st == Sent ==> |now| == |us| + req.frames[i].blocks
      ensures st != Sent ==> |now| - |us| < req.frames[i].blocks
      ensures st != Sent ==>
        var all := us + FrameUnits(req, i, clt, 0, 0);
        if Starves(req, pktOk, memOk, now, i, |now| - |us|, |now| < |all|) then st == Rejected
        else Ended(st, now, all, FrameCause(req, i, 0, 0))
    {
      hide Logged, Noted, Holds, Open, Fits, ParseFrom, Accepted, Counted, Words;
      hide Supplied, Starves, Ended, Closes;
      var b, at: nat := 0, 0;
      now := us;
      st := Sent;
      while b < req.frames[i].blocks
        invariant b <= req.frames[i].blocks && at <= |req.frames[i].cmds|
        invariant us <= now && now + FrameUnits(req, i, clt, b, at) == us + FrameUnits(req, i, clt, 0, 0)
        invariant FrameCause(req, i, 0, 0) == FrameCause(req, i, b, at)
        invariant st == Sent && Progress(now, h) && Supplied(pktOk, memOk, now) && |now| == |us| + b
        invariant isPack == if b == 0 then old(isPack) else !Closes(req, i)
      {
        ghost var o' := ParseFrom(req.frames[i].cmds, at, 0);
        ghost var u := UnitOf(req, i, b, clt, Accepted(req.frames[i].cmds, at, o'));
        var o;
        st, o := NextBlock(req, i, b, at, clt, pktOk(i, b), memOk(i, b), now, u, h);
        if st != Sent {
          FrameEnds(req, i, b, at, clt, pktOk, memOk, now, st);
          return;
        }
        SuppliedSnoc(pktOk, memOk, now, u);
        now := now + [u];
        b, at := b + 1, at + o.done;
      }
    }

    /** How the block loop is left early. */
    lemma FrameEnds(req: Request, i: nat, b: nat, at: nat, clt: nat, pktOk: (nat, nat) -> bool,
                    memOk: (nat, nat) -> bool, now: seq<Unit>, st: Status)
      requires i < |req.frames| && b < req.frames[i].blocks && at <= |req.frames[i].cmds| && Fits(now) && st != Sent
      requires var o := ParseFrom(req.frames[i].cmds, at, 0);
        if st == Rejected then
          || o.Refused? || (Open(now) == [] && !pktOk(i, b))
          || (o.Parsed? && |Open(now)| < MAX_FRAME_IN_TASK && Closes(req, i) && !memOk(i, b))
        else
          (o.Overrun? || (o.Parsed? && |Open(now)| == MAX_FRAME_IN_TASK)) && (Open(now) == [] ==> pktOk(i, b))
      ensures var all := now + FrameUnits(req, i, clt, b, at);
        if Starves(req, pktOk, memOk, now, i, b, |now| < |all|) then st == Rejected
        else Ended(st, now, all, FrameCause(req, i, b, at))
    {
      hide Open, Fits, Accepted, Closes;
    }

    /** One turn of the frame loop. */
    method NextFrame(req: Request, i: nat, prev: Option<nat>,
                     pktOk: (nat, nat) -> bool, memOk: (nat, nat) -> bool, ghost us: seq<Unit>, ghost h: seq<int>)
      returns (st: Status, clt: Option<nat>, ghost now: seq<Unit>)
      requires i < |req.frames| && Progress(us, h) && (isPack ==> prev.Some?)
      requires |us| == BlocksBefore(req, i) && Supplied(pktOk, memOk, us)
      modifies Repr
      ensures Ready() && Logged(now)
      ensures us <= now <= us + Units(req, i, old(isPack), prev)
      ensures Supplied(pktOk, memOk, now) && Fits(now)
      ensures st == Sent ==> Progress(now, h) && clt.Some? && |now| == BlocksBefore(req, i + 1)
      ensures st == Sent ==> now + Units(req, i + 1, isPack, clt) == us + Units(req, i, old(isPack), prev)
      ensures st == Sent ==> CauseFrom(req, i, old(isPack), prev) == CauseFrom(req, i + 1, isPack, clt)
      ensures st != Sent ==>
        var all := us + Units(req, i, old(isPack), prev);
        if Short(req, pktOk, memOk, now, all) then st == Rejected
        else Ended(st, now, all, CauseFrom(req, i, old(isPack), prev))
    {
      hide Logged, Noted, Holds, Open, Fits, Counted, Words;
      hide FrameUnits, FrameCause, HeaderOk, Select, PackAfter, Short, Starves, Supplied;
      st, clt, now := Rejected, prev, us;
      if HeaderOk(req.frames[i]) {
        if !isPack { clt := ChooseThread(req, req.frames[i].hw, prev); }
        if clt.Some? {
          ghost var fu := FrameUnits(req, i, clt.value, 0, 0);
          ghost var all := Units(req, i, isPack, prev);
          assert us + all == us + fu + all[|fu|..];
          st, now := SendFrame(req, i, clt.value, pktOk, memOk, us, h);
          FrameUnitsFull(req, i, clt.value, 0, 0);
          if st != Sent { ShortIs(req, pktOk, memOk, now, us + all, i, |now| - |us|); }
        }
      }
    }

    /** The whole send.  `pktOk(i, b)` and `memOk(i, b)` say whether the two allocations made
        for block `b` of frame `i` succeed; `now` is the part of the request that was packed. */
    method SendTask(req: Request, pktOk: (nat, nat) -> bool, memOk: (nat, nat) -> bool)
      returns (st: Status, ghost now: seq<Unit>)
      requires Ready()
      modifies Repr
      ensures now <= UnitsOf(req) && Ready() && Logged(now)
      ensures st == Sent ==> Progress(now, old(rec.hist[..]))
      ensures Supplied(pktOk, memOk, now) && Fits(now)
      ensures if Short(req, pktOk, memOk, now, UnitsOf(req)) then st == Rejected
              else Ended(st, now, UnitsOf(req), CauseOf(req))
      ensures !Shortage(pktOk, memOk) ==>
        && (st == Sent <==> Translatable(req) && Fits(UnitsOf(req)))
        && (st == OutOfBounds <==> CauseOf(req) == RanOff || !Fits(UnitsOf(req)))
    {
      isPack, taskCnt, taskNum, totalTaskCnt, log := false, 0, 0, 0, [];
      StartsEmpty(rec.hist[..]);
      hide Progress, Logged, Fits, Short, Shortage, Supplied;
      st, now := SendFrames(req, pktOk, memOk, rec.hist[..]);
      if Short(req, pktOk, memOk, now, UnitsOf(req)) { ShortIsShortage(req, pktOk, memOk, now, UnitsOf(req)); }
      if Ended(st, now, UnitsOf(req), CauseOf(req)) { EndedIff(st, now, UnitsOf(req), CauseOf(req)); }
    }

    /** The frame loop. */
    method SendFrames(req: Request, pktOk: (nat, nat) -> bool, memOk: (nat, nat) -> bool, ghost h: seq<int>)
      returns (st: Status, ghost now: seq<Unit>)
      requires Progress([], h) && Ready() && Logged([]) && !isPack
      modifies Repr
      ensures now <= UnitsOf(req) && Ready() && Logged(now)
      ensures st == Sent ==> Progress(now, h)
      ensures Supplied(pktOk, memOk, now) && Fits(now)
      ensures if Short(req, pktOk, memOk, now, UnitsOf(req)) then st == Rejected
              else Ended(st, now, UnitsOf(req), CauseOf(req))
    {
      hide Logged, Progress, Units, CauseFrom, Ended, Short;
      now, st := [], Sent;
      var i, clt := 0, None;
      while i < |req.frames| && st == Sent
        invariant i <= |req.frames| && Ready() && Logged(now) && now <= UnitsOf(req)
        invariant st == Sent ==> Progress(now, h) && (isPack ==> clt.Some?) && |now| == BlocksBefore(req, i)
        invariant Supplied(pktOk, memOk, now) && Fits(now)
        invariant st == Sent ==> now + Units(req, i, isPack, clt) == UnitsOf(req)
        invariant st == Sent ==> CauseOf(req) == CauseFrom(req, i, isPack, clt)
        invariant st != Sent ==>
          if Short(req, pktOk, memOk, now, UnitsOf(req)) then st == Rejected
          else Ended(st, now, UnitsOf(req), CauseOf(req))
      {
        st, clt, now := NextFrame(req, i, clt, pktOk, memOk, now, h);
        i := i + 1;
      }
      if st == Sent {
        NothingAfter(req, isPack, clt);
        SentAll(now, UnitsOf(req), h);
        NoneShort(req, pktOk, memOk, now, UnitsOf(req));
      }
    }

    lemma SentAll(now: seq<Unit>, all: seq<Unit>, h: seq<int>)
      requires now + [] == all && Progress(now, h)
      ensures Ended(Sent, now, all, Fine)
    {
    }

    /** A send starts from nothing packed and nothing flushed. */
    lemma StartsEmpty(h: seq<int>)
      requires Ready() && log == [] && taskNum == taskCnt == totalTaskCnt == 0 && !isPack && h == rec.hist[..]
      ensures Progress([], h) && Logged([])
    {
      assert Counted(h, []) == h;
    }
  }

  function Total(log: seq<Effect>): nat {
    var p := Published(log);
    if p == [] then 0 else p[|p| - 1]
  }

  lemma {:induction false} FitsPrefix(us: seq<Unit>, p: seq<Unit>)
    requires p <= us && Fits(us)
    ensures Fits(p)
    decreases |us|
  {
    if |p| < |us| {
      FitsPrefix(us[..|us| - 1], p);
    } else {
      assert p == us;
    }
  }

  lemma CountedConcat(h: seq<int>, a: seq<Command>, b: seq<Command>)
    ensures Counted(Counted(h, a), b) == Counted(h, a + b)
  {
    forall e ensures TotalDelta(a + b, e) == TotalDelta(a, e) + TotalDelta(b, e) {
      TotalDeltaConcat(a, b, e);
    }
  }

  lemma {:induction false} TotalDeltaConcat(a: seq<Command>, b: seq<Command>, e: nat)
    ensures TotalDelta(a + b, e) == TotalDelta(a, e) + TotalDelta(b, e)
  {
    if b == [] {
      assert a + b == a;
    } else {
      assert (a + b)[..|a + b| - 1] == a + b[..|b| - 1];
      TotalDeltaConcat(a, b[..|b| - 1], e);
    }
  }

  lemma PacketSnoc(cfg: Config, g: seq<Unit>, u: Unit)
    ensures Packet(cfg, g + [u]) == Packet(cfg, g) + Translate(cfg, u.cmds, Slots(cfg, Words(g)))
    ensures Slots(cfg, Words(g + [u])) == Slots(cfg, Words(g)) + Slots(cfg, u.cmds)
  {
    hide Translate, Slots, Words;
    WordsSnoc(g, u);
    TranslateConcat(cfg, Words(g), u.cmds, 0);
  }

  lemma OfstsSnoc(cfg: Config, size: seq<Instr> -> nat, g: seq<Unit>, u: Unit)
    ensures Ofsts(cfg, size, g + [u]) == Ofsts(cfg, size, g) + [LastOfst(size, Packet(cfg, g + [u]))]
  {
    hide Packet, LastOfst;
    assert (g + [u])[..|g| + 1] == g + [u];
    forall k | 0 <= k < |g|
      ensures Ofsts(cfg, size, g + [u])[k] == Ofsts(cfg, size, g)[k]
    {
      assert (g + [u])[..k + 1] == g[..k + 1];
    }
  }

  /** Flushing the packet that `u` completes adds exactly its task to the log. */
  lemma TaskLogged(cfg: Config, size: seq<Instr> -> nat, us: seq<Unit>, u: Unit)
    requires NonEmptyGroups(Closed(us)) && u.closes
    ensures NonEmptyGroups(Closed(us + [u])) && |Closed(us + [u])| == |Closed(us)| + 1 && Open(us + [u]) == []
    ensures Log(Tasks(cfg, size, Closed(us + [u])))
         == Log(Tasks(cfg, size, Closed(us))) + TaskEffects(TaskOf(cfg, size, Open(us) + [u], |Closed(us)|))
  {
    var g := Open(us) + [u];
    ClosedSnoc(us, u);
    TasksSnoc(cfg, size, Closed(us), g);
    LogSnoc(Tasks(cfg, size, Closed(us)), TaskOf(cfg, size, g, |Closed(us)|));
  }

  lemma LogSnoc(ts: seq<Task>, t: Task)
    ensures Log(ts + [t]) == Log(ts) + TaskEffects(t)
  {
    assert (ts + [t])[..|ts|] == ts;
  }

  lemma TotalOneTask(log: seq<Effect>, t: Task)
    ensures Total(log + TaskEffects(t)) == if t.isTaskLast then t.taskNum else Total(log)
  {
    LogOneTask(log, t);
  }
}
