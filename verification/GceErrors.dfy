/** Error attribution in `imgsys_cmdq_task_cb`: from a byte offset into a failed packet to the
    frame the offset belongs to. */
module GceErrors {
  import opened GceCommands
  import opened GcePacking
  import opened GceSend
  import opened GceProgram
  import opened Options

  /** What the cmdq library's `cmd_buf_size` guarantees: instructions take 8 bytes each and a
      packet only grows. */
  ghost predicate Measure(size: seq<Instr> -> nat) {
    && size([]) == 0
    && (forall p :: size(p) % INST_SIZE == 0 && size(p) < SIZE_MOD)
    && (forall p, q :: size(p) <= size(p + q))
  }

  /** For example, eight bytes an instruction, up to the greatest size that fits. */
  lemma MeasureExists()
    ensures Measure((p: seq<Instr>) => if 8 * |p| < SIZE_MOD then 8 * |p| else SIZE_MOD - INST_SIZE)
  {
    assert forall p: seq<Instr>, q: seq<Instr> :: |p| <= |p + q|;
  }

  /** Where the instructions of the first 0, 1, 2, ... units of a packet end. */
  function Ends(cfg: Config, size: seq<Instr> -> nat, g: seq<Unit>): (r: seq<nat>)
    ensures |r| == |g| + 1 && forall k :: 0 <= k <= |g| ==> r[k] == size(Packet(cfg, g[..k]))
  {
    seq<nat>(|g| + 1, k requires 0 <= k <= |g| => size(Packet(cfg, g[..k])))
  }

  predicate Bounds(ends: seq<nat>) {
    && |ends| > 1 && ends[0] == 0
    && (forall j :: 0 <= j < |ends| ==> ends[j] % INST_SIZE == 0 && ends[j] < SIZE_MOD)
    && (forall i, j :: 0 <= i <= j < |ends| ==> ends[i] <= ends[j])
  }

  lemma NoUnitsNoInstrs(cfg: Config)
    ensures Packet(cfg, []) == []
  {
  }

  lemma PacketPrefix(cfg: Config, g: seq<Unit>, h: seq<Unit>)
    ensures Packet(cfg, g + h) == Packet(cfg, g) + Translate(cfg, Words(h), Slots(cfg, Words(g)))
  {
    WordsConcat(g, h);
    TranslateConcat(cfg, Words(g), Words(h), 0);
  }

  lemma EndsAreBounds(cfg: Config, size: seq<Instr> -> nat, g: seq<Unit>)
    requires Measure(size) && g != []
    ensures Bounds(Ends(cfg, size, g))
  {
    hide Packet;
    assert g[..0] == [] && Packet(cfg, []) == [] by { NoUnitsNoInstrs(cfg); }
    forall i, j | 0 <= i <= j <= |g| ensures Ends(cfg, size, g)[i] <= Ends(cfg, size, g)[j] {
      assert g[..j] == g[..i] + g[i..j];
      PacketPrefix(cfg, g[..i], g[i..j]);
    }
  }

  /** The search through `pkt_ofst`, with its clamp to the last entry. */
  method FindUnit(e: nat, ofst: seq<nat>) returns (idx: nat)
    requires ofst != []
    ensures Found(e, ofst, idx)
  {
    idx := 0;
    while idx < |ofst| && e > ofst[idx]
      invariant idx <= |ofst| && forall j :: 0 <= j < idx ==> ofst[j] < e
    {
      idx := idx + 1;
    }
    if idx >= |ofst| {
      idx := |ofst| - 1;
    }
  }

  /** The first entry not below `e`, or the last entry. */
  predicate Found(e: nat, ofst: seq<nat>, idx: nat) {
    && idx < |ofst| && (forall j :: 0 <= j < idx ==> ofst[j] < e)
    && (idx + 1 < |ofst| ==> e <= ofst[idx])
  }

  /** Unit `k` owns offset `e`; the last unit also owns whatever lies past the end. */
  predicate Owns(ends: seq<nat>, k: nat, e: nat)
    requires k + 1 < |ends|
  {
    ends[k] <= e && (k + 2 == |ends| || e < ends[k + 1])
  }

  /** The offset does not lie inside the last instruction of a unit that is not the last. */
  predicate StartsInstruction(ends: seq<nat>, e: nat) {
    forall j :: 0 < j < |ends| - 1 ==> !(ends[j] < e + INST_SIZE && e < ends[j])
  }

  lemma {:induction false} OwnerAmongBounds(ends: seq<nat>, ofst: seq<nat>, e: nat, k: nat)
    requires Bounds(ends) && |ofst| + 1 == |ends| && e <= SIZE_MOD - INST_SIZE
    requires forall j :: 0 <= j < |ofst| ==> ofst[j] == (ends[j + 1] + SIZE_MOD - INST_SIZE) % SIZE_MOD
    requires Found(e, ofst, k)
    ensures Owns(ends, k, e) <==> |ofst| == 1 || (ends[1] > 0 && StartsInstruction(ends, e))
  {
    assert ofst[0] == (ends[1] + SIZE_MOD - INST_SIZE) % SIZE_MOD;
    if ends[1] > 0 {
      forall j | 0 <= j < |ofst| ensures ofst[j] == ends[j + 1] - INST_SIZE {
        assert 0 < ends[1] <= ends[j + 1];
      }
      if k > 0 { assert ofst[k - 1] < e; }
      forall j | 0 < j < |ends| - 1 && Owns(ends, k, e)
        ensures !(ends[j] < e + INST_SIZE && e < ends[j])
      {
        if j <= k { assert ends[j] <= ends[k]; } else { assert ends[k + 1] <= ends[j]; assert e <= ofst[k]; }
      }
    }
  }

  /** The search finds the unit that owns the offset exactly when the packet has one unit, or
      its first unit is not empty and the offset is not inside an instruction: an empty first
      unit leaves a wrapped-around entry in `pkt_ofst`, which stops every search. */
  lemma SearchFindsOwner(cfg: Config, size: seq<Instr> -> nat, g: seq<Unit>, e: nat, k: nat)
    requires Measure(size) && g != [] && e <= SIZE_MOD - INST_SIZE
    requires Found(e, Ofsts(cfg, size, g), k)
    ensures Owns(Ends(cfg, size, g), k, e) <==>
      |g| == 1 || (Ends(cfg, size, g)[1] > 0 && StartsInstruction(Ends(cfg, size, g), e))
  {
    hide Packet, StartsInstruction, Owns;
    EndsAreBounds(cfg, size, g);
    OwnerAmongBounds(Ends(cfg, size, g), Ofsts(cfg, size, g), e, k);
  }

  // -------------------------------------------------------------------- frame formula

  /** `frm_idx - (task_cnt - 1) + err_idx`, in u32 arithmetic. */
  function RealFrame(frmIdx: u32, taskCnt: nat, errIdx: nat): u32 {
    (frmIdx - (taskCnt - 1) + errIdx) % TWO_32
  }

  /** The frames between the first and the last unit of a packet have one block each. */
  predicate OneBlockEach(req: Request, g: seq<Unit>) {
    g != [] && forall j :: g[0].frm <= j < g[|g| - 1].frm && j < |req.frames| ==> req.frames[j].blocks == 1
  }

  /** Unit `k` of packet `i` is block `g[k].blk` of frame `g[k].frm`, at its place. */
  lemma PacketUnitAt(req: Request, i: nat, k: nat)
    requires i < |Closed(UnitsOf(req))| && k < |Closed(UnitsOf(req))[i]|
    ensures var from := |Flatten(Closed(UnitsOf(req))[..i])|; var u := Closed(UnitsOf(req))[i][k];
      && from + k < |UnitsOf(req)| && u == UnitsOf(req)[from + k]
      && IsBlock(req, u.frm, u.blk) && from + k == BlocksBefore(req, u.frm) + u.blk
      && u.closes == Closes(req, u.frm)
  {
    hide Closed, UnitsOf, Flatten, CutsBlock, Closes, BlocksBefore;
    GroupIsContiguous(UnitsOf(req), i);
    UnitAt(req, |Flatten(Closed(UnitsOf(req))[..i])| + k);
  }

  /** A packet of several units starts with the first block of a frame. */
  lemma PacketStartsFrame(req: Request, i: nat)
    requires i < |Closed(UnitsOf(req))| && |Closed(UnitsOf(req))[i]| > 1
    ensures Closed(UnitsOf(req))[i][0].blk == 0
  {
    hide Closed, UnitsOf, Flatten, CutsBlock, Closes, BlocksBefore;
    var us := UnitsOf(req);
    var from, u := |Flatten(Closed(us)[..i])|, Closed(us)[i][0];
    PacketUnitAt(req, i, 0);
    GroupsAreGroups(us, i);
    if u.blk > 0 {
      assert from > 0;
      UnitAt(req, from - 1);
      SamePlace(req, us[from - 1].frm, us[from - 1].blk, u.frm, u.blk - 1);
      BeforePacket(us, i);
    }
  }

  lemma BeforePacket(us: seq<Unit>, i: nat)
    requires i < |Closed(us)| && |Flatten(Closed(us)[..i])| > 0
    ensures |Flatten(Closed(us)[..i])| <= |us| && us[|Flatten(Closed(us)[..i])| - 1].closes
  {
    hide Closed;
    if i > 0 {
      GroupEndsIn(us, i - 1);
      GroupsAreGroups(us, i - 1);
    }
  }

  /** Inside a packet with one block per frame, the k-th unit is the k-th frame. */
  lemma {:induction false} ConsecutiveFrames(req: Request, i: nat, k: nat)
    requires i < |Closed(UnitsOf(req))| && k < |Closed(UnitsOf(req))[i]|
    requires |Closed(UnitsOf(req))[i]| > 1 && OneBlockEach(req, Closed(UnitsOf(req))[i])
    ensures var g := Closed(UnitsOf(req))[i]; g[k].frm == g[0].frm + k && g[k].blk == 0
    decreases k
  {
    hide Closed, UnitsOf, Flatten, CutsBlock, Closes;
    var g := Closed(UnitsOf(req))[i];
    PacketUnitAt(req, i, k);
    if k == 0 {
      PacketStartsFrame(req, i);
    } else {
      ConsecutiveFrames(req, i, k - 1);
      PacketUnitAt(req, i, k - 1);
      FramesAscend(req, i, k - 1, |g| - 1);
      var f := g[0].frm + (k - 1);
      GroupsAreGroups(UnitsOf(req), i);
      if f == g[|g| - 1].frm { PacketUnitAt(req, i, |g| - 1); }
      assert req.frames[f].blocks == 1;
      assert f + 1 <= g[k].frm by { if g[k].frm <= f { BlocksGrow(req, g[k].frm + 1, f + 1); } }
      SamePlaceNext(req, f, g[k].frm, g[k].blk, i, k);
    }
  }

  lemma {:induction false} FramesAscend(req: Request, i: nat, j: nat, k: nat)
    requires i < |Closed(UnitsOf(req))| && j <= k < |Closed(UnitsOf(req))[i]|
    ensures Closed(UnitsOf(req))[i][j].frm <= Closed(UnitsOf(req))[i][k].frm
  {
    hide Closed, UnitsOf, Flatten, CutsBlock, Closes;
    PacketUnitAt(req, i, j);
    PacketUnitAt(req, i, k);
    var u, v := Closed(UnitsOf(req))[i][j], Closed(UnitsOf(req))[i][k];
    if v.frm < u.frm { BlocksGrow(req, v.frm + 1, u.frm); }
  }

  /** A unit placed right after the end of frame `f` is in the next frame that is not empty;
      inside a packet whose frames up to the last have one block, that is frame `f + 1`. */
  lemma SamePlaceNext(req: Request, f: nat, j: nat, c: nat, i: nat, k: nat)
    requires i < |Closed(UnitsOf(req))| && k < |Closed(UnitsOf(req))[i]|
    requires OneBlockEach(req, Closed(UnitsOf(req))[i]) && Closed(UnitsOf(req))[i][0].frm <= f < j
    requires Closed(UnitsOf(req))[i][k].frm == j && IsBlock(req, j, c)
    requires BlocksBefore(req, j) + c == BlocksBefore(req, f + 1)
    ensures j == f + 1 && c == 0
  {
    hide Closed, UnitsOf, CutsBlock, Closes;
    FramesAscend(req, i, k, |Closed(UnitsOf(req))[i]| - 1);
    BlocksGrow(req, f + 1, j);
    if f + 1 < j {
      BlocksGrow(req, f + 2, j);
    }
  }

  /** The formula names the right frame for every unit of a packet exactly when all its frames
      but the last have a single block. */
  lemma FrameFormula(req: Request, i: nat)
    requires |req.frames| < TWO_32
    requires i < |Closed(UnitsOf(req))| && 0 < |Closed(UnitsOf(req))[i]| <= MAX_FRAME_IN_TASK
    ensures var g := Closed(UnitsOf(req))[i];
      g[|g| - 1].frm < TWO_32 && g[0].frm < TWO_32 &&
      ((forall k :: 0 <= k < |g| ==> RealFrame(g[|g| - 1].frm, |g|, k) == g[k].frm) <==> OneBlockEach(req, g))
  {
    var g := Closed(UnitsOf(req))[i];
    var n := |g|;
    assert n == 1 ==> OneBlockEach(req, g);
    hide Closed, UnitsOf, Flatten, CutsBlock, Closes, OneBlockEach, BlocksBefore;
    PacketUnitAt(req, i, n - 1);
    PacketUnitAt(req, i, 0);
    if n > 1 && OneBlockEach(req, g) {
      ConsecutiveFrames(req, i, n - 1);
      forall k | 0 <= k < n ensures RealFrame(g[n - 1].frm, n, k) == g[k].frm {
        ConsecutiveFrames(req, i, k);
        PacketUnitAt(req, i, k);
      }
    }
    if n > 1 && forall k :: 0 <= k < n ==> RealFrame(g[n - 1].frm, n, k) == g[k].frm {
      RightImpliesOneBlock(req, i);
    }
  }

  lemma RightImpliesOneBlock(req: Request, i: nat)
    requires |req.frames| < TWO_32
    requires i < |Closed(UnitsOf(req))| && 1 < |Closed(UnitsOf(req))[i]| <= MAX_FRAME_IN_TASK
    requires var g := Closed(UnitsOf(req))[i]; forall k :: 0 <= k < |g| ==>
      g[|g| - 1].frm < TWO_32 && RealFrame(g[|g| - 1].frm, |g|, k) == g[k].frm
    ensures OneBlockEach(req, Closed(UnitsOf(req))[i])
  {
    hide Closed, UnitsOf, Flatten, CutsBlock, Closes;
    var g := Closed(UnitsOf(req))[i];
    var n := |g|;
    PacketUnitAt(req, i, 0);
    FramesAscend(req, i, 0, n - 1);
    assert RealFrame(g[n - 1].frm, n, 0) == g[0].frm;
    assert g[n - 1].frm == g[0].frm + n - 1;
    forall k | 0 <= k < n ensures g[k].frm == g[0].frm + k {
      assert RealFrame(g[n - 1].frm, n, k) == g[k].frm;
    }
    forall j | g[0].frm <= j < g[n - 1].frm && j < |req.frames| ensures req.frames[j].blocks == 1 {
      OneBlockAt(req, i, j - g[0].frm);
    }
  }

  lemma OneBlockAt(req: Request, i: nat, k: nat)
    requires i < |Closed(UnitsOf(req))| && k + 1 < |Closed(UnitsOf(req))[i]|
    requires var g := Closed(UnitsOf(req))[i];
      g[k + 1].frm == g[k].frm + 1 && (k > 0 ==> g[k - 1].frm + 1 == g[k].frm)
    ensures var f := Closed(UnitsOf(req))[i][k].frm; f < |req.frames| && req.frames[f].blocks == 1
  {
    hide Closed, UnitsOf, Flatten, CutsBlock, Closes;
    PacketUnitAt(req, i, k);
    PacketUnitAt(req, i, k + 1);
    if k > 0 {
      PacketUnitAt(req, i, k - 1);
    } else {
      PacketStartsFrame(req, i);
    }
  }

  /** The reported index never leaves the frames of the packet when they have a block each. */
  lemma FrameInRange(req: Request, i: nat, k: nat)
    requires |req.frames| < TWO_32
    requires i < |Closed(UnitsOf(req))| && |Closed(UnitsOf(req))[i]| <= MAX_FRAME_IN_TASK
    requires k < |Closed(UnitsOf(req))[i]| && OneBlockEach(req, Closed(UnitsOf(req))[i])
    ensures var g := Closed(UnitsOf(req))[i];
      g[|g| - 1].frm < TWO_32 && g[0].frm <= RealFrame(g[|g| - 1].frm, |g|, k) <= g[|g| - 1].frm
  {
    hide Closed, UnitsOf, OneBlockEach;
    FrameFormula(req, i);
    FramesAscend(req, i, 0, k);
    FramesAscend(req, i, k, |Closed(UnitsOf(req))[i]| - 1);
  }

  /** Put together: in a packet of one-block frames, an error at an instruction's offset is blamed
      on the unit, and so the frame, that instruction belongs to, if and only if the packet is
      one unit or its first frame emits something. */
  lemma BlamesTheRightFrame(cfg: Config, size: seq<Instr> -> nat, req: Request, i: nat, e: nat, k: nat)
    requires Measure(size) && e % INST_SIZE == 0 && e <= SIZE_MOD - INST_SIZE && |req.frames| < TWO_32
    requires i < |Closed(UnitsOf(req))| && 0 < |Closed(UnitsOf(req))[i]| <= MAX_FRAME_IN_TASK
    requires var g := Closed(UnitsOf(req))[i];
      OneBlockEach(req, g) && Found(e, TaskOf(cfg, size, g, i).pktOfst, k)
    ensures var g := Closed(UnitsOf(req))[i]; var t := TaskOf(cfg, size, g, i);
      && t.frmIdx < TWO_32 && k < |g| && RealFrame(t.frmIdx, t.taskCnt, k) == g[k].frm
      && (Owns(Ends(cfg, size, g), k, e) <==> |g| == 1 || size(Packet(cfg, [g[0]])) > 0)
  {
    hide Closed, UnitsOf, Ofsts, Packet, OneBlockEach, Owns;
    var g := Closed(UnitsOf(req))[i];
    SearchFindsOwner(cfg, size, g, e, k);
    EndsAreBounds(cfg, size, g);
    assert g[..1] == [g[0]];
    FrameFormula(req, i);
  }

  /** With more units than frames up to its last one, a packet wraps the formula around. */
  lemma FormulaUnderflows(frmIdx: u32, n: nat)
    requires 0 < n <= MAX_FRAME_IN_TASK && frmIdx < TWO_32 - MAX_FRAME_IN_TASK
    ensures RealFrame(frmIdx, n, 0) <= frmIdx <==> n - 1 <= frmIdx
  {
  }

  /** Two blocks packed before the last frame, the second. */
  function WrapRequest(): Request {
    Request(-1, -1, [PlainFrame(2, [StopCommand(), StopCommand()]), PlainFrame(1, [StopCommand()])])
  }

  lemma WrapUnits()
    ensures var us := UnitsOf(WrapRequest());
      |us| == 3 && !us[0].closes && !us[1].closes && us[2].closes && us[2].frm == 1
  {
    hide FrameUnits, UnitsOf, CutsBlock;
    var req := WrapRequest();
    var two, one := req.frames[0].cmds, req.frames[1].cmds;
    assert ParseFrom(two, 0, 0) == Parsed(1) && ParseFrom(two, 1, 0) == Parsed(1);
    assert StreamCause(two, 1, 1) == StreamCause(two, 2, 0) == Fine;
    assert ParseFrom(one, 0, 0) == Parsed(1) && StreamCause(one, 1, 0) == Fine;
    PlainFrom(req, 0, false, None);
    UnitsCount(req);
    assert BlocksBefore(req, 1) == 2 && BlocksBefore(req, 2) == 3;
    UnitAt(req, 0);
    UnitAt(req, 1);
    UnitAt(req, 2);
    BlockHasUnit(req, 0, 0);
    BlockHasUnit(req, 0, 1);
    BlockHasUnit(req, 1, 0);
  }

  /** Its one packet ends in frame 1, and the formula for the first of its three units wraps. */
  lemma FormulaWraps()
    ensures var gs := Closed(UnitsOf(WrapRequest()));
      |gs| == 1 && |gs[0]| == 3 && gs[0][2].frm == 1 && RealFrame(1, 3, 0) > 1
  {
    hide UnitsOf;
    var us := UnitsOf(WrapRequest());
    WrapUnits();
    assert us == [us[0]] + [us[1]] + [us[2]] && us[..2] == [us[0]] + [us[1]] && us[..1] == [] + [us[0]];
    ClosedSnoc([], us[0]);
    ClosedSnoc(us[..1], us[1]);
    ClosedSnoc(us[..2], us[2]);
    FormulaUnderflows(1, 3);
  }

  function WriteCommand(): Command { Command(Write, 0, REG_START, 0) }

  /** A packet whose first block emits nothing. */
  function EmptyFirstRequest(): Request {
    Request(-1, -1, [PlainFrame(1, [StopCommand()]), PlainFrame(1, [WriteCommand(), StopCommand()])])
  }

  lemma EmptyFirstUnits()
    ensures var us := UnitsOf(EmptyFirstRequest());
      && |us| == 2 && !us[0].closes && us[1].closes && us[0].frm == 0 && us[1].frm == 1
      && us[0].cmds == [StopCommand()] && us[1].cmds == [WriteCommand(), StopCommand()]
    ensures Closed(UnitsOf(EmptyFirstRequest())) == [UnitsOf(EmptyFirstRequest())]
  {
    hide FrameUnits, UnitsOf;
    var req := EmptyFirstRequest();
    var one, two := req.frames[0].cmds, req.frames[1].cmds;
    assert ParseFrom(one, 0, 0) == Parsed(1) && StreamCause(one, 1, 0) == Fine;
    assert ParseFrom(two, 0, 1) == Parsed(2);
    assert ParseFrom(two, 0, 0) == Parsed(2) && StreamCause(two, 2, 0) == Fine;
    PlainFrom(req, 0, false, None);
    UnitsCount(req);
    assert BlocksBefore(req, 1) == 1 && BlocksBefore(req, 2) == 2;
    UnitAt(req, 0);
    UnitAt(req, 1);
    BlockHasUnit(req, 0, 0);
    BlockHasUnit(req, 1, 0);
    assert Consume(one, 0, 1) == 1 && Consume(two, 0, 1) == 2;
    assert one[0..1] == one && two[0..2] == two;
    var us := UnitsOf(req);
    assert us == [] + [us[0]] + [us[1]];
    ClosedSnoc([], us[0]);
    ClosedSnoc([] + [us[0]], us[1]);
  }

  /** Its packet is one instruction, of frame 1; an error there is found in unit 0 and blamed on
      frame 0. */
  lemma EmptyFirstMisleads(cfg: Config, size: seq<Instr> -> nat, e: nat)
    requires Measure(size) && e <= SIZE_MOD - INST_SIZE
    ensures var g := UnitsOf(EmptyFirstRequest());
      && Closed(g) == [g] && |g| == 2 && g[1].frm == 1
      && var t := TaskOf(cfg, size, g, 0);
         && t.instrs == [WriteReg(REG_START, 0, 0)] && t.frmIdx == 1
         && (forall k :: Found(e, t.pktOfst, k) <==> k == 0)
         && Owns(Ends(cfg, size, g), 1, e) && RealFrame(1, t.taskCnt, 0) == 0
  {
    hide UnitsOf, Closed, Packet;
    EmptyFirstUnits();
    var g := UnitsOf(EmptyFirstRequest());
    EmptyFirstPacket(cfg, g);
    assert g[..1] == [g[0]];
    assert Ofsts(cfg, size, g)[0] == LastOfst(size, Packet(cfg, g[..1])) == SIZE_MOD - INST_SIZE;
    assert Ends(cfg, size, g)[1] == 0;
  }

  lemma EmptyFirstPacket(cfg: Config, g: seq<Unit>)
    requires |g| == 2 && g[0].cmds == [StopCommand()] && g[1].cmds == [WriteCommand(), StopCommand()]
    ensures Packet(cfg, [g[0]]) == [] && Packet(cfg, g) == [WriteReg(REG_START, 0, 0)]
  {
    hide Translate, Words, Emit;
    var stop, write := StopCommand(), WriteCommand();
    assert g == [] + [g[0]] + [g[1]] && [g[0]] == [] + [g[0]];
    EmitsOf(cfg);
    WordsSnoc([], g[0]);
    WordsSnoc([] + [g[0]], g[1]);
    assert Words(g) == [] + [stop] + [write] + [stop];
    TranslateSnoc(cfg, [], stop, 0);
    TranslateSnoc(cfg, [] + [stop], write, 0);
    TranslateSnoc(cfg, [] + [stop] + [write], stop, 0);
  }

  lemma EmitsOf(cfg: Config)
    ensures Words([]) == [] && Translate(cfg, [], 0) == []
    ensures forall slot :: Emit(cfg, StopCommand(), slot) == []
    ensures forall slot :: Emit(cfg, WriteCommand(), slot) == [WriteReg(REG_START, 0, 0)]
  {
  }

  /** The driver passes 0 for the offset, so it always names the first frame of the packet. */
  lemma OffsetZeroIsFirst(ofst: seq<nat>, k: nat)
    requires ofst != []
    ensures Found(0, ofst, k) <==> k == 0
  {
    assert ofst[0] >= 0;
  }
}
