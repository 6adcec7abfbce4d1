/** Where a send flushes, which thread it picks, and what the callback parameters of its tasks say,
    all in the request's own terms. */
module GceFlush {
  import opened GceCommands
  import opened GcePacking
  import opened GceSend
  import opened GceProgram
  import opened Options

  // ------------------------------------------------------------------- where packets end

  /** How many units the packets up to packet `j` hold. */
  function EndOf(gs: seq<seq<Unit>>, j: nat): nat
    requires j < |gs|
  {
    |Flatten(gs[..j + 1])|
  }

  /** Unit `k` is the last of a flushed packet. */
  predicate EndsPacket(us: seq<Unit>, k: nat) {
    exists j :: 0 <= j < |Closed(us)| && EndOf(Closed(us), j) == k + 1
  }

  lemma EndsOf(gs: seq<seq<Unit>>, g: seq<Unit>)
    ensures EndOf(gs + [g], |gs|) == |Flatten(gs)| + |g|
    ensures forall j :: 0 <= j < |gs| ==> EndOf(gs + [g], j) == EndOf(gs, j) <= |Flatten(gs)|
  {
    assert (gs + [g])[..|gs| + 1] == gs + [g];
    FlattenSnoc(gs, g);
    forall j | 0 <= j < |gs| ensures EndOf(gs + [g], j) == EndOf(gs, j) <= |Flatten(gs)| {
      assert (gs + [g])[..j + 1] == gs[..j + 1];
      FlattenTake(gs, j + 1);
    }
  }

  lemma {:induction false} FlattenTake<T>(gs: seq<seq<T>>, n: nat)
    requires n <= |gs|
    ensures |Flatten(gs[..n])| <= |Flatten(gs)|
  {
    if n < |gs| {
      var init := gs[..|gs| - 1];
      assert init[..n] == gs[..n];
      FlattenTake(init, n);
    } else {
      assert gs[..n] == gs;
    }
  }

  lemma {:induction false} ClosersEndPackets(us: seq<Unit>, k: nat)
    requires k < |us|
    ensures EndsPacket(us, k) <==> us[k].closes
  {
    hide Closed, Open, Flatten, EndOf;
    var init, u := us[..|us| - 1], us[|us| - 1];
    assert us == init + [u];
    GroupingKeepsOrder(init);
    ClosedSnoc(init, u);
    var gs, g := Closed(init), Open(init) + [u];
    EndsOf(gs, g);
    if k < |init| {
      ClosersEndPackets(init, k);
      if EndsPacket(init, k) {
        var j :| 0 <= j < |gs| && EndOf(gs, j) == k + 1;
        assert EndOf(Closed(us), j) == k + 1;
      }
    } else if u.closes {
      assert EndOf(Closed(us), |gs|) == k + 1;
    }
  }

  /** However far a send gets, a packet is flushed right after every block of a time-shared, secure
      or early-callback frame and of the last frame, and after no other block. */
  lemma FlushPoints(req: Request, now: seq<Unit>, k: nat)
    requires now <= UnitsOf(req) && k < |now|
    ensures now[k].frm < |req.frames|
    ensures var f := req.frames[now[k].frm];
      EndsPacket(now, k) <==> f.timeShared || f.secFrm || f.earlyCb || now[k].frm + 1 == |req.frames|
  {
    ClosersEndPackets(now, k);
    UnitAt(req, k);
  }

  // ---------------------------------------------------------------------- the tasks' blocks

  /** What the callback parameters of the j-th task of a send say: the block that completed its
      packet, where it stands in the frame and the request, and how many blocks the packet holds. */
  lemma TaskParams(cfg: Config, size: seq<Instr> -> nat, req: Request, now: seq<Unit>, j: nat)
    requires now <= UnitsOf(req) && NonEmptyGroups(Closed(now)) && j < |Closed(now)|
    ensures var t := Tasks(cfg, size, Closed(now))[j];
      && IsBlock(req, t.frmIdx, t.blkIdx)
      && EndOf(Closed(now), j) == BlocksBefore(req, t.frmIdx) + t.blkIdx + 1 <= |now|
      && t.taskCnt == EndOf(Closed(now), j) - (if j == 0 then 0 else EndOf(Closed(now), j - 1))
      && t.frmNum == |req.frames| && t.blkNum == req.frames[t.frmIdx].blocks
      && (t.isBlkLast <==> t.blkIdx + 1 == t.blkNum) && (t.isFrmLast <==> t.frmIdx + 1 == t.frmNum)
      && (t.isTaskLast <==> t.isBlkLast && t.isFrmLast)
      && t.isEarly == req.frames[t.frmIdx].earlyCb && t.clt == now[EndOf(Closed(now), j) - 1].clt
      && t.taskId == j && t.taskNum == if t.isTaskLast then j + 1 else 0
  {
    hide Closed, UnitsOf, CutsBlock;
    var gs := Closed(now);
    GroupEndsIn(now, j);
    UnitAt(req, EndOf(gs, j) - 1);
    assert gs[..j + 1] == gs[..j] + [gs[j]];
    FlattenSnoc(gs[..j], gs[j]);
    assert now[EndOf(gs, j) - 1] == UnitsOf(req)[EndOf(gs, j) - 1];
  }

  /** Some task of the log is for block `b` of frame `i`. */
  predicate FlushedFor(log: seq<Effect>, i: nat, b: nat) {
    exists t :: t in Flushed(log) && t.frmIdx == i && t.blkIdx == b
  }

  /** Of the blocks a send has packed, exactly those of the time-shared, secure and early-callback
      frames and of the last frame have a task of their own in its log. */
  lemma FlushedBlocks(cfg: Config, size: seq<Instr> -> nat, req: Request, now: seq<Unit>, i: nat, b: nat)
    requires now <= UnitsOf(req) && NonEmptyGroups(Closed(now)) && IsBlock(req, i, b)
    ensures FlushedFor(Log(Tasks(cfg, size, Closed(now))), i, b) <==>
      && BlocksBefore(req, i) + b < |now|
      && var f := req.frames[i]; f.timeShared || f.secFrm || f.earlyCb || i + 1 == |req.frames|
  {
    hide Closed, UnitsOf, Tasks, Log, Flushed, CutsBlock, EndOf;
    var gs, k := Closed(now), BlocksBefore(req, i) + b;
    var ts := Tasks(cfg, size, gs);
    LogFlushesAll(ts);
    forall j | 0 <= j < |ts|
      ensures EndOf(gs, j) <= |now| && (ts[j].frmIdx == i && ts[j].blkIdx == b <==> EndOf(gs, j) == k + 1)
    {
      TaskParams(cfg, size, req, now, j);
      SamePlace(req, ts[j].frmIdx, ts[j].blkIdx, i, b);
    }
    if k < |now| {
      FlushPoints(req, now, k);
      UnitAt(req, k);
      SamePlace(req, now[k].frm, now[k].blk, i, b);
    }
  }

  /** So for the sender's own log; and a send that succeeds has packed every block. */
  lemma SenderFlushes(s: Sender, req: Request, now: seq<Unit>, i: nat, b: nat)
    requires s.Logged(now) && now <= UnitsOf(req) && IsBlock(req, i, b)
    ensures FlushedFor(s.log, i, b) <==>
      && BlocksBefore(req, i) + b < |now|
      && var f := req.frames[i]; f.timeShared || f.secFrm || f.earlyCb || i + 1 == |req.frames|
    ensures Translatable(req) && now == UnitsOf(req) ==> BlocksBefore(req, i) + b < |now|
  {
    hide Closed, UnitsOf, Tasks, Log, FlushedFor, Translatable;
    FlushedBlocks(s.rec.cfg, s.size, req, now, i, b);
    if Translatable(req) && now == UnitsOf(req) { BlockHasUnit(req, i, b); }
  }

  // -------------------------------------------------------------------------- the thread

  lemma {:induction false} StarterFrom(req: Request, i: nat, isPack: bool, clt: Option<nat>, k: nat)
    requires k < |Units(req, i, isPack, clt)| && Units(req, i, isPack, clt)[k].blk == 0
    requires if k == 0 then !isPack else Units(req, i, isPack, clt)[k - 1].closes
    ensures var u := Units(req, i, isPack, clt)[k];
      u.frm < |req.frames| && ThreadFor(req, req.frames[u.frm].hw, u.clt)
    decreases |req.frames| - i
  {
    hide ThreadFor, LowestEngine, FrameUnits, Closes, CutsBlock, StreamCause, HeaderOk, Select;
    var c := if isPack then clt else Select(req, req.frames[i].hw, clt);
    var fu := FrameUnits(req, i, c.value, 0, 0);
    FrameUnitsThread(req, i, c.value, 0, 0);
    FrameUnitsFull(req, i, c.value, 0, 0);
    if k < |fu| {
      FrameUnitAt(req, i, c.value, 0, 0, k);
      SelectIsFor(req, req.frames[i].hw, clt);
    } else {
      if k == |fu| > 0 { assert fu[k - 1] in fu; }
      StarterFrom(req, i + 1, PackAfter(req, i, isPack), c, k - |fu|);
    }
  }

  /** A packet that starts with the first block of a frame goes to that frame's thread. */
  lemma PacketThread(req: Request, k: nat)
    requires k < |UnitsOf(req)| && UnitsOf(req)[k].blk == 0 && (k == 0 || EndsPacket(UnitsOf(req), k - 1))
    ensures var u := UnitsOf(req)[k]; u.frm < |req.frames| && ThreadFor(req, req.frames[u.frm].hw, u.clt)
  {
    hide ThreadFor;
    if k > 0 { ClosersEndPackets(UnitsOf(req), k - 1); }
    StarterFrom(req, 0, false, None, k);
  }

  // --------------------------------------------------------------- which requests are sent

  /** A frame the driver takes: its guard words and command offset are right, and it holds a STOP for
      every block before the first command the parser refuses, or is one block without a STOP. */
  predicate Accepts(f: Frame) {
    && f.headerCode == 0x5A5A5A5A && f.checkPre == 0x55AA55AA
    && f.checkPost == 0xAA55AA55 && f.footerCode == 0xA5A5A5A5
    && f.cmdOffset <= (if f.timeShared then 0x50000 else 0x9000)
    && var p := FirstBad(f.cmds, 0);
       f.blocks == 0 || Stops(f.cmds[..p]) >= f.blocks || (f.blocks == 1 && p == |f.cmds| && f.cmds != [])
  }

  lemma AcceptsIs(f: Frame)
    ensures Accepts(f) <==> HeaderOk(f) && StreamCause(f.cmds, 0, f.blocks) == Fine
  {
    FrameOutcome(f.cmds, f.blocks);
  }

  lemma {:induction false} AcceptedFrom(req: Request, i: nat, isPack: bool, clt: Option<nat>)
    requires i <= |req.frames| && (isPack ==> clt.Some?) && (clt.Some? ==> GroupInRange(req))
    ensures Complete(req, i, isPack, clt) <==>
      && (forall j :: i <= j < |req.frames| ==> Accepts(req.frames[j]))
      && (i == |req.frames| || Select(req, req.frames[i].hw, clt).Some?)
    decreases |req.frames| - i
  {
    hide Select, StreamCause, LowestEngine, HasEngine, Accepts, HeaderOk;
    if i < |req.frames| {
      var f := req.frames[i];
      AcceptsIs(f);
      SelectIsFor(req, f.hw, clt);
      var c := if isPack then clt else Select(req, f.hw, clt);
      if c.Some? && Accepts(f) {
        AcceptedFrom(req, i + 1, PackAfter(req, i, isPack), c);
        if i + 1 < |req.frames| { SelectIsFor(req, req.frames[i + 1].hw, c); }
      }
    }
  }

  /** A request is translated whole if and only if every frame is accepted, its group is in range, and
      its first frame names an engine, or the request a group or a sync id. */
  lemma TranslatableIff(req: Request)
    ensures Translatable(req) <==>
      && (forall j :: 0 <= j < |req.frames| ==> Accepts(req.frames[j]))
      && (req.frames == [] ||
          (GroupInRange(req) && (req.syncId != -1 || req.groupId != -1 || HasEngine(req.frames[0].hw))))
  {
    AcceptedFrom(req, 0, false, None);
    if req.frames != [] { SelectIsFor(req, req.frames[0].hw, None); }
  }

  // -------------------------------------------------------------- how far a send gets

  lemma {:induction false} FrameStops(req: Request, i: nat, clt: nat, b: nat, at: nat)
    requires i < |req.frames| && b <= req.frames[i].blocks && at <= |req.frames[i].cmds|
    requires !FrameAccepted(req, i, b, at)
    ensures var n := |FrameUnits(req, i, clt, b, at)|;
      && b + n < req.frames[i].blocks
      && Consume(req.frames[i].cmds, at, n) >= 0 && Consume(req.frames[i].cmds, at, n + 1) < 0
    decreases req.frames[i].blocks - b
  {
    var o := ParseFrom(req.frames[i].cmds, at, 0);
    if o.Parsed? { FrameStops(req, i, clt, b + 1, at + o.done); }
  }

  lemma {:induction false} StopFrom(req: Request, i: nat, isPack: bool, clt: Option<nat>) returns (j: nat)
    requires i <= |req.frames| && (isPack ==> clt.Some?) && !Complete(req, i, isPack, clt)
    requires clt.Some? ==> GroupInRange(req)
    ensures i <= j < |req.frames| && forall k :: i <= k < j ==> Accepts(req.frames[k])
    ensures var b := BlocksBefore(req, i) + |Units(req, i, isPack, clt)| - BlocksBefore(req, j);
      var f := req.frames[j];
      if !HeaderOk(f) || (j == i && !isPack && Select(req, f.hw, clt) == None) then b == 0
      else 0 <= b < f.blocks && Consume(f.cmds, 0, b) >= 0 && Consume(f.cmds, 0, b + 1) < 0
    decreases |req.frames| - i
  {
    hide Select, StreamCause, LowestEngine, HasEngine, HeaderOk, Accepts, FrameUnits, Consume;
    var f := req.frames[i];
    var c := if isPack then clt else Select(req, f.hw, clt);
    SelectIsFor(req, f.hw, clt);
    j := i;
    if HeaderOk(f) && c.Some? {
      FrameUnitsFull(req, i, c.value, 0, 0);
      if FrameAccepted(req, i, 0, 0) {
        AcceptsIs(f);
        j := StopFrom(req, i + 1, PackAfter(req, i, isPack), c);
        if j < |req.frames| { SelectIsFor(req, req.frames[j].hw, c); }
      } else {
        FrameStops(req, i, c.value, 0, 0);
      }
    }
  }

  /** What a send that cannot translate the whole request has packed when it stops: every block of the
      frames before some frame `j`, all of them accepted; and of frame `j` nothing if its header is wrong
      or, being the first, it has no thread, or else the blocks before the first the parser does not
      accept. */
  lemma StopsAt(req: Request) returns (j: nat)
    requires !Translatable(req)
    ensures j < |req.frames| && forall k :: 0 <= k < j ==> Accepts(req.frames[k])
    ensures var b := |UnitsOf(req)| - BlocksBefore(req, j);
      var f := req.frames[j];
      if !(&& f.headerCode == 0x5A5A5A5A && f.checkPre == 0x55AA55AA
           && f.checkPost == 0xAA55AA55 && f.footerCode == 0xA5A5A5A5
           && f.cmdOffset <= (if f.timeShared then 0x50000 else 0x9000))
         || (j == 0 && !(GroupInRange(req) && (req.syncId != -1 || req.groupId != -1 || HasEngine(f.hw))))
      then b == 0
      else 0 <= b < f.blocks && Consume(f.cmds, 0, b) >= 0 && Consume(f.cmds, 0, b + 1) < 0
  {
    hide Select, Accepts, Consume, Units, LowestEngine;
    j := StopFrom(req, 0, false, None);
    SelectIsFor(req, req.frames[j].hw, None);
  }

  /** A send ends in one way only, for any allocation results: here is another end, and it is the same. */
  lemma {:induction false} SendDetermined(req: Request, pktOk: (nat, nat) -> bool, memOk: (nat, nat) -> bool,
                        st: Status, now: seq<Unit>, st': Status, now': seq<Unit>)
    requires now <= UnitsOf(req) && now' <= UnitsOf(req) && |now| <= |now'|
    requires Supplied(pktOk, memOk, now) && Supplied(pktOk, memOk, now') && Fits(now) && Fits(now')
    requires if Short(req, pktOk, memOk, now, UnitsOf(req)) then st == Rejected
             else Ended(st, now, UnitsOf(req), CauseOf(req))
    requires if Short(req, pktOk, memOk, now', UnitsOf(req)) then st' == Rejected
             else Ended(st', now', UnitsOf(req), CauseOf(req))
    ensures st == st' && now == now'
  {
    hide UnitsOf, CauseOf, Open, CutsBlock, Closes, Short;
    assert now == UnitsOf(req)[..|now|] && now' == UnitsOf(req)[..|now'|];
    if |now| < |now'| {
      var u := now'[|now|];
      UnitAt(req, |now|);
      assert now'[..|now| + 1][..|now|] == now;
      SuppliedPrefix(pktOk, memOk, now', now'[..|now| + 1]);
      FitsPrefix(now', now'[..|now| + 1]);
      ShortIs(req, pktOk, memOk, now, UnitsOf(req), u.frm, u.blk);
    }
  }

  lemma {:induction false} SuppliedPrefix(pktOk: (nat, nat) -> bool, memOk: (nat, nat) -> bool,
                                          us: seq<Unit>, p: seq<Unit>)
    requires p <= us && Supplied(pktOk, memOk, us)
    ensures Supplied(pktOk, memOk, p)
    decreases |us|
  {
    if |p| < |us| {
      SuppliedPrefix(pktOk, memOk, us[..|us| - 1], p);
    } else {
      assert p == us;
    }
  }

  /** It succeeds if and only if the request is translatable, fits, and every allocation made for it
      succeeds. */
  lemma SentIff(req: Request, pktOk: (nat, nat) -> bool, memOk: (nat, nat) -> bool, st: Status, now: seq<Unit>)
    requires now <= UnitsOf(req) && Supplied(pktOk, memOk, now) && Fits(now)
    requires if Short(req, pktOk, memOk, now, UnitsOf(req)) then st == Rejected
             else Ended(st, now, UnitsOf(req), CauseOf(req))
    ensures st == Sent <==> Translatable(req) && Fits(UnitsOf(req)) && Supplied(pktOk, memOk, UnitsOf(req))
  {
    var all := UnitsOf(req);
    if Translatable(req) && Fits(all) && Supplied(pktOk, memOk, all) {
      UnitsCount(req);
      NoneShort(req, pktOk, memOk, all, all);
      SendDetermined(req, pktOk, memOk, st, now, Sent, all);
    }
  }
}
