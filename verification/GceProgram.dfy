/** What a send amounts to: which units a request stands for, and what the flushed packets
    together make of them. */
module GceProgram {
  import opened GceCommands
  import opened GcePacking
  import opened GceSend
  import opened Options

  // ------------------------------------------------------------- every block, in order

  /** The commands of block `b`: what the parser accepts after `b` calls. */
  predicate CutsBlock(f: Frame, b: nat, words: seq<Command>) {
    0 <= Consume(f.cmds, 0, b) <= Consume(f.cmds, 0, b + 1) <= |f.cmds|
    && words == f.cmds[Consume(f.cmds, 0, b)..Consume(f.cmds, 0, b + 1)]
  }

  lemma {:induction false} ConsumeSnoc(cs: seq<Command>, start: nat, n: nat)
    requires start <= |cs| && Consume(cs, start, n) >= 0
    ensures start <= Consume(cs, start, n) <= |cs|
    ensures var e: nat := Consume(cs, start, n); var o := ParseFrom(cs, e, 0);
      Consume(cs, start, n + 1) == if o.Parsed? then e + o.done else -1
    decreases n
  {
    if n > 0 {
      ConsumeSnoc(cs, start + ParseFrom(cs, start, 0).done, n - 1);
    }
  }

  lemma {:induction false} FrameUnitAt(req: Request, i: nat, clt: nat, b: nat, at: nat, k: nat)
    requires i < |req.frames| && b <= req.frames[i].blocks && at <= |req.frames[i].cmds|
    requires Consume(req.frames[i].cmds, 0, b) == at
    requires k < |FrameUnits(req, i, clt, b, at)|
    ensures var u := FrameUnits(req, i, clt, b, at)[k];
      b + k < req.frames[i].blocks && u == UnitOf(req, i, b + k, clt, u.cmds) && CutsBlock(req.frames[i], b + k, u.cmds)
    decreases req.frames[i].blocks - b
  {
    hide ParseFrom;
    var cs := req.frames[i].cmds;
    ConsumeSnoc(cs, 0, b);
    if k > 0 {
      FrameUnitAt(req, i, clt, b + 1, at + ParseFrom(cs, at, 0).done, k - 1);
    }
  }

  lemma {:induction false} UnitAtFrom(req: Request, i: nat, isPack: bool, clt: Option<nat>, k: nat)
    requires k < |Units(req, i, isPack, clt)|
    ensures var u := Units(req, i, isPack, clt)[k];
      && IsBlock(req, u.frm, u.blk) && u == UnitOf(req, u.frm, u.blk, u.clt, u.cmds)
      && CutsBlock(req.frames[u.frm], u.blk, u.cmds)
      && BlocksBefore(req, i) + k == BlocksBefore(req, u.frm) + u.blk
    decreases |req.frames| - i
  {
    var c := if isPack then clt else Select(req, req.frames[i].hw, clt);
    var fu := FrameUnits(req, i, c.value, 0, 0);
    FrameUnitsFull(req, i, c.value, 0, 0);
    if k < |fu| {
      FrameUnitAt(req, i, c.value, 0, 0, k);
    } else {
      UnitAtFrom(req, i + 1, PackAfter(req, i, isPack), c, k - |fu|);
    }
  }

  /** The k-th unit of a request is its k-th block, counted frame by frame, and holds the
      commands the parser cuts for that block; so no block has two units. */
  lemma UnitAt(req: Request, k: nat)
    requires k < |UnitsOf(req)|
    ensures var u := UnitsOf(req)[k];
      && IsBlock(req, u.frm, u.blk) && u == UnitOf(req, u.frm, u.blk, u.clt, u.cmds)
      && CutsBlock(req.frames[u.frm], u.blk, u.cmds)
      && k == BlocksBefore(req, u.frm) + u.blk
  {
    UnitAtFrom(req, 0, false, None, k);
  }

  lemma {:induction false} UnitsCountFrom(req: Request, i: nat, isPack: bool, clt: Option<nat>)
    requires i <= |req.frames|
    ensures BlocksBefore(req, i) + |Units(req, i, isPack, clt)| <= BlocksBefore(req, |req.frames|)
    ensures Complete(req, i, isPack, clt) ==>
      BlocksBefore(req, i) + |Units(req, i, isPack, clt)| == BlocksBefore(req, |req.frames|)
    decreases |req.frames| - i
  {
    hide FrameUnits, FrameCause, Select, HeaderOk, PackAfter;
    BlocksGrow(req, i, |req.frames|);
    if i < |req.frames| && HeaderOk(req.frames[i]) {
      var c := if isPack then clt else Select(req, req.frames[i].hw, clt);
      if c != None {
        FrameUnitsFull(req, i, c.value, 0, 0);
        UnitsCountFrom(req, i + 1, PackAfter(req, i, isPack), c);
      }
    }
  }

  lemma UnitsCount(req: Request)
    ensures |UnitsOf(req)| <= BlocksBefore(req, |req.frames|)
    ensures Translatable(req) ==> |UnitsOf(req)| == BlocksBefore(req, |req.frames|)
  {
    UnitsCountFrom(req, 0, false, None);
  }

  /** Every block of a translatable request has a unit, at the place its position gives. */
  lemma BlockHasUnit(req: Request, i: nat, b: nat)
    requires Translatable(req) && IsBlock(req, i, b)
    ensures var k := BlocksBefore(req, i) + b;
      k < |UnitsOf(req)| && UnitsOf(req)[k].frm == i && UnitsOf(req)[k].blk == b
  {
    hide Translatable, UnitsOf, CutsBlock, Closes;
    UnitsCount(req);
    BlocksGrow(req, i + 1, |req.frames|);
    var k := BlocksBefore(req, i) + b;
    UnitAt(req, k);
    var u := UnitsOf(req)[k];
    if u.frm < i { BlocksGrow(req, u.frm + 1, i); }
    if i < u.frm { BlocksGrow(req, i + 1, u.frm); }
  }

  // ----------------------------------------------------------------- the program kept

  /** The commands the request hands over, frame by frame: of each frame, the blocks its
      header announces. */
  function RequestWords(req: Request, i: nat): seq<Command>
    decreases |req.frames| - i
  {
    if i >= |req.frames| then []
    else
      var f := req.frames[i];
      var e := Consume(f.cmds, 0, f.blocks);
      (if 0 <= e <= |f.cmds| then f.cmds[..e] else []) + RequestWords(req, i + 1)
  }

  lemma WordsCons(u: Unit, us: seq<Unit>)
    ensures Words([u] + us) == u.cmds + Words(us)
  {
    WordsConcat([u], us);
    WordsSnoc([], u);
    assert [] + [u] == [u];
  }

  lemma WordsEmpty()
    ensures Words([]) == []
  {
  }

  lemma {:induction false} FrameWords(req: Request, i: nat, clt: nat, b: nat, at: nat)
    requires i < |req.frames| && b <= req.frames[i].blocks && at <= |req.frames[i].cmds|
    requires FrameAccepted(req, i, b, at)
    ensures var e := Consume(req.frames[i].cmds, at, req.frames[i].blocks - b);
      at <= e <= |req.frames[i].cmds| && Words(FrameUnits(req, i, clt, b, at)) == req.frames[i].cmds[at..e]
    decreases req.frames[i].blocks - b
  {
    hide ParseFrom, Words;
    var cs := req.frames[i].cmds;
    WordsEmpty();
    if b < req.frames[i].blocks {
      var o := ParseFrom(cs, at, 0);
      FrameWords(req, i, clt, b + 1, at + o.done);
      var u := UnitOf(req, i, b, clt, Accepted(cs, at, o));
      WordsCons(u, FrameUnits(req, i, clt, b + 1, at + o.done));
    }
  }

  lemma {:induction false} WordsFrom(req: Request, i: nat, isPack: bool, clt: Option<nat>)
    requires Complete(req, i, isPack, clt)
    ensures Words(Units(req, i, isPack, clt)) == RequestWords(req, i)
    decreases |req.frames| - i
  {
    if i < |req.frames| {
      var c := if isPack then clt else Select(req, req.frames[i].hw, clt);
      FrameWords(req, i, c.value, 0, 0);
      WordsFrom(req, i + 1, PackAfter(req, i, isPack), c);
      WordsConcat(FrameUnits(req, i, c.value, 0, 0), Units(req, i + 1, PackAfter(req, i, isPack), c));
    }
  }

  /** The index of the last frame that has a block, plus one. */
  function LastUsed(req: Request, n: nat): (r: nat)
    requires n <= |req.frames|
    ensures r <= n && (r > 0 ==> req.frames[r - 1].blocks > 0)
    ensures forall j :: r <= j < n ==> req.frames[j].blocks == 0
  {
    if n == 0 then 0 else if req.frames[n - 1].blocks > 0 then n else LastUsed(req, n - 1)
  }

  lemma {:induction false} NoBlocksBetween(req: Request, m: nat, n: nat)
    requires m <= n <= |req.frames| && forall j :: m <= j < n ==> req.frames[j].blocks == 0
    ensures BlocksBefore(req, m) == BlocksBefore(req, n)
  {
    if m < n { NoBlocksBetween(req, m, n - 1); }
  }

  /** The last unit of a translatable request: the last block of the last frame that has one. */
  lemma LastUnit(req: Request)
    requires Translatable(req)
    ensures var us, l := UnitsOf(req), LastUsed(req, |req.frames|);
      && (us == [] <==> l == 0)
      && (l > 0 ==> us[|us| - 1].frm == l - 1 && us[|us| - 1].blk + 1 == req.frames[l - 1].blocks
                    && us[|us| - 1].closes == Closes(req, l - 1))
  {
    hide Translatable, UnitsOf, CutsBlock, Closes;
    var l := LastUsed(req, |req.frames|);
    UnitsCount(req);
    NoBlocksBetween(req, l, |req.frames|);
    if l > 0 {
      BlockHasUnit(req, l - 1, req.frames[l - 1].blocks - 1);
      UnitAt(req, |UnitsOf(req)| - 1);
    }
  }

  /** A translatable request is left with nothing unflushed exactly when its last frame with
      a block closes its packet -- always so when the last frame has one. */
  lemma NothingLeftOver(req: Request)
    requires Translatable(req)
    ensures Open(UnitsOf(req)) == [] <==>
      var l := LastUsed(req, |req.frames|); l == 0 || Closes(req, l - 1)
  {
    LastUnit(req);
    OpenEmptyIff(UnitsOf(req));
  }

  /** Packing preserves the program: the flushed packets in order, then the packet left open
      (if any), are the in-order translation of every block of every frame, READ results
      renumbered per packet; and the task counts cover every block once. */
  lemma PackingPreservesProgram(cfg: Config, size: seq<Instr> -> nat, req: Request)
    requires Translatable(req)
    ensures var us := UnitsOf(req); var gs := Closed(us);
      && NonEmptyGroups(gs) && IsPacking(us, gs, Open(us))
      && Program(Instrs(Tasks(cfg, size, gs))) + Program(Packet(cfg, Open(us)))
         == Program(Translate(cfg, RequestWords(req, 0), 0))
      && TaskCnts(Tasks(cfg, size, gs)) + |Open(us)| == BlocksBefore(req, |req.frames|)
  {
    var us := UnitsOf(req);
    assert Packet(cfg, Open(us)) == Translate(cfg, Words(Open(us)), 0);
    hide Program, Translate, Instrs, Open, Closed, Words, Packet, IsGroup;
    var gs := Closed(us);
    GroupingIsPacking(us);
    assert NonEmptyGroups(gs) by { hide *; NoEmptyGroup(us); }
    PacketsConcat(cfg, size, gs);
    ProgramJoin(cfg, Words(Flatten(gs)), Words(Open(us)));
    WordsConcat(Flatten(gs), Open(us));
    WordsFrom(req, 0, false, None);
    UnitsCountFrom(req, 0, false, None);
  }

  lemma NoEmptyGroup(us: seq<Unit>)
    ensures NonEmptyGroups(Closed(us))
  {
    forall i | 0 <= i < |Closed(us)| ensures Closed(us)[i] != [] {
      GroupsAreGroups(us, i);
    }
  }

  // --------------------------------------------------------------- publication, thread

  predicate IsFinal(u: Unit) { u.frm + 1 == u.frmNum && u.blk + 1 == u.blkNum }

  lemma {:induction false} NoFinalNoPublish(ts: seq<Task>)
    requires forall i :: 0 <= i < |ts| ==> !ts[i].isTaskLast
    ensures Published(Log(ts)) == []
  {
    if ts != [] {
      NoFinalNoPublish(ts[..|ts| - 1]);
      LogOneTask(Log(ts[..|ts| - 1]), ts[|ts| - 1]);
    }
  }

  /** Of any prefix of a request's units, at most the last one is the final block of the
      final frame. */
  lemma FinalIsLast(req: Request, k: nat)
    requires k < |UnitsOf(req)| && IsFinal(UnitsOf(req)[k])
    ensures k + 1 == |UnitsOf(req)|
  {
    UnitAt(req, k);
    UnitsCount(req);
  }

  lemma {:induction false} GroupEndsIn(us: seq<Unit>, i: nat)
    requires i < |Closed(us)|
    ensures var e := |Flatten(Closed(us)[..i + 1])|;
      && 0 < e <= |us| && Closed(us)[i] != []
      && Closed(us)[i][|Closed(us)[i]| - 1] == us[e - 1]
      && (e == |us| ==> i + 1 == |Closed(us)|)
  {
    GroupIsContiguous(us, i);
    GroupsAreGroups(us, i);
    assert Closed(us)[..i + 1][..i] == Closed(us)[..i];
    if i + 1 < |Closed(us)| {
      GroupIsContiguous(us, i + 1);
      GroupsAreGroups(us, i + 1);
    }
  }

  lemma TaskIsFinal(cfg: Config, size: seq<Instr> -> nat, req: Request, now: seq<Unit>, i: nat)
    requires now <= UnitsOf(req) && NonEmptyGroups(Closed(now))
    requires i < |Closed(now)| && Tasks(cfg, size, Closed(now))[i].isTaskLast
    ensures i + 1 == |Closed(now)| && now == UnitsOf(req) && now != [] && IsFinal(now[|now| - 1])
  {
    hide Closed, UnitsOf, Packet, Ofsts;
    GroupEndsIn(now, i);
    var e := |Flatten(Closed(now)[..i + 1])|;
    assert now[e - 1] == UnitsOf(req)[e - 1];
    FinalIsLast(req, e - 1);
  }

  /** The final unit completes the last task. */
  lemma FinalTask(cfg: Config, size: seq<Instr> -> nat, now: seq<Unit>)
    requires NonEmptyGroups(Closed(now)) && now != [] && IsFinal(now[|now| - 1]) && now[|now| - 1].closes
    ensures var ts := Tasks(cfg, size, Closed(now));
      && ts != [] && Open(now) == []
      && ts[|ts| - 1].isTaskLast && ts[|ts| - 1].taskNum == |ts|
  {
    hide Packet, Ofsts;
    ClosedSnoc(now[..|now| - 1], now[|now| - 1]);
    assert now == now[..|now| - 1] + [now[|now| - 1]];
  }

  lemma FinalCloses(req: Request)
    requires UnitsOf(req) != [] && IsFinal(UnitsOf(req)[|UnitsOf(req)| - 1])
    ensures UnitsOf(req)[|UnitsOf(req)| - 1].closes
  {
    UnitAt(req, |UnitsOf(req)| - 1);
  }

  /** However far a send gets, the task total is published at most once: only with the packet
      that completes the last block of the last frame, which is then the last one flushed,
      and the total is the number of tasks. */
  lemma PublishedOnce(cfg: Config, size: seq<Instr> -> nat, req: Request, now: seq<Unit>)
    requires now <= UnitsOf(req)
    ensures NonEmptyGroups(Closed(now))
    ensures var ts := Tasks(cfg, size, Closed(now)); var n := |ts|;
      if now != [] && IsFinal(now[|now| - 1])
      then n > 0 && now == UnitsOf(req) && Open(now) == []
           && Log(ts) == Log(ts[..n - 1]) + [Publish(n), Flush(ts[n - 1])] && Published(Log(ts[..n - 1])) == []
      else Published(Log(ts)) == []
  {
    hide Closed, Open, UnitsOf, Tasks;
    NoEmptyGroup(now);
    var ts := Tasks(cfg, size, Closed(now));
    var n := |ts|;
    forall i | 0 <= i < n && ts[i].isTaskLast
      ensures i + 1 == n && now == UnitsOf(req) && now != [] && IsFinal(now[|now| - 1])
    {
      TaskIsFinal(cfg, size, req, now, i);
    }
    if now != [] && IsFinal(now[|now| - 1]) {
      FinalIsLast(req, |now| - 1);
      FinalCloses(req);
      FinalTask(cfg, size, now);
      NoFinalNoPublish(ts[..n - 1]);
    } else {
      NoFinalNoPublish(ts);
    }
  }

  /** On a translatable request the total is published exactly when the last frame has a block. */
  lemma PublishedIff(cfg: Config, size: seq<Instr> -> nat, req: Request)
    requires Translatable(req)
    ensures NonEmptyGroups(Closed(UnitsOf(req)))
    ensures var ts := Tasks(cfg, size, Closed(UnitsOf(req)));
      Published(Log(ts)) ==
        if req.frames != [] && req.frames[|req.frames| - 1].blocks > 0 then [|ts|] else []
  {
    var us := UnitsOf(req);
    hide Translatable, UnitsOf, CutsBlock, Closes, Tasks, Closed, Open, Published, LastUsed;
    PublishedOnce(cfg, size, req, us);
    LastUnit(req);
    var ts := Tasks(cfg, size, Closed(us));
    if us != [] {
      UnitAt(req, |us| - 1);
      if IsFinal(us[|us| - 1]) {
        LogOneTask(Log(ts[..|ts| - 1]), ts[|ts| - 1]);
      }
    }
  }

  lemma {:induction false} FrameUnitsThread(req: Request, i: nat, clt: nat, b: nat, at: nat)
    requires i < |req.frames| && b <= req.frames[i].blocks && at <= |req.frames[i].cmds|
    ensures forall u :: u in FrameUnits(req, i, clt, b, at) ==> u.clt == clt && u.closes == Closes(req, i)
    decreases req.frames[i].blocks - b
  {
    var o := ParseFrom(req.frames[i].cmds, at, 0);
    if b < req.frames[i].blocks && o.Parsed? {
      FrameUnitsThread(req, i, clt, b + 1, at + o.done);
    }
  }

  lemma {:induction false} ThreadFrom(req: Request, i: nat, isPack: bool, clt: Option<nat>, k: nat)
    requires isPack ==> clt.Some?
    requires k < |Units(req, i, isPack, clt)|
    ensures var us := Units(req, i, isPack, clt);
      && (k == 0 && isPack ==> us[0].clt == clt.value)
      && (k > 0 && !us[k - 1].closes ==> us[k].clt == us[k - 1].clt)
    decreases |req.frames| - i
  {
    var c := if isPack then clt else Select(req, req.frames[i].hw, clt);
    var fu := FrameUnits(req, i, c.value, 0, 0);
    FrameUnitsThread(req, i, c.value, 0, 0);
    FrameUnitsFull(req, i, c.value, 0, 0);
    var rest := Units(req, i + 1, PackAfter(req, i, isPack), c);
    if k < |fu| {
      assert fu[k] in fu && (k > 0 ==> fu[k - 1] in fu);
    } else {
      ThreadFrom(req, i + 1, PackAfter(req, i, isPack), c, k - |fu|);
      if k == |fu| > 0 { assert fu[k - 1] in fu; }
    }
  }

  lemma ThreadAt(req: Request, k: nat)
    requires 0 < k < |UnitsOf(req)| && !UnitsOf(req)[k - 1].closes
    ensures UnitsOf(req)[k].clt == UnitsOf(req)[k - 1].clt
  {
    ThreadFrom(req, 0, false, None, k);
  }

  /** All the units of one packet were meant for the same GCE thread. */
  lemma {:induction false} OneThreadPerPacket(req: Request, i: nat, a: nat, b: nat)
    requires i < |Closed(UnitsOf(req))| && a <= b < |Closed(UnitsOf(req))[i]|
    ensures Closed(UnitsOf(req))[i][a].clt == Closed(UnitsOf(req))[i][b].clt
    decreases b
  {
    if a < b {
      hide Closed, UnitsOf, Flatten;
      var us := UnitsOf(req);
      OneThreadPerPacket(req, i, a, b - 1);
      GroupIsContiguous(us, i);
      GroupsAreGroups(us, i);
      ThreadAt(req, |Flatten(Closed(us)[..i])| + b);
    }
  }

  lemma LaterFrame(req: Request, i: nat, isPack: bool, clt: Option<nat>, k: nat)
    requires k < |Units(req, i, isPack, clt)| && i <= |req.frames|
    ensures Units(req, i, isPack, clt)[k].frm >= i
  {
    hide Units;
    UnitAtFrom(req, i, isPack, clt, k);
    var u := Units(req, i, isPack, clt)[k];
    if u.frm < i { BlocksGrow(req, u.frm + 1, i); }
  }

  /** Neighbours of one frame were meant for the same thread. */
  lemma {:induction false} FrameThreadFrom(req: Request, i: nat, isPack: bool, clt: Option<nat>, k: nat)
    requires 0 < k < |Units(req, i, isPack, clt)|
    requires var us := Units(req, i, isPack, clt); us[k - 1].frm == us[k].frm
    ensures var us := Units(req, i, isPack, clt); us[k - 1].clt == us[k].clt
    decreases |req.frames| - i
  {
    var c := if isPack then clt else Select(req, req.frames[i].hw, clt);
    var fu := FrameUnits(req, i, c.value, 0, 0);
    FrameUnitsThread(req, i, c.value, 0, 0);
    FrameUnitsFull(req, i, c.value, 0, 0);
    if k < |fu| {
      assert fu[k] in fu && fu[k - 1] in fu;
    } else if k > |fu| {
      FrameThreadFrom(req, i + 1, PackAfter(req, i, isPack), c, k - |fu|);
    } else {
      assert fu[k - 1] in fu;
      FrameUnitAt(req, i, c.value, 0, 0, k - 1);
      LaterFrame(req, i + 1, PackAfter(req, i, isPack), c, 0);
    }
  }

  /** The unit after one that is not the last of its frame is the frame's next block. */
  lemma NextOfFrame(req: Request, k: nat)
    requires Translatable(req) && k < |UnitsOf(req)| && UnitsOf(req)[k].blk + 1 < UnitsOf(req)[k].blkNum
    ensures k + 1 < |UnitsOf(req)|
    ensures var u, v := UnitsOf(req)[k], UnitsOf(req)[k + 1]; v.frm == u.frm && v.closes == u.closes && v.clt == u.clt
  {
    hide Translatable, UnitsOf, CutsBlock, Closes;
    UnitAt(req, k);
    var u := UnitsOf(req)[k];
    BlockHasUnit(req, u.frm, u.blk + 1);
    UnitAt(req, k + 1);
    FrameThread(req, k + 1);
  }

  lemma FrameThread(req: Request, k: nat)
    requires 0 < k < |UnitsOf(req)| && UnitsOf(req)[k - 1].frm == UnitsOf(req)[k].frm
    ensures UnitsOf(req)[k - 1].clt == UnitsOf(req)[k].clt
  {
    FrameThreadFrom(req, 0, false, None, k);
  }

  lemma SomeGroup(req: Request)
    requires Translatable(req) && req.frames != [] && req.frames[|req.frames| - 1].blocks > 0
    ensures Open(UnitsOf(req)) == [] && Closed(UnitsOf(req)) != [] && UnitsOf(req) != []
  {
    hide Translatable, UnitsOf, Closed, Open;
    NothingLeftOver(req);
    LastUnit(req);
    GroupingKeepsOrder(UnitsOf(req));
  }

  lemma LastGroupEnds(us: seq<Unit>)
    ensures |Flatten(Closed(us)[..|Closed(us)|])| + |Open(us)| == |us|
  {
    hide Closed, Open, Flatten;
    GroupingKeepsOrder(us);
    assert Closed(us)[..|Closed(us)|] == Closed(us);
  }

  /** A packet that ends inside a frame is followed by the frame's next block, a packet of its own
      for the same thread. */
  lemma NextGroup(req: Request, i: nat)
    requires Translatable(req) && req.frames != [] && req.frames[|req.frames| - 1].blocks > 0
    requires i < |Closed(UnitsOf(req))| && Closed(UnitsOf(req))[i] != []
    requires var g := Closed(UnitsOf(req))[i]; g[|g| - 1].blk + 1 != g[|g| - 1].blkNum
    ensures i + 1 < |Closed(UnitsOf(req))| && Closed(UnitsOf(req))[i + 1] != []
    ensures var g, h := Closed(UnitsOf(req))[i], Closed(UnitsOf(req))[i + 1]; h[|h| - 1].clt == g[|g| - 1].clt
  {
    hide Translatable, UnitsOf, Closed, Open, Flatten, Closes;
    var us := UnitsOf(req);
    SomeGroup(req);
    GroupEndsIn(us, i);
    GroupsAreGroups(us, i);
    var e := |Flatten(Closed(us)[..i + 1])|;
    UnitAt(req, e - 1);
    NextOfFrame(req, e - 1);
    GroupingKeepsOrder(us);
    LastGroupEnds(us);
    GroupIsContiguous(us, i + 1);
    GroupsAreGroups(us, i + 1);
    assert Closed(us)[i + 1][0] == us[e];
  }

  // ------------------------------------------------------------- the offset table's bound

  /** How many blocks wait in the open packet when frame `i` begins. */
  function Pending(req: Request, i: nat): nat
    requires i <= |req.frames|
  {
    if i == 0 then 0
    else if req.frames[i - 1].blocks == 0 then Pending(req, i - 1)
    else if Closes(req, i - 1) then 0
    else Pending(req, i - 1) + req.frames[i - 1].blocks
  }

  /** Frame `i` finds room in the offset table: one entry if it flushes after each block. */
  predicate Room(req: Request, i: nat)
    requires i < |req.frames|
  {
    var n := req.frames[i].blocks;
    n == 0 || Pending(req, i) + (if Closes(req, i) then 1 else n) <= MAX_FRAME_IN_TASK
  }

  lemma {:induction false} OpenAfterFrame(req: Request, i: nat, clt: nat, b: nat, at: nat, us: seq<Unit>)
    requires i < |req.frames| && b <= req.frames[i].blocks && at <= |req.frames[i].cmds|
    requires FrameAccepted(req, i, b, at)
    ensures var n := req.frames[i].blocks - b;
      |Open(us + FrameUnits(req, i, clt, b, at))|
        == if n == 0 then |Open(us)| else if Closes(req, i) then 0 else |Open(us)| + n
    decreases req.frames[i].blocks - b
  {
    hide ParseFrom, Open;
    if b == req.frames[i].blocks {
      assert us + FrameUnits(req, i, clt, b, at) == us;
    } else {
      var u, rest := FirstOfFrame(req, i, clt, b, at);
      ClosedSnoc(us, u);
      OpenAfterFrame(req, i, clt, b + 1, at + ParseFrom(req.frames[i].cmds, at, 0).done, us + [u]);
      assert us + FrameUnits(req, i, clt, b, at) == (us + [u]) + rest;
    }
  }

  lemma FirstOfFrame(req: Request, i: nat, clt: nat, b: nat, at: nat) returns (u: Unit, rest: seq<Unit>)
    requires i < |req.frames| && b < req.frames[i].blocks && at <= |req.frames[i].cmds|
    requires FrameAccepted(req, i, b, at)
    ensures var o := ParseFrom(req.frames[i].cmds, at, 0);
      && o.Parsed? && FrameAccepted(req, i, b + 1, at + o.done)
      && rest == FrameUnits(req, i, clt, b + 1, at + o.done)
    ensures FrameUnits(req, i, clt, b, at) == [u] + rest && u.closes == Closes(req, i)
  {
    var o := ParseFrom(req.frames[i].cmds, at, 0);
    u := UnitOf(req, i, b, clt, Accepted(req.frames[i].cmds, at, o));
    rest := FrameUnits(req, i, clt, b + 1, at + o.done);
  }

  lemma FitsSnoc(us: seq<Unit>, u: Unit)
    ensures Fits(us + [u]) <==> Fits(us) && |Open(us)| < MAX_FRAME_IN_TASK
  {
    assert (us + [u])[..|us|] == us;
  }

  lemma FitsOnly(us: seq<Unit>, all: seq<Unit>)
    requires us <= all && Fits(all)
    ensures Fits(us)
  {
    FitsPrefix(all, us);
  }

  lemma {:induction false} FrameFits(req: Request, i: nat, clt: nat, b: nat, at: nat, us: seq<Unit>)
    requires i < |req.frames| && b <= req.frames[i].blocks && at <= |req.frames[i].cmds|
    requires FrameAccepted(req, i, b, at) && Fits(us) && (b > 0 && Closes(req, i) ==> Open(us) == [])
    ensures Fits(us + FrameUnits(req, i, clt, b, at)) <==>
      var n := req.frames[i].blocks - b;
      n == 0 || |Open(us)| + (if Closes(req, i) then 1 else n) <= MAX_FRAME_IN_TASK
    decreases req.frames[i].blocks - b
  {
    hide ParseFrom, Open, Fits;
    var all := us + FrameUnits(req, i, clt, b, at);
    if b == req.frames[i].blocks {
      assert all == us;
    } else {
      var u, rest := FirstOfFrame(req, i, clt, b, at);
      assert all == (us + [u]) + rest;
      ClosedSnoc(us, u);
      FitsSnoc(us, u);
      if Fits(us + [u]) {
        FrameFits(req, i, clt, b + 1, at + ParseFrom(req.frames[i].cmds, at, 0).done, us + [u]);
      } else if Fits(all) {
        FitsOnly(us + [u], all);
      }
    }
  }

  lemma {:induction false} FitsFrom(req: Request, i: nat, isPack: bool, clt: Option<nat>, us: seq<Unit>)
    requires i <= |req.frames| && Complete(req, i, isPack, clt) && Fits(us) && |Open(us)| == Pending(req, i)
    ensures Fits(us + Units(req, i, isPack, clt)) <==> forall j :: i <= j < |req.frames| ==> Room(req, j)
    decreases |req.frames| - i
  {
    hide Fits, Open, FrameUnits, FrameCause, Select, HeaderOk;
    var all := us + Units(req, i, isPack, clt);
    if i == |req.frames| {
      assert all == us;
    } else {
      var c := if isPack then clt else Select(req, req.frames[i].hw, clt);
      var fu := FrameUnits(req, i, c.value, 0, 0);
      assert all == (us + fu) + Units(req, i + 1, PackAfter(req, i, isPack), c);
      FrameFits(req, i, c.value, 0, 0, us);
      OpenAfterFrame(req, i, c.value, 0, 0, us);
      if Fits(us + fu) {
        FitsFrom(req, i + 1, PackAfter(req, i, isPack), c, us + fu);
        assert Room(req, i);
      } else if Fits(all) {
        FitsOnly(us + fu, all);
      } else {
        assert !Room(req, i);
      }
    }
  }

  /** A translatable request stays within the offset table if and only if every frame, when it
      begins, finds room for its blocks behind those waiting. */
  lemma FitsIff(req: Request)
    requires Translatable(req)
    ensures Fits(UnitsOf(req)) <==> forall i :: 0 <= i < |req.frames| ==> Room(req, i)
  {
    FitsFrom(req, 0, false, None, []);
    assert [] + Units(req, 0, false, None) == UnitsOf(req);
  }

  // ---------------------------------------------------------------- where the bounds bite

  /** A frame of `blocks` blocks with the commands `cmds`, well formed, packed on engine 0. */
  function PlainFrame(blocks: nat, cmds: seq<Command>): Frame {
    Frame(0x5A5A5A5A, 0x55AA55AA, 0xAA55AA55, 0xA5A5A5A5, 0, blocks, cmds, {0}, false, false, false)
  }

  function StopCommand(): Command { Command(Stop, 0, 0, 0) }

  /** `n` frames, each of one block. */
  function Plain(n: nat): Request { Request(-1, -1, seq(n, _ => PlainFrame(1, [StopCommand()]))) }

  /** Plain frames that parse. */
  predicate AllPlain(req: Request) {
    && req.groupId == -1 && req.syncId == -1
    && forall i :: 0 <= i < |req.frames| ==>
         && req.frames[i] == PlainFrame(req.frames[i].blocks, req.frames[i].cmds)
         && StreamCause(req.frames[i].cmds, 0, req.frames[i].blocks) == Fine
  }

  lemma {:induction false} PlainFrom(req: Request, i: nat, isPack: bool, clt: Option<nat>)
    requires AllPlain(req) && i <= |req.frames| && (isPack ==> clt.Some?)
    ensures Complete(req, i, isPack, clt)
    decreases |req.frames| - i
  {
    hide StreamCause;
    if i < |req.frames| {
      assert LowestEngine(req.frames[i].hw, 0) == Some(0);
      var c := if isPack then clt else Select(req, req.frames[i].hw, clt);
      PlainFrom(req, i + 1, PackAfter(req, i, isPack), c);
    }
  }

  lemma {:induction false} PlainPending(n: nat, i: nat)
    requires i < n
    ensures Pending(Plain(n), i) == i
  {
    if i > 0 { PlainPending(n, i - 1); }
  }

  /** Frames of one block each, all packed together, fit up to 64 of them; a 65th runs past the
      offset table.  A plain request has at most TMAX (16) frames, a batch request up to TIME_MAX
      (192), so it is batch requests that get there. */
  lemma PlainFits(n: nat)
    ensures Translatable(Plain(n))
    ensures Fits(UnitsOf(Plain(n))) <==> n <= 64
  {
    hide UnitsOf, Fits, CauseFrom;
    var cs := [StopCommand()];
    assert ParseFrom(cs, 0, 0) == Parsed(1) && StreamCause(cs, 1, 0) == Fine;
    PlainFrom(Plain(n), 0, false, None);
    FitsIff(Plain(n));
    forall i | 0 <= i < n ensures Room(Plain(n), i) <==> i < MAX_FRAME_IN_TASK {
      PlainPending(n, i);
    }
    if n > MAX_FRAME_IN_TASK { assert !Room(Plain(n), MAX_FRAME_IN_TASK); }
  }

  /** A request of one well-formed frame is stopped by what stops its frame. */
  lemma OneFrameCause(blocks: nat, cmds: seq<Command>)
    ensures CauseOf(Request(-1, -1, [PlainFrame(blocks, cmds)])) == StreamCause(cmds, 0, blocks)
  {
    var req := Request(-1, -1, [PlainFrame(blocks, cmds)]);
    assert LowestEngine(req.frames[0].hw, 0) == Some(0);
    assert CauseFrom(req, 1, PackAfter(req, 0, false), Some(0)) == Fine;
  }

  /** A frame that announces two blocks and holds one STOP runs off its commands. */
  lemma TooFewStops()
    ensures CauseOf(Request(-1, -1, [PlainFrame(2, [StopCommand()])])) == RanOff
  {
    var cs := [StopCommand()];
    OneFrameCause(2, cs);
    FrameOutcome(cs, 2);
    FirstBadFrom(cs, 0, 1);
    assert cs[..1] == cs && Stops(cs[..0]) == 0;
  }

  /** One block in the first frame, none in the last. */
  function EmptyLastRequest(): Request {
    Request(-1, -1, [PlainFrame(1, [StopCommand()]), PlainFrame(0, [])])
  }

  /** It is translated whole, and neither flushes its packet nor publishes its total. */
  lemma EmptyLastFrame(cfg: Config, size: seq<Instr> -> nat)
    ensures Translatable(EmptyLastRequest()) && NonEmptyGroups(Closed(UnitsOf(EmptyLastRequest())))
    ensures var us := UnitsOf(EmptyLastRequest());
      Open(us) != [] && Published(Log(Tasks(cfg, size, Closed(us)))) == []
  {
    hide UnitsOf, Closed, Open, Tasks, Log, Published;
    var req := EmptyLastRequest();
    var cs := req.frames[0].cmds;
    assert ParseFrom(cs, 0, 0) == Parsed(1) && StreamCause(cs, 1, 0) == Fine;
    PlainFrom(req, 0, false, None);
    PublishedIff(cfg, size, req);
    NothingLeftOver(req);
    assert LastUsed(req, 2) == LastUsed(req, 1) == 1 && !Closes(req, 0);
  }
}
