/** What a packet does when the GCE runs it: a small machine on which every packet does what the words
    of its commands say. */
module GceMeaning {
  import opened GceCommands
  import opened GcePacking
  import opened GceSend
  import opened GceProgram
  import opened Options

  /** Registers by address, the events that are set, and the values read so far, in order. */
  datatype Machine = Machine(regs: map<nat, nat>, events: set<nat>, results: seq<nat>)

  function Reg(m: Machine, a: nat): nat { if a in m.regs then m.regs[a] else 0 }

  /** The bits of `value` where `mask` has a one, and those of `old` elsewhere. */
  function Masked(was: nat, value: nat, mask: nat): nat
    decreases mask
  {
    if mask == 0 then was
    else 2 * Masked(was / 2, value / 2, mask / 2) + (if mask % 2 == 1 then value % 2 else was % 2)
  }

  function Written(m: Machine, addr: nat, value: nat, mask: nat): Machine {
    m.(regs := m.regs[addr := Masked(Reg(m, addr), value, mask)])
  }

  /** The register has the bits of `value` where `mask` has a one. */
  predicate Agrees(m: Machine, addr: nat, value: nat, mask: nat) { Masked(Reg(m, addr), value, mask) == Reg(m, addr) }

  /** One instruction; nothing where the GCE would wait. */
  function Exec(i: Instr, m: Machine): Option<Machine> {
    match i
    case MemMove(source, _) => Some(m.(results := m.results + [Reg(m, source)]))
    case WriteReg(addr, value, mask) => Some(Written(m, addr, value, mask))
    case PollReg(value, addr, mask) => if Agrees(m, addr, value, mask) then Some(m) else None
    case WaitEvent(e, clear) =>
      if e !in m.events then None else Some(if clear then m.(events := m.events - {e}) else m)
    case SetEvent(e) => Some(m.(events := m.events + {e}))
    case ClearEvent(e) => Some(m.(events := m.events - {e}))
    case AcquireEvent(e) => if e in m.events then None else Some(m.(events := m.events + {e}))
  }

  function Run(p: seq<Instr>, m: Machine): Option<Machine> {
    if p == [] then Some(m)
    else
      var o := Run(p[..|p| - 1], m);
      if o.None? then None else Exec(p[|p| - 1], o.value)
  }

  /** What one command asks for, by its words: `addr` is the target of a read, a write or a poll and
      its low half the action on an event; `word0` is the mask or the event; the low half of `source`
      is the value. */
  function Obey(cfg: Config, c: Command, m: Machine): Option<Machine> {
    if (c.op == Read || c.op == Write || c.op == Poll) && 0x15000000 <= c.addr <= 0x1570FFFF then
      if c.op == Write then Some(Written(m, c.addr, c.source % 0x1_0000_0000, c.word0))
      else if c.op == Poll then if Agrees(m, c.addr, c.source % 0x1_0000_0000, c.word0) then Some(m) else None
      else if cfg.bwlog then Some(m.(results := m.results + [Reg(m, c.source)]))
      else Some(m)
    else if (c.op == Wait || c.op == Update || c.op == Acquire) && c.word0 < 144 then
      var e, action := cfg.events[c.word0], c.addr % 0x1_0000_0000;
      if c.op == Acquire then if e in m.events then None else Some(m.(events := m.events + {e}))
      else if action > 1 then Some(m)
      else if c.op == Wait then
        if e !in m.events then None
        else Some(m.(events := if action == 1 then m.events - {e} else m.events))
      else Some(m.(events := if action == 1 then m.events + {e} else m.events - {e}))
    else Some(m)
  }

  function ObeyAll(cfg: Config, cs: seq<Command>, m: Machine): Option<Machine> {
    if cs == [] then Some(m)
    else
      var o := ObeyAll(cfg, cs[..|cs| - 1], m);
      if o.None? then None else Obey(cfg, cs[|cs| - 1], o.value)
  }

  lemma RunOne(i: Instr, m: Machine)
    ensures Run([i], m) == Exec(i, m) && Run([], m) == Some(m)
  {
    assert [i][..0] == [];
  }

  lemma {:induction false} RunConcat(a: seq<Instr>, b: seq<Instr>, m: Machine)
    ensures Run(a + b, m) == if Run(a, m).None? then None else Run(b, Run(a, m).value)
  {
    hide Exec;
    if b == [] {
      assert a + b == a;
    } else {
      assert (a + b)[..|a + b| - 1] == a + b[..|b| - 1];
      RunConcat(a, b[..|b| - 1], m);
    }
  }

  lemma EmitMeans(cfg: Config, c: Command, slot: nat, m: Machine)
    ensures Run(Emit(cfg, c, slot), m) == Obey(cfg, c, m)
  {
    hide Run, Written, Agrees;
    var p := Emit(cfg, c, slot);
    RunOne(SetEvent(0), m);
    if p != [] {
      assert p == [p[0]];
      RunOne(p[0], m);
    }
  }

  /** Running the packet a block is translated to does what its commands' words say, wherever its
      results are numbered from. */
  lemma {:induction false} PacketMeans(cfg: Config, cs: seq<Command>, slot: nat, m: Machine)
    ensures Run(Translate(cfg, cs, slot), m) == ObeyAll(cfg, cs, m)
  {
    hide Obey, Emit, Slots, Translate;
    if cs == [] {
      assert Translate(cfg, [], slot) == [] by { NoTranslation(cfg, slot); }
    } else {
      var init, c := cs[..|cs| - 1], cs[|cs| - 1];
      assert cs == init + [c];
      PacketMeans(cfg, init, slot, m);
      TranslateSnoc(cfg, init, c, slot);
      var at := slot + Slots(cfg, init);
      RunConcat(Translate(cfg, init, slot), Emit(cfg, c, at), m);
      if ObeyAll(cfg, init, m).Some? { EmitMeans(cfg, c, at, ObeyAll(cfg, init, m).value); }
    }
  }

  lemma NoTranslation(cfg: Config, slot: nat)
    ensures Translate(cfg, [], slot) == [] && Slots(cfg, []) == 0
  {
  }

  lemma {:induction false} RunIgnoresSlots(p: seq<Instr>, m: Machine)
    ensures Run(Program(p), m) == Run(p, m)
  {
    if p != [] {
      assert Program(p)[..|p| - 1] == Program(p[..|p| - 1]);
      RunIgnoresSlots(p[..|p| - 1], m);
    }
  }

  /** Running the packets a send flushes, one after the other, and then the one it leaves open, does
      what the commands of every block of every frame say, in order. */
  lemma SendMeans(cfg: Config, size: seq<Instr> -> nat, req: Request, m: Machine)
    requires Translatable(req)
    ensures NonEmptyGroups(Closed(UnitsOf(req)))
    ensures var us := UnitsOf(req);
      Run(Instrs(Tasks(cfg, size, Closed(us))) + Packet(cfg, Open(us)), m) == ObeyAll(cfg, RequestWords(req, 0), m)
  {
    hide Translatable, UnitsOf, Closed, Open, Translate, Packet, Program, Instrs, Run, ObeyAll, Tasks;
    var us, words := UnitsOf(req), RequestWords(req, 0);
    PackingPreservesProgram(cfg, size, req);
    var flushed, left := Instrs(Tasks(cfg, size, Closed(us))), Packet(cfg, Open(us));
    ProgramConcat(flushed, left);
    RunIgnoresSlots(flushed + left, m);
    RunIgnoresSlots(Translate(cfg, words, 0), m);
    PacketMeans(cfg, words, 0, m);
  }

  /** So for what a parser call adds to a packet under way. */
  lemma BlockMeans(r: Recorder, cs: seq<Command>, p: seq<Instr>, slots: nat, h: seq<int>, m: Machine)
    requires |h| == POOL_NUM && r.Recorded(cs, p, slots, h)
    ensures Run(r.pkt, m) == if Run(p, m).None? then None else ObeyAll(r.cfg, cs, Run(p, m).value)
  {
    hide Translate, ObeyAll, Run, Slots, Counted;
    RunConcat(p, Translate(r.cfg, cs, slots), m);
    if Run(p, m).Some? { PacketMeans(r.cfg, cs, slots, Run(p, m).value); }
  }

  /** And for the tasks in the log of a send that succeeds. */
  lemma SentMeans(s: Sender, req: Request, m: Machine)
    requires Translatable(req) && s.Logged(UnitsOf(req))
    ensures Run(Instrs(Flushed(s.log)) + Packet(s.rec.cfg, Open(UnitsOf(req))), m)
         == ObeyAll(s.rec.cfg, RequestWords(req, 0), m)
  {
    hide Translatable, UnitsOf, Closed, Open, Packet, Instrs, Run, ObeyAll, Tasks, Log, Flushed;
    SendMeans(s.rec.cfg, s.size, req, m);
    LogFlushesAll(Tasks(s.rec.cfg, s.size, Closed(UnitsOf(req))));
  }

  // ---------------------------------------------------------- where each command ends up

  /** How many commands of `cs` are of a kind. */
  function Count(cs: seq<Command>, p: Command -> bool): nat { |set k | 0 <= k < |cs| && p(cs[k])| }

  lemma CountSnoc(cs: seq<Command>, c: Command, p: Command -> bool)
    ensures Count([], p) == 0
    ensures Count(cs + [c], p) == Count(cs, p) + if p(c) then 1 else 0
  {
    var ds: seq<Command> := [];
    assert (set k | 0 <= k < |ds| && p(ds[k])) == {};
    var was := set k | 0 <= k < |cs| && p(cs[k]);
    ds := cs + [c];
    assert (set k | 0 <= k < |ds| && p(ds[k])) == if p(c) then was + {|cs|} else was;
  }

  /** The READs that put a result away. */
  function IsRead(): Command -> bool { (c: Command) => c.op == Read && 0x15000000 <= c.addr <= 0x1570FFFF }

  lemma {:induction false} SlotsAreReads(cfg: Config, cs: seq<Command>)
    ensures Slots(cfg, cs) == if cfg.bwlog then Count(cs, IsRead()) else 0
  {
    hide Count, Slots;
    if cs == [] {
      CountSnoc([], Command(Stop, 0, 0, 0), IsRead());
      assert Slots(cfg, []) == 0 by { NoTranslation(cfg, 0); }
    } else {
      var init, c := cs[..|cs| - 1], cs[|cs| - 1];
      assert cs == init + [c];
      SlotsAreReads(cfg, init);
      TranslateSnoc(cfg, init, c, 0);
      CountSnoc(init, c, IsRead());
    }
  }

  /** In the packet of a run of commands the instruction of each stands right after those of the
      commands before it, and its fields are the words of the command; the results of the READs are
      numbered in order. */
  lemma InstructionAt(cfg: Config, cs: seq<Command>, k: nat)
    requires k < |cs| && !Fails(cs[k])
    ensures var c, p := cs[k], Translate(cfg, cs, 0);
      var at, next := |Translate(cfg, cs[..k], 0)|, |Translate(cfg, cs[..k + 1], 0)|;
      var action := c.addr % 0x1_0000_0000;
      && at <= next <= |p|
      && p[at..next] ==
         match c.op
         case Write => [WriteReg(c.addr, c.source % 0x1_0000_0000, c.word0)]
         case Poll => [PollReg(c.source % 0x1_0000_0000, c.addr, c.word0)]
         case Read => if cfg.bwlog then [MemMove(c.source, Count(cs[..k], IsRead()))] else []
         case Acquire => [AcquireEvent(cfg.events[c.word0])]
         case Wait => if action > 1 then [] else [WaitEvent(cfg.events[c.word0], action == 1)]
         case Update =>
           if action > 1 then []
           else if action == 1 then [SetEvent(cfg.events[c.word0])]
           else [ClearEvent(cfg.events[c.word0])]
         case _ => []
  {
    hide Translate, Slots, Count;
    var a, b := cs[..k + 1], cs[k + 1..];
    assert cs == a + b && a == cs[..k] + [cs[k]];
    TranslateConcat(cfg, a, b, 0);
    TranslateSnoc(cfg, cs[..k], cs[k], 0);
    SlotsAreReads(cfg, cs[..k]);
  }

  /** A write of 2 under the mask 3 changes the two low bits only. */
  lemma WriteExample(cfg: Config)
    ensures var cs := [Command(Write, 3, 0x15000000, 0x7_0000_0002), Command(Stop, 0, 0, 0)];
      var m := Machine(map[0x15000000 := 0xABCD], {}, []);
      && ParseFrom(cs, 0, 0) == Parsed(2)
      && Run(Translate(cfg, cs, 0), m) == Some(Machine(map[0x15000000 := 0xABCE], {}, []))
  {
    hide Translate, Run;
    var cs := [Command(Write, 3, 0x15000000, 0x7_0000_0002), Command(Stop, 0, 0, 0)];
    var m := Machine(map[0x15000000 := 0xABCD], {}, []);
    assert cs[..1] == [cs[0]] && [cs[0]][..0] == [];
    PacketMeans(cfg, cs, 0, m);
    assert Masked(0xABCD, 2, 3) == 0xABCE by { assert Masked(0x55E6, 1, 1) == 0x55E7; }
    assert ObeyAll(cfg, [cs[0]], m) == Obey(cfg, cs[0], m) == Some(Written(m, 0x15000000, 2, 3));
    assert Written(m, 0x15000000, 2, 3).regs == map[0x15000000 := 0xABCE];
  }

  // ------------------------------------------------------------- refusals and counters

  /** What the parser refuses: registers outside the imaging block, events past the table, and
      opcodes it does not know. */
  lemma FailsIff(c: Command)
    ensures Fails(c) <==>
      || c.op in {Load, Move, Other}
      || (c.op in {Read, Write, Poll} && !(0x15000000 <= c.addr <= 0x1570FFFF))
      || (c.op in {Wait, Update, Acquire} && c.word0 >= 144)
  {
  }

  /** The commands that do `op` with action 1 on event `e`. */
  function Uses(op: Opcode, e: nat): Command -> bool {
    (c: Command) => c.op == op && c.addr % 0x1_0000_0000 == 1 && c.word0 == e
  }

  /** The history counter of pool event `e` moves by its WAITs less its UPDATEs, with action 1. */
  lemma {:induction false} CountersMove(cs: seq<Command>, e: nat)
    ensures TotalDelta(cs, e) == Count(cs, Uses(Wait, 82 + e)) - Count(cs, Uses(Update, 82 + e))
  {
    hide Count;
    if cs == [] {
      CountSnoc([], Command(Stop, 0, 0, 0), Uses(Wait, 82 + e));
      CountSnoc([], Command(Stop, 0, 0, 0), Uses(Update, 82 + e));
    } else {
      var init, c := cs[..|cs| - 1], cs[|cs| - 1];
      assert cs == init + [c];
      CountersMove(init, e);
      CountSnoc(init, c, Uses(Wait, 82 + e));
      CountSnoc(init, c, Uses(Update, 82 + e));
    }
  }
}
