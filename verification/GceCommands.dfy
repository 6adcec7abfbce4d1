/** The command words a request hands to the GCE, and `imgsys_cmdq_parser`, which
    turns one STOP-terminated block of them into packet instructions.

    A command is 24 packed bytes: an opcode followed by a union.  The union is kept
    here as the raw words its views share, so the aliasing of the original holds:
    `target` (read) is `address` (write, poll), `mask` is `event`, and `action` is
    the low half of `address`.
*/
module GceCommands {
  const REG_START: nat := 0x15000000
  const REG_END: nat := 0x1570FFFF
  const EVENT_MAX: nat := 144
  const POOL_START: nat := 82
  const POOL_END: nat := 141
  const POOL_NUM: nat := 60
  const TWO_32: nat := 0x1_0000_0000

  type u32 = x: nat | x < TWO_32

  datatype Opcode = Load | Move | Read | Write | Poll | Wait | Update | Acquire | Time | Stop | Other

  datatype Command = Command(op: Opcode, word0: u32, addr: nat, source: nat) {
    function Mask(): u32 { word0 }
    function Event(): u32 { word0 }
    function Action(): nat { addr % TWO_32 }
    function Value(): nat { source % TWO_32 }
  }

  datatype Instr =
    | MemMove(source: nat, slot: nat)
    | WriteReg(addr: nat, value: nat, mask: u32)
    | PollReg(value: nat, addr: nat, mask: u32)
    | WaitEvent(event: nat, clear: bool)
    | SetEvent(event: nat)
    | ClearEvent(event: nat)
    | AcquireEvent(event: nat)

  /** `bwlog` is the module parameter that enables READ; `events` is the event table
      read from the device tree. */
  datatype ConfigRaw = Config(bwlog: bool, events: seq<nat>)
  type Config = c: ConfigRaw | |c.events| == EVENT_MAX
    witness Config(false, seq(EVENT_MAX, i => i))

  /** The commands the parser refuses with -1. */
  predicate Fails(c: Command) {
    match c.op
    case Read | Write | Poll => c.addr < REG_START || c.addr > REG_END
    case Wait | Update | Acquire => c.Event() >= EVENT_MAX
    case Time | Stop => false
    case Load | Move | Other => true
  }

  predicate PoolEvent(e: nat) { POOL_START <= e <= POOL_END }

  /** What an accepted command appends to the packet; a refused one appends nothing. */
  function Emit(cfg: Config, c: Command, slot: nat): seq<Instr> {
    if Fails(c) then [] else
    match c.op
    case Read => if cfg.bwlog then [MemMove(c.source, slot)] else []
    case Write => [WriteReg(c.addr, c.Value(), c.Mask())]
    case Poll => [PollReg(c.Value(), c.addr, c.Mask())]
    case Wait =>
      if c.Action() == 1 then [WaitEvent(cfg.events[c.Event()], true)]
      else if c.Action() == 0 then [WaitEvent(cfg.events[c.Event()], false)]
      else []
    case Update =>
      if c.Action() == 1 then [SetEvent(cfg.events[c.Event()])]
      else if c.Action() == 0 then [ClearEvent(cfg.events[c.Event()])]
      else []
    case Acquire => [AcquireEvent(cfg.events[c.Event()])]
    case _ => []
  }

  predicate NoneFail(cs: seq<Command>) { forall k :: 0 <= k < |cs| ==> !Fails(cs[k]) }

  function SlotUse(cfg: Config, c: Command): nat {
    if cfg.bwlog && c.op == Read && !Fails(c) then 1 else 0
  }

  /** Run `emit` over `cs`, handing each element the slots used before it. */
  function Fold<C, I>(emit: (C, nat) -> seq<I>, use: C -> nat, cs: seq<C>, slot: nat): seq<I> {
    if cs == [] then [] else emit(cs[0], slot) + Fold(emit, use, cs[1..], slot + use(cs[0]))
  }

  function Sum<C>(use: C -> nat, cs: seq<C>): nat {
    if cs == [] then 0 else use(cs[0]) + Sum(use, cs[1..])
  }

  function Emitter(cfg: Config): (Command, nat) -> seq<Instr> { (c: Command, slot: nat) => Emit(cfg, c, slot) }

  function SlotUser(cfg: Config): Command -> nat { (c: Command) => SlotUse(cfg, c) }

  /** How many result slots the READ commands of `cs` take. */
  function Slots(cfg: Config, cs: seq<Command>): nat { Sum(SlotUser(cfg), cs) }

  /** The instructions a run of commands stands for, READ results numbered from `slot`. */
  function Translate(cfg: Config, cs: seq<Command>, slot: nat): seq<Instr> {
    Fold(Emitter(cfg), SlotUser(cfg), cs, slot)
  }

  /** The change one command makes to the history counter of pool event `e`. */
  function Delta(c: Command, e: nat): int {
    if c.op == Wait && c.Action() == 1 && c.Event() == POOL_START + e then 1
    else if c.op == Update && c.Action() == 1 && c.Event() == POOL_START + e then -1
    else 0
  }

  function TotalDelta(cs: seq<Command>, e: nat): int {
    if cs == [] then 0 else TotalDelta(cs[..|cs| - 1], e) + Delta(cs[|cs| - 1], e)
  }

  /** The history counters `h` after the commands `cs`. */
  function Counted(h: seq<int>, cs: seq<Command>): (r: seq<int>)
    ensures |r| == |h| && forall e :: 0 <= e < |h| ==> r[e] == h[e] + TotalDelta(cs, e)
  {
    seq(|h|, e requires 0 <= e < |h| => h[e] + TotalDelta(cs, e))
  }

  lemma CountedSnoc(h: seq<int>, cs: seq<Command>, c: Command)
    ensures forall e :: 0 <= e < |h| ==> Counted(h, cs + [c])[e] == Counted(h, cs)[e] + Delta(c, e)
  {
    assert (cs + [c])[..|cs|] == cs;
  }

  /** `done` counts the commands accepted before the parser stopped.  `Overrun` marks a
      read past the end of the frame's commands: the loop bound compares the count of
      this call with the size of the whole frame. */
  datatype Outcome = Parsed(done: nat) | Refused(done: nat) | Overrun(done: nat)

  function ParseFrom(cs: seq<Command>, start: nat, count: nat): (o: Outcome)
    requires start + count <= |cs|
    ensures count <= o.done && start + o.done <= |cs|
    ensures o.Parsed? ==> count < o.done
    decreases |cs| - count
  {
    if start + count == |cs| then Overrun(count)
    else if Fails(cs[start + count]) then Refused(count)
    else if cs[start + count].op == Stop || count + 1 == |cs| then Parsed(count + 1)
    else ParseFrom(cs, start, count + 1)
  }

  lemma ParseAtEnd(cs: seq<Command>, start: nat, count: nat)
    requires start + count == |cs|
    ensures ParseFrom(cs, start, count) == Overrun(count)
  {
  }

  lemma ParseTurn(cs: seq<Command>, start: nat, count: nat)
    requires start + count < |cs|
    ensures ParseFrom(cs, start, count) ==
      if Fails(cs[start + count]) then Refused(count)
      else if cs[start + count].op == Stop || count + 1 == |cs| then Parsed(count + 1)
      else ParseFrom(cs, start, count + 1)
  {
  }

  /** The words of the block a parse accepted. */
  function Accepted(cs: seq<Command>, start: nat, o: Outcome): seq<Command>
    requires start + o.done <= |cs|
  {
    cs[start..start + o.done]
  }

  lemma RefusedEmitsNothing(cfg: Config, c: Command, slot: nat)
    requires Fails(c)
    ensures Emit(cfg, c, slot) == [] && SlotUse(cfg, c) == 0
  {
  }

  lemma SliceSnoc<T>(s: seq<T>, from: nat, to: nat)
    requires from <= to < |s|
    ensures s[from..to] + [s[to]] == s[from..to + 1]
  {
  }

  class Recorder {
    const cfg: Config
    var pkt: seq<Instr>       // instructions appended to the packet being built
    var slots: nat            // pkt_ts_num
    const hist: array<int>    // event_hist[].st

    constructor (cfg: Config)
      ensures this.cfg == cfg && pkt == [] && slots == 0 && fresh(hist)
      ensures hist.Length == POOL_NUM && forall e :: 0 <= e < POOL_NUM ==> hist[e] == 0
    {
      this.cfg := cfg;
      pkt, slots := [], 0;
      hist := new int[POOL_NUM](_ => 0);
    }

    /** One turn of the parser's switch: `ok` is false where the original returns -1. */
    method Step(c: Command) returns (ok: bool, stop: bool)
      requires hist.Length == POOL_NUM
      modifies this`pkt, this`slots, hist
      ensures ok == !Fails(c) && stop == (c.op == Stop)
      ensures pkt == old(pkt) + Emit(cfg, c, old(slots))
      ensures slots == old(slots) + SlotUse(cfg, c)
      ensures forall e :: 0 <= e < POOL_NUM ==>
        hist[e] == old(hist[e]) + (if ok then Delta(c, e) else 0)
    {
      ok, stop := true, false;
      match c.op {
        case Read =>
          ok := REG_START <= c.addr <= REG_END;
          if ok && cfg.bwlog {
            pkt := pkt + [MemMove(c.source, slots)];
            slots := slots + 1;
          }
        case Write =>
          ok := REG_START <= c.addr <= REG_END;
          if ok { pkt := pkt + [WriteReg(c.addr, c.Value(), c.Mask())]; }
        case Poll =>
          ok := REG_START <= c.addr <= REG_END;
          if ok { pkt := pkt + [PollReg(c.Value(), c.addr, c.Mask())]; }
        case Wait =>
          ok := c.Event() < EVENT_MAX;
          if ok && c.Action() == 1 {
            pkt := pkt + [WaitEvent(cfg.events[c.Event()], true)];
            if PoolEvent(c.Event()) {
              hist[c.Event() - POOL_START] := hist[c.Event() - POOL_START] + 1;
            }
          } else if ok && c.Action() == 0 {
            pkt := pkt + [WaitEvent(cfg.events[c.Event()], false)];
          }
        case Update =>
          ok := c.Event() < EVENT_MAX;
          if ok && c.Action() == 1 {
            pkt := pkt + [SetEvent(cfg.events[c.Event()])];
            if PoolEvent(c.Event()) {
              hist[c.Event() - POOL_START] := hist[c.Event() - POOL_START] - 1;
            }
          } else if ok && c.Action() == 0 {
            pkt := pkt + [ClearEvent(cfg.events[c.Event()])];
          }
        case Acquire =>
          ok := c.Event() < EVENT_MAX;
          if ok { pkt := pkt + [AcquireEvent(cfg.events[c.Event()])]; }
        case Time =>
        case Stop => stop := true;
        case _ => ok := false;
      }
    }

    /** The recorder, started with `p`, `s` and `h`, has taken in exactly the commands `cs`. */
    ghost predicate Recorded(cs: seq<Command>, p: seq<Instr>, s: nat, h: seq<int>)
      requires |h| == POOL_NUM
      reads this, hist
    {
      && pkt == p + Translate(cfg, cs, s)
      && slots == s + Slots(cfg, cs)
      && hist.Length == POOL_NUM
      && hist[..] == Counted(h, cs)
    }

    method StepAfter(c: Command, ghost seen: seq<Command>, ghost p: seq<Instr>, ghost s: nat, ghost h: seq<int>)
      returns (ok: bool, stop: bool)
      requires |h| == POOL_NUM && Recorded(seen, p, s, h)
      modifies this`pkt, this`slots, hist
      ensures ok == !Fails(c) && stop == (c.op == Stop)
      ensures Recorded(if ok then seen + [c] else seen, p, s, h)
    {
      hide Emit, Translate, Slots, SlotUse, TotalDelta, Delta;
      ghost var t, at := Translate(cfg, seen, s), s + Slots(cfg, seen);
      ok, stop := Step(c);
      TranslateSnoc(cfg, seen, c, s);
      CountedSnoc(h, seen, c);
      if ok {
        assert pkt == p + (t + Emit(cfg, c, at));
        assert hist[..] == Counted(h, seen + [c]);
      } else {
        RefusedEmitsNothing(cfg, c, at);
        assert hist[..] == Counted(h, seen);
      }
    }

    lemma NothingRecorded(p: seq<Instr>, s: nat, h: seq<int>)
      requires |h| == POOL_NUM == hist.Length && pkt == p && slots == s && hist[..] == h
      ensures Recorded([], p, s, h)
    {
    }

    /** The parser's do-while loop over one block. */
    method ParseBlock(cs: seq<Command>, start: nat) returns (o: Outcome)
      requires start <= |cs| && hist.Length == POOL_NUM
      modifies this`pkt, this`slots, hist
      ensures o == ParseFrom(cs, start, 0)
      ensures Recorded(Accepted(cs, start, o), old(pkt), old(slots), old(hist[..]))
    {
      o := Parsed(0);
      var more := true;
      ghost var seen: seq<Command> := [];
      ghost var p, s, h := pkt, slots, hist[..];
      NothingRecorded(p, s, h);
      hide Recorded, Accepted, ParseFrom, Fails;
      while more
        invariant start + o.done <= |cs|
        invariant seen == Accepted(cs, start, o)
        invariant ParseFrom(cs, start, 0) == if more then ParseFrom(cs, start, o.done) else o
        invariant Recorded(seen, p, s, h)
        decreases |cs| - o.done, more
      {
        if start + o.done == |cs| {
          ParseAtEnd(cs, start, o.done);
          o, more := Overrun(o.done), false;
        } else {
          var c := cs[start + o.done];
          ParseTurn(cs, start, o.done);
          var ok, stop := StepAfter(c, seen, p, s, h);
          if ok {
            SliceSnoc(cs, start, start + o.done);
            seen, o := seen + [c], Parsed(o.done + 1);
            more := !stop && o.done < |cs|;
          } else {
            o, more := Refused(o.done), false;
          }
        }
      }
    }
  }

  // ---------------------------------------------------------------- translation

  lemma {:induction false} FoldConcat<C, I>(emit: (C, nat) -> seq<I>, use: C -> nat,
                                            a: seq<C>, b: seq<C>, slot: nat)
    ensures Sum(use, a + b) == Sum(use, a) + Sum(use, b)
    ensures Fold(emit, use, a + b, slot) == Fold(emit, use, a, slot) + Fold(emit, use, b, slot + Sum(use, a))
  {
    if a == [] {
      assert a + b == b;
    } else {
      assert (a + b)[1..] == a[1..] + b;
      FoldConcat(emit, use, a[1..], b, slot + use(a[0]));
    }
  }

  /** Translation is a homomorphism up to where READ results are numbered from. */
  lemma TranslateConcat(cfg: Config, a: seq<Command>, b: seq<Command>, slot: nat)
    ensures Slots(cfg, a + b) == Slots(cfg, a) + Slots(cfg, b)
    ensures Translate(cfg, a + b, slot)
         == Translate(cfg, a, slot) + Translate(cfg, b, slot + Slots(cfg, a))
  {
    FoldConcat(Emitter(cfg), SlotUser(cfg), a, b, slot);
  }

  lemma TranslateSnoc(cfg: Config, cs: seq<Command>, c: Command, slot: nat)
    ensures Slots(cfg, cs + [c]) == Slots(cfg, cs) + SlotUse(cfg, c)
    ensures Translate(cfg, cs + [c], slot) == Translate(cfg, cs, slot) + Emit(cfg, c, slot + Slots(cfg, cs))
    ensures forall e :: TotalDelta(cs + [c], e) == TotalDelta(cs, e) + Delta(c, e)
  {
    assert (cs + [c])[..|cs|] == cs && [c][1..] == [];
    assert SlotUser(cfg)(c) == SlotUse(cfg, c);
    assert Slots(cfg, [c]) == SlotUse(cfg, c) + Slots(cfg, [c][1..]);
    var at := slot + Slots(cfg, cs);
    assert Emitter(cfg)(c, at) == Emit(cfg, c, at);
    assert Translate(cfg, [c], at) == Emit(cfg, c, at) + Translate(cfg, [c][1..], at + SlotUse(cfg, c));
    TranslateConcat(cfg, cs, [c], slot);
  }

  /** Forget where READ results go: the only part of an instruction that depends on the
      packet it lands in. */
  function Unslot(i: Instr): Instr { if i.MemMove? then MemMove(i.source, 0) else i }

  function Program(s: seq<Instr>): (r: seq<Instr>)
    ensures |r| == |s| && forall k :: 0 <= k < |s| ==> r[k] == Unslot(s[k])
  {
    seq(|s|, k requires 0 <= k < |s| => Unslot(s[k]))
  }

  lemma ProgramConcat(a: seq<Instr>, b: seq<Instr>)
    ensures Program(a + b) == Program(a) + Program(b)
  {
  }

  lemma {:induction false} ProgramIgnoresSlots(cfg: Config, cs: seq<Command>, m: nat, n: nat)
    ensures Program(Translate(cfg, cs, m)) == Program(Translate(cfg, cs, n))
  {
    if cs != [] {
      var u := SlotUse(cfg, cs[0]);
      ProgramIgnoresSlots(cfg, cs[1..], m + u, n + u);
      ProgramConcat(Emit(cfg, cs[0], m), Translate(cfg, cs[1..], m + u));
      ProgramConcat(Emit(cfg, cs[0], n), Translate(cfg, cs[1..], n + u));
      assert Program(Emit(cfg, cs[0], m)) == Program(Emit(cfg, cs[0], n));
    }
  }

  // ------------------------------------------------------------ command stream split

  function Stops(cs: seq<Command>): nat {
    if cs == [] then 0 else Stops(cs[..|cs| - 1]) + (if cs[|cs| - 1].op == Stop then 1 else 0)
  }

  /** Where `cmd_idx` stands after `n` successful parser calls starting at `start`, or -1
      when some call was refused or ran off the end. */
  function Consume(cs: seq<Command>, start: nat, n: nat): int
    requires start <= |cs|
    decreases n
  {
    if n == 0 then start
    else
      var o := ParseFrom(cs, start, 0);
      if o.Parsed? then Consume(cs, start + o.done, n - 1) else -1
  }

  lemma {:induction false} StopsConcat(a: seq<Command>, b: seq<Command>)
    ensures Stops(a + b) == Stops(a) + Stops(b)
  {
    if b == [] {
      assert a + b == a;
    } else {
      assert (a + b)[..|a + b| - 1] == a + b[..|b| - 1];
      StopsConcat(a, b[..|b| - 1]);
    }
  }

  lemma {:induction false} StopsZero(cs: seq<Command>)
    ensures Stops(cs) == 0 <==> forall k :: 0 <= k < |cs| ==> cs[k].op != Stop
  {
    if cs != [] {
      StopsZero(cs[..|cs| - 1]);
      assert forall k :: 0 <= k < |cs| - 1 ==> cs[..|cs| - 1][k] == cs[k];
    }
  }

  /** What one parser call accepts, said without the loop: a run with no refused command
      that ends at its first STOP, or the whole frame when the frame has no STOP. */
  lemma {:induction false} ParsedIsBlock(cs: seq<Command>, start: nat, count: nat)
    requires start + count <= |cs|
    ensures var o := ParseFrom(cs, start, count); var e := start + o.done;
      && (o.Parsed? ==> && (cs[e - 1].op == Stop || o.done == |cs|)
                        && forall k :: start + count <= k < e - 1 ==> cs[k].op != Stop)
      && (forall k :: start + count <= k < e ==> !Fails(cs[k]))
      && (o.Refused? ==> e < |cs| && Fails(cs[e]))
      && (o.Overrun? ==> e == |cs| && (start > 0 || count == |cs|))
      && (!o.Parsed? ==> forall k :: start + count <= k < e ==> cs[k].op != Stop)
    decreases |cs| - count
  {
    if start + count < |cs| && !Fails(cs[start + count])
       && cs[start + count].op != Stop && count + 1 != |cs| {
      ParsedIsBlock(cs, start, count + 1);
    }
  }

  /** On a frame none of whose commands is refused, `n` parser calls with
      `cmd_idx += ret` use it up exactly, reading nothing past its end, if and only if it
      holds exactly `n` STOPs and ends with one (or, for one call, holds no STOP at all). */
  lemma {:induction false} StreamSplit(cs: seq<Command>, n: nat)
    requires NoneFail(cs)
    ensures Consume(cs, 0, n) == |cs| <==>
      || (Stops(cs) == n && (cs == [] || cs[|cs| - 1].op == Stop))
      || (n == 1 && cs != [] && Stops(cs) == 0)
  {
    if n == 0 {
      StopsZero(cs);
    } else if cs == [] {
    } else {
      var o := ParseFrom(cs, 0, 0);
      ParsedIsBlock(cs, 0, 0);
      assert o.Parsed?;
      StopsZero(cs);
      if cs[o.done - 1].op == Stop {
        TailSplit(cs, o.done, n - 1);
        FirstBlockHasOneStop(cs, o.done);
      } else {
        assert o.done == |cs|;
        TailSplit(cs, |cs|, n - 1);
      }
    }
  }

  lemma FirstBlockHasOneStop(cs: seq<Command>, e: nat)
    requires 0 < e <= |cs| && cs[e - 1].op == Stop
    requires forall k :: 0 <= k < e - 1 ==> cs[k].op != Stop
    ensures Stops(cs) == 1 + Stops(cs[e..])
  {
    assert cs == cs[..e] + cs[e..];
    StopsConcat(cs[..e], cs[e..]);
    assert cs[..e][..e - 1] == cs[..e - 1];
    StopsZero(cs[..e - 1]);
  }

  /** Past the first block the bound on the count is out of reach, so only STOPs end a call. */
  lemma {:induction false} TailSplit(cs: seq<Command>, start: nat, n: nat)
    requires NoneFail(cs) && 0 < start <= |cs|
    ensures Consume(cs, start, n) == |cs| <==>
      Stops(cs[start..]) == n && (start == |cs| || cs[|cs| - 1].op == Stop)
    decreases n
  {
    StopsZero(cs[start..]);
    if n == 0 {
      if start < |cs| && cs[|cs| - 1].op == Stop {
        assert cs[start..][|cs| - 1 - start].op == Stop;
      }
    } else {
      var o := ParseFrom(cs, start, 0);
      ParsedIsBlock(cs, start, 0);
      if o.Parsed? {
        var e := start + o.done;
        TailSplit(cs, e, n - 1);
        FirstBlockHasOneStop(cs[start..], o.done);
        assert cs[start..][o.done..] == cs[e..];
      } else {
        assert forall k :: 0 <= k < |cs| - start ==> cs[start..][k] == cs[start + k];
      }
    }
  }

  // ------------------------------------------------------------- how a frame comes out

  /** What stops a request: nothing, a malformed header, no GCE thread, a refused command, or a
      parse that runs off the frame's commands. */
  datatype Cause = Fine | Malformed | NoThread | BadCommand | RanOff

  /** How `n` parser calls from `start` come out. */
  function StreamCause(cs: seq<Command>, start: nat, n: nat): Cause
    requires start <= |cs|
    decreases n
  {
    if n == 0 then Fine
    else
      match ParseFrom(cs, start, 0)
      case Parsed(done) => StreamCause(cs, start + done, n - 1)
      case Refused(_) => BadCommand
      case Overrun(_) => RanOff
  }

  /** The first refused command from `start` on, or the end. */
  function FirstBad(cs: seq<Command>, start: nat): (p: nat)
    requires start <= |cs|
    ensures start <= p <= |cs| && (p < |cs| ==> Fails(cs[p]))
    ensures forall k :: start <= k < p ==> !Fails(cs[k])
    decreases |cs| - start
  {
    if start == |cs| || Fails(cs[start]) then start else FirstBad(cs, start + 1)
  }

  lemma {:induction false} FirstBadFrom(cs: seq<Command>, start: nat, e: nat)
    requires start <= e <= |cs| && forall k :: start <= k < e ==> !Fails(cs[k])
    ensures FirstBad(cs, start) == FirstBad(cs, e)
    decreases e - start
  {
    if start < e { FirstBadFrom(cs, start + 1, e); }
  }

  lemma {:induction false} TailCause(cs: seq<Command>, start: nat, n: nat)
    requires 0 < start <= |cs|
    ensures var p := FirstBad(cs, start);
      StreamCause(cs, start, n) ==
        if Stops(cs[start..p]) >= n then Fine else if p < |cs| then BadCommand else RanOff
    decreases n
  {
    hide ParseFrom, Stops, FirstBad, Fails;
    if n > 0 {
      var o, p := ParseFrom(cs, start, 0), FirstBad(cs, start);
      var e := start + o.done;
      ParsedIsBlock(cs, start, 0);
      FirstBadFrom(cs, start, e);
      if o.Parsed? {
        TailCause(cs, e, n - 1);
        FirstBlockHasOneStop(cs[start..p], o.done);
        assert cs[start..p][o.done..] == cs[e..p];
      } else {
        assert p == e;
        NoStopBetween(cs, start, p);
      }
    }
  }

  lemma NoStopBetween(cs: seq<Command>, a: nat, b: nat)
    requires a <= b <= |cs| && forall k :: a <= k < b ==> cs[k].op != Stop
    ensures Stops(cs[a..b]) == 0
  {
    StopsZero(cs[a..b]);
  }

  /** How a frame of `n` blocks comes out, for any commands: translated if and only if `n` STOPs
      come before the first refused command (or it is one block with no refused command);
      otherwise a refused command stops it, and when there is none the parser runs past the
      frame's end. */
  lemma FrameOutcome(cs: seq<Command>, n: nat)
    ensures var p := FirstBad(cs, 0);
      StreamCause(cs, 0, n) ==
        if n == 0 || Stops(cs[..p]) >= n || (n == 1 && p == |cs| && cs != []) then Fine
        else if p < |cs| then BadCommand
        else RanOff
  {
    if n > 0 {
      var o, p := ParseFrom(cs, 0, 0), FirstBad(cs, 0);
      ParsedIsBlock(cs, 0, 0);
      FirstBadFrom(cs, 0, o.done);
      assert cs[..p] == cs[0..p];
      if o.Parsed? {
        TailCause(cs, o.done, n - 1);
        if cs[o.done - 1].op == Stop {
          FirstBlockHasOneStop(cs[..p], o.done);
          assert cs[..p][o.done..] == cs[o.done..p];
        } else {
          NoStopBetween(cs, 0, p);
          assert cs[o.done..p] == [];
        }
      } else {
        NoStopBetween(cs, 0, p);
      }
    }
  }

  lemma {:induction false} CauseConsumes(cs: seq<Command>, start: nat, n: nat)
    requires start <= |cs|
    ensures StreamCause(cs, start, n) == Fine <==> Consume(cs, start, n) >= 0
    decreases n
  {
    if n > 0 {
      var o := ParseFrom(cs, start, 0);
      if o.Parsed? { CauseConsumes(cs, start + o.done, n - 1); }
    }
  }

  /** Without refused commands, `n` calls stay within a frame if and only if it holds `n` STOPs,
      or is not empty and one call is made. */
  lemma StaysInside(cs: seq<Command>, n: nat)
    requires NoneFail(cs)
    ensures Consume(cs, 0, n) >= 0 <==> n == 0 || (n == 1 && cs != []) || Stops(cs) >= n
  {
    FrameOutcome(cs, n);
    CauseConsumes(cs, 0, n);
    FirstBadFrom(cs, 0, |cs|);
    assert cs[..|cs|] == cs;
  }
}
