/** Chunked and batched register access over I2C, on a sensor with a 16-bit register address
    that increments by itself. */
module AdaptorI2c {
  const MAX_BUF_SIZE: nat := 255
  const MAX_VAL_NUM_U8: nat := 253
  const MAX_VAL_NUM_U16: nat := 126
  const MAX_MSG_NUM_U8: nat := 85
  const MAX_MSG_NUM_U16: nat := 63
  const REGS: nat := 0x1_0000

  type u8 = x: nat | x < 0x100
  type u16 = x: nat | x < REGS
  type RegFile = s: seq<u8> | |s| == REGS witness seq(REGS, _ => 0)

  /** What `i2c_transfer` returns: an error, or how many of its messages got through. */
  type Result = int

  /** `total = n_vals`, a u32 stored in an int. */
  function ToInt(n: nat): int { if n < 0x8000_0000 then n else n - 0x1_0000_0000 }

  // ------------------------------------------------------------------------- the device

  function At(reg: nat, i: nat): u16 { (reg + i) % REGS }

  /** Byte-wise writes at `reg`, `reg` + 1, ..., modulo 2^16. */
  function WriteBytes(f: RegFile, reg: nat, vals: seq<u8>): RegFile {
    if vals == [] then f
    else WriteBytes(f, reg, vals[..|vals| - 1])[At(reg, |vals| - 1) := vals[|vals| - 1]]
  }

  function ReadBytes(f: RegFile, reg: nat, n: nat): (r: seq<u8>)
    ensures |r| == n
  {
    seq(n, i requires 0 <= i < n => f[At(reg, i)])
  }

  function Address(hi: int, lo: int): int { 256 * hi + lo }

  /** A write message: two address bytes, then data. */
  function Deliver(f: RegFile, msg: seq<u8>): RegFile {
    if |msg| < 2 then f else WriteBytes(f, Address(msg[0], msg[1]), msg[2..])
  }

  function DeliverAll(f: RegFile, msgs: seq<seq<u8>>): RegFile {
    if msgs == [] then f else Deliver(DeliverAll(f, msgs[..|msgs| - 1]), msgs[|msgs| - 1])
  }

  lemma {:induction false} WriteConcat(f: RegFile, reg: nat, a: seq<u8>, b: seq<u8>)
    ensures WriteBytes(f, reg, a + b) == WriteBytes(WriteBytes(f, reg, a), reg + |a|, b)
  {
    if b == [] {
      assert a + b == a;
    } else {
      assert (a + b)[..|a + b| - 1] == a + b[..|b| - 1];
      WriteConcat(f, reg, a, b[..|b| - 1]);
    }
  }

  lemma {:induction false} WriteWraps(f: RegFile, reg: nat, vals: seq<u8>)
    ensures WriteBytes(f, reg % REGS, vals) == WriteBytes(f, reg, vals)
  {
    if vals != [] {
      WriteWraps(f, reg, vals[..|vals| - 1]);
      ModShift(reg, |vals| - 1);
    }
  }

  lemma ModShift(a: nat, b: nat)
    ensures (a % REGS + b) % REGS == (a + b) % REGS
  {
  }

  lemma Hit(reg: nat, i: nat, j: nat)
    requires i <= j < i + REGS
    ensures At(reg, i) == At(reg, j) <==> i == j
  {
  }

  /** A run of writes leaves each value that is not overwritten 65536 later. */
  lemma {:induction false} WrittenAt(f: RegFile, reg: nat, vals: seq<u8>, i: nat)
    requires i < |vals| <= i + REGS
    ensures WriteBytes(f, reg, vals)[At(reg, i)] == vals[i]
    decreases |vals|
  {
    var n := |vals| - 1;
    if i < n {
      WrittenAt(f, reg, vals[..n], i);
      Hit(reg, i, n);
    }
  }

  /** A register that no value lands in keeps its own. */
  lemma {:induction false} Untouched(f: RegFile, reg: nat, vals: seq<u8>, a: u16)
    requires forall i :: 0 <= i < |vals| ==> At(reg, i) != a
    ensures WriteBytes(f, reg, vals)[a] == f[a]
  {
    if vals != [] {
      Untouched(f, reg, vals[..|vals| - 1], a);
    }
  }

  /** Up to 65536 values written in sequence are all read back. */
  lemma ReadBack(f: RegFile, reg: nat, vals: seq<u8>)
    ensures |vals| <= REGS ==> ReadBytes(WriteBytes(f, reg, vals), reg, |vals|) == vals
    ensures forall i :: 0 <= i < |vals| <= i + REGS ==>
      ReadBytes(WriteBytes(f, reg, vals), reg, |vals|)[i] == vals[i]
  {
    forall i | 0 <= i < |vals| <= i + REGS
      ensures ReadBytes(WriteBytes(f, reg, vals), reg, |vals|)[i] == vals[i]
    {
      WrittenAt(f, reg, vals, i);
    }
  }

  class Bus {
    var regs: RegFile
    var log: seq<seq<u8>>             // write messages that got through
    var calls: nat
    const results: nat -> Result

    constructor (regs: RegFile, results: nat -> Result)
      ensures this.regs == regs && log == [] && this.results == results
    {
      this.regs, this.results := regs, results;
      log, calls := [], 0;
    }

    /** `i2c_transfer` of write messages: the first `sent` get through. */
    method Transfer(msgs: seq<seq<u8>>) returns (ret: int, ghost sent: nat)
      modifies this
      ensures sent <= |msgs| && (ret == |msgs| ==> sent == |msgs|) && (ret < 0 ==> sent == 0)
      ensures calls == old(calls) + 1
      ensures var r := results(old(calls)); ret == if r > |msgs| then |msgs| else r
      ensures sent == if ret < 0 then 0 else ret
      ensures log == old(log) + msgs[..sent] && regs == DeliverAll(old(regs), msgs[..sent])
    {
      var r := results(calls);
      calls := calls + 1;
      ret := if r > |msgs| then |msgs| else r;
      var n := if ret < 0 then 0 else ret;
      sent := n;
      log := log + msgs[..n];
      regs := DeliverAll(regs, msgs[..n]);
    }

    /** A register address written, then `n` bytes read.  The read happens only if both messages
        get through: the result 1 means that it did not. */
    method ReadTransfer(reg: u16, n: nat) returns (ret: int, data: seq<u8>)
      modifies this`calls
      ensures ret == results(old(calls)) && calls == old(calls) + 1
      ensures data == if ret >= 2 then ReadBytes(regs, reg, n) else []
    {
      ret := results(calls);
      calls := calls + 1;
      data := if ret >= 2 then ReadBytes(regs, reg, n) else [];
    }

    /** One message of a run of bytes: the address, then the values, from the fixed buffer. */
    method SendChunk(buf: array<u8>, at: u16, chunk: seq<u8>) returns (ret: int)
      requires buf.Length == MAX_BUF_SIZE && 0 < |chunk| <= MAX_VAL_NUM_U8
      modifies this, buf
      ensures if results(old(calls)) < 1 then regs == old(regs) && log == old(log)
              else regs == Deliver(old(regs), Frame(at, chunk)) && log == old(log) + [Frame(at, chunk)]
      ensures calls == old(calls) + 1 && (ret < 0 <==> results(old(calls)) < 0)
    {
      buf[0], buf[1] := at / 256, at % 256;
      forall i | 0 <= i < |chunk| { buf[2 + i] := chunk[i]; }
      var msg := buf[..2 + |chunk|];
      assert msg == Frame(at, chunk) && msg[2..] == chunk;
      OneMessage(regs, msg);
      ghost var sent;
      ret, sent := Transfer([msg]);
    }

    /** `adaptor_i2c_wr_seq_p8`: the chunks of the first `done` values were handed over, all of them
        on success, in the messages `msgs`; those whose transfer did not return 0 were written. */
    method WrSeqP8(reg: u16, vals: seq<u8>, memOk: bool) returns (ok: bool, ghost done: nat, ghost msgs: seq<seq<u8>>)
      requires |vals| < 0x1_0000_0000
      modifies this
      ensures done <= |vals| && (ok ==> done == if |vals| < 0x8000_0000 then |vals| else 0)
      ensures !ok ==> done % MAX_VAL_NUM_U8 == 0
      ensures Fits(msgs) && forall k :: 0 <= k < |msgs| ==> msgs[k] == SeqMsg(reg, vals, k)
      ensures DeliverAll(old(regs), msgs) == WriteBytes(old(regs), reg, vals[..done])
      ensures Landed(results, old(calls), |msgs|) ==> regs == WriteBytes(old(regs), reg, vals[..done])
      ensures Arrived(results, old(calls), msgs, old(log), log, old(regs), regs)
      ensures Landed(results, old(calls), |msgs|) <==> log == old(log) + msgs
      ensures !memOk ==> !ok && calls == old(calls) && msgs == []
      ensures memOk ==> |msgs| == calls - old(calls) - if ok then 0 else 1
      ensures memOk ==> Series(results, old(calls), calls, Seen(|vals|), MAX_VAL_NUM_U8, false, ok, done)
      ensures memOk ==> (ok <==> NoneNegative(results, old(calls), calls))
      ensures memOk && |vals| >= 0x8000_0000 ==> ok
    {
      hide WriteBytes, Frame, Fits, At, Going, Series, NoneNegative, Arrived, DeliverAll, Deliver, SeqMsg, Landed;
      done, msgs := 0, [];
      assert vals[..0] == [];
      NoBytes(regs, reg);
      NoneArrived(results, calls, log, regs);
      ArrivedAll(results, calls, [], log, log, regs, regs);
      if !memOk { return false, 0, []; }
      var buf := new u8[MAX_BUF_SIZE](_ => 0);
      var sent, total, at: u16 := 0, ToInt(|vals|), reg;
      Begin(results, calls, Seen(|vals|), MAX_VAL_NUM_U8, false);
      while sent < total
        invariant sent == done <= Seen(|vals|) && |msgs| == calls - old(calls)
        invariant Going(results, old(calls), calls, Seen(|vals|), MAX_VAL_NUM_U8, false, sent)
        invariant at == At(reg, sent) && Fits(msgs)
        invariant DeliverAll(old(regs), msgs) == WriteBytes(old(regs), reg, vals[..sent])
        invariant forall k :: 0 <= k < |msgs| ==> msgs[k] == SeqMsg(reg, vals, k)
        invariant Arrived(results, old(calls), msgs, old(log), log, old(regs), regs)
      {
        var cnt := total - sent;
        if cnt > MAX_VAL_NUM_U8 { cnt := MAX_VAL_NUM_U8; }
        ghost var c, l, f := calls, log, regs;
        var ret := SendChunk(buf, at, vals[sent..sent + cnt]);
        Turn(results, old(calls), c, Seen(|vals|), MAX_VAL_NUM_U8, false, sent, cnt);
        if ret < 0 {
          ArrivedAll(results, old(calls), msgs, old(log), log, old(regs), regs);
          return false, sent, msgs;
        }
        ghost var m := Frame(at, vals[sent..sent + cnt]);
        NextMessage(old(regs), reg, vals, sent, cnt, msgs);
        NextArrives(results, old(calls), msgs, old(log), l, old(regs), f, m, log, regs);
        msgs := msgs + [m];
        sent := sent + cnt;
        at := (at + cnt) % REGS;
        done := sent;
      }
      ArrivedAll(results, old(calls), msgs, old(log), log, old(regs), regs);
      Finish(results, old(calls), calls, Seen(|vals|), MAX_VAL_NUM_U8, false);
      return true, done, msgs;
    }

    /** `adaptor_i2c_wr_p8`: every chunk goes to the same register. */
    method WrP8(reg: u16, vals: seq<u8>, memOk: bool) returns (ok: bool, ghost done: nat, ghost msgs: seq<seq<u8>>)
      requires |vals| < 0x1_0000_0000
      modifies this
      ensures done <= |vals| && (ok ==> done == if |vals| < 0x8000_0000 then |vals| else 0)
      ensures !ok ==> done % MAX_VAL_NUM_U8 == 0
      ensures SamePort(msgs, reg, vals[..done])
      ensures forall k :: 0 <= k < |msgs| ==> msgs[k] == Frame(reg, Part(vals, 253, k))
      ensures Arrived(results, old(calls), msgs, old(log), log, old(regs), regs)
      ensures Landed(results, old(calls), |msgs|) <==> log == old(log) + msgs
      ensures !memOk ==> !ok && calls == old(calls) && msgs == []
      ensures memOk ==> |msgs| == calls - old(calls) - if ok then 0 else 1
      ensures memOk ==> Series(results, old(calls), calls, Seen(|vals|), MAX_VAL_NUM_U8, false, ok, done)
      ensures memOk ==> (ok <==> NoneNegative(results, old(calls), calls))
      ensures memOk && |vals| >= 0x8000_0000 ==> ok
    {
      hide Going, Series, NoneNegative, Arrived, Landed, Part, Carried;
      hide Frame, Deliver, DeliverAll, SamePort;
      done, msgs := 0, [];
      assert vals[..0] == [];
      NoMessages(old(regs), reg);
      NoneArrived(results, calls, log, regs);
      ArrivedAll(results, calls, [], log, log, regs, regs);
      if !memOk { return false, 0, []; }
      var buf := new u8[MAX_BUF_SIZE](_ => 0);
      var sent, total := 0, ToInt(|vals|);
      Begin(results, calls, Seen(|vals|), MAX_VAL_NUM_U8, false);
      while sent < total
        invariant sent == done <= Seen(|vals|) && |msgs| == calls - old(calls)
        invariant Going(results, old(calls), calls, Seen(|vals|), MAX_VAL_NUM_U8, false, sent)
        invariant SamePort(msgs, reg, vals[..sent])
        invariant forall k :: 0 <= k < |msgs| ==> msgs[k] == Frame(reg, Part(vals, MAX_VAL_NUM_U8, k))
        invariant Arrived(results, old(calls), msgs, old(log), log, old(regs), regs)
      {
        var cnt := total - sent;
        if cnt > MAX_VAL_NUM_U8 { cnt := MAX_VAL_NUM_U8; }
        ghost var c, l, f := calls, log, regs;
        var chunk := vals[sent..sent + cnt];
        var ret := SendChunk(buf, reg, chunk);
        Turn(results, old(calls), c, Seen(|vals|), MAX_VAL_NUM_U8, false, sent, cnt);
        if ret < 0 {
          ArrivedAll(results, old(calls), msgs, old(log), log, old(regs), regs);
          return false, sent, msgs;
        }
        assert vals[..sent + cnt] == vals[..sent] + chunk;
        ghost var m := Frame(reg, chunk);
        PartIs(vals, MAX_VAL_NUM_U8, |msgs|, sent, cnt);
        PortSnoc(msgs, reg, vals[..sent], chunk);
        NextArrives(results, old(calls), msgs, old(log), l, old(regs), f, m, log, regs);
        msgs := msgs + [m];
        sent := sent + cnt;
        done := sent;
      }
      ArrivedAll(results, old(calls), msgs, old(log), log, old(regs), regs);
      Finish(results, old(calls), calls, Seen(|vals|), MAX_VAL_NUM_U8, false);
      return true, done, msgs;
    }

    /** `adaptor_i2c_wr_p16`: each value big-endian, every chunk to the same register. */
    method WrP16(reg: u16, vals: seq<u16>, memOk: bool) returns (ok: bool, ghost done: nat, ghost msgs: seq<seq<u8>>)
      requires |vals| < 0x1_0000_0000
      modifies this
      ensures done <= |vals| && (ok ==> done == if |vals| < 0x8000_0000 then |vals| else 0)
      ensures !ok ==> done % MAX_VAL_NUM_U16 == 0
      ensures SamePort(msgs, reg, BigEndian(vals[..done]))
      ensures forall k :: 0 <= k < |msgs| ==> msgs[k] == Frame(reg, BigEndian(Part(vals, 126, k)))
      ensures Arrived(results, old(calls), msgs, old(log), log, old(regs), regs)
      ensures Landed(results, old(calls), |msgs|) <==> log == old(log) + msgs
      ensures !memOk ==> !ok && calls == old(calls) && msgs == []
      ensures memOk ==> |msgs| == calls - old(calls) - if ok then 0 else 1
      ensures memOk ==> Series(results, old(calls), calls, Seen(|vals|), MAX_VAL_NUM_U16, false, ok, done)
      ensures memOk ==> (ok <==> NoneNegative(results, old(calls), calls))
      ensures memOk && |vals| >= 0x8000_0000 ==> ok
    {
      hide Going, Series, NoneNegative, Arrived, Landed, Part, Carried;
      hide Frame, Deliver, DeliverAll, SamePort, BigEndian;
      done, msgs := 0, [];
      assert vals[..0] == [] && BigEndian([]) == [] by { NoWords(); }
      NoMessages(old(regs), reg);
      NoneArrived(results, calls, log, regs);
      ArrivedAll(results, calls, [], log, log, regs, regs);
      if !memOk { return false, 0, []; }
      var buf := new u8[MAX_BUF_SIZE](_ => 0);
      var sent, total := 0, ToInt(|vals|);
      Begin(results, calls, Seen(|vals|), MAX_VAL_NUM_U16, false);
      while sent < total
        invariant sent == done <= Seen(|vals|) && |msgs| == calls - old(calls)
        invariant Going(results, old(calls), calls, Seen(|vals|), MAX_VAL_NUM_U16, false, sent)
        invariant SamePort(msgs, reg, BigEndian(vals[..sent]))
        invariant forall k :: 0 <= k < |msgs| ==> msgs[k] == Frame(reg, BigEndian(Part(vals, MAX_VAL_NUM_U16, k)))
        invariant Arrived(results, old(calls), msgs, old(log), log, old(regs), regs)
      {
        var cnt := total - sent;
        if cnt > MAX_VAL_NUM_U16 { cnt := MAX_VAL_NUM_U16; }
        ghost var c, l, f := calls, log, regs;
        var words := vals[sent..sent + cnt];
        var ret := SendWords(buf, reg, words);
        Turn(results, old(calls), c, Seen(|vals|), MAX_VAL_NUM_U16, false, sent, cnt);
        if ret < 0 {
          ArrivedAll(results, old(calls), msgs, old(log), log, old(regs), regs);
          return false, sent, msgs;
        }
        assert vals[..sent + cnt] == vals[..sent] + words;
        BigEndianConcat(vals[..sent], words);
        ghost var m := Frame(reg, BigEndian(words));
        PartIs(vals, MAX_VAL_NUM_U16, |msgs|, sent, cnt);
        PortSnoc(msgs, reg, BigEndian(vals[..sent]), BigEndian(words));
        NextArrives(results, old(calls), msgs, old(log), l, old(regs), f, m, log, regs);
        msgs := msgs + [m];
        sent := sent + cnt;
        done := sent;
      }
      ArrivedAll(results, old(calls), msgs, old(log), log, old(regs), regs);
      Finish(results, old(calls), calls, Seen(|vals|), MAX_VAL_NUM_U16, false);
      return true, done, msgs;
    }

    /** The loop that lays the words out in the buffer. */
    static method LayWords(buf: array<u8>, words: seq<u16>)
      requires buf.Length == MAX_BUF_SIZE && |words| <= MAX_VAL_NUM_U16
      modifies buf
      ensures buf[0] == old(buf[0]) && buf[1] == old(buf[1])
      ensures buf[2..2 + 2 * |words|] == BigEndian(words)
    {
      hide BigEndian;
      NoWords();
      assert words[..0] == [];
      for i := 0 to |words|
        invariant buf[0] == old(buf[0]) && buf[1] == old(buf[1])
        invariant buf[2..2 + 2 * i] == BigEndian(words[..i])
      {
        ghost var laid := buf[2..2 + 2 * i];
        buf[2 + 2 * i], buf[3 + 2 * i] := words[i] / 256, words[i] % 256;
        assert words[..i + 1] == words[..i] + [words[i]];
        BigEndianSnoc(words[..i], words[i]);
        assert buf[2..2 + 2 * (i + 1)] == laid + [words[i] / 256, words[i] % 256];
      }
      assert words[..|words|] == words;
    }

    method SendWords(buf: array<u8>, at: u16, words: seq<u16>) returns (ret: int)
      requires buf.Length == MAX_BUF_SIZE && 0 < |words| <= MAX_VAL_NUM_U16
      modifies this, buf
      ensures if results(old(calls)) < 1 then regs == old(regs) && log == old(log)
              else && regs == Deliver(old(regs), Frame(at, BigEndian(words)))
                   && log == old(log) + [Frame(at, BigEndian(words))]
      ensures |BigEndian(words)| == 2 * |words|
      ensures calls == old(calls) + 1 && (ret < 0 <==> results(old(calls)) < 0)
    {
      hide Deliver, DeliverAll, BigEndian;
      buf[0], buf[1] := at / 256, at % 256;
      LayWords(buf, words);
      var msg := buf[..2 + 2 * |words|];
      assert msg == [buf[0], buf[1]] + buf[2..2 + 2 * |words|];
      OneMessage(regs, msg);
      ghost var sent;
      ret, sent := Transfer([msg]);
    }

    /** `adaptor_i2c_wr_regs_u8`, or with `wide` `adaptor_i2c_wr_regs_u16`: `done` of the pairs in
        `list` were written, in order; a batch may stop short at any message. */
    method WrRegs(list: seq<u16>, wide: bool, memOk: bool) returns (ok: bool, ghost done: nat)
      requires |list| < 0x1_0000_0000
      modifies this
      ensures done <= |list| / 2 && regs == WriteRegs(old(regs), list, done, wide)
      ensures ok ==> done == |list| / 2
      ensures log == old(log) + RegMsgs(list, 0, done, wide)
      ensures !memOk ==> !ok && calls == old(calls)
      ensures memOk ==> Series(results, old(calls), calls, |list| / 2, MaxMsgs(wide), true, ok, done)
      ensures memOk ==> (ok <==> Through(results, old(calls), calls, |list| / 2, MaxMsgs(wide), true))
    {
      hide WriteRegs, RegMsgs, Going, Series, Through;
      done := 0;
      NoRegs(old(regs), list, wide);
      if !memOk { return false, 0; }
      var buf := new u8[MAX_BUF_SIZE](_ => 0);
      var sent, total := 0, |list| / 2;
      Begin(results, calls, total, MaxMsgs(wide), true);
      while sent < total
        invariant Going(results, old(calls), calls, total, MaxMsgs(wide), true, sent)
        invariant 0 <= sent <= total && sent == done && regs == WriteRegs(old(regs), list, sent, wide)
        invariant log == old(log) + RegMsgs(list, 0, sent, wide)
      {
        var cnt := total - sent;
        if cnt > MaxMsgs(wide) { cnt := MaxMsgs(wide); }
        var msgs := LayOut(buf, list, sent, cnt, wide);
        ghost var got, c := 0, calls;
        var ret;
        ret, got := Transfer(msgs);
        BatchWrites(old(regs), list, sent, cnt, got, wide);
        assert old(log) + RegMsgs(list, 0, sent, wide) + RegMsgs(list, sent, got, wide)
            == old(log) + (RegMsgs(list, 0, sent, wide) + RegMsgs(list, sent, got, wide));
        Turn(results, old(calls), c, total, MaxMsgs(wide), true, sent, cnt);
        if ret != cnt {
          return false, sent + got;
        }
        sent := sent + cnt;
        done := sent;
      }
      Finish(results, old(calls), calls, total, MaxMsgs(wide), true);
      return true, done;
    }

    /** The loop that lays a batch of messages out in the buffer. */
    method LayOut(buf: array<u8>, list: seq<u16>, from: nat, cnt: nat, wide: bool) returns (msgs: seq<seq<u8>>)
      requires buf.Length == MAX_BUF_SIZE && cnt <= MaxMsgs(wide) && 2 * (from + cnt) <= |list|
      modifies buf
      ensures msgs == RegMsgs(list, from, cnt, wide)
    {
      msgs := [];
      for i := 0 to cnt
        invariant msgs == RegMsgs(list, from, i, wide)
      {
        var reg, val := list[2 * (from + i)], list[2 * (from + i) + 1];
        if wide {
          buf[4 * i], buf[4 * i + 1], buf[4 * i + 2], buf[4 * i + 3] := reg / 256, reg % 256, val / 256, val % 256;
          msgs := msgs + [buf[4 * i..4 * i + 4]];
        } else {
          buf[3 * i], buf[3 * i + 1], buf[3 * i + 2] := reg / 256, reg % 256, val % 256;
          msgs := msgs + [buf[3 * i..3 * i + 3]];
        }
        assert msgs[i] == RegMsg(list, from + i, wide);
      }
    }

    /** One transfer into the caller's buffer. */
    method ReadChunk(p: array<u8>, reg: u16, recv: nat, at: nat, cnt: nat) returns (ret: int)
      requires recv + cnt <= p.Length && at == reg + recv
      modifies this`calls, p
      ensures ret == results(old(calls)) && calls == old(calls) + 1
      ensures forall i :: 0 <= i < p.Length ==>
        p[i] == if recv <= i < recv + cnt && ret >= 2 then regs[At(reg, i)] else old(p[i])
    {
      var data;
      ret, data := ReadTransfer(at % REGS, cnt);
      forall i | 0 <= i < |data| { p[recv + i] := data[i]; }
      forall i | 0 <= i < cnt ensures At(at % REGS, i) == At(reg, recv + i) { ModShift(at, i); }
    }

    /** `adaptor_i2c_rd_p8`: only a negative result stops it, so where a transfer got its address
        message through but not its read, the caller's bytes stay.  `junk` is what the
        uninitialised `ret` holds when there is nothing to read. */
    method RdP8(reg: u16, p: array<u8>, junk: int) returns (ret: int, ghost done: nat)
      requires p.Length < 0x1_0000_0000
      modifies this`calls, p
      ensures done <= p.Length
      ensures forall i :: 0 <= i < p.Length ==>
        p[i] == if i < done && results(old(calls) + i / MAX_VAL_NUM_U8) >= 2 then regs[At(reg, i)] else old(p[i])
      ensures ret >= 0 && 0 < p.Length < 0x8000_0000 ==> done == p.Length
      ensures p.Length == 0 || p.Length >= 0x8000_0000 ==> ret == junk && done == 0
      ensures forall i :: 0 <= i < done ==> old(calls) <= old(calls) + i / MAX_VAL_NUM_U8 < calls
      ensures old(calls) <= calls
      ensures 0 < p.Length < 0x8000_0000 ==>
        && Series(results, old(calls), calls, p.Length, MAX_VAL_NUM_U8, false, ret >= 0, done)
        && (ret >= 0 <==> NoneNegative(results, old(calls), calls))
        && ret == if results(calls - 1) >= 0 then results(calls - 1) else -5
    {
      hide Going, Series, NoneNegative;
      Begin(results, calls, Seen(p.Length), MAX_VAL_NUM_U8, false);
      var recv, total, at := 0, ToInt(p.Length), reg;
      ret, done := junk, 0;
      ghost var k := 0;
      while recv < total
        invariant Going(results, old(calls), calls, Seen(p.Length), MAX_VAL_NUM_U8, false, recv)
        invariant recv > 0 ==> calls > 0 && ret == results(calls - 1) >= 0
        invariant 0 <= recv <= p.Length && recv == done && at == reg + recv
        invariant if total < 0 then recv == 0 else recv == total || recv == MAX_VAL_NUM_U8 * k
        invariant recv <= MAX_VAL_NUM_U8 * k && (recv > 0 ==> MAX_VAL_NUM_U8 * (k - 1) < recv)
        invariant calls == old(calls) + k && (recv == 0 ==> ret == junk) && (total >= 0 ==> recv <= total)
        invariant forall i :: 0 <= i < p.Length ==>
          p[i] == if i < recv && results(old(calls) + i / MAX_VAL_NUM_U8) >= 2 then regs[At(reg, i)] else old(p[i])
      {
        var cnt := total - recv;
        if cnt > MAX_VAL_NUM_U8 { cnt := MAX_VAL_NUM_U8; }
        ghost var c := calls;
        ret := ReadChunk(p, reg, recv, at, cnt);
        Turn(results, old(calls), c, Seen(p.Length), MAX_VAL_NUM_U8, false, recv, cnt);
        if ret < 0 {
          return -5, done;
        }
        ChunkIndex(k, recv, cnt);
        recv, at := recv + cnt, at + cnt;
        done, k := recv, k + 1;
      }
      Finish(results, old(calls), calls, Seen(p.Length), MAX_VAL_NUM_U8, false);
    }

    /** What `adaptor_i2c_wr_seq_p8` wrote, `adaptor_i2c_rd_p8` returns, if the write succeeds and
        every message gets through. */
    method WriteThenRead(reg: u16, vals: seq<u8>, p: array<u8>, junk: int)
      returns (wrote: bool, ret: int, ghost from: nat)
      requires p.Length == |vals| <= REGS
      modifies this, p
      ensures old(calls) <= from <= calls
      ensures && wrote && (ret >= 0 || vals == [])
              && (forall k :: old(calls) <= k < from ==> results(k) >= 1)
              && (forall k :: from <= k < calls ==> results(k) >= 2)
              ==> p[..] == vals
    {
      hide WriteBytes, DeliverAll, Series, NoneNegative, Arrived, SeqMsg, Fits, At;
      ghost var f, start, done, msgs, got := regs, calls, 0, [], 0;
      wrote, done, msgs := WrSeqP8(reg, vals, true);
      from := calls;
      assert vals[..|vals|] == vals;
      ret, got := RdP8(reg, p, junk);
      ReadBack(f, reg, vals);
      if && wrote && (ret >= 0 || vals == [])
         && (forall k :: start <= k < from ==> results(k) >= 1) && (forall k :: from <= k < calls ==> results(k) >= 2)
      {
        assert Landed(results, start, |msgs|);
        forall i | 0 <= i < |vals| ensures p[i] == vals[i] {
          assert results(from + i / MAX_VAL_NUM_U8) >= 2;
          assert p[i] == regs[At(reg, i)] == ReadBytes(regs, reg, |vals|)[i];
        }
      }
    }
  }

  /** On a bus where every transfer gets its address message through and never its read, a read of
      any length reports success and leaves the caller's bytes as they were. */
  method StaleRead(regs: RegFile, reg: u16, p: array<u8>, junk: int) returns (ret: int)
    requires 0 < p.Length < 0x8000_0000
    modifies p
    ensures ret == 1 && p[..] == old(p[..])
  {
    var bus := new Bus(regs, (_: nat) => 1);
    ghost var done;
    ret, done := bus.RdP8(reg, p, junk);
  }

  // ------------------------------------------------------------------- when a call succeeds

  /** The length the loops see: one of 2^31 or more is negative in an int. */
  function Seen(n: nat): nat { if ToInt(n) < 0 then 0 else n }

  /** How many of `n` items `k` transfers carry, `size` at a time. */
  function Carried(n: nat, size: nat, k: nat): (r: nat)
    ensures r <= n
  {
    if k == 0 then 0
    else
      var c := Carried(n, size, k - 1);
      if n - c > size then c + size else n
  }

  /** The messages that transfer `k` has to get through for the call to go on: with `batch` one for
      each item, and otherwise none, as only an error stops it. */
  function Need(n: nat, size: nat, k: nat, batch: bool): int {
    if batch then Carried(n, size, k + 1) - Carried(n, size, k) else 0
  }

  /** The transfers from `from` to `to` got everything through. */
  predicate Through(results: nat -> Result, from: nat, to: nat, n: nat, size: nat, batch: bool) {
    forall k {:trigger results(k)} :: from <= k < to ==> results(k) >= Need(n, size, k - from, batch)
  }

  /** No transfer returned an error. */
  predicate NoneNegative(results: nat -> Result, from: nat, to: nat) {
    forall k {:trigger results(k)} :: from <= k < to ==> results(k) >= 0
  }

  /** The first transfers of a series over `n` items, all through, `sent` items carried. */
  predicate Going(results: nat -> Result, from: nat, to: nat, n: nat, size: nat, batch: bool, sent: nat) {
    && from <= to && sent == Carried(n, size, to - from) && Through(results, from, to, n, size, batch)
    && (from < to ==> Carried(n, size, to - 1 - from) < n)
  }

  /** How a series of transfers over `n` items went: as many as carry them all, the call being `ok`,
      or up to the first that fell short, with the chunks before and what that one got through. */
  predicate Series(results: nat -> Result, from: nat, to: nat, n: nat, size: nat, batch: bool, ok: bool, done: nat) {
    if ok then done == n && Going(results, from, to, n, size, batch, n)
    else
      && from < to && Carried(n, size, to - 1 - from) < n
      && Going(results, from, to - 1, n, size, batch, Carried(n, size, to - 1 - from))
      && results(to - 1) < Need(n, size, to - 1 - from, batch)
      && done == Carried(n, size, to - 1 - from) + (if results(to - 1) < 0 then 0 else results(to - 1))
  }

  lemma {:induction false} CarriedGrows(n: nat, size: nat, j: nat, k: nat)
    requires j <= k
    ensures Carried(n, size, j) <= Carried(n, size, k)
    ensures Carried(n, size, j) < n ==> Carried(n, size, j) == size * j
  {
    if j < k {
      CarriedGrows(n, size, j, k - 1);
    } else if j > 0 {
      CarriedGrows(n, size, j - 1, j - 1);
      assert size * j == size * (j - 1) + size;
    }
  }

  /** Whether a series succeeds is decided by the results the bus would give: every transfer needed
      to carry the items must get its messages through. */
  lemma SeriesIff(results: nat -> Result, from: nat, to: nat, n: nat, size: nat, batch: bool, ok: bool, done: nat)
    requires Series(results, from, to, n, size, batch, ok, done)
    ensures ok <==>
      forall k: nat :: Carried(n, size, k) < n ==> results(from + k) >= Need(n, size, k, batch)
  {
    if ok {
      forall k: nat | Carried(n, size, k) < n ensures results(from + k) >= Need(n, size, k, batch) {
        if k >= to - from { CarriedGrows(n, size, to - from, k); }
      }
    }
  }

  lemma Begin(results: nat -> Result, from: nat, n: nat, size: nat, batch: bool)
    ensures Going(results, from, from, n, size, batch, 0)
  {
  }

  /** One more transfer. */
  lemma Turn(results: nat -> Result, from: nat, calls: nat, n: nat, size: nat, batch: bool, sent: nat, cnt: nat)
    requires Going(results, from, calls, n, size, batch, sent) && sent < n
    requires cnt == if n - sent > size then size else n - sent
    ensures from <= calls && sent == Carried(n, size, calls - from)
    ensures var r := results(calls);
      if r >= (if batch then cnt else 0) then Going(results, from, calls + 1, n, size, batch, sent + cnt)
      else
        && Series(results, from, calls + 1, n, size, batch, false, sent + if r < 0 then 0 else r)
        && !Through(results, from, calls + 1, n, size, batch)
        && (!batch ==> !NoneNegative(results, from, calls + 1) && sent == size * (calls - from))
  {
    CarriedGrows(n, size, calls - from, calls - from);
  }

  lemma Finish(results: nat -> Result, from: nat, calls: nat, n: nat, size: nat, batch: bool)
    requires Going(results, from, calls, n, size, batch, n)
    ensures Series(results, from, calls, n, size, batch, true, n) && Through(results, from, calls, n, size, batch)
    ensures !batch ==> NoneNegative(results, from, calls)
  {
  }

  /** A message of the wire: address, then data. */
  function Frame(at: u16, chunk: seq<u8>): seq<u8> { [at / 256, at % 256] + chunk }

  predicate Fits(msgs: seq<seq<u8>>) { forall k :: 0 <= k < |msgs| ==> |msgs[k]| <= MAX_BUF_SIZE }

  lemma NoBytes(f: RegFile, reg: u16)
    ensures WriteBytes(f, reg, []) == DeliverAll(f, []) == f && Fits([]) && At(reg, 0) == reg
  {
  }

  /** The values transfer `k` carries. */
  function Part<T>(vals: seq<T>, size: nat, k: nat): seq<T> {
    var from, to := Carried(|vals|, size, k), Carried(|vals|, size, k + 1);
    if from <= to then vals[from..to] else []
  }

  lemma PartIs<T>(vals: seq<T>, size: nat, k: nat, sent: nat, cnt: nat)
    requires sent == Carried(|vals|, size, k) && sent < |vals|
    requires cnt == if |vals| - sent > size then size else |vals| - sent
    ensures Part(vals, size, k) == vals[sent..sent + cnt]
  {
  }

  /** Message `k` of a sequential write. */
  function SeqMsg(reg: u16, vals: seq<u8>, k: nat): seq<u8> {
    Frame(At(reg, Carried(|vals|, MAX_VAL_NUM_U8, k)), Part(vals, MAX_VAL_NUM_U8, k))
  }

  /** The messages, one to a transfer, that got through. */
  function Got(results: nat -> Result, from: nat, msgs: seq<seq<u8>>): seq<seq<u8>> {
    if msgs == [] then []
    else
      var n := |msgs| - 1;
      Got(results, from, msgs[..n]) + (if results(from + n) >= 1 then [msgs[n]] else [])
  }

  predicate Landed(results: nat -> Result, from: nat, n: nat) {
    forall k {:trigger results(k)} :: from <= k < from + n ==> results(k) >= 1
  }

  /** Of `msgs`, those whose transfer got them through have been logged and written. */
  predicate Arrived(results: nat -> Result, from: nat, msgs: seq<seq<u8>>, log: seq<seq<u8>>, log': seq<seq<u8>>,
                    f: RegFile, f': RegFile)
  {
    log' == log + Got(results, from, msgs) && f' == DeliverAll(f, Got(results, from, msgs))
  }

  lemma NoneArrived(results: nat -> Result, from: nat, log: seq<seq<u8>>, f: RegFile)
    ensures Arrived(results, from, [], log, log, f, f)
  {
  }

  lemma NextArrives(results: nat -> Result, from: nat, msgs: seq<seq<u8>>, log: seq<seq<u8>>, log1: seq<seq<u8>>,
                    f: RegFile, f1: RegFile, m: seq<u8>, log2: seq<seq<u8>>, f2: RegFile)
    requires Arrived(results, from, msgs, log, log1, f, f1)
    requires if results(from + |msgs|) < 1 then f2 == f1 && log2 == log1 else f2 == Deliver(f1, m) && log2 == log1 + [m]
    ensures Arrived(results, from, msgs + [m], log, log2, f, f2)
  {
    hide Deliver;
    assert (msgs + [m])[..|msgs|] == msgs;
    var got := Got(results, from, msgs);
    assert Got(results, from, msgs + [m]) == if results(from + |msgs|) < 1 then got + [] else got + [m];
    assert (got + [m])[..|got|] == got && got + [] == got && log + (got + [m]) == (log + got) + [m];
  }

  lemma {:induction false} GotAll(results: nat -> Result, from: nat, msgs: seq<seq<u8>>)
    ensures |Got(results, from, msgs)| <= |msgs|
    ensures |Got(results, from, msgs)| == |msgs| <==> Landed(results, from, |msgs|)
    ensures Landed(results, from, |msgs|) ==> Got(results, from, msgs) == msgs
  {
    if msgs != [] {
      var n := |msgs| - 1;
      GotAll(results, from, msgs[..n]);
      assert msgs == msgs[..n] + [msgs[n]];
      assert Landed(results, from, |msgs|) <==> Landed(results, from, n) && results(from + n) >= 1;
    }
  }

  lemma ArrivedAll(results: nat -> Result, from: nat, msgs: seq<seq<u8>>, log: seq<seq<u8>>, log': seq<seq<u8>>,
                   f: RegFile, f': RegFile)
    requires Arrived(results, from, msgs, log, log', f, f')
    ensures Landed(results, from, |msgs|) <==> log' == log + msgs
    ensures Landed(results, from, |msgs|) ==> f' == DeliverAll(f, msgs)
  {
    GotAll(results, from, msgs);
  }

  /** Writing the next chunk at the wrapped register continues the run. */
  lemma NextChunk(f: RegFile, reg: u16, vals: seq<u8>, sent: nat, cnt: nat)
    requires sent + cnt <= |vals|
    ensures WriteBytes(WriteBytes(f, reg, vals[..sent]), At(reg, sent), vals[sent..sent + cnt])
         == WriteBytes(f, reg, vals[..sent + cnt])
    ensures (At(reg, sent) + cnt) % REGS == At(reg, sent + cnt)
  {
    hide WriteBytes;
    assert vals[..sent + cnt] == vals[..sent] + vals[sent..sent + cnt];
    WriteConcat(f, reg, vals[..sent], vals[sent..sent + cnt]);
    WriteWraps(WriteBytes(f, reg, vals[..sent]), reg + sent, vals[sent..sent + cnt]);
    ModShift(reg + sent, cnt);
  }

  lemma NextMessage(f: RegFile, reg: u16, vals: seq<u8>, sent: nat, cnt: nat, msgs: seq<seq<u8>>)
    requires sent < |vals| && cnt == if |vals| - sent > MAX_VAL_NUM_U8 then MAX_VAL_NUM_U8 else |vals| - sent
    requires sent == Carried(|vals|, MAX_VAL_NUM_U8, |msgs|) && Fits(msgs)
    requires DeliverAll(f, msgs) == WriteBytes(f, reg, vals[..sent])
    ensures var m := Frame(At(reg, sent), vals[sent..sent + cnt]);
      && m == SeqMsg(reg, vals, |msgs|) && Fits(msgs + [m])
      && DeliverAll(f, msgs + [m]) == WriteBytes(f, reg, vals[..sent + cnt])
    ensures (At(reg, sent) + cnt) % REGS == At(reg, sent + cnt)
  {
    hide WriteBytes, At, Carried, Deliver, Frame;
    var m := Frame(At(reg, sent), vals[sent..sent + cnt]);
    PartIs(vals, MAX_VAL_NUM_U8, |msgs|, sent, cnt);
    NextChunk(f, reg, vals, sent, cnt);
    FrameDelivers(DeliverAll(f, msgs), At(reg, sent), vals[sent..sent + cnt]);
    assert (msgs + [m])[..|msgs|] == msgs;
  }

  lemma FrameDelivers(f: RegFile, at: u16, chunk: seq<u8>)
    ensures |Frame(at, chunk)| == 2 + |chunk| && Deliver(f, Frame(at, chunk)) == WriteBytes(f, at, chunk)
  {
    hide WriteBytes;
    assert Frame(at, chunk)[2..] == chunk;
  }

  lemma OneMessage(f: RegFile, msg: seq<u8>)
    ensures DeliverAll(f, [msg][..1]) == Deliver(f, msg) && DeliverAll(f, [msg][..0]) == f
  {
    assert [msg][..1] == [msg] && [msg][..0] == [];
  }

  // ----------------------------------------------------------------- one port, registers

  function Payload(msgs: seq<seq<u8>>): seq<u8> {
    if msgs == [] then []
    else Payload(msgs[..|msgs| - 1]) + (if |msgs[|msgs| - 1]| < 2 then [] else msgs[|msgs| - 1][2..])
  }

  /** Messages all addressed to `reg`, that fit the buffer and together carry `data`. */
  predicate SamePort(msgs: seq<seq<u8>>, reg: u16, data: seq<u8>) {
    && Payload(msgs) == data && Fits(msgs)
    && forall k :: 0 <= k < |msgs| ==> |msgs[k]| >= 2 && msgs[k][..2] == [reg / 256, reg % 256]
  }

  lemma NoMessages(f: RegFile, reg: u16)
    ensures SamePort([], reg, []) && DeliverAll(f, []) == f
  {
  }

  lemma PortSnoc(msgs: seq<seq<u8>>, reg: u16, data: seq<u8>, chunk: seq<u8>)
    requires SamePort(msgs, reg, data) && |chunk| <= MAX_VAL_NUM_U8
    ensures SamePort(msgs + [Frame(reg, chunk)], reg, data + chunk)
  {
    var m := Frame(reg, chunk);
    assert (msgs + [m])[..|msgs|] == msgs && m[2..] == chunk;
  }

  function BigEndian(words: seq<u16>): seq<u8> {
    if words == [] then []
    else BigEndian(words[..|words| - 1]) + [words[|words| - 1] / 256, words[|words| - 1] % 256]
  }

  lemma NoWords()
    ensures BigEndian([]) == []
  {
  }

  lemma BigEndianSnoc(a: seq<u16>, w: u16)
    ensures BigEndian(a + [w]) == BigEndian(a) + [w / 256, w % 256]
  {
    assert (a + [w])[..|a|] == a;
  }

  lemma {:induction false} BigEndianConcat(a: seq<u16>, b: seq<u16>)
    ensures BigEndian(a + b) == BigEndian(a) + BigEndian(b)
  {
    if b == [] {
      assert a + b == a;
    } else {
      assert (a + b)[..|a + b| - 1] == a + b[..|b| - 1];
      BigEndianConcat(a, b[..|b| - 1]);
    }
  }

  /** As many messages as fit the buffer. */
  function MaxMsgs(wide: bool): (n: nat)
    ensures n == (if wide then 63 else 85) && n * (if wide then 4 else 3) <= MAX_BUF_SIZE
  {
    if wide then MAX_MSG_NUM_U16 else MAX_MSG_NUM_U8
  }

  function Value(v: u16, wide: bool): seq<u8> { if wide then [v / 256, v % 256] else [v % 256] }

  /** Pair `k` of the list as a message. */
  function RegMsg(list: seq<u16>, k: nat, wide: bool): seq<u8>
    requires 2 * k + 1 < |list|
  {
    Frame(list[2 * k], Value(list[2 * k + 1], wide))
  }

  function RegMsgs(list: seq<u16>, from: nat, n: nat, wide: bool): (r: seq<seq<u8>>)
    requires 2 * (from + n) <= |list|
    ensures |r| == n
  {
    seq(n, i requires 0 <= i < n => RegMsg(list, from + i, wide))
  }

  /** One register write after the other. */
  function WriteRegs(f: RegFile, list: seq<u16>, n: nat, wide: bool): RegFile
    requires 2 * n <= |list|
  {
    if n == 0 then f
    else WriteBytes(WriteRegs(f, list, n - 1, wide), list[2 * n - 2], Value(list[2 * n - 1], wide))
  }

  /** What goes over the wire for a pair: the register's two bytes, high byte first, then the value's
      two, high byte first, or its low byte alone. */
  lemma RegOnTheWire(list: seq<u16>, k: nat, wide: bool)
    requires 2 * k + 1 < |list|
    ensures var reg, val := list[2 * k], list[2 * k + 1];
      RegMsg(list, k, wide) ==
        if wide then [reg / 256, reg % 256, val / 256, val % 256] else [reg / 256, reg % 256, val % 256]
  {
  }

  /** A sequential write hands over message `k` with the address 253 `k` values on, high byte first, and
      then up to 253 values; words go high byte first too. */
  lemma SeqOnTheWire(reg: u16, vals: seq<u8>, k: nat)
    requires 253 * k < |vals|
    ensures var at, n := (reg + 253 * k) % 0x1_0000, if 253 * (k + 1) <= |vals| then 253 else |vals| - 253 * k;
      SeqMsg(reg, vals, k) == [at / 256, at % 256] + vals[253 * k..253 * k + n]
  {
    CarriedIs(|vals|, 253, k);
    CarriedIs(|vals|, 253, k + 1);
  }

  lemma {:induction false} CarriedIs(n: nat, size: nat, k: nat)
    ensures Carried(n, size, k) == if size * k <= n then size * k else n
  {
    if k > 0 {
      CarriedIs(n, size, k - 1);
      assert size * k == size * (k - 1) + size;
    }
  }

  lemma {:induction false} WordsOnTheWire(words: seq<u16>, i: nat)
    requires i < |words|
    ensures |BigEndian(words)| == 2 * |words|
    ensures BigEndian(words)[2 * i] == words[i] / 256 && BigEndian(words)[2 * i + 1] == words[i] % 256
  {
    if i < |words| - 1 {
      WordsOnTheWire(words[..|words| - 1], i);
    } else if i > 0 {
      WordsOnTheWire(words[..i], i - 1);
    }
  }

  lemma NoRegs(f: RegFile, list: seq<u16>, wide: bool)
    ensures WriteRegs(f, list, 0, wide) == f && RegMsgs(list, 0, 0, wide) == []
  {
  }

  lemma RegMsgsJoin(list: seq<u16>, from: nat, mid: nat, cnt: nat, wide: bool)
    requires 2 * (from + mid + cnt) <= |list|
    ensures RegMsgs(list, from, mid + cnt, wide)[..mid] == RegMsgs(list, from, mid, wide)
    ensures RegMsgs(list, from, mid, wide) + RegMsgs(list, from + mid, cnt, wide)
         == RegMsgs(list, from, mid + cnt, wide)
  {
    hide RegMsg;
  }

  lemma {:induction false} DeliverRegs(f: RegFile, list: seq<u16>, from: nat, got: nat, wide: bool)
    requires 2 * (from + got) <= |list|
    ensures DeliverAll(WriteRegs(f, list, from, wide), RegMsgs(list, from, got, wide))
         == WriteRegs(f, list, from + got, wide)
    decreases got
  {
    hide WriteBytes, Value;
    if got > 0 {
      DeliverRegs(f, list, from, got - 1, wide);
      RegMsgsJoin(list, from, got - 1, 1, wide);
      var m := RegMsg(list, from + got - 1, wide);
      assert m[2..] == Value(list[2 * (from + got) - 1], wide);
    }
  }

  lemma BatchWrites(f: RegFile, list: seq<u16>, from: nat, cnt: nat, got: nat, wide: bool)
    requires got <= cnt && 2 * (from + cnt) <= |list|
    ensures RegMsgs(list, from, cnt, wide)[..got] == RegMsgs(list, from, got, wide)
    ensures DeliverAll(WriteRegs(f, list, from, wide), RegMsgs(list, from, got, wide))
         == WriteRegs(f, list, from + got, wide)
    ensures RegMsgs(list, 0, from, wide) + RegMsgs(list, from, got, wide) == RegMsgs(list, 0, from + got, wide)
  {
    hide RegMsgs, DeliverAll, WriteRegs;
    RegMsgsJoin(list, from, got, cnt - got, wide);
    RegMsgsJoin(list, 0, from, got, wide);
    DeliverRegs(f, list, from, got, wide);
  }

  lemma ChunkIndex(k: nat, recv: nat, cnt: nat)
    requires cnt <= MAX_VAL_NUM_U8 && recv == MAX_VAL_NUM_U8 * k
    ensures forall i :: recv <= i < recv + cnt ==> i / MAX_VAL_NUM_U8 == k
  {
  }
}
