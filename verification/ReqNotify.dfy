/** When a request is notified: the record list that `imgsys_scp_handler` fills and
    `imgsys_mdp_cb_func` counts down, for grouped requests on a streaming pipe. */
module ReqNotify {
  import opened Options
  /** `reqfd_cbinfo_t` */
  datatype Record = Record(fd: int, exp: int, cur: int)

  // ------------------------------------------------------------------- the record list

  /** One callback of descriptor `fd`: every record of it counts one up, and goes when full. */
  function Bump(r: Record): Record { r.(cur := r.cur + 1) }

  function Counted(recs: seq<Record>, fd: int): seq<Record> {
    if recs == [] then []
    else
      var r := recs[|recs| - 1];
      Counted(recs[..|recs| - 1], fd) +
      (if r.fd != fd then [r] else if r.cur + 1 == r.exp then [] else [Bump(r)])
  }

  /** Some record of `fd` reaches its expected count. */
  predicate Completes(recs: seq<Record>, fd: int) {
    exists k :: 0 <= k < |recs| && recs[k].fd == fd && recs[k].cur + 1 == recs[k].exp
  }

  class RecordList {
    var recs: seq<Record>

    constructor ()
      ensures recs == []
    {
      recs := [];
    }

    /** The first package of a request. */
    method Create(fd: int, exp: int)
      modifies this
      ensures recs == if exp > 0 then old(recs) + [Record(fd, exp, 0)] else old(recs)
    {
      if exp > 0 { recs := recs + [Record(fd, exp, 0)]; }
    }

    /** The list walk of a callback. */
    method Count(fd: int) returns (canNotify: bool)
      modifies this
      ensures recs == Counted(old(recs), fd) && canNotify == Completes(old(recs), fd)
    {
      hide Counted, Completes;
      canNotify := false;
      var i := 0;
      ghost var k, all, done := 0, recs, [];
      NoneCounted(fd);
      while i < |recs|
        invariant 0 <= k <= |all| && done == Counted(all[..k], fd) && i == |done|
        invariant recs == done + all[k..]
        invariant canNotify == Completes(all[..k], fd)
        decreases |recs| - i
      {
        var r := recs[i];
        assert r == all[k..][0] == all[k];
        CountedSnoc(all, k, fd);
        CompletesSnoc(all, k, fd);
        Splice(done, all, k, Bump(r));
        Splice(done, all, k, r);
        if r.fd == fd {
          recs := recs[i := Bump(r)];
          if recs[i].cur == recs[i].exp {
            canNotify := true;
            recs := recs[..i] + recs[i + 1..];
          } else {
            done := done + [Bump(r)];
            i := i + 1;
          }
        } else {
          done := done + [r];
          i := i + 1;
        }
        k := k + 1;
      }
      assert all[..k] == all;
    }
  }

  /** Replacing, or dropping, the record between what is done and what is not. */
  lemma Splice(done: seq<Record>, all: seq<Record>, k: nat, x: Record)
    requires k < |all|
    ensures var s := (done + all[k..])[|done| := x];
      s == (done + [x]) + all[k + 1..] && s[..|done|] + s[|done| + 1..] == done + all[k + 1..]
  {
  }

  lemma NoneCounted(fd: int)
    ensures Counted([], fd) == [] && !Completes([], fd)
  {
  }

  lemma CountedSnoc(recs: seq<Record>, k: nat, fd: int)
    requires k < |recs|
    ensures Counted(recs[..k + 1], fd) == Counted(recs[..k], fd) +
      (if recs[k].fd != fd then [recs[k]] else if recs[k].cur + 1 == recs[k].exp then [] else [Bump(recs[k])])
  {
    assert recs[..k + 1][..k] == recs[..k];
  }

  lemma CompletesSnoc(recs: seq<Record>, k: nat, fd: int)
    requires k < |recs|
    ensures Completes(recs[..k + 1], fd)
      <==> Completes(recs[..k], fd) || (recs[k].fd == fd && recs[k].cur + 1 == recs[k].exp)
  {
    if Completes(recs[..k], fd) {
      var j :| 0 <= j < k && recs[..k][j].fd == fd && recs[..k][j].cur + 1 == recs[..k][j].exp;
      assert recs[..k + 1][j] == recs[..k][j];
    }
    if recs[k].fd == fd && recs[k].cur + 1 == recs[k].exp {
      assert recs[..k + 1][k] == recs[k];
    }
    if Completes(recs[..k + 1], fd) {
      var j :| 0 <= j < k + 1 && recs[..k + 1][j].fd == fd && recs[..k + 1][j].cur + 1 == recs[..k + 1][j].exp;
      if j < k { assert recs[..k][j] == recs[..k + 1][j]; }
    }
  }

  /** The record of `fd`, when descriptors are distinct. */
  function Find(recs: seq<Record>, fd: int): Option<Record> {
    if recs == [] then None
    else if recs[|recs| - 1].fd == fd then Some(recs[|recs| - 1])
    else Find(recs[..|recs| - 1], fd)
  }

  predicate OnePerFd(recs: seq<Record>) { forall i, j :: 0 <= i < j < |recs| ==> recs[i].fd != recs[j].fd }

  function AfterCount(o: Option<Record>): Option<Record> {
    if o.None? || o.value.cur + 1 == o.value.exp then None else Some(Bump(o.value))
  }

  lemma {:induction false} FindIsIn(recs: seq<Record>, fd: int)
    ensures Find(recs, fd).None? <==> forall k :: 0 <= k < |recs| ==> recs[k].fd != fd
    ensures Find(recs, fd).Some? ==> Find(recs, fd).value in recs && Find(recs, fd).value.fd == fd
  {
    if recs != [] {
      FindIsIn(recs[..|recs| - 1], fd);
      assert forall k :: 0 <= k < |recs| - 1 ==> recs[k] == recs[..|recs| - 1][k];
    }
  }

  lemma FindSnoc(recs: seq<Record>, r: Record, d: int)
    ensures Find(recs + [r], d) == if r.fd == d then Some(r) else Find(recs, d)
  {
    assert (recs + [r])[..|recs|] == recs;
  }

  lemma {:induction false} CountedFind(recs: seq<Record>, fd: int, d: int)
    requires OnePerFd(recs)
    ensures Find(Counted(recs, fd), d) == if d == fd then AfterCount(Find(recs, fd)) else Find(recs, d)
  {
    NoneCounted(fd);
    if recs != [] {
      var n := |recs| - 1;
      var init, r := recs[..n], recs[n];
      assert recs == init + [r] && recs[..n + 1] == recs;
      FindIsIn(init, r.fd);
      assert OnePerFd(init);
      hide Counted, Find, OnePerFd;
      CountedFind(init, fd, d);
      CountedSnoc(recs, n, fd);
      var c := Counted(init, fd);
      assert c + [] == c;
      FindSnoc(init, r, d);
      FindSnoc(init, r, fd);
      FindSnoc(c, r, d);
      FindSnoc(c, Bump(r), d);
    }
  }

  lemma {:induction false} CountedOnePerFd(recs: seq<Record>, fd: int)
    requires OnePerFd(recs)
    ensures OnePerFd(Counted(recs, fd))
  {
    if recs != [] {
      var n := |recs| - 1;
      assert OnePerFd(recs[..n]);
      CountedOnePerFd(recs[..n], fd);
      CountedFind(recs[..n], fd, recs[n].fd);
      FindIsIn(recs[..n], recs[n].fd);
      FindIsIn(Counted(recs[..n], fd), recs[n].fd);
    }
  }

  lemma {:induction false} CompletesFind(recs: seq<Record>, fd: int)
    requires OnePerFd(recs)
    ensures Completes(recs, fd) <==>
      Find(recs, fd).Some? && Find(recs, fd).value.cur + 1 == Find(recs, fd).value.exp
  {
    if recs != [] {
      var n := |recs| - 1;
      assert OnePerFd(recs[..n]) && recs[..n + 1] == recs;
      CompletesFind(recs[..n], fd);
      CompletesSnoc(recs, n, fd);
      FindIsIn(recs[..n], recs[n].fd);
    }
  }

  /** With one record per descriptor, the list is a map: a callback counts its own record,
      removes it when full, and leaves the others. */
  lemma CountIsLocal(recs: seq<Record>, fd: int)
    requires OnePerFd(recs)
    ensures OnePerFd(Counted(recs, fd))
    ensures forall d :: Find(Counted(recs, fd), d) == if d == fd then AfterCount(Find(recs, fd)) else Find(recs, d)
    ensures Completes(recs, fd) <==>
      Find(recs, fd).Some? && Find(recs, fd).value.cur + 1 == Find(recs, fd).value.exp
  {
    hide Counted, Completes, OnePerFd, Find;
    CountedOnePerFd(recs, fd);
    CompletesFind(recs, fd);
    forall d ensures Find(Counted(recs, fd), d) == if d == fd then AfterCount(Find(recs, fd)) else Find(recs, d) {
      CountedFind(recs, fd, d);
    }
  }

  // ------------------------------------------------------------------- the whole system

  datatype Stage = Sent | InGce | Notified

  /** A request: what it expects, how many callbacks it has had, and at which of them it was
      notified. */
  datatype Info = Info(fd: int, exp: int, stage: Stage, cbs: nat, fired: seq<nat>)

  datatype State = State(recs: seq<Record>, composing: int, reqs: map<nat, Info>)

  datatype Action = Send(id: nat, fd: int, exp: int) | FirstPackage(id: nat) | Callback(id: nat)

  predicate InFlight(i: Info) { i.stage != Notified }

  predicate FdFree(s: State, fd: int) { forall id :: id in s.reqs && InFlight(s.reqs[id]) ==> s.reqs[id].fd != fd }

  /** Requests in flight have distinct descriptors, and no callback of a finished request is
      left once its descriptor is in use again. */
  predicate Enabled(s: State, a: Action) {
    match a
    case Send(id, fd, exp) => id !in s.reqs && FdFree(s, fd)
    case FirstPackage(id) => id in s.reqs && s.reqs[id].stage == Sent
    case Callback(id) =>
      id in s.reqs && (s.reqs[id].stage == InGce || (s.reqs[id].stage == Notified && FdFree(s, s.reqs[id].fd)))
  }

  function Apply(s: State, a: Action): State
    requires Enabled(s, a)
  {
    match a
    case Send(id, fd, exp) =>
      s.(composing := s.composing + 1, reqs := s.reqs[id := Info(fd, exp, Sent, 0, [])])
    case FirstPackage(id) =>
      var i := s.reqs[id];
      s.(recs := if i.exp > 0 then s.recs + [Record(i.fd, i.exp, 0)] else s.recs,
         reqs := s.reqs[id := i.(stage := InGce)])
    case Callback(id) =>
      var i := s.reqs[id];
      var done := Completes(s.recs, i.fd);
      State(Counted(s.recs, i.fd),
            if done then s.composing - 1 else s.composing,
            s.reqs[id := i.(cbs := i.cbs + 1,
                            stage := if done then Notified else i.stage,
                            fired := if done then i.fired + [i.cbs + 1] else i.fired)])
  }

  predicate Init(s: State) { s == State([], 0, map[]) }

  predicate Run(ss: seq<State>, acts: seq<Action>) {
    && |ss| == |acts| + 1 && Init(ss[0])
    && forall k :: 0 <= k < |acts| ==> Enabled(ss[k], acts[k]) && ss[k + 1] == Apply(ss[k], acts[k])
  }

  /** The request has a record. */
  predicate Counting(i: Info) { i.stage == InGce && i.exp > 0 }

  /** Notified once, at exactly the expected callback. */
  predicate InfoOk(i: Info) {
    && (i.stage == Sent ==> i.cbs == 0)
    && i.fired == (if i.exp > 0 && i.cbs >= i.exp then [i.exp] else [])
    && (i.stage == Notified <==> i.fired != [])
  }

  predicate Owns(reqs: map<nat, Info>, id: nat, fd: int) { id in reqs && Counting(reqs[id]) && reqs[id].fd == fd }

  /** The records are those of the requests being counted, each at its count. */
  ghost predicate RecordsOk(recs: seq<Record>, reqs: map<nat, Info>) {
    && OnePerFd(recs)
    && (forall id, fd :: Owns(reqs, id, fd) ==> Find(recs, fd) == Some(Record(fd, reqs[id].exp, reqs[id].cbs)))
    && (forall fd :: Find(recs, fd).Some? ==> exists id :: Owns(reqs, id, fd))
  }

  predicate FdsDistinct(s: State) {
    forall id, jd :: id in s.reqs && jd in s.reqs && id != jd && InFlight(s.reqs[id]) && InFlight(s.reqs[jd])
      ==> s.reqs[id].fd != s.reqs[jd].fd
  }

  function Unnotified(reqs: map<nat, Info>): set<nat> { set id | id in reqs && reqs[id].fired == [] }

  ghost predicate Inv(s: State) {
    && (forall id :: id in s.reqs ==> InfoOk(s.reqs[id]))
    && RecordsOk(s.recs, s.reqs) && FdsDistinct(s)
    && s.composing == |Unnotified(s.reqs)|
  }

  lemma SendKeeps(s: State, id: nat, fd: int, exp: int)
    requires Inv(s) && Enabled(s, Send(id, fd, exp))
    ensures Inv(Apply(s, Send(id, fd, exp)))
  {
    hide RecordsOk, Counting;
    var t := Apply(s, Send(id, fd, exp));
    SendRecords(s, id, fd, exp);
    hide FdsDistinct;
    SendFds(s, id, fd, exp);
    assert Unnotified(t.reqs) == Unnotified(s.reqs) + {id};
  }

  lemma SendRecords(s: State, id: nat, fd: int, exp: int)
    requires RecordsOk(s.recs, s.reqs) && Enabled(s, Send(id, fd, exp))
    ensures RecordsOk(s.recs, Apply(s, Send(id, fd, exp)).reqs)
  {
    hide RecordsOk;
    SameOwners(s.recs, s.reqs, Apply(s, Send(id, fd, exp)).reqs);
  }

  lemma SendFds(s: State, id: nat, fd: int, exp: int)
    requires FdsDistinct(s) && Enabled(s, Send(id, fd, exp))
    ensures FdsDistinct(Apply(s, Send(id, fd, exp)))
  {
  }

  lemma SameOwners(recs: seq<Record>, reqs: map<nat, Info>, reqs': map<nat, Info>)
    requires RecordsOk(recs, reqs)
    requires forall id :: id in reqs && Counting(reqs[id]) ==> id in reqs' && reqs'[id] == reqs[id]
    requires forall id :: id in reqs' && Counting(reqs'[id]) ==> id in reqs && reqs'[id] == reqs[id]
    ensures RecordsOk(recs, reqs')
  {
    forall fd | Find(recs, fd).Some? ensures exists id :: Owns(reqs', id, fd) {
      var id :| Owns(reqs, id, fd);
      assert Owns(reqs', id, fd);
    }
    forall id, fd | Owns(reqs', id, fd)
      ensures Find(recs, fd) == Some(Record(fd, reqs'[id].exp, reqs'[id].cbs))
    {
      assert Owns(reqs, id, fd);
    }
  }

  lemma PackageKeeps(s: State, id: nat)
    requires Inv(s) && Enabled(s, FirstPackage(id))
    ensures Inv(Apply(s, FirstPackage(id)))
  {
    var t := Apply(s, FirstPackage(id));
    if s.reqs[id].exp > 0 {
      PackageRecords(s, id);
    } else {
      SameOwners(s.recs, s.reqs, t.reqs);
    }
    hide RecordsOk;
    assert Unnotified(t.reqs) == Unnotified(s.reqs);
  }

  lemma PackageRecords(s: State, id: nat)
    requires RecordsOk(s.recs, s.reqs) && FdsDistinct(s) && Enabled(s, FirstPackage(id))
    requires s.reqs[id].cbs == 0 && s.reqs[id].exp > 0
    ensures RecordsOk(Apply(s, FirstPackage(id)).recs, Apply(s, FirstPackage(id)).reqs)
  {
    var t := Apply(s, FirstPackage(id));
    var i := s.reqs[id];
    var r := Record(i.fd, i.exp, 0);
    FindIsIn(s.recs, i.fd);
    hide Find;
    forall d ensures Find(t.recs, d) == if i.fd == d then Some(r) else Find(s.recs, d) {
      FindSnoc(s.recs, r, d);
    }
    assert Owns(t.reqs, id, i.fd);
    forall d | Find(t.recs, d).Some? && d != i.fd ensures exists jd :: Owns(t.reqs, jd, d) {
      var jd :| Owns(s.reqs, jd, d);
      assert Owns(t.reqs, jd, d);
    }
    forall jd, d | Owns(t.reqs, jd, d)
      ensures Find(t.recs, d) == Some(Record(d, t.reqs[jd].exp, t.reqs[jd].cbs))
    {
      if jd != id { assert Owns(s.reqs, jd, d); }
    }
  }

  lemma CallbackKeeps(s: State, id: nat)
    requires Inv(s) && Enabled(s, Callback(id))
    ensures Inv(Apply(s, Callback(id)))
  {
    hide Counted, Find, Completes, OnePerFd, RecordsOk;
    var t := Apply(s, Callback(id));
    CallbackCounts(s, id);
    CallbackRecords(s, id);
    hide *;
    CallbackUnnotified(s, id);
    CallbackInfos(s, id);
  }

  /** The count completes exactly at the expected callback. */
  lemma CallbackCounts(s: State, id: nat)
    requires RecordsOk(s.recs, s.reqs) && FdsDistinct(s) && Enabled(s, Callback(id))
    ensures Completes(s.recs, s.reqs[id].fd) <==> Counting(s.reqs[id]) && s.reqs[id].cbs + 1 == s.reqs[id].exp
    ensures !Counting(s.reqs[id]) ==> Find(s.recs, s.reqs[id].fd).None?
  {
    hide Counted, Find, Completes, OnePerFd;
    var i := s.reqs[id];
    CountIsLocal(s.recs, i.fd);
    if Counting(i) {
      assert Owns(s.reqs, id, i.fd);
    } else {
      assert forall jd :: !Owns(s.reqs, jd, i.fd);
    }
  }

  lemma CallbackRecords(s: State, id: nat)
    requires RecordsOk(s.recs, s.reqs) && FdsDistinct(s) && Enabled(s, Callback(id)) && InfoOk(s.reqs[id])
    ensures RecordsOk(Apply(s, Callback(id)).recs, Apply(s, Callback(id)).reqs)
  {
    hide Counted, Find, Completes, OnePerFd;
    var t := Apply(s, Callback(id));
    var i := s.reqs[id];
    CountIsLocal(s.recs, i.fd);
    CallbackCounts(s, id);
    if Counting(i) { assert Owns(s.reqs, id, i.fd); }
    forall d | Find(t.recs, d).Some? ensures exists jd :: Owns(t.reqs, jd, d) {
      var jd :| Owns(s.reqs, jd, d);
      assert Owns(t.reqs, jd, d);
    }
    forall jd, d | Owns(t.reqs, jd, d)
      ensures Find(t.recs, d) == Some(Record(d, t.reqs[jd].exp, t.reqs[jd].cbs))
    {
      if jd != id { assert Owns(s.reqs, jd, d); }
    }
  }

  lemma CallbackUnnotified(s: State, id: nat)
    requires Inv(s) && Enabled(s, Callback(id))
    requires Completes(s.recs, s.reqs[id].fd) <==> Counting(s.reqs[id]) && s.reqs[id].cbs + 1 == s.reqs[id].exp
    ensures var t := Apply(s, Callback(id)); t.composing == |Unnotified(t.reqs)|
  {
    hide Counted, Completes, RecordsOk, FdsDistinct;
    var t := Apply(s, Callback(id));
    assert Unnotified(t.reqs) == if t.reqs[id].fired == [] then Unnotified(s.reqs) else Unnotified(s.reqs) - {id};
  }

  lemma CallbackInfos(s: State, id: nat)
    requires Inv(s) && Enabled(s, Callback(id))
    requires Completes(s.recs, s.reqs[id].fd) <==> Counting(s.reqs[id]) && s.reqs[id].cbs + 1 == s.reqs[id].exp
    ensures var t := Apply(s, Callback(id)); FdsDistinct(t) && forall jd :: jd in t.reqs ==> InfoOk(t.reqs[jd])
  {
    hide Counted, Completes, RecordsOk;
  }

  lemma {:induction false} RunKeeps(ss: seq<State>, acts: seq<Action>, k: nat)
    requires Run(ss, acts) && k < |ss|
    ensures Inv(ss[k])
  {
    if k > 0 {
      RunKeeps(ss, acts, k - 1);
      match acts[k - 1]
      case Send(id, fd, exp) => SendKeeps(ss[k - 1], id, fd, exp);
      case FirstPackage(id) => PackageKeeps(ss[k - 1], id);
      case Callback(id) => CallbackKeeps(ss[k - 1], id);
    }
  }

  /** In every interleaving, a request expecting `exp` callbacks is notified at exactly the
      `exp`-th of them and at no other, however many come; one expecting none is never notified;
      and num_composing counts the requests sent and not notified. */
  lemma NotifiedAtTheExpectedCallback(ss: seq<State>, acts: seq<Action>, k: nat, id: nat)
    requires Run(ss, acts) && k < |ss| && id in ss[k].reqs
    ensures var i := ss[k].reqs[id]; i.fired == if 0 < i.exp <= i.cbs then [i.exp] else []
    ensures ss[k].composing == |Unnotified(ss[k].reqs)|
  {
    RunKeeps(ss, acts, k);
  }

  /** When every request expects a callback and has had all it expects, none is composing. */
  lemma AllDone(ss: seq<State>, acts: seq<Action>, k: nat)
    requires Run(ss, acts) && k < |ss|
    requires forall id :: id in ss[k].reqs ==> 0 < ss[k].reqs[id].exp <= ss[k].reqs[id].cbs
    ensures ss[k].composing == 0 && ss[k].recs == []
  {
    RunKeeps(ss, acts, k);
    forall id | id in ss[k].reqs ensures ss[k].reqs[id].fired != [] {}
    assert Unnotified(ss[k].reqs) == {};
    if ss[k].recs != [] {
      FindIsIn(ss[k].recs, ss[k].recs[|ss[k].recs| - 1].fd);
      assert false;
    }
  }
}
