/**
 Events and sleepers of SalSelect in the terms of a caller: which event posts which thread,
 what the event counters count, and what a scan reports.
 */
module SalEvents {
  import opened SalSelect
  import opened SalWakeups

  // ----- an event posts those who wait for it

  /** t is blocked in a call that covers socket s. */
  predicate Sleeps(f: State, t: Tid, s: Fd) {
    t in f.sels && s in f.socks && f.sels[t].phase.Blocked? && s < f.sels[t].call.maxfdp1
  }

  /** The event e on a socket in state k is what the call waits for: data where it reads, room
      where it writes, an error where it looks for exceptions; counters at the end of their
      range are left out. */
  predicate Awaited(k: Sock, c: Call, s: Fd, e: Event) {
    || (e == RcvPlus && s in c.readset && 0 <= k.rcv < 0x7fff)
    || (e == SendPlus && s in c.writeset && 0 <= k.send < 0xffff)
    || (e == Error && s in c.exceptset)
  }

  lemma AwaitedIsReady(f: State, w: Wid, s: Fd, e: Event, t: Tid)
    requires Enabled(f, Deal(w, s, e)) && Sleeps(f, t, s) && Awaited(f.socks[s], f.sels[t].call, s, e)
    ensures Oversleeps(Do(f, Deal(w, s, e)), t, s)
  {
  }

  lemma DealRecent(f: State, w: Wid, s: Fd, e: Event)
    requires Recent(f) && Enabled(f, Deal(w, s, e))
    ensures Recent(Do(f, Deal(w, s, e)))
  {
  }

  /** After an event that a sleeping thread waits for, the thread has been posted or a walk for
      the socket will examine it. */
  lemma EventNoticed(f: State, w: Wid, s: Fd, e: Event, t: Tid)
    requires Reachable(f) && Enabled(f, Deal(w, s, e)) && Sleeps(f, t, s)
    requires Awaited(f.socks[s], f.sels[t].call, s, e)
    ensures var g := Do(f, Deal(w, s, e));
      t in g.sels && g.sels[t].phase.Blocked? && (g.sels[t].sem == 1 || WillExamine(g, s, t))
  {
    hide Reachable, Inv, Recent, Do, Enabled, WillExamine;
    var order := ReachableInv(f);
    DealStep(f, order, w, s, e);
    DealRecent(f, w, s, e);
    AwaitedIsReady(f, w, s, e, t);
    var g := Do(f, Deal(w, s, e));
    InvParts(g, order);
    SleeperIsCovered(g, order, t, s);
    if g.sels[t].signalled {
      PostedOnce(g, order, t, s);
    }
  }

  /** Finitely many steps of one walk later its semaphore is posted, and it can wake. */
  lemma EventPosts(f: State, w: Wid, s: Fd, e: Event, t: Tid) returns (v: Wid, k: nat)
    requires Reachable(f) && Enabled(f, Deal(w, s, e)) && Sleeps(f, t, s)
    requires Awaited(f.socks[s], f.sels[t].call, s, e)
    ensures var g := WalkOn(Do(f, Deal(w, s, e)), v, k); t in g.sels && g.sels[t].sem == 1 && Enabled(g, Wake(t))
  {
    hide Reachable, Inv, Recent, Do, Enabled, Oversleeps, Awaited, Sleeps;
    var order := ReachableInv(f);
    DealStep(f, order, w, s, e);
    DealRecent(f, w, s, e);
    AwaitedIsReady(f, w, s, e, t);
    v, k := SleeperPosted(Do(f, Deal(w, s, e)), order, t, s);
  }

  /** Nobody is posted without a reason: the step that raises a semaphore is one of a walk for
      a socket with data, room or an error that the thread waits for. */
  lemma PostedWithReason(f: State, l: Label, t: Tid)
    requires Enabled(f, l) && t in f.sels && t in Do(f, l).sels && Do(f, l).sels[t].sem > f.sels[t].sem
    ensures l.Deal? || l.Walk?
    ensures var s := if l.Deal? then l.s else f.walkers[l.w].sock;
      var (k, c) := (Do(f, l).socks[s], f.sels[t].call);
      && s in f.socks
      && ((s in c.readset && k.rcv > 0) || (s in c.writeset && k.send != 0) || (s in c.exceptset && k.err != 0))
  {
  }

  // ----- what the event counters count

  /** How often each event has happened on a socket. */
  datatype Tally = Tally(rcvPlus: nat, rcvMinus: nat, sendPlus: nat, sendMinus: nat, errors: nat)

  function Noted(n: Tally, e: Event): Tally {
    match e
    case RcvPlus => n.(rcvPlus := n.rcvPlus + 1)
    case RcvMinus => n.(rcvMinus := n.rcvMinus + 1)
    case SendPlus => n.(sendPlus := n.sendPlus + 1)
    case SendMinus => n.(sendMinus := n.sendMinus + 1)
    case Error => n.(errors := n.errors + 1)
  }

  /** The events that happen on socket s in a run. */
  function TallyOf(st: State, ls: seq<Label>, s: Fd): Tally
    decreases |ls|
  {
    if ls == [] then Tally(0, 0, 0, 0, 0)
    else
      var (before, l) := (ls[..|ls| - 1], ls[|ls| - 1]);
      var n := TallyOf(st, before, s);
      if l.Deal? && l.s == s && Enabled(Run(st, before), l) then Noted(n, l.evt) else n
  }

  predicate InBounds(k: Sock) {
    -0x8000 <= k.rcv <= 0x7fff && 0 <= k.send <= 0xffff
  }

  /** The counters of b are those of a with these events, in 16 bits. */
  predicate Moved(a: Sock, b: Sock, n: Tally) {
    && InBounds(b)
    && (b.rcv - a.rcv - n.rcvPlus + n.rcvMinus) % 0x1_0000 == 0
    && (b.send - a.send - n.sendPlus + n.sendMinus) % 0x1_0000 == 0
    && (b.err != 0 <==> a.err != 0 || n.errors > 0)
  }

  lemma UpdateMoves(a: Sock, b: Sock, n: Tally, e: Event)
    requires Moved(a, b, n)
    ensures Moved(a, Update(b, e), Noted(n, e))
  {
    var x, y := b.rcv - a.rcv - n.rcvPlus + n.rcvMinus, b.send - a.send - n.sendPlus + n.sendMinus;
    assert x % 0x1_0000 == 0 && y % 0x1_0000 == 0;
  }

  predicate SameCounters(a: Sock, b: Sock) {
    a.rcv == b.rcv && a.send == b.send && a.err == b.err
  }

  lemma StepMoves(a: State, l: Label, s: Fd)
    requires Enabled(a, l) && s in a.socks
    ensures s in Do(a, l).socks
    ensures SameCounters(Do(a, l).socks[s], if l.Deal? && l.s == s then Update(a.socks[s], l.evt) else a.socks[s])
  {
    hide Update;
  }

  /** In every run rcvevent and sendevent are the events counted up less those counted down, in
      16 bits, and errevent tells whether there was an error. */
  lemma {:induction false} EventsCounted(st: State, ls: seq<Label>, s: Fd)
    requires s in st.socks && InBounds(st.socks[s])
    ensures s in Run(st, ls).socks && Moved(st.socks[s], Run(st, ls).socks[s], TallyOf(st, ls, s))
    decreases |ls|
  {
    if ls != [] {
      hide Do, Enabled, Update, Moved, InBounds;
      var before, l := ls[..|ls| - 1], ls[|ls| - 1];
      EventsCounted(st, before, s);
      var a := Run(st, before);
      if Enabled(a, l) {
        StepMoves(a, l, s);
        if l.Deal? && l.s == s {
          UpdateMoves(st.socks[s], a.socks[s], TallyOf(st, before, s), l.evt);
        }
      }
    }
  }

  // ----- what a scan reports

  /** k scan steps of thread t and of nobody else. */
  function ScanOn(st: State, t: Tid, k: nat): State
    decreases k
  {
    if k == 0 || !Enabled(st, ScanFd(t)) then st else ScanOn(Do(st, ScanFd(t)), t, k - 1)
  }

  function Readable(st: State, c: Call, from: nat): set<Fd> {
    set s | s in st.socks && from <= s < c.maxfdp1 && s in c.readset && (st.socks[s].lastdata || st.socks[s].rcv > 0)
  }

  function Writable(st: State, c: Call, from: nat): set<Fd> {
    set s | s in st.socks && from <= s < c.maxfdp1 && s in c.writeset && st.socks[s].send != 0
  }

  function Exceptional(st: State, c: Call, from: nat): set<Fd> {
    set s | s in st.socks && from <= s < c.maxfdp1 && s in c.exceptset && st.socks[s].err != 0
  }

  /** How many descriptors from one on are ready, in the three sets together. */
  function ReadyFrom(st: State, c: Call, from: nat): nat {
    |Readable(st, c, from)| + |Writable(st, c, from)| + |Exceptional(st, c, from)|
  }

  lemma ReadyHere(st: State, c: Call, i: nat)
    requires i < c.maxfdp1
    ensures ReadyFrom(st, c, i) == ReadyFrom(st, c, i + 1)
      + (if Interested(c, i) && i in st.socks then ScanCount(st.socks[i], c, i) else 0)
  {
    ReadableHere(st, c, i);
    WritableHere(st, c, i);
    ExceptionalHere(st, c, i);
  }

  lemma ReadableHere(st: State, c: Call, i: nat)
    requires i < c.maxfdp1
    ensures |Readable(st, c, i)| == |Readable(st, c, i + 1)|
      + (if i in st.socks && i in c.readset && (st.socks[i].lastdata || st.socks[i].rcv > 0) then 1 else 0)
  {
    var rest := Readable(st, c, i + 1);
    if i in st.socks && i in c.readset && (st.socks[i].lastdata || st.socks[i].rcv > 0) {
      assert Readable(st, c, i) == rest + {i};
    } else {
      assert Readable(st, c, i) == rest;
    }
  }

  lemma WritableHere(st: State, c: Call, i: nat)
    requires i < c.maxfdp1
    ensures |Writable(st, c, i)| == |Writable(st, c, i + 1)|
      + (if i in st.socks && i in c.writeset && st.socks[i].send != 0 then 1 else 0)
  {
    var rest := Writable(st, c, i + 1);
    if i in st.socks && i in c.writeset && st.socks[i].send != 0 {
      assert Writable(st, c, i) == rest + {i};
    } else {
      assert Writable(st, c, i) == rest;
    }
  }

  lemma ExceptionalHere(st: State, c: Call, i: nat)
    requires i < c.maxfdp1
    ensures |Exceptional(st, c, i)| == |Exceptional(st, c, i + 1)|
      + (if i in st.socks && i in c.exceptset && st.socks[i].err != 0 then 1 else 0)
  {
    var rest := Exceptional(st, c, i + 1);
    if i in st.socks && i in c.exceptset && st.socks[i].err != 0 {
      assert Exceptional(st, c, i) == rest + {i};
    } else {
      assert Exceptional(st, c, i) == rest;
    }
  }

  function Joined(a: Found, b: Found): Found {
    Found(a.read + b.read, a.write + b.write, a.except + b.except)
  }

  function FoundFrom(st: State, c: Call, from: nat): Found {
    Found(Readable(st, c, from), Writable(st, c, from), Exceptional(st, c, from))
  }

  lemma FoundHere(st: State, c: Call, i: nat, f: Found)
    requires i < c.maxfdp1
    ensures var g := if Interested(c, i) && i in st.socks then Marked(f, st.socks[i], c, i) else f;
      Joined(f, FoundFrom(st, c, i)) == Joined(g, FoundFrom(st, c, i + 1))
  {
    var g := if Interested(c, i) && i in st.socks then Marked(f, st.socks[i], c, i) else f;
    assert f.read + Readable(st, c, i) == g.read + Readable(st, c, i + 1);
    assert f.write + Writable(st, c, i) == g.write + Writable(st, c, i + 1);
    assert f.except + Exceptional(st, c, i) == g.except + Exceptional(st, c, i + 1);
  }

  /** A scan that nothing interrupts finds the descriptors that are ready and reports how many
      there are, those that are ready in more than one set as often. */
  lemma {:induction false} ScanReports(st: State, t: Tid)
    requires t in st.sels && st.sels[t].phase.Scan? && st.sels[t].phase.i <= st.sels[t].call.maxfdp1
    ensures var x := st.sels[t];
      var f := ScanOn(st, t, x.call.maxfdp1 - x.phase.i);
      && t in f.sels && f.socks == st.socks
      && f.sels[t] == x.(phase := Scan(x.phase.pass, x.call.maxfdp1,
                                       x.phase.nready + ReadyFrom(st, x.call, x.phase.i),
                                       Joined(x.phase.found, FoundFrom(st, x.call, x.phase.i))))
    decreases st.sels[t].call.maxfdp1 - st.sels[t].phase.i
  {
    hide ReadyFrom, FoundFrom, ScanCount, Marked, Joined;
    var x := st.sels[t];
    if x.phase.i < x.call.maxfdp1 {
      ReadyHere(st, x.call, x.phase.i);
      FoundHere(st, x.call, x.phase.i, x.phase.found);
      var b := Do(st, ScanFd(t));
      ScanReports(b, t);
      SameReady(st, b, x.call, x.phase.i + 1);
    } else {
      NothingReady(st, x.call, x.phase.i, x.phase.found);
    }
  }

  lemma SameReady(a: State, b: State, c: Call, from: nat)
    requires a.socks == b.socks
    ensures ReadyFrom(a, c, from) == ReadyFrom(b, c, from) && FoundFrom(a, c, from) == FoundFrom(b, c, from)
  {
  }

  lemma NothingReady(st: State, c: Call, from: nat, f: Found)
    requires from >= c.maxfdp1
    ensures ReadyFrom(st, c, from) == 0 && Joined(f, FoundFrom(st, c, from)) == f
  {
    assert Readable(st, c, from) == {} && Writable(st, c, from) == {} && Exceptional(st, c, from) == {};
  }
}
