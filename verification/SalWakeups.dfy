/**
 What the invariant of SalSelect means for sleepers: a walk left to itself posts them, the
 counter of waiting threads is wide enough for exactly 255 of them, and the counter of list
 changes for exactly 2^32 - 1 changes between two looks of a walk.
 */
module SalWakeups {
  import opened Counting
  import opened SalSelect

  // ----- a walk left to itself reaches the sleeper

  /** At most k steps of walker w and of nobody else. */
  function WalkOn(st: State, w: Wid, k: nat): State
    decreases k
  {
    if k == 0 || !Enabled(st, Walk(w)) then st else WalkOn(Do(st, Walk(w)), w, k - 1)
  }

  /** One step of a walk for s that has yet to examine the sleeper t: it wakes t, or t is one
      place nearer. */
  lemma Nearer(st: State, order: seq<Tid>, w: Wid, s: Fd, t: Tid, p: nat, b: nat)
    requires Inv(st, order) && w in st.walkers && st.walkers[w].sock == s && Oversleeps(st, t, s)
    requires p <= b < |order| && order[b] == t && NextStop(st, st.walkers[w]) == At(order, p)
    ensures Enabled(st, Walk(w)) && Oversleeps(Do(st, Walk(w)), t, s)
    ensures b == p ==> Do(st, Walk(w)).sels[t].signalled
    ensures b > p ==> var f := Do(st, Walk(w));
      w in f.walkers && f.walkers[w] == Walker(s, order[p], f.ctr) && f.ctr == st.ctr && f.list == st.list
  {
    assert order[p] in st.sels && Distinct(order);
  }

  lemma WalkRecent(st: State, w: Wid)
    requires Recent(st) && Enabled(st, Walk(w))
    ensures Recent(Do(st, Walk(w)))
  {
  }

  lemma {:induction false} WalkReaches(st: State, order: seq<Tid>, w: Wid, s: Fd, t: Tid, p: nat, b: nat) returns (k: nat)
    requires Inv(st, order) && Recent(st) && w in st.walkers && st.walkers[w].sock == s && Oversleeps(st, t, s)
    requires p <= b < |order| && order[b] == t && NextStop(st, st.walkers[w]) == At(order, p)
    ensures var f := WalkOn(st, w, k); Oversleeps(f, t, s) && f.sels[t].signalled && Inv(f, order)
    decreases b - p
  {
    hide Inv, Recent, Oversleeps, Do;
    Nearer(st, order, w, s, t, p, b);
    WalkRecent(st, w);
    WalkStep(st, order, w);
    var f := Do(st, Walk(w));
    if b == p {
      k := 1;
      assert WalkOn(f, w, 0) == f;
    } else {
      NextIs(f, order, p, s);
      var j := WalkReaches(f, order, w, s, t, p + 1, b);
      k := j + 1;
    }
  }

  lemma NextIs(f: State, order: seq<Tid>, p: nat, s: Fd)
    requires Inv(f, order) && p + 1 < |order|
    ensures NextStop(f, Walker(s, order[p], f.ctr)) == At(order, p + 1)
  {
    assert LinksAt(f.list, order, p);
  }

  lemma SleeperCovered(f: State, order: seq<Tid>, t: Tid, s: Fd)
    requires Inv(f, order) && Oversleeps(f, t, s)
    ensures t in f.sels && t in order && Covered(f, order, t, s)
  {
    assert Armed(f.sels[t], s);
  }

  /** Where a walk goes next, and where the record it has yet to examine is. */
  lemma Places(f: State, order: seq<Tid>, w: Wid, t: Tid) returns (p: nat, b: nat)
    requires Inv(f, order) && Recent(f) && w in f.walkers && t in order && Ahead(f, order, f.walkers[w], t)
    ensures p <= b < |order| && order[b] == t && NextStop(f, f.walkers[w]) == At(order, p)
  {
    hide NoLostWakeup, Counters, Phases, Linked, Cursors, Recent, Ahead, NextStop;
    p := WalkPlace(f, order, w);
    var q :| 0 <= q < |order[p..]| && order[p..][q] == t;
    b := p + q;
  }

  /** A thread asleep on a socket that is ready for it has been posted, or some walk under way
      posts it after finitely many steps of its own. */
  lemma SleeperPosted(f: State, order: seq<Tid>, t: Tid, s: Fd) returns (w: Wid, k: nat)
    requires Inv(f, order) && Recent(f) && Oversleeps(f, t, s)
    ensures var g := WalkOn(f, w, k); t in g.sels && g.sels[t].sem == 1 && Enabled(g, Wake(t))
  {
    hide Inv, Recent, Oversleeps, Ahead, NextStop, Enabled;
    SleeperCovered(f, order, t, s);
    if f.sels[t].signalled {
      w, k := 0, 0;
      PostedOnce(f, order, t, s);
    } else {
      w :| w in f.walkers && f.walkers[w].sock == s && Ahead(f, order, f.walkers[w], t);
      var p, b := Places(f, order, w, t);
      k := WalkReaches(f, order, w, s, t, p, b);
      PostedOnce(WalkOn(f, w, k), order, t, s);
    }
  }

  /** So it is in every run. */
  lemma SleeperGetsPosted(f: State, t: Tid, s: Fd) returns (w: Wid, k: nat)
    requires Reachable(f) && Oversleeps(f, t, s)
    ensures var g := WalkOn(f, w, k); t in g.sels && g.sels[t].sem == 1 && Enabled(g, Wake(t))
  {
    hide Reachable, Inv, Recent, Oversleeps, Enabled;
    var order := ReachableInv(f);
    w, k := SleeperPosted(f, order, t, s);
  }

  lemma PostedOnce(f: State, order: seq<Tid>, t: Tid, s: Fd)
    requires Inv(f, order) && Oversleeps(f, t, s) && f.sels[t].signalled
    ensures t in f.sels && f.sels[t].sem == 1 && Enabled(f, Wake(t))
  {
    assert PhaseOk(f, f.sels[t]);
  }

  /** t sleeps on s, which is ready for it. */
  predicate Oversleeps(f: State, t: Tid, s: Fd) {
    && t in f.sels && s in f.socks && f.sels[t].phase.Blocked?
    && s < f.sels[t].call.maxfdp1 && Ready(f.socks[s], f.sels[t].call, s)
  }

  // ----- exactly how many threads the counter is wide enough for

  /** At no point of the run are more than n threads inside sal_select. */
  ghost predicate Crowd(st: State, ls: seq<Label>, n: nat) {
    forall k :: 0 <= k <= |ls| ==> |Run(st, ls[..k]).sels.Keys| <= n
  }

  /** A walk that does not restart stands on a record that is on the list. */
  ghost predicate OnCourse(f: State) {
    forall w :: w in f.walkers && SameInt(f.walkers[w].seen, f.ctr) ==> Live(f, To(f.walkers[w].at))
  }

  /** At no point of the run has a walk missed more than m changes of the list. */
  ghost predicate Lag(st: State, ls: seq<Label>, m: nat) {
    forall k :: 0 <= k <= |ls| ==> MissedAtMost(Run(st, ls[..k]), m)
  }

  ghost predicate MissedAtMost(st: State, m: nat) {
    forall w :: w in st.walkers ==> st.ctr - st.walkers[w].seen <= m
  }

  /** No thread sleeps on a socket that is ready for it, unless it has been posted or a walk
      will examine it. */
  ghost predicate Woken(f: State) {
    forall t, s :: Oversleeps(f, t, s) ==> (f.sels[t].sem == 1 && Enabled(f, Wake(t))) || WillExamine(f, s, t)
  }

  lemma FewNeverWrap(st: State, ls: seq<Label>)
    requires Crowd(st, ls, 255) && Lag(st, ls, INT_RANGE - 1)
    ensures NeverWraps(st, ls)
  {
    forall k | 0 <= k <= |ls| ensures Fits(Run(st, ls[..k])) {
      var f := Run(st, ls[..k]);
      assert MissedAtMost(f, INT_RANGE - 1);
      forall s | s in f.socks ensures |Counted(f, s)| <= 255 {
        SubsetSize(Counted(f, s), f.sels.Keys);
      }
    }
  }

  const ONE_READER := Call(1, {0}, {}, {}, false, false)

  const NOBODY := State(map[0 := Sock(0, 0, 0, false, 0)], map[], List(Null, map[], map[]), 0, map[])

  /** A run leads from a to b with at most n threads at a time and walks that miss at most
      m changes. */
  ghost predicate Leads(a: State, b: State, n: nat, m: nat) {
    exists ls :: Run(a, ls) == b && Crowd(a, ls, n) && Lag(a, ls, m)
  }

  lemma LeadsStep(a: State, b: State, l: Label, n: nat, m: nat)
    requires Leads(a, b, n, m) && Enabled(b, l) && |Do(b, l).sels.Keys| <= n && MissedAtMost(Do(b, l), m)
    ensures Leads(a, Do(b, l), n, m)
  {
    hide MissedAtMost, Do, Enabled, Run, Crowd, Lag;
    var ls :| Run(a, ls) == b && Crowd(a, ls, n) && Lag(a, ls, m);
    RunMore(a, ls, l);
    CrowdMore(a, ls, l, n);
    LagMore(a, ls, l, m);
    assert Run(a, ls + [l]) == Do(b, l) && Crowd(a, ls + [l], n) && Lag(a, ls + [l], m);
  }

  lemma RunMore(a: State, ls: seq<Label>, l: Label)
    requires Enabled(Run(a, ls), l)
    ensures Run(a, ls + [l]) == Do(Run(a, ls), l)
  {
    hide Do, Enabled;
    assert (ls + [l])[..|ls|] == ls;
  }

  lemma CrowdMore(a: State, ls: seq<Label>, l: Label, n: nat)
    requires Crowd(a, ls, n) && |Run(a, ls + [l]).sels.Keys| <= n
    ensures Crowd(a, ls + [l], n)
  {
    hide Run;
    var ms := ls + [l];
    forall k | 0 <= k <= |ms| ensures |Run(a, ms[..k]).sels.Keys| <= n {
      assert if k < |ms| then ms[..k] == ls[..k] else ms[..k] == ms;
    }
  }

  lemma LagMore(a: State, ls: seq<Label>, l: Label, m: nat)
    requires Lag(a, ls, m) && MissedAtMost(Run(a, ls + [l]), m)
    ensures Lag(a, ls + [l], m)
  {
    hide Run, MissedAtMost;
    var ms := ls + [l];
    forall k | 0 <= k <= |ms| ensures MissedAtMost(Run(a, ms[..k]), m) {
      assert if k < |ms| then ms[..k] == ls[..k] else ms[..k] == ms;
    }
  }

  lemma {:induction false} KeysBelow(keys: set<Tid>, n: nat)
    requires forall t :: t in keys ==> t < n
    ensures |keys| <= n
  {
    if n > 0 {
      KeysBelow(keys - {n - 1}, n - 1);
    } else {
      assert keys == {};
    }
  }

  /** The first n threads sleep on the one socket, to which nothing has happened, and
      select_waiting is w. */
  ghost predicate Asleep(st: State, n: nat, w: nat) {
    && st.walkers == map[]
    && st.socks == map[0 := Sock(0, 0, 0, false, w)]
    && forall t: Tid :: t < n ==> t in st.sels && Unposted(st.sels[t]) && st.sels[t].phase.Blocked?
  }

  predicate Unposted(x: Selector) {
    x.call == ONE_READER && !x.signalled && x.sem == 0
  }

  /** Besides, thread n is at phase p of the same call. */
  ghost predicate Dozing(st: State, n: nat, w: nat, p: Phase) {
    && Asleep(st, n, w)
    && (forall t :: t in st.sels ==> t < n + 1)
    && n in st.sels && Unposted(st.sels[n]) && st.sels[n].phase == p
  }

  /** The k-th step of thread n on its way to sleep, and select_waiting after it. */
  function Doze(n: nat, w: nat, k: nat): (Label, nat) {
    match k
    case 0 => (ScanFd(n), w)
    case 1 => (Publish(n), w)
    case 2 => (CountFdIn(n), (w + 1) % 256)
    case 3 => (Rescan(n), w)
    case 4 => (ScanFd(n), w)
    case _ => (Block(n), w)
  }

  /** Where thread n is before that step. */
  function DozePhase(k: nat): Phase {
    match k
    case 0 => Scan(First, 0, 0, NOTHING)
    case 1 => Scan(First, 1, 0, NOTHING)
    case 2 => CountIn(0)
    case 3 => CountIn(1)
    case 4 => Scan(Second, 0, 0, NOTHING)
    case 5 => Scan(Second, 1, 0, NOTHING)
    case _ => Blocked
  }

  lemma DozeStep(st: State, n: nat, w: nat, k: nat)
    requires k < 6 && Dozing(st, n, w, DozePhase(k))
    ensures var (l, v) := Doze(n, w, k); Enabled(st, l) && Dozing(Do(st, l), n, v, DozePhase(k + 1))
  {
    hide Do, Enabled, Dozing;
    if k < 3 {
      DozeOff(st, n, w, k);
    } else {
      DozeOn(st, n, w, k);
    }
  }

  lemma DozeOff(st: State, n: nat, w: nat, k: nat)
    requires k < 3 && Dozing(st, n, w, DozePhase(k))
    ensures var (l, v) := Doze(n, w, k); Enabled(st, l) && Dozing(Do(st, l), n, v, DozePhase(k + 1))
  {
  }

  lemma DozeOn(st: State, n: nat, w: nat, k: nat)
    requires 3 <= k < 6 && Dozing(st, n, w, DozePhase(k))
    ensures var (l, v) := Doze(n, w, k); Enabled(st, l) && Dozing(Do(st, l), n, v, DozePhase(k + 1))
  {
  }

  lemma BeginDozing(st: State, n: nat, w: nat)
    requires Asleep(st, n, w) && (forall t :: t in st.sels ==> t < n)
    ensures Enabled(st, Begin(n, ONE_READER)) && Dozing(Do(st, Begin(n, ONE_READER)), n, w, DozePhase(0))
  {
  }

  lemma FallAsleep(st: State, n: nat, w: nat) returns (b: State)
    requires n < 256 && Leads(NOBODY, st, 256, 0) && Asleep(st, n, w) && (forall t :: t in st.sels ==> t < n)
    ensures Leads(NOBODY, b, 256, 0) && Asleep(b, n + 1, (w + 1) % 256) && forall t :: t in b.sels ==> t < n + 1
  {
    hide Do, Enabled, Leads;
    BeginDozing(st, n, w);
    b := Do(st, Begin(n, ONE_READER));
    KeysBelow(b.sels.Keys, n + 1);
    LeadsStep(NOBODY, st, Begin(n, ONE_READER), 256, 0);
    var v := w;
    for k := 0 to 6
      invariant Leads(NOBODY, b, 256, 0) && Dozing(b, n, v, DozePhase(k))
      invariant v == (if k <= 2 then w else (w + 1) % 256)
    {
      DozeStep(b, n, v, k);
      var (l, v') := Doze(n, v, k);
      KeysBelow(Do(b, l).sels.Keys, n + 1);
      LeadsStep(NOBODY, b, l, 256, 0);
      b, v := Do(b, l), v';
    }
  }

  lemma NobodyAsleep()
    ensures Leads(NOBODY, NOBODY, 256, 0) && Asleep(NOBODY, 0, 0)
  {
    var ls: seq<Label> := [];
    assert Run(NOBODY, ls) == NOBODY && Crowd(NOBODY, ls, 256) && Lag(NOBODY, ls, 0);
  }

  lemma {:induction false} AllAsleep(n: nat) returns (f: State)
    requires n <= 256
    ensures Leads(NOBODY, f, 256, 0) && Asleep(f, n, n % 256) && forall t :: t in f.sels ==> t < n
  {
    hide Leads, Asleep;
    if n == 0 {
      f := NOBODY;
      NobodyAsleep();
    } else {
      var a := AllAsleep(n - 1);
      var w := (n - 1) % 256;
      assert (w + 1) % 256 == n % 256;
      f := FallAsleep(a, n - 1, w);
    }
  }

  lemma EventMissed(a: State, n: nat)
    requires Asleep(a, n, 0)
    ensures Enabled(a, Deal(0, 0, RcvPlus))
    ensures var f := Do(a, Deal(0, 0, RcvPlus));
      f.walkers == map[] && f.socks == map[0 := Sock(1, 0, 0, false, 0)] && f.sels == a.sels
  {
  }

  /** With 256 threads asleep on one socket, the event that makes it ready posts no
      semaphore and starts no walk. */
  lemma WakeupLostAt256() returns (f: State)
    ensures Initial(NOBODY) && Leads(NOBODY, f, 256, 0)
    ensures f.walkers == map[] && 0 in f.socks
    ensures forall t: Tid :: t < 256 ==>
      t in f.sels && f.sels[t].phase.Blocked? && Ready(f.socks[0], f.sels[t].call, 0) && Unposted(f.sels[t])
  {
    var n: nat := 256;
    var a := AllAsleep(n);
    EventMissed(a, n);
    KeysBelow(a.sels.Keys, n);
    LeadsStep(NOBODY, a, Deal(0, 0, RcvPlus), 256, 0);
    f := Do(a, Deal(0, 0, RcvPlus));
  }

  lemma ReachableWoken(f: State)
    requires Reachable(f)
    ensures Woken(f) && OnCourse(f)
  {
    NoStrayPointer(f);
    forall t, s | Oversleeps(f, t, s)
      ensures (f.sels[t].sem == 1 && Enabled(f, Wake(t))) || WillExamine(f, s, t)
    {
      SleeperOnReadySocket(f, t, s);
    }
  }

  lemma FewWoken(st: State, ls: seq<Label>)
    requires Initial(st) && Crowd(st, ls, 255) && Lag(st, ls, 0xFFFF_FFFF)
    ensures Woken(Run(st, ls)) && OnCourse(Run(st, ls))
  {
    hide Woken, OnCourse, Crowd, Lag, Run;
    FewNeverWrap(st, ls);
    assert Reachable(Run(st, ls));
    ReachableWoken(Run(st, ls));
  }

  lemma ManyLost() returns (ls: seq<Label>)
    ensures Initial(NOBODY) && Crowd(NOBODY, ls, 256) && Lag(NOBODY, ls, 0) && !Woken(Run(NOBODY, ls))
  {
    hide Run, Crowd, Lag;
    var f := WakeupLostAt256();
    ls :| Run(NOBODY, ls) == f && Crowd(NOBODY, ls, 256) && Lag(NOBODY, ls, 0);
    var t: Tid := 0;
    assert Unposted(f.sels[t]);
    assert Oversleeps(f, t, 0);
    assert !WillExamine(f, 0, t);
  }

  /** Among the runs in which no walk misses 2^32 changes of the list, all those with at most
      n threads inside sal_select at a time wake their sleepers if and only if n is at most
      255. */
  lemma WokenExactly(n: nat)
    ensures (forall st, ls :: Initial(st) && Crowd(st, ls, n) && Lag(st, ls, 0xFFFF_FFFF) ==> Woken(Run(st, ls)))
       <==> n <= 255
  {
    hide Run, Woken, Initial;
    if n <= 255 {
      forall st, ls | Initial(st) && Crowd(st, ls, n) && Lag(st, ls, INT_RANGE - 1) ensures Woken(Run(st, ls)) {
        assert Crowd(st, ls, 255);
        FewWoken(st, ls);
      }
    } else {
      var ls := ManyLost();
      assert Crowd(NOBODY, ls, n) && Lag(NOBODY, ls, INT_RANGE - 1);
    }
  }
}
