/**
 How a call of sal_select comes to its end: a thread that is not asleep can always go on, and
 no call takes more than a fixed number of steps, whatever the others do.
 */
module SalCalls {
  import opened SalSelect

  /** A step of thread t. */
  predicate Of(l: Label, t: Tid) {
    !l.Deal? && !l.Walk? && !l.Receive? && l.t == t
  }

  /** No position is beyond its end, and a thread counting in has not given up. */
  predicate InStep(x: Selector) {
    && x.limit <= x.call.maxfdp1
    && match x.phase
       case Scan(_, i, _, _) => i <= x.call.maxfdp1
       case CountIn(i) => i <= x.call.maxfdp1 && !x.quit
       case Blocked => true
       case CountOut(i) => i <= x.limit
  }

  ghost predicate AllInStep(st: State) {
    forall t :: t in st.sels ==> InStep(st.sels[t])
  }

  /** How many steps of its own a thread has before it at most.  On the way out it is exact:
      the descriptors still to be counted out, the unlinking and, unless the call gives up,
      the descriptors of the last scan and the return. */
  function StepsLeft(x: Selector): (n: nat)
    requires InStep(x)
    ensures n > 0
  {
    var m := x.call.maxfdp1;
    match x.phase
    case Scan(First, i, _, _) => 5 * m + 6 - i
    case CountIn(i) => 4 * m + 5 - i
    case Scan(Second, i, _, _) => 3 * m + 4 - i
    case Blocked => 2 * m + 3
    case CountOut(i) => x.limit - i + 1 + (if x.quit then 0 else m + 1)
    case Scan(Third, i, _, _) => m - i + 1
  }

  lemma InStepKept(st: State, l: Label)
    requires AllInStep(st) && Enabled(st, l)
    ensures AllInStep(Do(st, l))
  {
    hide Do, Enabled;
    forall t | t in Do(st, l).sels
      ensures InStep(Do(st, l).sels[t])
    {
      if Of(l, t) {
        OwnInStep(st, l, t);
      } else {
        OthersKeep(st, l, t);
      }
    }
  }

  /** How a step of its own takes a thread from x to y. */
  predicate Goes(x: Selector, y: Selector) {
    var m := x.call.maxfdp1;
    && y.call == x.call
    && match x.phase
       case Scan(pass, i, _, _) =>
         if i < m then y.phase.Scan? && y.phase.pass == pass && y.phase.i == i + 1 && SameEnd(x, y)
         else if pass == First then y.phase == CountIn(0) && y.limit == m && !y.quit
         else pass == Second && (y.phase == Blocked || y.phase == CountOut(0)) && SameEnd(x, y)
       case CountIn(i) =>
         if i >= m then y.phase == Scan(Second, 0, 0, NOTHING) && SameEnd(x, y)
         else if y.quit && !x.quit then y.phase == CountOut(0) && y.limit == i
         else y.phase == CountIn(i + 1) && SameEnd(x, y)
       case Blocked => y.phase == CountOut(0) && y.limit == x.limit && (x.quit ==> y.quit)
       case CountOut(i) =>
         if i < x.limit then y.phase == CountOut(i + 1) && SameEnd(x, y)
         else !x.quit && y.phase == Scan(Third, 0, 0, NOTHING) && SameEnd(x, y)
  }

  predicate SameEnd(x: Selector, y: Selector) {
    y.limit == x.limit && y.quit == x.quit
  }

  lemma OwnGoes(st: State, l: Label, t: Tid)
    requires t in st.sels && InStep(st.sels[t]) && Enabled(st, l) && Of(l, t)
    ensures t in Do(st, l).sels ==> Goes(st.sels[t], Do(st, l).sels[t])
  {
    hide Push, Remove, ScanCount, Marked, Interested, DoDeal, Visit;
  }

  lemma OwnInStep(st: State, l: Label, t: Tid)
    requires Enabled(st, l) && Of(l, t) && (t in st.sels ==> InStep(st.sels[t]))
    ensures t in Do(st, l).sels ==> InStep(Do(st, l).sels[t])
  {
    if t in st.sels {
      hide Do, Enabled;
      OwnGoes(st, l, t);
    }
  }

  predicate SamePlace(x: Selector, y: Selector) {
    y == x.(signalled := y.signalled, sem := y.sem)
  }

  lemma VisitKeeps(st: State, w: Wid, s: Fd, link: Link, t: Tid)
    requires s in st.socks
    ensures t in Visit(st, w, s, link).sels <==> t in st.sels
    ensures t in st.sels ==> SamePlace(st.sels[t], Visit(st, w, s, link).sels[t])
  {
    hide Ready;
  }

  /** The steps of others leave the call, its phase and where it stands. */
  lemma OthersKeep(st: State, l: Label, t: Tid)
    requires Enabled(st, l) && !Of(l, t)
    ensures t in Do(st, l).sels <==> t in st.sels
    ensures t in st.sels ==> SamePlace(st.sels[t], Do(st, l).sels[t])
  {
    hide Push, Remove, Update, ScanCount, Marked, Interested, NextStop, Visit;
    match l
    case Deal(w, s, e) =>
      var a := st.(socks := st.socks[s := Update(st.socks[s], e)]);
      VisitKeeps(a, w, s, a.list.head, t);
    case Walk(w) => VisitKeeps(st, w, st.walkers[w].sock, NextStop(st, st.walkers[w]), t);
    case _ =>
  }

  /** Every step of a thread takes it nearer to its return. */
  lemma StepsFewer(st: State, l: Label, t: Tid)
    requires t in st.sels && InStep(st.sels[t]) && Enabled(st, l) && Of(l, t)
    ensures t in Do(st, l).sels ==> InStep(Do(st, l).sels[t]) && StepsLeft(Do(st, l).sels[t]) < StepsLeft(st.sels[t])
  {
    hide Do, Enabled;
    OwnGoes(st, l, t);
  }

  /** On the way out a thread returns after exactly so many steps. */
  lemma LeavesExactly(st: State, l: Label, t: Tid)
    requires t in st.sels && InStep(st.sels[t]) && Enabled(st, l) && Of(l, t)
    requires var p := st.sels[t].phase; p.CountOut? || (p.Scan? && p.pass == Third)
    ensures t in Do(st, l).sels <==> StepsLeft(st.sels[t]) > 1
    ensures t in Do(st, l).sels ==>
      InStep(Do(st, l).sels[t]) && StepsLeft(Do(st, l).sels[t]) == StepsLeft(st.sels[t]) - 1
  {
    hide Push, Remove, ScanCount, Marked, Interested, DoDeal, Visit;
  }

  // ----- whole runs

  lemma {:induction false} RunInStep(st: State, ls: seq<Label>)
    requires Initial(st)
    ensures AllInStep(Run(st, ls))
    decreases |ls|
  {
    hide Do, Enabled, AllInStep;
    if ls == [] {
      NobodyInside(st);
    } else {
      var a, l := Run(st, ls[..|ls| - 1]), ls[|ls| - 1];
      RunInStep(st, ls[..|ls| - 1]);
      if Enabled(a, l) {
        InStepKept(a, l);
      }
    }
  }

  lemma NobodyInside(st: State)
    requires Initial(st)
    ensures AllInStep(st)
  {
  }

  /** How many steps thread t takes in a run. */
  function OwnSteps(st: State, ls: seq<Label>, t: Tid): nat
    decreases |ls|
  {
    if ls == [] then 0
    else
      var before, l := ls[..|ls| - 1], ls[|ls| - 1];
      OwnSteps(st, before, t) + if Enabled(Run(st, before), l) && Of(l, t) then 1 else 0
  }

  /** Thread t is inside the call all the time. */
  predicate Stays(st: State, ls: seq<Label>, t: Tid)
    decreases |ls|
  {
    t in Run(st, ls).sels && (ls != [] ==> Stays(st, ls[..|ls| - 1], t))
  }

  lemma {:induction false} StepsAreSpent(st: State, ls: seq<Label>, t: Tid)
    requires t in st.sels && InStep(st.sels[t]) && Stays(st, ls, t)
    ensures InStep(Run(st, ls).sels[t]) && StepsLeft(Run(st, ls).sels[t]) + OwnSteps(st, ls, t) <= StepsLeft(st.sels[t])
    decreases |ls|
  {
    hide Do, Enabled, InStep, StepsLeft, Of, SamePlace;
    if ls != [] {
      var before, l := ls[..|ls| - 1], ls[|ls| - 1];
      StepsAreSpent(st, before, t);
      var a := Run(st, before);
      if Enabled(a, l) {
        if Of(l, t) {
          StepsFewer(a, l, t);
        } else {
          OthersKeep(a, l, t);
          SameSteps(a.sels[t], Do(a, l).sels[t]);
        }
      }
    }
  }

  lemma SameSteps(x: Selector, y: Selector)
    requires InStep(x) && SamePlace(x, y)
    ensures InStep(y) && StepsLeft(y) == StepsLeft(x)
  {
  }

  /** In every run a call of sal_select ends after at most 5 * maxfdp1 + 6 steps of its own. */
  lemma CallEnds(st: State, t: Tid, call: Call, ls: seq<Label>)
    requires Enabled(st, Begin(t, call)) && Stays(Do(st, Begin(t, call)), ls, t)
    ensures OwnSteps(Do(st, Begin(t, call)), ls, t) < 5 * call.maxfdp1 + 6
  {
    StepsAreSpent(Do(st, Begin(t, call)), ls, t);
  }

  // ----- nobody is stuck

  /** The step a thread takes next. */
  function NextOf(x: Selector, t: Tid): Label {
    var m := x.call.maxfdp1;
    match x.phase
    case Scan(pass, i, nready, _) =>
      if i < m then ScanFd(t)
      else if nready > 0 || pass == Third || (pass == First && x.call.poll) then FinishScan(t)
      else if pass == First then Publish(t)
      else Block(t)
    case CountIn(i) => if i < m then CountFdIn(t) else Rescan(t)
    case Blocked => if x.sem > 0 then Wake(t) else Timeout(t)
    case CountOut(i) => if i < x.limit then CountFdOut(t) else Unlink(t)
  }

  /** A thread inside sal_select has a step to take unless it sleeps without a timeout and
      nobody has posted it, and but for a timeout that step is the only one. */
  lemma NeverStuck(f: State, t: Tid)
    requires Reachable(f) && t in f.sels
    ensures var x := f.sels[t];
      && (Enabled(f, NextOf(x, t)) <==> !(x.phase.Blocked? && x.sem == 0 && !x.call.timed))
      && forall l :: Of(l, t) && Enabled(f, l) ==> l == NextOf(x, t) || l == Timeout(t)
  {
    hide Counters, Phases, Cursors, NoLostWakeup, Reachable;
    var order := ReachableInv(f);
    if f.sels[t].phase.CountOut? {
      OnListLinked(f, order, t);
    }
  }

  lemma OnListLinked(f: State, order: seq<Tid>, t: Tid)
    requires Linked(f, order) && t in f.sels && f.sels[t].phase.CountOut?
    ensures t in f.list.next && t in f.list.prev
  {
    var k: nat :| k < |order| && order[k] == t;
    assert LinksAt(f.list, order, k);
  }

  /** A post leads through the last scan, a timeout out of the call without it. */
  lemma AfterSleep(st: State, t: Tid)
    requires t in st.sels && st.sels[t].phase.Blocked? && InStep(st.sels[t])
    ensures Enabled(st, Wake(t)) ==>
      var x := Do(st, Wake(t)).sels[t]; InStep(x) && (!st.sels[t].quit ==> StepsLeft(x) == x.limit + x.call.maxfdp1 + 2)
    ensures Enabled(st, Timeout(t)) ==>
      var x := Do(st, Timeout(t)).sels[t]; InStep(x) && StepsLeft(x) == x.limit + 1
  {
  }

  // ----- what a scan has found

  /** The descriptors found are below i and asked for, and there are nready of them. */
  predicate Agrees(x: Selector) {
    x.phase.Scan? ==>
      var f := x.phase.found;
      && x.phase.nready == |f.read| + |f.write| + |f.except|
      && Within(f.read, x.call.readset, x.phase.i) && Within(f.write, x.call.writeset, x.phase.i)
      && Within(f.except, x.call.exceptset, x.phase.i)
  }

  predicate Within(found: set<Fd>, asked: set<Fd>, i: nat) {
    forall s :: s in found ==> s in asked && s < i
  }

  ghost predicate AllAgree(st: State) {
    forall t :: t in st.sels ==> Agrees(st.sels[t])
  }

  lemma OneMore(found: set<Fd>, asked: set<Fd>, i: nat, ready: bool)
    requires Within(found, asked, i) && (ready ==> i in asked)
    ensures var more := if ready then found + {i} else found;
      Within(more, asked, i + 1) && |more| == |found| + if ready then 1 else 0
  {
  }

  lemma ScanAgrees(st: State, t: Tid)
    requires Enabled(st, ScanFd(t)) && Agrees(st.sels[t])
    ensures Agrees(DoScanFd(st, t).sels[t])
  {
    hide Within;
    var (x, i) := (st.sels[t], st.sels[t].phase.i);
    var (c, f) := (x.call, x.phase.found);
    if Interested(c, i) && i in st.socks {
      var k := st.socks[i];
      OneMore(f.read, c.readset, i, i in c.readset && (k.lastdata || k.rcv > 0));
      OneMore(f.write, c.writeset, i, i in c.writeset && k.send != 0);
      OneMore(f.except, c.exceptset, i, i in c.exceptset && k.err != 0);
    } else {
      OneMore(f.read, c.readset, i, false);
      OneMore(f.write, c.writeset, i, false);
      OneMore(f.except, c.exceptset, i, false);
    }
  }

  lemma OwnAgrees(st: State, l: Label, t: Tid)
    requires Enabled(st, l) && Of(l, t) && (t in st.sels ==> Agrees(st.sels[t]))
    ensures t in Do(st, l).sels ==> Agrees(Do(st, l).sels[t])
  {
    hide DoScanFd, Push, Remove, Interested, DoDeal, Visit;
    if l.ScanFd? {
      ScanAgrees(st, t);
    }
  }

  lemma AgreeKept(st: State, l: Label)
    requires AllAgree(st) && Enabled(st, l)
    ensures AllAgree(Do(st, l))
  {
    hide Do, Enabled, Agrees;
    forall t | t in Do(st, l).sels
      ensures Agrees(Do(st, l).sels[t])
    {
      if Of(l, t) {
        OwnAgrees(st, l, t);
      } else {
        OthersKeep(st, l, t);
        SameReport(st.sels[t], Do(st, l).sels[t]);
      }
    }
  }

  lemma SameReport(x: Selector, y: Selector)
    requires Agrees(x) && SamePlace(x, y)
    ensures Agrees(y)
  {
  }

  /** In every run the number a scan reports is that of the descriptors in its three sets. */
  lemma {:induction false} RunAgrees(st: State, ls: seq<Label>)
    requires Initial(st)
    ensures AllAgree(Run(st, ls))
    decreases |ls|
  {
    hide Do, Enabled, AllAgree;
    if ls == [] {
      NobodyScans(st);
    } else {
      var a, l := Run(st, ls[..|ls| - 1]), ls[|ls| - 1];
      RunAgrees(st, ls[..|ls| - 1]);
      if Enabled(a, l) {
        AgreeKept(a, l);
      }
    }
  }

  lemma NobodyScans(st: State)
    requires Initial(st)
    ensures AllAgree(st)
  {
  }
}
