/**
 How many changes of the wait list a walk of SalSelect may miss: select_cb_ctr is an int, and
 after 2^32 changes it has the value that the walk remembers.
 */
module SalRestarts {
  import opened SalSelect
  import opened SalWakeups

  /** A call without descriptors, which only waits for its timeout. */
  const IDLE := Call(0, {}, {}, {}, false, true)

  const EMPTY := List(Null, map[], map[])

  /** Thread 0 has been posted and is off the list, on its way out of sal_select, while the
      walk that posted it still remembers it; c is the number of list changes. */
  function Parked(c: int): State {
    State(map[0 := Sock(1, 0, 0, false, 0)],
          map[0 := Selector(ONE_READER, Scan(Third, 0, 0, NOTHING), 1, false, true, 1)],
          EMPTY, c, map[0 := Walker(0, 0, 1)])
  }

  /** Besides, thread 1 is in call IDLE, with its record on the list l. */
  function Idling(c: int, l: List, p: Phase, quit: bool): State {
    Parked(c).(sels := Parked(c).sels[1 := Selector(IDLE, p, 0, quit, false, 0)], list := l)
  }

  const ALONE := List(To(1), map[1 := Null], map[1 := Null])

  /** One step of a run in which the walk that remembers 1 misses at most 2^32 changes. */
  lemma Onward(b: State, l: Label, f: State)
    requires Leads(NOBODY, b, 255, INT_RANGE) && Enabled(b, l) && Do(b, l) == f
    requires f.sels.Keys <= {0, 1}
    requires f.walkers == map[] || (f.walkers == map[0 := Walker(0, 0, 1)] && f.ctr <= INT_RANGE + 1)
    ensures Leads(NOBODY, f, 255, INT_RANGE)
  {
    hide Do, Enabled;
    KeysBelow(f.sels.Keys, 2);
    LeadsStep(NOBODY, b, l, 255, INT_RANGE);
  }

  // ----- thread 0 is posted and leaves the list

  /** Thread 0 in its call, before and after it has been posted. */
  function Reading(p: Phase, limit: nat, posted: bool, waiting: nat, listed: bool, c: int): State {
    State(map[0 := Sock(if posted then 1 else 0, 0, 0, false, waiting)],
          map[0 := Selector(ONE_READER, p, limit, false, posted, if posted then 1 else 0)],
          if listed then List(To(0), map[0 := Null], map[0 := Null]) else EMPTY,
          c, if posted then map[0 := Walker(0, 0, 1)] else map[])
  }

  /** The state before the k-th step of the run that parks the walk, and the step. */
  function Early(k: nat): (State, Label) {
    match k
    case 0 => (NOBODY, Begin(0, ONE_READER))
    case 1 => (Reading(Scan(First, 0, 0, NOTHING), 0, false, 0, false, 0), ScanFd(0))
    case 2 => (Reading(Scan(First, 1, 0, NOTHING), 0, false, 0, false, 0), Publish(0))
    case 3 => (Reading(CountIn(0), 1, false, 0, true, 1), CountFdIn(0))
    case 4 => (Reading(CountIn(1), 1, false, 1, true, 1), Deal(0, 0, RcvPlus))
    case 5 => (Reading(CountIn(1), 1, true, 1, true, 1), Rescan(0))
    case 6 => (Reading(Scan(Second, 0, 0, NOTHING), 1, true, 1, true, 1), ScanFd(0))
    case 7 => (Reading(Scan(Second, 1, 1, Found({0}, {}, {})), 1, true, 1, true, 1), FinishScan(0))
    case 8 => (Reading(CountOut(0), 1, true, 1, true, 1), CountFdOut(0))
    case 9 => (Reading(CountOut(1), 1, true, 0, true, 1), Unlink(0))
    case _ => (Parked(2), ScanFd(0))
  }

  lemma EarlyStep(k: nat)
    requires k < 10
    ensures Enabled(Early(k).0, Early(k).1) && Do(Early(k).0, Early(k).1) == Early(k + 1).0
  {
    if k < 3 {
      EarlyPublish(k);
    } else if k == 3 {
      EarlyCount(k);
    } else if k == 4 {
      EarlyPost(k);
    } else if k < 8 {
      EarlyRescan(k);
    } else {
      EarlyLeave(k);
    }
  }

  lemma EarlyPublish(k: nat)
    requires k < 3
    ensures Enabled(Early(k).0, Early(k).1) && Do(Early(k).0, Early(k).1) == Early(k + 1).0
  {
  }

  lemma EarlyCount(k: nat)
    requires k == 3
    ensures Enabled(Early(k).0, Early(k).1) && Do(Early(k).0, Early(k).1) == Early(k + 1).0
  {
  }

  lemma EarlyPost(k: nat)
    requires k == 4
    ensures Enabled(Early(k).0, Early(k).1) && Do(Early(k).0, Early(k).1) == Early(k + 1).0
  {
    var st := Reading(CountIn(1), 1, false, 1, true, 1);
    assert Update(st.socks[0], RcvPlus) == Sock(1, 0, 0, false, 1);
    assert Examine(Sock(1, 0, 0, false, 1), 0, st.sels[0]) == Reading(CountIn(1), 1, true, 1, true, 1).sels[0];
  }

  lemma EarlyRescan(k: nat)
    requires 5 <= k < 8
    ensures Enabled(Early(k).0, Early(k).1) && Do(Early(k).0, Early(k).1) == Early(k + 1).0
  {
    assert Marked(NOTHING, Sock(1, 0, 0, false, 1), ONE_READER, 0) == Found({0}, {}, {});
  }

  lemma EarlyLeave(k: nat)
    requires 8 <= k < 10
    ensures Enabled(Early(k).0, Early(k).1) && Do(Early(k).0, Early(k).1) == Early(k + 1).0
  {
  }

  lemma EarlyShape(k: nat)
    requires k <= 10
    ensures var f := Early(k).0;
      && f.sels.Keys <= {0, 1} && f.ctr <= 2
      && (f.walkers == map[] || f.walkers == map[0 := Walker(0, 0, 1)])
  {
  }

  lemma {:induction false} ReachesEarly(k: nat)
    requires k <= 10
    ensures Leads(NOBODY, Early(k).0, 255, INT_RANGE)
  {
    if k == 0 {
      var ls: seq<Label> := [];
      assert Run(NOBODY, ls) == NOBODY && Crowd(NOBODY, ls, 255) && Lag(NOBODY, ls, INT_RANGE);
    } else {
      hide Early, Leads, Do, Enabled;
      ReachesEarly(k - 1);
      EarlyStep(k - 1);
      EarlyShape(k);
      Onward(Early(k - 1).0, Early(k - 1).1, Early(k).0);
    }
  }

  // ----- thread 1 comes and goes

  /** The state before the k-th step of thread 1's call, and the step. */
  function Idle(c: int, k: nat): (State, Label) {
    match k
    case 0 => (Parked(c), Begin(1, IDLE))
    case 1 => (Idling(c, EMPTY, Scan(First, 0, 0, NOTHING), false), Publish(1))
    case 2 => (Idling(c + 1, ALONE, CountIn(0), false), Rescan(1))
    case 3 => (Idling(c + 1, ALONE, Scan(Second, 0, 0, NOTHING), false), Block(1))
    case 4 => (Idling(c + 1, ALONE, Blocked, false), Timeout(1))
    case 5 => (Idling(c + 1, ALONE, CountOut(0), true), Unlink(1))
    case _ => (Parked(c + 2), Begin(1, IDLE))
  }

  lemma IdleStep(c: int, k: nat)
    requires k < 6
    ensures Enabled(Idle(c, k).0, Idle(c, k).1) && Do(Idle(c, k).0, Idle(c, k).1) == Idle(c, k + 1).0
  {
    if k < 3 {
      IdlePublish(c, k);
    } else {
      IdleLeave(c, k);
    }
  }

  lemma IdlePublish(c: int, k: nat)
    requires k < 3
    ensures Enabled(Idle(c, k).0, Idle(c, k).1) && Do(Idle(c, k).0, Idle(c, k).1) == Idle(c, k + 1).0
  {
  }

  lemma IdleLeave(c: int, k: nat)
    requires 3 <= k < 6
    ensures Enabled(Idle(c, k).0, Idle(c, k).1) && Do(Idle(c, k).0, Idle(c, k).1) == Idle(c, k + 1).0
  {
    assert k == 5 ==> Do(Idle(c, k).0, Idle(c, k).1).sels == Parked(c).sels;
  }

  lemma IdleShape(c: int, k: nat)
    requires k <= 6
    ensures var f := Idle(c, k).0;
      && f.sels.Keys <= {0, 1} && f.walkers == map[0 := Walker(0, 0, 1)]
      && f.ctr == (if k < 2 then c else if k < 6 then c + 1 else c + 2)
  {
  }

  lemma {:induction false} ReachesIdle(c: int, k: nat)
    requires k <= 6 && Leads(NOBODY, Parked(c), 255, INT_RANGE) && (if k < 6 then c <= INT_RANGE else c < INT_RANGE)
    ensures Leads(NOBODY, Idle(c, k).0, 255, INT_RANGE)
    decreases k
  {
    hide Leads, Do, Enabled;
    if k > 0 {
      ReachesIdle(c, k - 1);
      IdleStep(c, k - 1);
      IdleShape(c, k);
      hide Idle;
      Onward(Idle(c, k - 1).0, Idle(c, k - 1).1, Idle(c, k).0);
    }
  }

  /** After n such calls the list has changed 2n times more. */
  lemma {:induction false} ReachesParked(n: nat)
    requires 2 * n + 2 <= INT_RANGE
    ensures Leads(NOBODY, Parked(2 * n + 2), 255, INT_RANGE)
  {
    hide Leads;
    if n == 0 {
      ReachesEarly(10);
    } else {
      ReachesParked(n - 1);
      ReachesIdle(2 * n, 6);
    }
  }

  /** With 2^32 changes between two looks, a walk takes a record that is off the list for one
      that is on it, and follows its link. */
  lemma StrayAt2To32() returns (ls: seq<Label>)
    ensures Initial(NOBODY) && Crowd(NOBODY, ls, 255) && Lag(NOBODY, ls, INT_RANGE) && !OnCourse(Run(NOBODY, ls))
  {
    hide Leads, Run, Crowd, Lag;
    var n: nat := 0x7fff_ffff;
    ReachesParked(n);
    ReachesIdle(INT_RANGE, 2);
    var f := Idling(INT_RANGE + 1, ALONE, CountIn(0), false);
    assert !OnCourse(f) by { assert 0 in f.walkers && SameInt(1, f.ctr); }
    ls := Witness(f);
  }

  lemma Witness(f: State) returns (ls: seq<Label>)
    requires Leads(NOBODY, f, 255, INT_RANGE)
    ensures Run(NOBODY, ls) == f && Crowd(NOBODY, ls, 255) && Lag(NOBODY, ls, INT_RANGE)
  {
    ls :| Run(NOBODY, ls) == f && Crowd(NOBODY, ls, 255) && Lag(NOBODY, ls, INT_RANGE);
  }

  /** Among the runs with at most 255 threads at a time, all those in which no walk misses
      more than m changes of the list wake their sleepers and keep their walks on the list if
      and only if m is below 2^32. */
  lemma RestartsExactly(m: nat)
    ensures (forall st, ls :: Initial(st) && Crowd(st, ls, 255) && Lag(st, ls, m) ==>
               Woken(Run(st, ls)) && OnCourse(Run(st, ls)))
       <==> m < 0x1_0000_0000
  {
    hide Run, Woken, OnCourse, Initial;
    if m < INT_RANGE {
      forall st, ls | Initial(st) && Crowd(st, ls, 255) && Lag(st, ls, m)
        ensures Woken(Run(st, ls)) && OnCourse(Run(st, ls))
      {
        assert Lag(st, ls, INT_RANGE - 1);
        FewWoken(st, ls);
      }
    } else {
      var ls := StrayAt2To32();
      assert Lag(NOBODY, ls, m);
    }
  }
}
