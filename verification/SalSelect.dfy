/**
 The select/event protocol of the socket abstraction layer, as an interleaved step
 system.  Any number of threads are inside sal_select and any number of calls of
 sal_deal_event are walking the wait list; one step is one region of the source that
 runs under SAL_ARCH_PROTECT.  No socket is closed or reallocated during a run, and
 readiness changes only through sal_deal_event.
 */
module SalSelect {

  // A thread inside sal_select.  Its wait record lives on its own stack, so the thread
  // also names the record, and a later call of the same thread reuses the address.
  type Tid = nat
  type Wid = nat
  type Fd = nat

  datatype Link = Null | To(tid: Tid)

  /** The global wait list: its head and the link fields of the records on it. */
  datatype List = List(head: Link, next: map<Tid, Link>, prev: map<Tid, Link>)

  /** The arguments of one call; poll is a zero timeout, timed any other timeout. */
  datatype Call = Call(maxfdp1: nat, readset: set<Fd>, writeset: set<Fd>, exceptset: set<Fd>, poll: bool, timed: bool)

  datatype Pass = First | Second | Third

  /** The local descriptor sets that a scan fills. */
  datatype Found = Found(read: set<Fd>, write: set<Fd>, except: set<Fd>)

  const NOTHING := Found({}, {}, {})

  datatype Phase =
    | Scan(pass: Pass, i: nat, nready: nat, found: Found)
    | CountIn(i: nat)
    | Blocked
    | CountOut(i: nat)

  /** A call in progress.  limit is maxfdp2, where counting out stops; quit is set by a
      bad descriptor or a timeout, after which the call returns without the last scan;
      signalled is the record's sem_signalled and sem its counting semaphore. */
  datatype Selector = Selector(call: Call, phase: Phase, limit: nat, quit: bool, signalled: bool, sem: nat)

  /** The event counters of struct sal_sock; waiting is the uint8_t select_waiting. */
  datatype Sock = Sock(rcv: int, send: int, err: int, lastdata: bool, waiting: nat)

  /** A call of sal_deal_event between two protected regions: the record it examined
      last and the value of select_cb_ctr it remembered. */
  datatype Walker = Walker(sock: Fd, at: Tid, seen: int)

  /** ctr counts the changes of the list; select_cb_ctr is what an int keeps of it. */
  datatype State = State(socks: map<Fd, Sock>, sels: map<Tid, Selector>, list: List, ctr: int, walkers: map<Wid, Walker>)

  datatype Event = RcvPlus | RcvMinus | SendPlus | SendMinus | Error

  datatype Label =
    | Begin(t: Tid, call: Call)
    | ScanFd(t: Tid)
    | FinishScan(t: Tid)
    | Publish(t: Tid)
    | CountFdIn(t: Tid)
    | Rescan(t: Tid)
    | Block(t: Tid)
    | Wake(t: Tid)
    | Timeout(t: Tid)
    | CountFdOut(t: Tid)
    | Unlink(t: Tid)
    | Deal(w: Wid, s: Fd, evt: Event)
    | Walk(w: Wid)
    | Receive(s: Fd, left: bool)

  // ----- what the code tests

  predicate Interested(c: Call, s: Fd) {
    s in c.readset || s in c.writeset || s in c.exceptset
  }

  /** The test of sal_deal_event: does this socket give the record a reason to wake? */
  predicate Ready(k: Sock, c: Call, s: Fd) {
    (k.rcv > 0 && s in c.readset) || (k.send != 0 && s in c.writeset) || (k.err != 0 && s in c.exceptset)
  }

  /** What sal_selscan adds to nready for one descriptor; it also looks at lastdata. */
  function ScanCount(k: Sock, c: Call, s: Fd): nat {
    (if s in c.readset && (k.lastdata || k.rcv > 0) then 1 else 0)
    + (if s in c.writeset && k.send != 0 then 1 else 0)
    + (if s in c.exceptset && k.err != 0 then 1 else 0)
  }

  /** What sal_selscan puts into its sets for one descriptor. */
  function Marked(f: Found, k: Sock, c: Call, s: Fd): Found {
    Found(if s in c.readset && (k.lastdata || k.rcv > 0) then f.read + {s} else f.read,
          if s in c.writeset && k.send != 0 then f.write + {s} else f.write,
          if s in c.exceptset && k.err != 0 then f.except + {s} else f.except)
  }

  /** int16_t arithmetic. */
  function Int16(x: int): int {
    (x + 0x8000) % 0x1_0000 - 0x8000
  }

  function Update(k: Sock, e: Event): Sock {
    match e
    case RcvPlus => k.(rcv := Int16(k.rcv + 1))
    case RcvMinus => k.(rcv := Int16(k.rcv - 1))
    case SendPlus => k.(send := (k.send + 1) % 0x1_0000)
    case SendMinus => k.(send := (k.send - 1) % 0x1_0000)
    case Error => k.(err := 1)
  }

  predicate OnList(p: Phase) {
    !p.Scan? || p.pass == Second
  }

  // ----- the steps

  function With(st: State, t: Tid, x: Selector): State {
    st.(sels := st.sels[t := x])
  }

  function SetPhase(st: State, t: Tid, p: Phase): State
    requires t in st.sels
  {
    With(st, t, st.sels[t].(phase := p))
  }

  function Return(st: State, t: Tid): State {
    st.(sels := st.sels - {t})
  }

  function DoScanFd(st: State, t: Tid): State
    requires t in st.sels && st.sels[t].phase.Scan?
  {
    var x := st.sels[t];
    var i := x.phase.i;
    if Interested(x.call, i) && i in st.socks then
      var (n, found) := (ScanCount(st.socks[i], x.call, i), Marked(x.phase.found, st.socks[i], x.call, i));
      SetPhase(st, t, x.phase.(i := i + 1, nready := x.phase.nready + n, found := found))
    else SetPhase(st, t, x.phase.(i := i + 1))
  }

  /** link->field = v.  A link off the list is never followed: see NoStrayPointer. */
  function Write(field: map<Tid, Link>, link: Link, v: Link): map<Tid, Link> {
    if link.To? && link.tid in field then field[link.tid := v] else field
  }

  function Push(l: List, t: Tid): List {
    List(To(t), l.next[t := l.head], Write(l.prev, l.head, To(t))[t := Null])
  }

  function Remove(l: List, t: Tid): List
    requires t in l.next && t in l.prev
  {
    var prev := Write(l.prev, l.next[t], l.prev[t]);
    if l.head == To(t) then List(l.next[t], l.next - {t}, prev - {t})
    else List(l.head, Write(l.next, l.prev[t], l.next[t]) - {t}, prev - {t})
  }

  /** Put the record on top of the list and move the counter. */
  function DoPublish(st: State, t: Tid): State
    requires t in st.sels
  {
    var x := st.sels[t].(phase := CountIn(0), limit := st.sels[t].call.maxfdp1, quit := false, signalled := false, sem := 0);
    With(st, t, x).(list := Push(st.list, t), ctr := st.ctr + 1)
  }

  function DoCountFdIn(st: State, t: Tid): State
    requires t in st.sels && st.sels[t].phase.CountIn?
  {
    var x := st.sels[t];
    var i := x.phase.i;
    if !Interested(x.call, i) then SetPhase(st, t, CountIn(i + 1))
    else if i in st.socks then
      SetPhase(st, t, CountIn(i + 1)).(socks := st.socks[i := st.socks[i].(waiting := (st.socks[i].waiting + 1) % 256)])
    else With(st, t, x.(phase := CountOut(0), limit := i, quit := true))
  }

  function DoCountFdOut(st: State, t: Tid): State
    requires t in st.sels && st.sels[t].phase.CountOut?
  {
    var x := st.sels[t];
    var i := x.phase.i;
    if Interested(x.call, i) && i in st.socks && st.socks[i].waiting > 0 then
      SetPhase(st, t, CountOut(i + 1)).(socks := st.socks[i := st.socks[i].(waiting := st.socks[i].waiting - 1)])
    else SetPhase(st, t, CountOut(i + 1))
  }

  /** Take the record off the list and move the counter. */
  function DoUnlink(st: State, t: Tid): State
    requires t in st.sels && t in st.list.next && t in st.list.prev
  {
    var b := st.(list := Remove(st.list, t), ctr := st.ctr + 1);
    if st.sels[t].quit then Return(b, t) else SetPhase(b, t, Scan(Third, 0, 0, NOTHING))
  }

  /** What a walk for a socket in state k does to the record it examines. */
  function Examine(k: Sock, s: Fd, x: Selector): Selector {
    if !x.signalled && Ready(k, x.call, s) then x.(signalled := true, sem := x.sem + 1) else x
  }

  /** One protected region of a walk for socket s: examine the record at link. */
  function Visit(st: State, w: Wid, s: Fd, link: Link): State
    requires s in st.socks
  {
    if link.To? && link.tid in st.sels then
      With(st, link.tid, Examine(st.socks[s], s, st.sels[link.tid])).(walkers := st.walkers[w := Walker(s, link.tid, st.ctr)])
    else st.(walkers := st.walkers - {w})
  }

  function DoDeal(st: State, w: Wid, s: Fd, e: Event): State
    requires s in st.socks
  {
    var a := st.(socks := st.socks[s := Update(st.socks[s], e)]);
    if a.socks[s].waiting == 0 then a else Visit(a, w, s, a.list.head)
  }

  const INT_RANGE: nat := 0x1_0000_0000

  /** Are two counts of changes the same number once they are in an int? */
  predicate SameInt(a: int, b: int) {
    (a - b) % INT_RANGE == 0
  }

  /** The link a walker follows next: the head when select_cb_ctr has moved. */
  function NextStop(st: State, k: Walker): Link {
    if !SameInt(k.seen, st.ctr) then st.list.head
    else if k.at in st.list.next then st.list.next[k.at]
    else Null
  }

  predicate Enabled(st: State, l: Label) {
    match l
    case Begin(t, _) => t !in st.sels
    case Deal(w, s, _) => w !in st.walkers && s in st.socks
    case Walk(w) => w in st.walkers && st.walkers[w].sock in st.socks
    case Receive(s, _) => s in st.socks
    case Unlink(t) => t in st.sels && t in st.list.next && t in st.list.prev && EnabledFor(st.sels[t], l)
    case _ => l.t in st.sels && EnabledFor(st.sels[l.t], l)
  }

  predicate EnabledFor(x: Selector, l: Label) {
    var p := x.phase;
    match l
    case ScanFd(_) => p.Scan? && p.i < x.call.maxfdp1
    case FinishScan(_) =>
      && p.Scan? && p.i >= x.call.maxfdp1
      && (p.nready > 0 || p.pass == Third || (p.pass == First && x.call.poll))
    case Publish(_) => p.Scan? && p.pass == First && p.i >= x.call.maxfdp1 && p.nready == 0 && !x.call.poll
    case CountFdIn(_) => p.CountIn? && p.i < x.call.maxfdp1
    case Rescan(_) => p.CountIn? && p.i >= x.call.maxfdp1
    case Block(_) => p.Scan? && p.pass == Second && p.i >= x.call.maxfdp1 && p.nready == 0
    case Wake(_) => p.Blocked? && x.sem > 0
    case Timeout(_) => p.Blocked? && x.call.timed
    case CountFdOut(_) => p.CountOut? && p.i < x.limit
    case Unlink(_) => p.CountOut? && p.i >= x.limit
    case _ => false
  }

  function Do(st: State, l: Label): State
    requires Enabled(st, l)
  {
    match l
    case Begin(t, call) => With(st, t, Selector(call, Scan(First, 0, 0, NOTHING), 0, false, false, 0))
    case ScanFd(t) => DoScanFd(st, t)
    case FinishScan(t) => if st.sels[t].phase.pass == Second then SetPhase(st, t, CountOut(0)) else Return(st, t)
    case Publish(t) => DoPublish(st, t)
    case CountFdIn(t) => DoCountFdIn(st, t)
    case Rescan(t) => SetPhase(st, t, Scan(Second, 0, 0, NOTHING))
    case Block(t) => SetPhase(st, t, Blocked)
    case Wake(t) => With(st, t, st.sels[t].(phase := CountOut(0), sem := st.sels[t].sem - 1))
    case Timeout(t) => With(st, t, st.sels[t].(phase := CountOut(0), quit := true))
    case CountFdOut(t) => DoCountFdOut(st, t)
    case Unlink(t) => DoUnlink(st, t)
    case Deal(w, s, e) => DoDeal(st, w, s, e)
    case Walk(w) => Visit(st, w, st.walkers[w].sock, NextStop(st, st.walkers[w]))
    case Receive(s, left) => st.(socks := st.socks[s := st.socks[s].(lastdata := left)])
  }

  predicate Initial(st: State) {
    && st.sels == map[] && st.walkers == map[] && st.list == List(Null, map[], map[])
    && forall s :: s in st.socks ==> st.socks[s].waiting == 0
  }

  // ----- what holds between steps

  ghost predicate Distinct(order: seq<Tid>) {
    forall a, b :: 0 <= a < b < |order| ==> order[a] != order[b]
  }

  ghost function At(order: seq<Tid>, k: int): Link {
    if 0 <= k < |order| then To(order[k]) else Null
  }

  /** The two links of the k-th record. */
  ghost predicate LinksAt(l: List, order: seq<Tid>, k: nat)
    requires k < |order|
  {
    && order[k] in l.next && l.next[order[k]] == At(order, k + 1)
    && order[k] in l.prev && l.prev[order[k]] == At(order, k - 1)
  }

  /** l is a doubly linked list whose records are order, and every link agrees with it. */
  ghost predicate Chained(l: List, order: seq<Tid>) {
    && Distinct(order)
    && l.head == At(order, 0)
    && forall k: nat :: k < |order| ==> LinksAt(l, order, k)
  }

  /** The wait list is well formed and holds exactly the published records. */
  ghost predicate Linked(st: State, order: seq<Tid>) {
    && Chained(st.list, order)
    && (forall t :: t in order ==> t in st.sels)
    && (forall t :: t in st.sels ==> (t in order <==> OnList(st.sels[t].phase)))
  }

  /** Has this thread counted itself in on s, and not out again? */
  predicate CountsOn(x: Selector, s: Fd) {
    Interested(x.call, s) &&
    match x.phase
    case Scan(pass, _, _, _) => pass == Second && s < x.limit
    case CountIn(i) => s < i
    case Blocked => s < x.limit
    case CountOut(i) => i <= s < x.limit
  }

  ghost function Counted(st: State, s: Fd): set<Tid> {
    set t | t in st.sels && CountsOn(st.sels[t], s)
  }

  /** What select_waiting, a uint8_t, can represent. */
  ghost predicate Representable(st: State) {
    forall s :: s in st.socks ==> |Counted(st, s)| <= 255
  }

  /** No walk has missed so many changes of the list that select_cb_ctr came round. */
  ghost predicate Recent(st: State) {
    forall w :: w in st.walkers ==> st.ctr - st.walkers[w].seen < INT_RANGE
  }

  ghost predicate Counters(st: State) {
    forall s :: s in st.socks ==> st.socks[s].waiting == |Counted(st, s)|
  }

  ghost predicate PhaseOk(st: State, x: Selector) {
    var p := x.phase;
    && (p.CountIn? || p.Blocked? || (p.Scan? && p.pass == Second) ==>
          && x.limit == x.call.maxfdp1 && !x.quit
          && x.sem == (if x.signalled then 1 else 0))
    && (p.CountIn? ==> p.i <= x.limit && forall s: Fd :: s < p.i && Interested(x.call, s) ==> s in st.socks)
    && (OnList(p) && !p.CountIn? ==> forall s: Fd :: s < x.limit && Interested(x.call, s) ==> s in st.socks)
  }

  ghost predicate Phases(st: State) {
    forall t :: t in st.sels ==> PhaseOk(st, st.sels[t])
  }

  /** A walker whose remembered counter is current stands on the list. */
  ghost predicate Cursors(st: State, order: seq<Tid>) {
    forall w :: w in st.walkers ==>
      && st.walkers[w].sock in st.socks
      && st.walkers[w].seen <= st.ctr
      && (st.walkers[w].seen == st.ctr ==> st.walkers[w].at in order)
  }

  /** The walker has yet to examine t. */
  ghost predicate Ahead(st: State, order: seq<Tid>, k: Walker, t: Tid) {
    k.seen != st.ctr || exists a, b :: 0 <= a < b < |order| && order[a] == k.at && order[b] == t
  }

  /** Past its second look at s, which found nothing: the thread is asleep or on its
      way to sleep. */
  predicate Armed(x: Selector, s: Fd) {
    && Interested(x.call, s)
    && s < x.call.maxfdp1
    && (x.phase.Blocked? || (x.phase.Scan? && x.phase.pass == Second && x.phase.nready == 0 && s < x.phase.i))
  }

  ghost predicate Covered(st: State, order: seq<Tid>, t: Tid, s: Fd)
    requires t in st.sels
  {
    st.sels[t].signalled
    || exists w :: w in st.walkers && st.walkers[w].sock == s && Ahead(st, order, st.walkers[w], t)
  }

  ghost predicate NoLostWakeup(st: State, order: seq<Tid>) {
    forall t, s :: t in st.sels && s in st.socks && Armed(st.sels[t], s) && Ready(st.socks[s], st.sels[t].call, s)
      ==> Covered(st, order, t, s)
  }

  ghost predicate Inv(st: State, order: seq<Tid>) {
    Linked(st, order) && Counters(st) && Phases(st) && Cursors(st, order) && NoLostWakeup(st, order)
  }

  // ----- the list operations

  lemma PushChains(l: List, order: seq<Tid>, t: Tid)
    requires Chained(l, order) && t !in order
    ensures Chained(Push(l, t), [t] + order)
  {
    var pushed := [t] + order;
    forall k: nat | k < |pushed| ensures LinksAt(Push(l, t), pushed, k) {
      if k > 0 { assert LinksAt(l, order, k - 1); }
    }
  }

  /** The list without its k-th record. */
  ghost function Without(order: seq<Tid>, k: nat): seq<Tid>
    requires k < |order|
  {
    order[..k] + order[k + 1..]
  }

  lemma WithoutMembers(order: seq<Tid>, k: nat)
    requires Distinct(order) && k < |order|
    ensures Distinct(Without(order, k))
    ensures forall u :: u in Without(order, k) <==> u in order && u != order[k]
  {
    var rest := Without(order, k);
    forall u | u in order && u != order[k] ensures u in rest {
      var j :| 0 <= j < |order| && order[j] == u;
      assert rest[if j < k then j else j - 1] == u;
    }
  }

  lemma RemoveChains(l: List, order: seq<Tid>, k: nat)
    requires Chained(l, order) && k < |order|
    ensures order[k] in l.next && order[k] in l.prev
    ensures Chained(Remove(l, order[k]), Without(order, k))
  {
    var rest := Without(order, k);
    WithoutMembers(order, k);
    assert LinksAt(l, order, k);
    assert |order| > 1 ==> rest[0] == order[if k == 0 then 1 else 0];
    forall j: nat | j < |rest| ensures LinksAt(Remove(l, order[k]), rest, j) {
      assert LinksAt(l, order, if j < k then j else j + 1);
    }
  }

  // ----- each step keeps the invariant

  /** A thread moves between two phases that count the same sockets and stay off or on
      the list as before, and it is armed only on sockets that are not ready. */
  ghost predicate LocalMove(st: State, t: Tid, y: Selector)
    requires t in st.sels
  {
    var x := st.sels[t];
    && y.call == x.call && y.signalled == x.signalled
    && OnList(y.phase) == OnList(x.phase)
    && (forall s :: s in st.socks ==> CountsOn(y, s) == CountsOn(x, s))
    && PhaseOk(st, y)
    && forall s :: s in st.socks && Armed(y, s) && Ready(st.socks[s], y.call, s) ==> Armed(x, s)
  }

  lemma LocalStep(st: State, order: seq<Tid>, t: Tid, y: Selector)
    requires Inv(st, order) && t in st.sels && LocalMove(st, t, y)
    ensures Inv(With(st, t, y), order)
  {
    hide Linked, Counters, Phases, Cursors, NoLostWakeup, LocalMove;
    LocalFrame(st, order, t, y);
    LocalCovers(st, order, t, y);
  }

  lemma LocalFrame(st: State, order: seq<Tid>, t: Tid, y: Selector)
    requires Linked(st, order) && Counters(st) && Phases(st) && Cursors(st, order) && t in st.sels && LocalMove(st, t, y)
    ensures var b := With(st, t, y); Linked(b, order) && Counters(b) && Phases(b) && Cursors(b, order)
  {
    hide Chained, CountsOn, Armed, Ready, Interested;
    var b := With(st, t, y);
    forall s | s in st.socks ensures Counted(b, s) == Counted(st, s) {}
    forall u | u in b.sels ensures PhaseOk(b, b.sels[u]) {
      assert PhaseOk(st, if u == t then y else st.sels[u]);
    }
  }

  lemma LocalCovers(st: State, order: seq<Tid>, t: Tid, y: Selector)
    requires NoLostWakeup(st, order) && t in st.sels && LocalMove(st, t, y)
    ensures NoLostWakeup(With(st, t, y), order)
  {
    hide CountsOn, Armed, Ready, PhaseOk;
    var b := With(st, t, y);
    forall u, s | u in b.sels && s in b.socks && Armed(b.sels[u], s) && Ready(b.socks[s], b.sels[u].call, s)
      ensures Covered(b, order, u, s)
    {
      assert Covered(st, order, u, s);
    }
  }

  /** Every thread but t is where it was, and neither state counts or arms t. */
  ghost predicate Apart(st: State, b: State, t: Tid) {
    && b.socks == st.socks && b.walkers == st.walkers
    && (forall u :: u != t ==> (u in b.sels <==> u in st.sels))
    && (forall u :: u != t && u in st.sels ==> b.sels[u] == st.sels[u])
    && (forall s :: s in st.socks && t in st.sels ==> !CountsOn(st.sels[t], s))
    && (forall s :: s in st.socks && t in b.sels ==> !CountsOn(b.sels[t], s) && !Armed(b.sels[t], s))
    && (t in b.sels ==> PhaseOk(b, b.sels[t]))
  }

  lemma ApartKeeps(st: State, b: State, t: Tid)
    requires Apart(st, b, t) && Counters(st) && Phases(st)
    ensures Counters(b) && Phases(b)
  {
    forall s | s in st.socks ensures Counted(b, s) == Counted(st, s) {
      assert forall u :: u in Counted(b, s) <==> u in Counted(st, s);
    }
  }

  /** When the list changes every walker starts again, so it has everyone ahead of it. */
  lemma RestartKeeps(st: State, b: State, t: Tid, order: seq<Tid>, after: seq<Tid>)
    requires Apart(st, b, t) && b.ctr == st.ctr + 1
    requires Cursors(st, order) && NoLostWakeup(st, order)
    ensures Cursors(b, after) && NoLostWakeup(b, after)
  {
    forall u, s | u in b.sels && s in b.socks && Armed(b.sels[u], s) && Ready(b.socks[s], b.sels[u].call, s)
      ensures Covered(b, after, u, s)
    {
      assert Covered(st, order, u, s);
    }
  }

  /** A call starts, or a thread off the list returns. */
  lemma OffListStep(st: State, order: seq<Tid>, t: Tid, b: State)
    requires Inv(st, order) && Apart(st, b, t)
    requires b.list == st.list && b.ctr == st.ctr && t !in order
    requires t in b.sels ==> !OnList(b.sels[t].phase)
    ensures Inv(b, order)
  {
    ApartKeeps(st, b, t);
    forall u, s | u in b.sels && s in b.socks && Armed(b.sels[u], s) && Ready(b.socks[s], b.sels[u].call, s)
      ensures Covered(b, order, u, s)
    {
      assert Covered(st, order, u, s);
    }
  }

  lemma PublishStep(st: State, order: seq<Tid>, t: Tid)
    requires Inv(st, order) && Enabled(st, Publish(t))
    ensures Inv(Do(st, Publish(t)), [t] + order)
  {
    var b := Do(st, Publish(t));
    PushChains(st.list, order, t);
    ApartKeeps(st, b, t);
    RestartKeeps(st, b, t, order, [t] + order);
  }

  lemma UnlinkApart(st: State, t: Tid)
    requires Enabled(st, Unlink(t))
    ensures Apart(st, Do(st, Unlink(t)), t)
  {
    var b := Do(st, Unlink(t));
    assert b.sels - {t} == st.sels - {t};
  }

  lemma UnlinkStep(st: State, order: seq<Tid>, t: Tid, k: nat)
    requires Inv(st, order) && Enabled(st, Unlink(t)) && k < |order| && order[k] == t
    ensures Inv(Do(st, Unlink(t)), Without(order, k))
  {
    var b := Do(st, Unlink(t));
    RemoveChains(st.list, order, k);
    WithoutMembers(order, k);
    UnlinkApart(st, t);
    ApartKeeps(st, b, t);
    RestartKeeps(st, b, t, order, Without(order, k));
  }

  // The socket of a thread that has counted itself in knows about it.
  lemma ArmedIsCounted(st: State, order: seq<Tid>, t: Tid, s: Fd)
    requires Counters(st) && Phases(st) && t in st.sels && s in st.socks && Armed(st.sels[t], s)
    ensures st.socks[s].waiting > 0
  {
    assert PhaseOk(st, st.sels[t]);
    assert t in Counted(st, s);
  }

  /** t is covered on s by a walker other than w. */
  ghost predicate CoveredBeside(st: State, order: seq<Tid>, w: Wid, t: Tid, s: Fd)
    requires t in st.sels
  {
    st.sels[t].signalled
    || exists v :: v != w && v in st.walkers && st.walkers[v].sock == s && Ahead(st, order, st.walkers[v], t)
  }

  /** Everything on the list before place p is covered without w, which stands before
      place p in its walk for socket s. */
  ghost predicate BeforeVisit(st: State, order: seq<Tid>, w: Wid, s: Fd, p: nat)
    requires p <= |order|
  {
    && s in st.socks
    && Linked(st, order) && Counters(st) && Phases(st) && Cursors(st.(walkers := st.walkers - {w}), order)
    && forall t, r :: t in st.sels && r in st.socks && Armed(st.sels[t], r) && Ready(st.socks[r], st.sels[t].call, r)
         ==> CoveredBeside(st, order, w, t, r) || (r == s && t in order[p..])
  }

  lemma VisitCovers(st: State, order: seq<Tid>, w: Wid, s: Fd, p: nat)
    requires p <= |order| && BeforeVisit(st, order, w, s, p)
    ensures NoLostWakeup(Visit(st, w, s, At(order, p)), order)
  {
    var b := Visit(st, w, s, At(order, p));
    forall t, r | t in b.sels && r in b.socks && Armed(b.sels[t], r) && Ready(b.socks[r], b.sels[t].call, r)
      ensures Covered(b, order, t, r)
    {
      assert t in st.sels && Armed(st.sels[t], r) && Ready(st.socks[r], st.sels[t].call, r);
      if CoveredBeside(st, order, w, t, r) {
        if !st.sels[t].signalled {
          var v :| v != w && v in st.walkers && st.walkers[v].sock == r && Ahead(st, order, st.walkers[v], t);
          assert v in b.walkers && b.walkers[v] == st.walkers[v] && Ahead(b, order, b.walkers[v], t);
        }
      } else if t != order[p] {
        var q :| 0 <= q < |order[p..]| && order[p..][q] == t;
        assert order[p + q] == t;
        assert b.walkers[w] == Walker(s, order[p], b.ctr) && Ahead(b, order, b.walkers[w], t);
      }
    }
  }

  lemma VisitFrame(st: State, order: seq<Tid>, w: Wid, s: Fd, p: nat)
    requires p <= |order| && BeforeVisit(st, order, w, s, p)
    ensures var b := Visit(st, w, s, At(order, p)); Counters(b) && Phases(b)
  {
    hide Armed, CoveredBeside, Linked, Cursors, Ready, Interested;
    var b := Visit(st, w, s, At(order, p));
    forall r | r in st.socks ensures Counted(b, r) == Counted(st, r) {
      assert forall u :: u in Counted(b, r) <==> u in Counted(st, r);
    }
    forall t | t in b.sels ensures PhaseOk(b, b.sels[t]) {
      assert PhaseOk(st, st.sels[t]);
    }
  }

  lemma VisitCursors(st: State, order: seq<Tid>, w: Wid, s: Fd, p: nat)
    requires p <= |order| && BeforeVisit(st, order, w, s, p)
    ensures Cursors(Visit(st, w, s, At(order, p)), order)
  {
    hide Armed, CoveredBeside, Linked, Counters, Phases, Examine;
    var b := Visit(st, w, s, At(order, p));
    forall v | v in b.walkers && v != w
      ensures b.walkers[v].sock in b.socks && b.walkers[v].seen <= b.ctr
      ensures b.walkers[v].seen == b.ctr ==> b.walkers[v].at in order
    {
      assert v in st.walkers - {w};
    }
  }

  lemma VisitKeeps(st: State, order: seq<Tid>, w: Wid, s: Fd, p: nat)
    requires p <= |order| && BeforeVisit(st, order, w, s, p)
    ensures Inv(Visit(st, w, s, At(order, p)), order)
  {
    hide Counters, Phases, Cursors, NoLostWakeup;
    VisitCovers(st, order, w, s, p);
    VisitFrame(st, order, w, s, p);
    VisitCursors(st, order, w, s, p);
    VisitLinked(st, order, w, s, At(order, p));
  }

  lemma VisitLinked(st: State, order: seq<Tid>, w: Wid, s: Fd, link: Link)
    requires Linked(st, order) && s in st.socks
    ensures Linked(Visit(st, w, s, link), order)
  {
    hide Chained;
  }

  /** The state with the event counted on socket s. */
  function Dealt(st: State, s: Fd, e: Event): State
    requires s in st.socks
  {
    st.(socks := st.socks[s := Update(st.socks[s], e)])
  }

  lemma DealtFrame(st: State, order: seq<Tid>, s: Fd, e: Event)
    requires Linked(st, order) && Counters(st) && Phases(st) && Cursors(st, order) && s in st.socks
    ensures var a := Dealt(st, s, e); Linked(a, order) && Counters(a) && Phases(a) && Cursors(a, order)
  {
    hide Chained, Interested;
    var a := Dealt(st, s, e);
    forall r | r in a.socks ensures a.socks[r].waiting == |Counted(a, r)| {
      assert Counted(a, r) == Counted(st, r);
    }
    forall t | t in a.sels ensures PhaseOk(a, a.sels[t]) {
      assert PhaseOk(st, st.sels[t]);
    }
  }

  /** After an event on s, only its own walk can be missing. */
  lemma DealtCovers(st: State, order: seq<Tid>, w: Wid, s: Fd, e: Event, t: Tid, r: Fd)
    requires Inv(st, order) && w !in st.walkers && s in st.socks && t in st.sels && r in st.socks
    requires var a := Dealt(st, s, e); Armed(a.sels[t], r) && Ready(a.socks[r], a.sels[t].call, r)
    ensures Dealt(st, s, e).socks[r].waiting > 0
    ensures CoveredBeside(Dealt(st, s, e), order, w, t, r) || (r == s && t in order[0..])
  {
    hide Chained, Ready, Counters, Phases, Cursors;
    var a := Dealt(st, s, e);
    ArmedIsCounted(st, order, t, r);
    assert order[0..] == order;
    if r != s && !st.sels[t].signalled {
      assert Covered(st, order, t, r);
      var v :| v in st.walkers && st.walkers[v].sock == r && Ahead(st, order, st.walkers[v], t);
      assert v != w && Ahead(a, order, a.walkers[v], t);
    }
  }

  /** All that are awake to be posted are ahead of the walk that an event starts. */
  lemma DealtBefore(st: State, order: seq<Tid>, w: Wid, s: Fd, e: Event)
    requires Inv(st, order) && w !in st.walkers && s in st.socks
    ensures BeforeVisit(Dealt(st, s, e), order, w, s, 0)
  {
    hide Inv, Linked, Counters, Phases, Cursors, Armed, Ready, CoveredBeside;
    var a := Dealt(st, s, e);
    InvParts(st, order);
    DealtFrame(st, order, s, e);
    assert a.walkers - {w} == a.walkers;
    forall t, r | t in a.sels && r in a.socks && Armed(a.sels[t], r) && Ready(a.socks[r], a.sels[t].call, r)
      ensures CoveredBeside(a, order, w, t, r) || (r == s && t in order[0..])
    {
      DealtCovers(st, order, w, s, e, t, r);
    }
  }

  lemma InvParts(st: State, order: seq<Tid>)
    requires Inv(st, order)
    ensures Linked(st, order) && Counters(st) && Phases(st) && Cursors(st, order) && NoLostWakeup(st, order)
  {
  }

  /** An event on a socket that nobody waits for wakes nobody, and needs not. */
  lemma DealtUnnoticed(st: State, order: seq<Tid>, w: Wid, s: Fd, e: Event)
    requires Inv(st, order) && w !in st.walkers && s in st.socks && Dealt(st, s, e).socks[s].waiting == 0
    ensures Inv(Dealt(st, s, e), order)
  {
    hide Inv, Linked, Counters, Phases, Cursors, Armed, Ready;
    var a := Dealt(st, s, e);
    InvParts(st, order);
    DealtFrame(st, order, s, e);
    forall t, r | t in a.sels && r in a.socks && Armed(a.sels[t], r) && Ready(a.socks[r], a.sels[t].call, r)
      ensures Covered(a, order, t, r)
    {
      DealtCovers(st, order, w, s, e, t, r);
    }
    InvFrom(a, order);
  }

  lemma InvFrom(st: State, order: seq<Tid>)
    requires Linked(st, order) && Counters(st) && Phases(st) && Cursors(st, order) && NoLostWakeup(st, order)
    ensures Inv(st, order)
  {
  }

  lemma DealStep(st: State, order: seq<Tid>, w: Wid, s: Fd, e: Event)
    requires Inv(st, order) && Enabled(st, Deal(w, s, e))
    ensures Inv(Do(st, Deal(w, s, e)), order)
  {
    hide Inv, Visit, BeforeVisit, Update;
    var a := Dealt(st, s, e);
    if a.socks[s].waiting > 0 {
      DealtBefore(st, order, w, s, e);
      HeadIsFirst(st, order);
      VisitKeeps(a, order, w, s, 0);
    } else {
      DealtUnnoticed(st, order, w, s, e);
    }
  }

  lemma HeadIsFirst(st: State, order: seq<Tid>)
    requires Inv(st, order)
    ensures st.list.head == At(order, 0)
  {
  }

  /** A walk that has not missed too much sees whether the list has changed. */
  lemma RecentCounts(st: State, order: seq<Tid>, w: Wid)
    requires Cursors(st, order) && Recent(st) && w in st.walkers
    ensures SameInt(st.walkers[w].seen, st.ctr) <==> st.walkers[w].seen == st.ctr
  {
    var k := st.walkers[w];
    assert 0 <= st.ctr - k.seen < INT_RANGE;
  }

  /** The place on the list a walker goes to next. */
  lemma WalkPlace(st: State, order: seq<Tid>, w: Wid) returns (p: nat)
    requires Linked(st, order) && Cursors(st, order) && Recent(st) && w in st.walkers
    ensures p <= |order| && NextStop(st, st.walkers[w]) == At(order, p)
    ensures forall t :: t in order && Ahead(st, order, st.walkers[w], t) ==> t in order[p..]
  {
    hide SameInt, Recent;
    var k := st.walkers[w];
    RecentCounts(st, order, w);
    p := 0;
    if k.seen == st.ctr {
      var a :| 0 <= a < |order| && order[a] == k.at;
      assert LinksAt(st.list, order, a);
      p := a + 1;
      forall t | t in order && Ahead(st, order, k, t) ensures t in order[p..] {
        var c, b :| 0 <= c < b < |order| && order[c] == k.at && order[b] == t;
        assert c == a && order[p..][b - p] == t;
      }
    } else {
      assert order[0..] == order;
    }
  }

  lemma WalkStep(st: State, order: seq<Tid>, w: Wid)
    requires Inv(st, order) && Enabled(st, Walk(w)) && Recent(st)
    ensures Inv(Do(st, Walk(w)), order)
  {
    hide SameInt, Recent;
    var k := st.walkers[w];
    var p := WalkPlace(st, order, w);
    forall t, r | t in st.sels && r in st.socks && Armed(st.sels[t], r) && Ready(st.socks[r], st.sels[t].call, r)
      ensures CoveredBeside(st, order, w, t, r) || (r == k.sock && t in order[p..])
    {
      assert Covered(st, order, t, r);
    }
    assert BeforeVisit(st, order, w, k.sock, p);
    VisitKeeps(st, order, w, k.sock, p);
  }

  /** t counts itself in or out on socket i and on no other. */
  ghost predicate CountMove(st: State, t: Tid, y: Selector, i: Fd)
    requires t in st.sels
  {
    && i in st.socks
    && y == st.sels[t].(phase := y.phase) && OnList(y.phase) && OnList(st.sels[t].phase) && PhaseOk(st, y)
    && (forall s :: !Armed(y, s))
    && forall s :: s in st.socks && s != i ==> CountsOn(y, s) == CountsOn(st.sels[t], s)
  }

  lemma CountMoveCounters(st: State, b: State, t: Tid, y: Selector, i: Fd)
    requires Counters(st) && t in st.sels && CountMove(st, t, y, i)
    requires b == With(st, t, y).(socks := st.socks[i := st.socks[i].(waiting := |Counted(With(st, t, y), i)|)])
    ensures Counters(b)
  {
    forall s | s in b.socks ensures b.socks[s].waiting == |Counted(b, s)| {
      if s == i {
        assert Counted(b, i) == Counted(With(st, t, y), i);
      } else {
        assert Counted(b, s) == Counted(st, s);
      }
    }
  }

  lemma CountStep(st: State, b: State, order: seq<Tid>, t: Tid, y: Selector, i: Fd)
    requires Inv(st, order) && t in st.sels && CountMove(st, t, y, i)
    requires b == With(st, t, y).(socks := st.socks[i := st.socks[i].(waiting := |Counted(With(st, t, y), i)|)])
    ensures Inv(b, order)
  {
    CountMoveCounters(st, b, t, y, i);
    forall u | u in b.sels ensures PhaseOk(b, b.sels[u]) {
      assert PhaseOk(st, if u == t then y else st.sels[u]);
    }
    forall u, s | u in b.sels && s in b.socks && Armed(b.sels[u], s) && Ready(b.socks[s], b.sels[u].call, s)
      ensures Covered(b, order, u, s)
    {
      assert Covered(st, order, u, s);
    }
  }

  /** Does the next descriptor have a counter to move? */
  predicate Counts(st: State, x: Selector, i: Fd) {
    Interested(x.call, i) && i in st.socks
  }

  lemma CountInCount(st: State, t: Tid)
    requires Counters(st) && Enabled(st, CountFdIn(t)) && Representable(DoCountFdIn(st, t))
    requires Counts(st, st.sels[t], st.sels[t].phase.i)
    ensures var (i, y) := (st.sels[t].phase.i, st.sels[t].(phase := CountIn(st.sels[t].phase.i + 1)));
      DoCountFdIn(st, t) == With(st, t, y).(socks := st.socks[i := st.socks[i].(waiting := |Counted(With(st, t, y), i)|)])
  {
    hide Representable, Counted;
    var (i, y) := (st.sels[t].phase.i, st.sels[t].(phase := CountIn(st.sels[t].phase.i + 1)));
    CountedIn(st, t, i, y);
    CountedAlike(With(st, t, y), DoCountFdIn(st, t), i);
    RepresentableAt(DoCountFdIn(st, t), i);
  }

  lemma CountedIn(st: State, t: Tid, i: Fd, y: Selector)
    requires t in st.sels && !CountsOn(st.sels[t], i) && CountsOn(y, i)
    ensures |Counted(With(st, t, y), i)| == |Counted(st, i)| + 1
  {
    hide CountsOn;
    assert Counted(With(st, t, y), i) == Counted(st, i) + {t};
  }

  lemma CountedOut(st: State, t: Tid, i: Fd, y: Selector)
    requires t in st.sels && CountsOn(st.sels[t], i) && !CountsOn(y, i)
    ensures |Counted(With(st, t, y), i)| == |Counted(st, i)| - 1
  {
    hide CountsOn;
    assert t in Counted(st, i);
    assert Counted(With(st, t, y), i) == Counted(st, i) - {t};
  }

  lemma CountedAlike(a: State, b: State, i: Fd)
    requires a.sels == b.sels
    ensures Counted(a, i) == Counted(b, i)
  {
  }

  lemma RepresentableAt(st: State, i: Fd)
    requires Representable(st) && i in st.socks
    ensures |Counted(st, i)| <= 255
  {
  }

  lemma CountInMove(st: State, t: Tid)
    requires Phases(st) && Enabled(st, CountFdIn(t))
    ensures var (x, b) := (st.sels[t], DoCountFdIn(st, t));
      if Counts(st, x, x.phase.i) then CountMove(st, t, b.sels[t], x.phase.i)
      else LocalMove(st, t, b.sels[t]) && b == With(st, t, b.sels[t])
  {
    assert PhaseOk(st, st.sels[t]);
  }

  lemma CountInStep(st: State, order: seq<Tid>, t: Tid)
    requires Inv(st, order) && Enabled(st, CountFdIn(t)) && Representable(DoCountFdIn(st, t))
    ensures Inv(DoCountFdIn(st, t), order)
  {
    var (x, b) := (st.sels[t], DoCountFdIn(st, t));
    CountInMove(st, t);
    if Counts(st, x, x.phase.i) {
      CountInCount(st, t);
      CountStep(st, b, order, t, b.sels[t], x.phase.i);
    } else {
      LocalStep(st, order, t, b.sels[t]);
    }
  }

  lemma CountOutCount(st: State, t: Tid)
    requires Counters(st) && Enabled(st, CountFdOut(t)) && Counts(st, st.sels[t], st.sels[t].phase.i)
    ensures var (i, y) := (st.sels[t].phase.i, st.sels[t].(phase := CountOut(st.sels[t].phase.i + 1)));
      DoCountFdOut(st, t) == With(st, t, y).(socks := st.socks[i := st.socks[i].(waiting := |Counted(With(st, t, y), i)|)])
  {
    hide Counted;
    var (i, y) := (st.sels[t].phase.i, st.sels[t].(phase := CountOut(st.sels[t].phase.i + 1)));
    CountedOut(st, t, i, y);
  }

  lemma CountOutMove(st: State, t: Tid)
    requires Phases(st) && Enabled(st, CountFdOut(t))
    ensures var (x, b) := (st.sels[t], DoCountFdOut(st, t));
      if Counts(st, x, x.phase.i) then CountMove(st, t, b.sels[t], x.phase.i)
      else LocalMove(st, t, b.sels[t]) && b == With(st, t, b.sels[t])
  {
    assert PhaseOk(st, st.sels[t]);
  }

  lemma CountOutStep(st: State, order: seq<Tid>, t: Tid)
    requires Inv(st, order) && Enabled(st, CountFdOut(t))
    ensures Inv(DoCountFdOut(st, t), order)
  {
    var (x, b) := (st.sels[t], DoCountFdOut(st, t));
    CountOutMove(st, t);
    if Counts(st, x, x.phase.i) {
      CountOutCount(st, t);
      CountStep(st, b, order, t, b.sels[t], x.phase.i);
    } else {
      LocalStep(st, order, t, b.sels[t]);
    }
  }

  /** The steps a thread takes alone while it stays on or off the list. */
  predicate Alone(st: State, l: Label)
    requires Enabled(st, l)
  {
    l.ScanFd? || l.Rescan? || l.Block? || l.Wake? || l.Timeout? || (l.FinishScan? && st.sels[l.t].phase.pass == Second)
  }

  lemma ScanMove(st: State, t: Tid)
    requires Phases(st) && Enabled(st, ScanFd(t))
    ensures t in DoScanFd(st, t).sels && LocalMove(st, t, DoScanFd(st, t).sels[t])
    ensures DoScanFd(st, t) == With(st, t, DoScanFd(st, t).sels[t])
  {
    hide Marked;
    assert PhaseOk(st, st.sels[t]);
  }

  lemma AloneMove(st: State, l: Label)
    requires Phases(st) && Enabled(st, l) && Alone(st, l)
    ensures LocalMove(st, l.t, Do(st, l).sels[l.t]) && Do(st, l) == With(st, l.t, Do(st, l).sels[l.t])
  {
    hide DoScanFd, DoPublish, DoUnlink, DoCountFdIn, DoCountFdOut, DoDeal, Visit;
    if l.ScanFd? {
      ScanMove(st, l.t);
    } else {
      assert PhaseOk(st, st.sels[l.t]);
    }
  }

  lemma ReceiveStep(st: State, order: seq<Tid>, s: Fd, left: bool)
    requires Inv(st, order) && s in st.socks
    ensures Inv(Do(st, Receive(s, left)), order)
  {
    var b := Do(st, Receive(s, left));
    assert forall r :: Counted(b, r) == Counted(st, r);
    forall t | t in b.sels ensures PhaseOk(b, b.sels[t]) {
      assert PhaseOk(st, st.sels[t]);
    }
    forall t, r | t in b.sels && r in b.socks && Armed(b.sels[t], r) && Ready(b.socks[r], b.sels[t].call, r)
      ensures Covered(b, order, t, r)
    {
      assert Covered(st, order, t, r);
    }
  }

  lemma OutsideMove(st: State, order: seq<Tid>, l: Label)
    requires Linked(st, order) && Enabled(st, l) && (l.Begin? || (l.FinishScan? && st.sels[l.t].phase.pass != Second))
    ensures l.t !in order && Apart(st, Do(st, l), l.t)
  {
  }

  lemma ThreadStep(st: State, order: seq<Tid>, l: Label)
    requires Inv(st, order) && Enabled(st, l) && (l.Begin? || l.FinishScan? || Alone(st, l))
    ensures Inv(Do(st, l), order)
  {
    if Alone(st, l) {
      AloneMove(st, l);
      LocalStep(st, order, l.t, Do(st, l).sels[l.t]);
    } else {
      OutsideMove(st, order, l);
      OffListStep(st, order, l.t, Do(st, l));
    }
  }

  lemma PlaceOf(st: State, order: seq<Tid>, t: Tid) returns (k: nat)
    requires Inv(st, order) && Enabled(st, Unlink(t))
    ensures k < |order| && order[k] == t
  {
    k :| k < |order| && order[k] == t;
  }

  /** Every step keeps the invariant, as long as select_waiting can hold its count and no
      walk has missed 2^32 changes of the list. */
  lemma StepKeepsInv(st: State, order: seq<Tid>, l: Label) returns (after: seq<Tid>)
    requires Inv(st, order) && Recent(st) && Enabled(st, l) && Representable(Do(st, l))
    ensures Inv(Do(st, l), after)
  {
    hide Inv, Recent, Representable, DoScanFd, DoPublish, DoCountFdIn, DoCountFdOut, DoUnlink, DoDeal, Visit;
    after := order;
    match l
    case Publish(t) =>
      PublishStep(st, order, t);
      after := [t] + order;
    case Unlink(t) =>
      var k := PlaceOf(st, order, t);
      UnlinkStep(st, order, t, k);
      after := Without(order, k);
    case _ => SameOrderStep(st, order, l);
  }

  /** The steps that leave the list as it is. */
  lemma SameOrderStep(st: State, order: seq<Tid>, l: Label)
    requires Inv(st, order) && Recent(st) && Enabled(st, l) && Representable(Do(st, l)) && !l.Publish? && !l.Unlink?
    ensures Inv(Do(st, l), order)
  {
    hide Inv, Recent, Representable, DoScanFd, DoCountFdIn, DoCountFdOut, DoDeal, Visit, EnabledFor;
    match l
    case CountFdIn(t) => CountInStep(st, order, t);
    case CountFdOut(t) => CountOutStep(st, order, t);
    case Deal(w, s, e) => DealStep(st, order, w, s, e);
    case Walk(w) => WalkStep(st, order, w);
    case Receive(s, left) => ReceiveStep(st, order, s, left);
    case _ => ThreadStep(st, order, l);
  }

  // ----- runs

  /** The state after a run, in which a step that is not enabled changes nothing. */
  function Run(st: State, ls: seq<Label>): State
    decreases |ls|
  {
    if ls == [] then st
    else
      var a := Run(st, ls[..|ls| - 1]);
      if Enabled(a, ls[|ls| - 1]) then Do(a, ls[|ls| - 1]) else a
  }

  /** At no point of the run are 256 threads counted in on one socket, and no walk misses
      2^32 changes of the list between two of its looks. */
  ghost predicate NeverWraps(st: State, ls: seq<Label>) {
    forall k :: 0 <= k <= |ls| ==> Fits(Run(st, ls[..k]))
  }

  ghost predicate Fits(st: State) {
    Representable(st) && Recent(st)
  }

  lemma {:induction false} RunKeepsInv(st: State, ls: seq<Label>) returns (order: seq<Tid>)
    requires Initial(st) && NeverWraps(st, ls)
    ensures Inv(Run(st, ls), order) && Recent(Run(st, ls))
    decreases |ls|
  {
    hide Representable, Recent;
    assert ls[..|ls|] == ls && Fits(Run(st, ls[..|ls|]));
    if ls == [] {
      order := [];
      assert forall s :: Counted(st, s) == {};
    } else {
      var before := ls[..|ls| - 1];
      forall k | 0 <= k <= |before| ensures Fits(Run(st, before[..k])) {
        assert before[..k] == ls[..k];
      }
      order := RunKeepsInv(st, before);
      if Enabled(Run(st, before), ls[|ls| - 1]) {
        order := StepKeepsInv(Run(st, before), order, ls[|ls| - 1]);
      }
    }
  }

  /** f ends some run from some initial state. */
  ghost predicate Reachable(f: State) {
    exists st, ls :: Initial(st) && NeverWraps(st, ls) && Run(st, ls) == f
  }

  lemma ReachableInv(f: State) returns (order: seq<Tid>)
    requires Reachable(f)
    ensures Inv(f, order) && Recent(f)
  {
    var st, ls :| Initial(st) && NeverWraps(st, ls) && Run(st, ls) == f;
    order := RunKeepsInv(st, ls);
  }

  // ----- what the invariant says about every run

  /** Following next from a reaches t after one or more links. */
  ghost predicate Follows(l: List, a: Tid, t: Tid) {
    exists path: seq<Tid> :: |path| >= 2 && path[0] == a && path[|path| - 1] == t && IsPath(l, path)
  }

  ghost predicate IsPath(l: List, path: seq<Tid>) {
    forall k :: 0 <= k < |path| - 1 ==> Hop(l, path[k], path[k + 1])
  }

  predicate Hop(l: List, a: Tid, b: Tid) {
    a in l.next && l.next[a] == To(b)
  }

  /** A walk for s is under way and will examine t: it is about to restart at the head
      of a list that holds t, or t lies on the links it has yet to follow. */
  ghost predicate WillExamine(st: State, s: Fd, t: Tid) {
    exists w :: w in st.walkers && st.walkers[w].sock == s
      && (!SameInt(st.walkers[w].seen, st.ctr) || Follows(st.list, st.walkers[w].at, t))
  }

  lemma AheadFollows(l: List, order: seq<Tid>, a: nat, b: nat)
    requires Chained(l, order) && a < b < |order|
    ensures Follows(l, order[a], order[b])
  {
    var path := order[a..b + 1];
    forall k | 0 <= k < |path| - 1 ensures Hop(l, path[k], path[k + 1]) {
      assert LinksAt(l, order, a + k);
    }
    assert IsPath(l, path);
  }

  lemma SleeperIsCovered(f: State, order: seq<Tid>, t: Tid, s: Fd)
    requires Linked(f, order) && Cursors(f, order) && Recent(f) && NoLostWakeup(f, order)
    requires t in f.sels && s in f.socks && f.sels[t].phase.Blocked?
    requires s < f.sels[t].call.maxfdp1 && Ready(f.socks[s], f.sels[t].call, s)
    ensures f.sels[t].signalled || WillExamine(f, s, t)
  {
    hide SameInt, Recent;
    assert Armed(f.sels[t], s);
    if !f.sels[t].signalled {
      var w :| w in f.walkers && f.walkers[w].sock == s && Ahead(f, order, f.walkers[w], t);
      RecentCounts(f, order, w);
      if f.walkers[w].seen == f.ctr {
        var a, b :| 0 <= a < b < |order| && order[a] == f.walkers[w].at && order[b] == t;
        AheadFollows(f.list, order, a, b);
      }
    }
  }

  /** No lost wake-up.  In every run, a thread asleep in sal_select on a socket that is
      ready for it has had its semaphore posted, or a walk for that socket will examine
      it. */
  lemma SleeperOnReadySocket(f: State, t: Tid, s: Fd)
    requires Reachable(f)
    requires t in f.sels && s in f.socks && f.sels[t].phase.Blocked? && s < f.sels[t].call.maxfdp1
    requires (f.socks[s].rcv > 0 && s in f.sels[t].call.readset)
          || (f.socks[s].send != 0 && s in f.sels[t].call.writeset)
          || (f.socks[s].err != 0 && s in f.sels[t].call.exceptset)
    ensures (f.sels[t].sem == 1 && Enabled(f, Wake(t))) || WillExamine(f, s, t)
  {
    var order := ReachableInv(f);
    assert PhaseOk(f, f.sels[t]);
    SleeperIsCovered(f, order, t, s);
  }

  /** The counter of every socket is the number of threads counted in on it, the list is
      a doubly linked list of exactly the published records, and a thread that counts
      itself out finds its counter above zero. */
  lemma CountersAndList(f: State)
    requires Reachable(f)
    ensures forall s :: s in f.socks ==> f.socks[s].waiting == |Counted(f, s)|
    ensures exists order :: Linked(f, order)
    ensures forall t :: t in f.sels && Enabled(f, CountFdOut(t)) && Interested(f.sels[t].call, f.sels[t].phase.i) ==>
      f.sels[t].phase.i in f.socks && f.socks[f.sels[t].phase.i].waiting > 0
  {
    var order := ReachableInv(f);
    assert Linked(f, order);
    forall t | t in f.sels && Enabled(f, CountFdOut(t)) && Interested(f.sels[t].call, f.sels[t].phase.i)
      ensures f.sels[t].phase.i in f.socks && f.socks[f.sels[t].phase.i].waiting > 0
    {
      assert PhaseOk(f, f.sels[t]);
      assert t in Counted(f, f.sels[t].phase.i);
    }
  }

  /** Every pointer the code follows leads to a record that is on the list: the cursor of
      a walk that does not restart, the head, and the links of a record being removed. */
  lemma NoStrayPointer(f: State)
    requires Reachable(f)
    ensures forall w :: w in f.walkers && SameInt(f.walkers[w].seen, f.ctr) ==> Live(f, To(f.walkers[w].at))
    ensures f.list.head.To? ==> Live(f, f.list.head)
    ensures forall t :: t in f.sels && OnList(f.sels[t].phase) ==>
      && Live(f, To(t))
      && (f.list.next[t].To? ==> Live(f, f.list.next[t]))
      && (f.list.prev[t].To? ==> Live(f, f.list.prev[t]))
      && (f.list.head == To(t) <==> f.list.prev[t] == Null)
  {
    var order := ReachableInv(f);
    forall t | t in order ensures
      && Live(f, To(t))
      && (f.list.next[t].To? ==> f.list.next[t].tid in order)
      && (f.list.prev[t].To? ==> f.list.prev[t].tid in order)
      && (f.list.head == To(t) <==> f.list.prev[t] == Null)
    {
      var k: nat :| k < |order| && order[k] == t;
      assert LinksAt(f.list, order, k);
    }
    forall w | w in f.walkers && SameInt(f.walkers[w].seen, f.ctr)
      ensures f.walkers[w].at in order
    {
      RecentCounts(f, order, w);
    }
  }

  predicate Live(st: State, l: Link) {
    l.To? && l.tid in st.sels && OnList(st.sels[l.tid].phase) && l.tid in st.list.next && l.tid in st.list.prev
  }
}
