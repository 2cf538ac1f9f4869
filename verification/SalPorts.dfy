/**
 The local-port allocator of the socket abstraction layer: one list of control blocks
 and one search cursor.  The TCP and the UDP code in the source are the same text over
 two lists, so one class stands for both.
 */
module SalPorts {
  import opened Counting

  const RANGE_START: nat := 0xc000
  const RANGE_END: nat := 0xffff
  const RANGE_SIZE: nat := 0x4000

  datatype Err = Ok | ErrVal | ErrBuf | ErrUse | ErrModule

  /** ENSURE_LOCAL_PORT_RANGE of a rand() value, cut to a u16_t: its low fourteen bits
      on top of the base. */
  function EnsureRange(r: nat): (p: nat)
    ensures RANGE_START <= p <= RANGE_END
  {
    RANGE_START + r % RANGE_SIZE
  }

  /** tcp_port++, going round the range. */
  function Next(c: nat): nat {
    if c == RANGE_END then RANGE_START else c + 1
  }

  predicate InRange(p: nat) {
    RANGE_START <= p <= RANGE_END
  }

  /** How many steps from c the search takes to come to p. */
  function Distance(c: nat, p: nat): (d: nat)
    requires InRange(c) && InRange(p)
    ensures 1 <= d <= RANGE_SIZE
  {
    if p > c then p - c else p + RANGE_SIZE - c
  }

  /** The dynamic ports of section 6 of RFC 6335. */
  lemma DynamicPorts(p: nat)
    ensures InRange(p) <==> 49152 <= p <= 65535
    ensures InRange(p) ==> Next(p) == 49152 + (p - 49152 + 1) % 16384
  {
  }

  /** The port n steps after c. */
  function Onward(c: nat, n: nat): nat {
    if n == 0 then c else Next(Onward(c, n - 1))
  }

  /** The distance is the least number of steps that lead to a port. */
  lemma {:induction false} DistanceExactly(c: nat, p: nat, n: nat)
    requires InRange(c) && InRange(p) && 0 < n <= RANGE_SIZE
    ensures InRange(Onward(c, n)) && (Onward(c, n) == p <==> n == Distance(c, p))
    decreases n
  {
    if n > 1 {
      var q := if p == RANGE_START then RANGE_END else p - 1;
      DistanceExactly(c, q, n - 1);
      DistanceExactly(c, p, n - 1);
    }
  }

  /** Every port within n steps of c is held. */
  ghost predicate HeldWithin(c: nat, n: nat, held: set<nat>)
    requires InRange(c)
  {
    forall p: nat :: InRange(p) && Distance(c, p) <= n ==> p in held
  }

  /** What a search from c comes to, with the cursor left at last: zero exactly when the
      whole range is held, and otherwise the nearest port after c that is not held. */
  ghost predicate SearchFrom(c: nat, held: set<nat>, port: nat, last: nat)
    requires InRange(c)
  {
    && (port == 0 <==> forall p: nat :: InRange(p) ==> p in held)
    && (port == 0 ==> last == c)
    && (port != 0 ==> InRange(port) && last == port && port !in held && HeldWithin(c, Distance(c, port) - 1, held))
  }

  /** The search stands n steps after c. */
  predicate StepsFrom(c: nat, n: nat, last: nat)
    requires InRange(c)
  {
    InRange(last) && (if n == 0 then last == c else Distance(c, last) == n)
  }

  lemma NothingSearched(c: nat, held: set<nat>)
    requires InRange(c)
    ensures StepsFrom(c, 0, c) && HeldWithin(c, 0, held)
  {
  }

  lemma OneStep(c: nat, n: nat, last: nat)
    requires InRange(c) && n < RANGE_SIZE && StepsFrom(c, n, last)
    ensures StepsFrom(c, n + 1, Next(last))
  {
  }

  lemma OneMoreHeld(c: nat, n: nat, last: nat, held: set<nat>)
    requires InRange(c) && n < RANGE_SIZE && StepsFrom(c, n + 1, last) && HeldWithin(c, n, held) && last in held
    ensures HeldWithin(c, n + 1, held)
  {
    forall p: nat | InRange(p) && Distance(c, p) <= n + 1
      ensures p in held
    {
      if Distance(c, p) == n + 1 {
        assert p == last;
      }
    }
  }

  /** The search ends at the first port that is not held, or after the whole range. */
  lemma SearchEnds(c: nat, n: nat, last: nat, held: set<nat>)
    requires InRange(c) && n < RANGE_SIZE && StepsFrom(c, n + 1, last) && HeldWithin(c, n, held)
    ensures last !in held ==> SearchFrom(c, held, last, last)
    ensures last in held && n + 1 == RANGE_SIZE ==> SearchFrom(c, held, 0, last)
  {
    if last in held && n + 1 == RANGE_SIZE {
      OneMoreHeld(c, n, last, held);
    }
  }

  /** Where a search starts: the static cursor, seeded from rand() the first time. */
  function StartOf(cursor: nat, rand: nat): (c: nat)
    requires cursor == 0 || RANGE_START <= cursor <= RANGE_END
    ensures RANGE_START <= c <= RANGE_END
  {
    if cursor == 0 then EnsureRange(rand) else cursor
  }

  class Pcb {
    var localPort: nat
    var next: Pcb?

    /** A control block fresh from salpcb_new, all zero. */
    constructor ()
      ensures localPort == 0 && next == null
    {
      localPort, next := 0, null;
    }
  }

  class PortTable {
    var head: Pcb?
    var cursor: nat
    ghost var pcbs: seq<Pcb>

    ghost predicate Valid()
      reads this, pcbs
    {
      Listed() && (cursor == 0 || RANGE_START <= cursor <= RANGE_END)
    }

    /** The list from head is pcbs, no block is on it twice, and no two blocks have the
        same port. */
    ghost predicate Listed()
      reads this`head, this`pcbs, pcbs
    {
      && (forall i, j :: 0 <= i < j < |pcbs| ==> pcbs[i] != pcbs[j])
      && head == Nth(0)
      && (forall k: nat :: k < |pcbs| ==> LinkAt(k))
      && (forall i, j :: 0 <= i < j < |pcbs| ==> pcbs[i].localPort != pcbs[j].localPort)
      && (forall b :: b in pcbs ==> 1 <= b.localPort <= 0xffff)
    }

    ghost function Nth(k: nat): Pcb?
      reads this`pcbs
    {
      if k < |pcbs| then pcbs[k] else null
    }

    ghost predicate LinkAt(k: nat)
      requires k < |pcbs|
      reads this`pcbs, pcbs
    {
      pcbs[k].next == Nth(k + 1)
    }

    /** The ports the listed blocks have. */
    ghost function Held(): set<nat>
      reads this`pcbs, pcbs
    {
      set b | b in pcbs :: b.localPort
    }

    constructor ()
      ensures Valid() && pcbs == [] && cursor == 0
    {
      head, cursor, pcbs := null, 0, [];
    }

    /** The walk down the list for a block that has this port. */
    method HeldBy(port: nat) returns (found: bool)
      requires Listed()
      ensures found <==> port in Held()
    {
      var p := head;
      ghost var k: nat := 0;
      while p != null
        invariant k <= |pcbs| && p == Nth(k)
        invariant forall i :: 0 <= i < k ==> pcbs[i].localPort != port
        decreases |pcbs| - k
      {
        assert LinkAt(k);
        if p.localPort == port { return true; }
        p := p.next;
        k := k + 1;
      }
      return false;
    }

    /** The search loop of sal_tcp_new_port and sal_udp_new_port. */
    method Search(c: nat) returns (port: nat, last: nat)
      requires Listed() && InRange(c)
      ensures SearchFrom(c, Held(), port, last)
    {
      hide HeldWithin, SearchFrom, StepsFrom, Next;
      last := c;
      var n := 0;
      NothingSearched(c, Held());
      while true
        invariant 0 <= n < RANGE_SIZE && StepsFrom(c, n, last) && HeldWithin(c, n, Held())
        decreases RANGE_SIZE - n
      {
        OneStep(c, n, last);
        last := Next(last);
        SearchEnds(c, n, last, Held());
        var found := HeldBy(last);
        if !found {
          return last, last;
        }
        OneMoreHeld(c, n, last, Held());
        n := n + 1;
        if n > RANGE_END - RANGE_START {
          return 0, last;
        }
      }
    }

    method NewPort(rand: nat) returns (port: nat)
      requires Valid()
      modifies this`cursor
      ensures Valid() && cursor != 0
      ensures SearchFrom(StartOf(old(cursor), rand), Held(), port, cursor)
    {
      port, cursor := Search(StartOf(cursor, rand));
    }

    /** The walk down the list for a block itself. */
    method IsListed(pcb: Pcb) returns (found: bool)
      requires Listed()
      ensures found <==> pcb in pcbs
    {
      var p := head;
      ghost var k: nat := 0;
      while p != null
        invariant k <= |pcbs| && p == Nth(k) && pcb !in pcbs[..k]
        decreases |pcbs| - k
      {
        assert LinkAt(k);
        if p == pcb { return true; }
        p := p.next;
        k := k + 1;
      }
      return false;
    }

    /** Does a listed block other than pcb have this port? */
    ghost predicate HeldByOther(pcb: Pcb, port: nat)
      reads this`pcbs, pcbs
    {
      exists b :: b in pcbs && b != pcb && b.localPort == port
    }

    method OtherHolds(pcb: Pcb, port: nat) returns (found: bool)
      requires Listed()
      ensures found <==> HeldByOther(pcb, port)
    {
      var p := head;
      ghost var k: nat := 0;
      while p != null
        invariant k <= |pcbs| && p == Nth(k)
        invariant forall i :: 0 <= i < k ==> pcbs[i] == pcb || pcbs[i].localPort != port
        decreases |pcbs| - k
      {
        assert LinkAt(k);
        if pcb != p && p.localPort == port { return true; }
        p := p.next;
        k := k + 1;
      }
      return false;
    }

    /** The last lines of a bind: set the port and put the block on top of the list. */
    method Enter(pcb: Pcb, port: nat, rebind: bool)
      requires Listed() && 1 <= port <= 0xffff && (rebind <==> pcb in pcbs) && !HeldByOther(pcb, port)
      modifies this`head, this`pcbs, pcb
      ensures Listed()
      ensures pcbs == (if rebind then old(pcbs) else [pcb] + old(pcbs))
      ensures pcb.localPort == port
    {
      pcb.localPort := port;
      if !rebind {
        pcb.next := head;
        head := pcb;
        pcbs := [pcb] + pcbs;
      }
      forall k: nat | k < |pcbs| ensures LinkAt(k) {
        if rebind { assert old(LinkAt(k)); } else if k > 0 { assert old(LinkAt(k - 1)); }
      }
    }

    /** sal_tcp_bind and sal_udp_bind. */
    method Bind(pcb: Pcb?, port: nat, rand: nat) returns (err: Err)
      requires Valid() && port <= 0xffff
      modifies this, pcb
      ensures Valid()
      ensures err == (if pcb == null then ErrVal
                      else if port != 0 && old(HeldByOther(pcb, port)) then ErrUse
                      else if port == 0 && (forall p: nat :: InRange(p) ==> p in old(Held())) then ErrBuf
                      else Ok)
      ensures err != Ok ==> pcbs == old(pcbs) && head == old(head) && (pcb != null ==> unchanged(pcb))
      ensures err != Ok ==> forall b :: b in pcbs ==> b.localPort == old(b.localPort)
      ensures err == Ok ==>
        && pcbs == (if pcb in old(pcbs) then old(pcbs) else [pcb] + old(pcbs))
        && (if port != 0 then pcb.localPort == port && cursor == old(cursor)
            else SearchFrom(StartOf(old(cursor), rand), old(Held()), pcb.localPort, cursor))
        && forall b :: b in old(pcbs) && b != pcb ==> b.localPort == old(b.localPort)
    {
      if pcb == null {
        return ErrVal;
      }
      var rebind := IsListed(pcb);
      var p := port;
      if port == 0 {
        p := NewPort(rand);
        if p == 0 {
          return ErrBuf;
        }
      } else {
        var used := OtherHolds(pcb, port);
        if used {
          return ErrUse;
        }
      }
      Enter(pcb, p, rebind);
      return Ok;
    }

    /** The link of the i-th block once the links jump over the k-th. */
    ghost predicate JumpAt(k: nat, i: nat)
      requires i < |pcbs|
      reads this`pcbs, pcbs
    {
      pcbs[i].next == Nth(if i + 1 == k then k + 1 else i + 1)
    }

    ghost predicate Distinct()
      reads this`pcbs, pcbs
    {
      forall i, j :: 0 <= i < j < |pcbs| ==> pcbs[i] != pcbs[j] && pcbs[i].localPort != pcbs[j].localPort
    }

    /** Forget the k-th block, which no link leads to. */
    ghost method Forget(k: nat)
      requires k < |pcbs| && Distinct() && forall b :: b in pcbs ==> 1 <= b.localPort <= 0xffff
      requires head == if k == 0 then Nth(1) else pcbs[0]
      requires forall i: nat :: i < |pcbs| && i != k ==> JumpAt(k, i)
      modifies this`pcbs
      ensures Listed() && pcbs == old(pcbs)[..k] + old(pcbs)[k + 1..]
      ensures old(pcbs)[k] !in pcbs
    {
      pcbs := pcbs[..k] + pcbs[k + 1..];
      forall i: nat | i < |pcbs| ensures LinkAt(i) {
        assert old(JumpAt(k, if i < k then i else i + 1));
      }
    }

    /** sal_tcp_remove and sal_udp_remove, up to freeing the block. */
    method Remove(pcb: Pcb)
      requires Valid()
      modifies this`head, this`pcbs, pcbs
      ensures Valid() && pcb !in pcbs
      ensures forall b :: b in old(pcbs) ==> b.localPort == old(b.localPort)
      ensures pcb !in old(pcbs) ==> pcbs == old(pcbs)
      ensures pcb in old(pcbs) ==>
        exists k: nat :: k < |old(pcbs)| && old(pcbs)[k] == pcb && pcbs == old(pcbs)[..k] + old(pcbs)[k + 1..]
    {
      if head == pcb {
        RemoveHead();
      } else {
        RemoveInner(pcb);
      }
    }

    lemma SkipsHead()
      requires Listed() && head != null
      ensures Distinct() && head.next == Nth(1) && forall i: nat :: i < |pcbs| && i != 0 ==> JumpAt(0, i)
    {
      assert LinkAt(0);
      forall i: nat | i < |pcbs| && i != 0 ensures JumpAt(0, i) { assert LinkAt(i); }
    }

    method RemoveHead()
      requires Listed() && head != null
      modifies this`head, this`pcbs
      ensures Listed() && pcbs == old(pcbs)[1..] && old(pcbs) == [old(head)] + pcbs && old(head) !in pcbs
    {
      SkipsHead();
      head := head.next;
      Forget(0);
    }

    /** The link of the block in front jumps over the k-th. */
    method Relink(p: Pcb, ghost k: nat)
      requires Listed() && 0 < k < |pcbs| && p == pcbs[k - 1] && p.next == pcbs[k]
      modifies p`next
      ensures Distinct() && (forall b :: b in pcbs ==> 1 <= b.localPort <= 0xffff) && head == pcbs[0]
      ensures forall i: nat :: i < |pcbs| && i != k ==> JumpAt(k, i)
    {
      assert LinkAt(k);
      p.next := p.next.next;
      forall i: nat | i < |pcbs| && i != k ensures JumpAt(k, i) { assert old(LinkAt(i)); }
    }

    method RemoveInner(pcb: Pcb)
      requires Listed() && head != pcb
      modifies this`pcbs, pcbs
      ensures Listed() && pcb !in pcbs
      ensures forall b :: b in old(pcbs) ==> b.localPort == old(b.localPort)
      ensures pcb !in old(pcbs) ==> pcbs == old(pcbs)
      ensures pcb in old(pcbs) ==>
        exists k: nat :: k < |old(pcbs)| && old(pcbs)[k] == pcb && pcbs == old(pcbs)[..k] + old(pcbs)[k + 1..]
    {
      var p := head;
      ghost var k: nat := 0;
      while p != null
        invariant k <= |pcbs| && p == Nth(k) && pcb !in pcbs[..k] && Nth(k) != pcb
        invariant pcbs == old(pcbs) && unchanged(pcbs)
        decreases |pcbs| - k
      {
        assert LinkAt(k);
        if p.next != null && p.next == pcb {
          Relink(p, k + 1);
          Forget(k + 1);
          return;
        }
        p := p.next;
        k := k + 1;
      }
    }

    /** The UDP branch of salnetconn_connect: pick a port, start the module, then bind.
        started is what sal_module_start answers. */
    method ConnectUdp(pcb: Pcb, started: bool, rand: nat) returns (err: Err)
      requires Valid()
      modifies this, pcb
      ensures Valid()
      ensures err == (if !started then ErrModule
                      else if old(pcb.localPort) == 0 && (forall p: nat :: InRange(p) ==> p in old(Held())) then ErrBuf
                      else Ok)
      ensures err != Ok || old(pcb.localPort) != 0 ==> pcbs == old(pcbs) && unchanged(pcb)
      ensures err == Ok && old(pcb.localPort) == 0 ==>
        && pcbs == [pcb] + old(pcbs)
        && SearchFrom(StartOf(old(cursor), rand), old(Held()), pcb.localPort, cursor)
      ensures forall b :: b in old(pcbs) && b != pcb ==> b.localPort == old(b.localPort)
    {
      var port := pcb.localPort;
      if pcb.localPort == 0 {
        port := NewPort(rand);
      }
      if !started {
        return ErrModule;
      }
      if pcb.localPort == 0 {
        assert port != 0 ==> !HeldByOther(pcb, port);
        err := Bind(pcb, port, rand);
        return err;
      }
      return Ok;
    }

    /** Any run of binds, UDP connects and removals over the blocks of a program leaves
        the list acyclic and free of duplicates, with pairwise distinct ports. */
    method Run(ops: seq<Op>, ghost blocks: set<Pcb>)
      requires Valid() && (forall b :: b in pcbs ==> b in blocks)
      requires forall op :: op in ops ==> op.pcb in blocks
      requires forall op :: op in ops && op.BindOp? ==> op.port <= 0xffff
      modifies this, blocks
      ensures Valid() && forall b :: b in pcbs ==> b in blocks
    {
      for i := 0 to |ops|
        invariant Valid() && forall b :: b in pcbs ==> b in blocks
      {
        match ops[i]
        case BindOp(pcb, port, rand) => var _ := Bind(pcb, port, rand);
        case ConnectOp(pcb, started, rand) => var _ := ConnectUdp(pcb, started, rand);
        case RemoveOp(pcb) => Remove(pcb);
      }
    }
  }

  datatype Op =
    | BindOp(pcb: Pcb, port: nat, rand: nat)
    | ConnectOp(pcb: Pcb, started: bool, rand: nat)
    | RemoveOp(pcb: Pcb)

  // ----- running out of ports takes one block per port

  function Elements(ports: seq<nat>): set<nat> {
    set p | p in ports
  }

  lemma {:induction false} FewerElements(ports: seq<nat>)
    ensures |Elements(ports)| <= |ports|
  {
    if ports != [] {
      FewerElements(ports[1..]);
      assert Elements(ports) == Elements(ports[1..]) + {ports[0]};
    }
  }

  /** The first n ports of the range. */
  function Lowest(n: nat): (s: set<nat>)
    ensures |s| == n && forall p :: p in s <==> RANGE_START <= p < RANGE_START + n
  {
    if n == 0 then {} else Lowest(n - 1) + {RANGE_START + n - 1}
  }

  /** A list that holds the whole range has at least as many blocks as the range has
      ports. */
  lemma ExhaustionNeedsEveryPort(ports: seq<nat>)
    requires forall p: nat :: InRange(p) ==> p in ports
    ensures |ports| >= 16384
  {
    FewerElements(ports);
    var n := RANGE_SIZE;
    SubsetSize(Lowest(n), Elements(ports));
  }
}
