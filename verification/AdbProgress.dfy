/**
 adb streams come to rest: whatever has been read arrives once the descriptors accept it.
 */
module AdbProgress {
  import opened CText
  import opened Numbers
  import opened Octets
  import opened AdbStream
  import opened AdbStreamProofs

  // ---- the work that is left ----

  /** The packets that one packet may still cause, and the queue it may fill. */
  function Weight(p: Packet): nat {
    match p
    case Open(_) => 2
    case Okay(_, _) => 1
    case Wrte(_, _, _) => 3
  }

  function Load(w: seq<Packet>): nat {
    if w == [] then 0 else Weight(w[0]) + Load(w[1..])
  }

  /** The sockets with something queued. */
  function Busy(socks: map<Addr, Sock>): set<Addr> {
    set a | a in socks && socks[a].queue != []
  }

  function Work(st: State): nat
    requires Shape(st)
  {
    Load(st.wire[0]) + Load(st.wire[1]) + 2 * |Busy(st.socks)|
  }

  lemma {:induction false} LoadSnoc(w: seq<Packet>, p: Packet)
    ensures Load(w + [p]) == Load(w) + Weight(p)
  {
    if w == [] {
      assert w + [p] == [p];
    } else {
      assert (w + [p])[1..] == w[1..] + [p];
      LoadSnoc(w[1..], p);
    }
  }

  lemma SendWork(st: State, h: nat, p: Packet)
    requires Shape(st) && IsEnd(h)
    ensures Work(Send(st, h, p)) == Work(st) + Weight(p)
  {
    LoadSnoc(st.wire[h], p);
  }

  lemma PopWork(st: State, h: nat)
    requires Shape(st) && IsEnd(h) && st.wire[h] != []
    ensures Work(Popped(st, h)) == Work(st) - Weight(st.wire[h][0])
  {
  }

  /** Whether there is something queued at a place. */
  function Queued(socks: map<Addr, Sock>, a: Addr): nat {
    Unit(a in socks && socks[a].queue != [])
  }

  lemma PutWork(st: State, a: Addr, s: Sock)
    requires Shape(st) && IsEnd(a.host)
    ensures Work(Put(st, a, s)) + 2 * Queued(st.socks, a) == Work(st) + 2 * Unit(s.queue != [])
  {
    var others := Busy(st.socks) - {a};
    assert Busy(st.socks) == if Queued(st.socks, a) == 1 then others + {a} else others;
    assert Busy(st.socks[a := s]) == if s.queue != [] then others + {a} else others;
  }

  // ---- every packet handled and every queue emptied lowers it ----

  lemma OpenWork(st: State, h: nat, r: nat)
    requires Shape(st) && IsEnd(h) && Addr(h, st.next[h]) !in st.socks
    ensures Work(HandleOpen(st, h, r)) == Work(st) + 1
  {
    hide Work;
    var j, o := st.next[h], Addr(Other(h), r);
    var st1 := Put(st, Addr(h, j), FRESH.(peer := Some(r), wantRead := true, far := Some(r)));
    PutWork(st, Addr(h, j), FRESH.(peer := Some(r), wantRead := true, far := Some(r)));
    var st2 := st1;
    if o in st1.socks {
      PutWork(st1, o, st1.socks[o].(far := Some(j)));
      st2 := Put(st1, o, st1.socks[o].(far := Some(j)));
    }
    var st3 := st2.(next := st.next[h := j + 1]);
    SameWork(st2, st3);
    SendWork(st3, Other(h), Okay(j, r));
  }

  lemma SameWork(st: State, st': State)
    requires Shape(st) && Shape(st') && st'.socks == st.socks && st'.wire == st.wire
    ensures Work(st') == Work(st)
  {
  }

  lemma WrteWork(st: State, h: nat, r: nat, i: nat, data: Bytes, k: nat)
    requires Shape(st) && IsEnd(h) && k <= |data|
    ensures Work(HandleWrte(st, h, r, i, data, k)) <= Work(st) + 2
  {
    hide Work;
    var a := Addr(h, i);
    if a in st.socks {
      var s := st.socks[a];
      var st1 := Put(st, a, Enqueue(s, data, k));
      PutWork(st, a, Enqueue(s, data, k));
      if Ready(s, data, k) {
        SendWork(st1, Other(h), Okay(i, r));
      }
    }
  }

  /** Every packet that is handled lowers the work, however much of its data is accepted. */
  lemma DeliverLowers(st: State, h: nat, k: nat)
    requires Inv(st) && Enabled(st, DoDeliver(h, k))
    ensures Work(Apply(st, DoDeliver(h, k))) < Work(st)
  {
    hide Work, Wires, SockInv;
    var mid := Popped(st, h);
    NewSocket(st, h);
    PopWork(st, h);
    match st.wire[h][0]
    case Open(r) => OpenWork(mid, h, r);
    case Okay(r, i) =>
      var a := Addr(h, i);
      if a in mid.socks {
        var s := mid.socks[a];
        PutWork(mid, a, s.(peer := if s.peer.None? then Some(r) else s.peer, wantRead := true));
      }
    case Wrte(r, i, data) => WrteWork(mid, h, r, i, data, k);
  }

  /** What a write event leaves of a queue of one packet. */
  lemma DrainOne(q: Bytes, k: nat)
    requires k <= |q|
    ensures Concat([q]) == q && Drain([q], k) == if k == |q| then [] else [q[k..]]
  {
    assert Concat([q]) == q + Concat([]) == q;
    assert [q][1..] == [] && [q[k..]] + [] == [q[k..]];
  }

  lemma ConcatNothing()
    ensures Concat([]) == []
  {
  }

  /** A socket that waits to write has one packet queued, and knows its peer. */
  lemma BusySocket(st: State, a: Addr) returns (q: Bytes)
    requires Inv(st) && a in st.socks && st.socks[a].wantWrite
    ensures st.socks[a].queue == [q] && q != [] && st.socks[a].peer.Some?
  {
    hide Wires, InboxOf, OpensOf, Credits, Sent;
    assert SockInv(st, a);
    q := st.socks[a].queue[0];
  }

  /** A write event that accepts the whole queue lowers the work; any other shortens the queue and changes nothing else. */
  lemma WriteLowers(st: State, a: Addr, k: nat)
    requires Inv(st) && Enabled(st, DoWrite(a, k))
    ensures var q, st' := Concat(st.socks[a].queue), Apply(st, DoWrite(a, k));
            && a in st'.socks && Concat(st'.socks[a].queue) == q[k..]
            && (k == |q| ==> Work(st') < Work(st))
            && (k < |q| ==> Work(st') == Work(st) && st' == Put(st, a, st'.socks[a]))
  {
    hide Work, Drain, Concat, Wires, SockInv;
    var q := BusySocket(st, a);
    var s := st.socks[a];
    DrainOne(q, 0);
    DrainOne(q, k);
    DrainOne(q[k..], 0);
    ConcatNothing();
    var s' := WriteEvent(s, k);
    assert k == |q| ==> q[k..] == [];
    PutWork(st, a, s');
    if k == |q| {
      SendWork(Put(st, a, s'), Other(a.host), Okay(a.id, s'.peer.value));
    }
  }

  // ---- coming to rest ----

  /** A step that accepts all it is offered, and takes nothing new. */
  predicate Full(st: State, step: Step)
    requires Shape(st) && Enabled(st, step)
  {
    match step
    case DoDeliver(h, k) => st.wire[h][0].Wrte? ==> k == |st.wire[h][0].data|
    case DoWrite(a, k) => k == |Concat(st.socks[a].queue)|
    case _ => false
  }

  function DeliverAll(st: State, h: nat): Step
    requires Shape(st) && IsEnd(h) && st.wire[h] != []
  {
    DoDeliver(h, match st.wire[h][0] case Wrte(_, _, data) => |data| case _ => 0)
  }

  lemma FullLowers(st: State, step: Step)
    requires Inv(st) && Enabled(st, step) && Full(st, step)
    ensures Work(Apply(st, step)) < Work(st)
  {
    hide Work, Write, Deliver, Wires, SockInv;
    match step
    case DoDeliver(h, k) => DeliverLowers(st, h, k);
    case DoWrite(a, k) => WriteLowers(st, a, k);
  }

  /** A linked stream is never stuck: its sender may read, or some step that accepts all it is offered lowers the work. */
  lemma NeverStuck(st: State, a: Addr) returns (step: Step)
    requires Inv(st) && a in st.socks && st.socks[a].far.Some?
    ensures Enabled(st, step) && (step.DoWrite? ==> step.a == FarAddr(a, st.socks[a]))
    ensures step == DoRead(a, [0]) || (Full(st, step) && Work(Apply(st, step)) < Work(st))
  {
    hide Stream, To, Concat, Apply, Work, Wires, SockInv;
    var b := StreamOf(st, a);
    CreditSomewhere(a, b, st.socks[a], st.socks[b], InboxOf(st, a), InboxOf(st, b));
    EmptyWire(a.id);
    EmptyWire(b.id);
    if st.socks[a].wantRead {
      return DoRead(a, [0]);
    }
    step := if st.socks[b].wantWrite then DoWrite(b, |Concat(st.socks[b].queue)|)
            else if st.wire[a.host] != [] then DeliverAll(st, a.host)
            else DeliverAll(st, b.host);
    FullLowers(st, step);
  }

  /** While work is left, some such step can be taken. */
  lemma WorkGoesOn(st: State) returns (step: Step)
    requires Inv(st) && Work(st) > 0
    ensures Enabled(st, step) && Full(st, step)
  {
    hide Wires, InboxOf, OpensOf, Linked;
    if st.wire[0] != [] {
      return DeliverAll(st, 0);
    }
    if st.wire[1] != [] {
      return DeliverAll(st, 1);
    }
    var a :| a in Busy(st.socks);
    assert SockInv(st, a);
    return DoWrite(a, |Concat(st.socks[a].queue)|);
  }

  /** Nothing is read or connected between the two states. */
  predicate SameIntake(st: State, st': State) {
    && st.socks.Keys <= st'.socks.Keys
    && forall a :: a in st.socks ==> st'.socks[a].taken == st.socks[a].taken
  }

  lemma FullTakesNothing(st: State, step: Step)
    requires Shape(st) && Enabled(st, step) && Full(st, step) && forall h: nat :: IsEnd(h) ==> Addr(h, st.next[h]) !in st.socks
    ensures SameIntake(st, Apply(st, step))
  {
    hide Drain, Concat;
    match step
    case DoDeliver(h, k) => DeliverTakesNothing(st, h, k);
    case DoWrite(a, k) =>
  }

  lemma DeliverTakesNothing(st: State, h: nat, k: nat)
    requires Shape(st) && Enabled(st, DoDeliver(h, k)) && Addr(h, st.next[h]) !in st.socks
    ensures SameIntake(st, Deliver(st, h, k))
  {
    hide Drain, Concat;
  }

  ghost predicate Moves(st: State, st': State) {
    Shape(st) && exists step :: Enabled(st, step) && Full(st, step) && st' == Apply(st, step)
  }

  lemma AsMove(st: State, step: Step)
    requires Shape(st) && Enabled(st, step) && Full(st, step)
    ensures Moves(st, Apply(st, step))
  {
    hide Apply, Full, Enabled;
  }

  /** Each state follows from the one before by a step that accepts all it is offered. */
  ghost predicate IsPath(path: seq<State>) {
    path != [] && forall k :: 0 <= k < |path| - 1 ==> Moves(path[k], path[k + 1])
  }

  /** At rest every socket is linked, may read, and all that it has read has been written at the other end. */
  ghost predicate AtRest(st: State, a: Addr) {
    && a in st.socks && IsEnd(a.host) && st.socks[a].far.Some? && st.socks[a].wantRead && st.socks[a].peer == st.socks[a].far
    && FarAddr(a, st.socks[a]) in st.socks && st.socks[FarAddr(a, st.socks[a])].given == st.socks[a].taken
  }

  lemma RestingPair(a: Addr, b: Addr, s: Sock, f: Sock)
    requires Stream(a, b, s, f, EMPTY, EMPTY) && s.queue == [] && f.queue == []
    ensures s.wantRead && s.peer == s.far && f.given == s.taken
  {
    assert Sent(f, EMPTY) == f.given + Concat([]) + [] == f.given;
  }

  /** Only an OPEN on the wire keeps a socket without a far end. */
  lemma LinkedAtRest(st: State, a: Addr)
    requires Inv(st) && st.wire[0] == [] && st.wire[1] == [] && a in st.socks
    ensures st.socks[a].far.Some?
  {
    hide Wires, InboxOf, Linked;
    assert SockInv(st, a);
  }

  lemma NoWork(st: State, a: Addr)
    requires Shape(st) && Work(st) == 0
    ensures st.wire[0] == [] && st.wire[1] == [] && (a in st.socks ==> st.socks[a].queue == [])
  {
    assert a !in Busy(st.socks);
  }

  lemma NoWorkRests(st: State, a: Addr)
    requires Inv(st) && Work(st) == 0 && a in st.socks
    ensures AtRest(st, a)
  {
    hide Work, Stream, To, Wires, SockInv;
    NoWork(st, a);
    LinkedAtRest(st, a);
    var b := StreamOf(st, a);
    NoWork(st, b);
    EmptyWire(a.id);
    EmptyWire(b.id);
    RestingPair(a, b, st.socks[a], st.socks[b]);
  }

  /**
   From every state of every run: if the descriptors accept what they are offered, then after no more steps than there
   is work, with nothing read or connected meanwhile, every byte read so far has been written at the other end, and
   every socket may read again.
   */
  lemma {:induction false} Settles(st: State) returns (path: seq<State>)
    requires Inv(st)
    ensures IsPath(path) && path[0] == st && |path| <= Work(st) + 1
    ensures var last := path[|path| - 1];
            Inv(last) && SameIntake(st, last) && forall a :: a in last.socks ==> AtRest(last, a)
    decreases Work(st)
  {
    hide Work, Apply, AtRest, Enabled, Full, Moves, Wires, SockInv;
    if Work(st) == 0 {
      forall a | a in st.socks ensures AtRest(st, a) { NoWorkRests(st, a); }
      path := [st];
    } else {
      var step := WorkGoesOn(st);
      NewSockets(st);
      FullLowers(st, step);
      FullTakesNothing(st, step);
      StepKeepsInv(st, step);
      var rest := Settles(Apply(st, step));
      path := [st] + rest;
      AsMove(st, step);
      forall k | 0 <= k < |path| - 1 ensures Moves(path[k], path[k + 1]) {
        if k > 0 {
          assert Moves(rest[k - 1], rest[k - 1 + 1]);
        }
      }
    }
  }

  lemma NewSockets(st: State)
    requires Inv(st)
    ensures forall h: nat :: IsEnd(h) ==> Addr(h, st.next[h]) !in st.socks
  {
    forall h: nat | IsEnd(h) ensures Addr(h, st.next[h]) !in st.socks { NewSocket(st, h); }
  }
}
