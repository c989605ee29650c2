/**
 Every run of adb streams: one credit per direction, and bytes delivered in order.
 */
module AdbStreamProofs {
  import opened CText
  import opened Numbers
  import opened Octets
  import opened AdbStream

  /** What is on the wire for one id: OKAYs, WRTEs, their bytes, and whether an OKAY comes first. */
  datatype Inbox = Inbox(okays: nat, wrtes: nat, data: Bytes, okayFirst: bool)

  predicate IsTo(p: Packet, i: nat) {
    !p.Open? && p.arg1 == i
  }

  const EMPTY := Inbox(0, 0, [], false)

  /** A packet for the id put before what is already on the wire. */
  function Prepend(p: Packet, b: Inbox): Inbox
    requires !p.Open?
  {
    if p.Okay? then Inbox(b.okays + 1, b.wrtes, b.data, true)
    else Inbox(b.okays, b.wrtes + 1, p.data + b.data, false)
  }

  function To(w: seq<Packet>, i: nat): Inbox {
    if w == [] then EMPTY
    else if IsTo(w[0], i) then Prepend(w[0], To(w[1..], i))
    else To(w[1..], i)
  }

  /** A packet for the id sent after what is already on the wire. */
  function Extend(b: Inbox, p: Packet): Inbox
    requires !p.Open?
  {
    if p.Okay? then Inbox(b.okays + 1, b.wrtes, b.data, b.okayFirst || b == EMPTY)
    else Inbox(b.okays, b.wrtes + 1, b.data + p.data, b.okayFirst)
  }

  lemma {:induction false} ToSnoc(w: seq<Packet>, p: Packet, i: nat)
    ensures To(w + [p], i) == if IsTo(p, i) then Extend(To(w, i), p) else To(w, i)
    ensures To(w, i).okays + To(w, i).wrtes == 0 ==> To(w, i) == EMPTY
  {
    if w == [] {
      assert w + [p] == [p] && To([], i) == EMPTY;
      assert IsTo(p, i) && p.Wrte? ==> p.data + [] == [] + p.data;
    } else {
      assert (w + [p])[1..] == w[1..] + [p];
      ToSnoc(w[1..], p, i);
      if w[0].Wrte? && IsTo(w[0], i) && IsTo(p, i) && p.Wrte? {
        assert w[0].data + (To(w[1..], i).data + p.data) == w[0].data + To(w[1..], i).data + p.data;
      }
    }
  }

  /** How many OPENs of the id are on the wire. */
  function Opens(w: seq<Packet>, i: nat): nat {
    if w == [] then 0 else (if w[0] == Open(i) then 1 else 0) + Opens(w[1..], i)
  }

  lemma {:induction false} OpensSnoc(w: seq<Packet>, p: Packet, i: nat)
    ensures Opens(w + [p], i) == Opens(w, i) + if p == Open(i) then 1 else 0
  {
    if w == [] {
      assert w + [p] == [p];
    } else {
      assert (w + [p])[1..] == w[1..] + [p];
      OpensSnoc(w[1..], p, i);
    }
  }

  /** What the wires hold for a socket: packets to it, and its OPEN. */
  function InboxOf(st: State, a: Addr): Inbox
    requires Shape(st) && IsEnd(a.host)
  {
    To(st.wire[a.host], a.id)
  }

  function OpensOf(st: State, a: Addr): nat
    requires Shape(st) && IsEnd(a.host)
  {
    Opens(st.wire[Other(a.host)], a.id)
  }

  function FarAddr(a: Addr, s: Sock): Addr
    requires IsEnd(a.host) && s.far.Some?
  {
    Addr(Other(a.host), s.far.value)
  }

  /** A queue and its write event. */
  predicate QueueInv(s: Sock) {
    && (s.wantWrite <==> s.queue != [])
    && |s.queue| <= 1
    && (s.queue != [] ==> s.queue[0] != [])
  }

  /** Before the other end has answered the OPEN. */
  predicate Unlinked(s: Sock, inbox: Inbox, opens: nat) {
    s == FRESH && inbox == EMPTY && opens == 1
  }

  /** The tokens of the direction from `s` to `f`. */
  function Credits(s: Sock, f: Sock, inbox: Inbox, farInbox: Inbox): nat {
    Unit(s.wantRead) + farInbox.wrtes + Unit(f.queue != []) + inbox.okays
  }

  /** What has left `s` and where it is: given at `f`, queued there, or on the wire. */
  function Sent(f: Sock, farInbox: Inbox): Bytes {
    f.given + Concat(f.queue) + farInbox.data
  }

  predicate Linked(a: Addr, s: Sock, f: Sock, inbox: Inbox, farInbox: Inbox, opens: nat) {
    && f.far == Some(a.id)
    && opens == 0
    && Credits(s, f, inbox, farInbox) == 1
    && Sent(f, farInbox) == s.taken
    && (s.peer.Some? ==> s.peer == s.far)
    && (s.peer.None? ==> inbox.okayFirst && !s.wantRead && s.queue == [])
  }

  predicate SockInv(st: State, a: Addr)
    requires Shape(st) && a in st.socks
  {
    var s := st.socks[a];
    && QueueInv(s)
    && a.id < st.next[a.host]
    && if s.far.None? then Unlinked(s, InboxOf(st, a), OpensOf(st, a))
       else
         var b := FarAddr(a, s);
         b in st.socks && Linked(a, s, st.socks[b], InboxOf(st, a), InboxOf(st, b), OpensOf(st, a))
  }

  /** A packet to end `h` names sockets that exist and belong together. */
  predicate PacketInv(st: State, h: nat, p: Packet)
    requires Shape(st) && IsEnd(h)
  {
    match p
    case Open(r) => Addr(Other(h), r) in st.socks && st.socks[Addr(Other(h), r)].far.None?
    case Okay(r, i) => Addr(h, i) in st.socks && st.socks[Addr(h, i)].far == Some(r)
    case Wrte(r, i, data) => Addr(h, i) in st.socks && st.socks[Addr(h, i)].far == Some(r) && data != []
  }

  predicate WireInv(st: State, h: nat)
    requires Shape(st) && IsEnd(h)
  {
    forall k :: 0 <= k < |st.wire[h]| ==> PacketInv(st, h, st.wire[h][k])
  }

  predicate Inv(st: State) {
    && Shape(st) && !st.crashed
    && Wires(st)
    && forall a :: a in st.socks ==> SockInv(st, a)
  }

  lemma InitialInv()
    ensures Inv(INITIAL)
  {
  }

  lemma {:induction false} ToNobody(w: seq<Packet>, i: nat)
    requires forall k :: 0 <= k < |w| ==> !IsTo(w[k], i)
    ensures To(w, i) == EMPTY
  {
    if w != [] {
      ToNobody(w[1..], i);
    }
  }

  lemma {:induction false} OpensNone(w: seq<Packet>, i: nat)
    ensures Opens(w, i) == 0 <==> forall k :: 0 <= k < |w| ==> w[k] != Open(i)
  {
    if w != [] {
      OpensNone(w[1..], i);
      assert w == [w[0]] + w[1..];
    }
  }

  predicate Wires(st: State)
    requires Shape(st)
  {
    WireInv(st, 0) && WireInv(st, 1)
  }

  lemma PutWires(st: State, a: Addr, s: Sock)
    requires Shape(st) && IsEnd(a.host) && Wires(st) && (a in st.socks ==> s.far == st.socks[a].far)
    ensures Wires(Put(st, a, s))
  {
    forall g, k | 0 <= g < 2 && 0 <= k < |st.wire[g]| ensures PacketInv(Put(st, a, s), g, st.wire[g][k]) {
      assert PacketInv(st, g, st.wire[g][k]);
    }
  }

  lemma SendWires(st: State, h: nat, p: Packet)
    requires Shape(st) && IsEnd(h) && Wires(st) && PacketInv(st, h, p)
    ensures Wires(Send(st, h, p))
  {
    var st' := Send(st, h, p);
    forall g, k | 0 <= g < 2 && 0 <= k < |st'.wire[g]| ensures PacketInv(st', g, st'.wire[g][k]) {
      if k < |st.wire[g]| {
        assert PacketInv(st, g, st.wire[g][k]);
      }
    }
  }

  /** The state after the packet at the head of a wire has been taken off. */
  function Popped(st: State, h: nat): State
    requires Shape(st) && IsEnd(h) && st.wire[h] != []
  {
    st.(wire := st.wire[h := st.wire[h][1..]])
  }

  lemma PopWires(st: State, h: nat)
    requires Shape(st) && IsEnd(h) && st.wire[h] != [] && Wires(st)
    ensures Wires(Popped(st, h)) && PacketInv(st, h, st.wire[h][0])
  {
    var st' := Popped(st, h);
    forall g, k | 0 <= g < 2 && 0 <= k < |st'.wire[g]| ensures PacketInv(st', g, st'.wire[g][k]) {
      assert PacketInv(st, g, if g == h then st.wire[g][k + 1] else st.wire[g][k]);
    }
  }

  /** A socket that the step does not touch. */
  predicate Untouched(st: State, st': State, a: Addr)
    requires Shape(st) && Shape(st') && a in st.socks
  {
    && a in st'.socks && st'.socks[a] == st.socks[a]
    && InboxOf(st', a) == InboxOf(st, a) && OpensOf(st', a) == OpensOf(st, a)
  }

  lemma UntouchedKept(st: State, st': State, a: Addr)
    requires Inv(st) && Shape(st') && a in st.socks && Untouched(st, st', a)
    requires st.next[a.host] <= st'.next[a.host]
    requires st.socks[a].far.Some? ==> Untouched(st, st', FarAddr(a, st.socks[a]))
    ensures SockInv(st', a)
  {
    assert SockInv(st, a);
  }

  /** Nothing on the wires concerns a socket yet to be made. */
  lemma NewSocket(st: State, h: nat)
    requires Inv(st) && IsEnd(h)
    ensures Addr(h, st.next[h]) !in st.socks
    ensures InboxOf(st, Addr(h, st.next[h])) == EMPTY && OpensOf(st, Addr(h, st.next[h])) == 0
    ensures forall a :: a in st.socks && st.socks[a].far.Some? ==> FarAddr(a, st.socks[a]) != Addr(h, st.next[h])
  {
    var i := st.next[h];
    var a := Addr(h, i);
    assert a in st.socks ==> SockInv(st, a);
    forall k | 0 <= k < |st.wire[h]| ensures !IsTo(st.wire[h][k], i) {
      assert PacketInv(st, h, st.wire[h][k]);
    }
    ToNobody(st.wire[h], i);
    forall k | 0 <= k < |st.wire[Other(h)]| ensures st.wire[Other(h)][k] != Open(i) {
      assert PacketInv(st, Other(h), st.wire[Other(h)][k]);
    }
    OpensNone(st.wire[Other(h)], i);
    forall b | b in st.socks && st.socks[b].far.Some? ensures FarAddr(b, st.socks[b]) != a {
      assert SockInv(st, b);
    }
  }

  /** An OPEN sent reaches no inbox and counts for its sender only. */
  lemma SendOpen(st: State, a: Addr)
    requires Shape(st) && IsEnd(a.host)
    ensures var st' := Send(st, Other(a.host), Open(a.id));
            && (forall c: Addr :: IsEnd(c.host) ==> InboxOf(st', c) == InboxOf(st, c))
            && (forall c: Addr :: IsEnd(c.host) && c != a ==> OpensOf(st', c) == OpensOf(st, c))
            && OpensOf(st', a) == OpensOf(st, a) + 1
  {
    var o := Other(a.host);
    forall c: Addr | IsEnd(c.host)
      ensures InboxOf(Send(st, o, Open(a.id)), c) == InboxOf(st, c)
      ensures OpensOf(Send(st, o, Open(a.id)), c) == OpensOf(st, c) + Unit(c == a)
    {
      ToSnoc(st.wire[o], Open(a.id), c.id);
      OpensSnoc(st.wire[o], Open(a.id), c.id);
    }
  }

  /** What a connect leaves as it was: every other socket, and what the wires hold for it. */
  lemma ConnectTouches(st: State, h: nat, a: Addr)
    requires Inv(st) && IsEnd(h) && a in st.socks
    ensures Shape(Connect(st, h)) && a != Addr(h, st.next[h]) && Untouched(st, Connect(st, h), a)
  {
    hide Linked, Wires, SockInv, To, Opens;
    var made := Addr(h, st.next[h]);
    var st1 := Put(st, made, FRESH).(next := st.next[h := st.next[h] + 1]);
    NewSocket(st, h);
    SameWires(st, st1);
    SendOpen(st1, made);
  }

  lemma ConnectMakes(st: State, h: nat)
    requires Inv(st) && IsEnd(h)
    ensures Shape(Connect(st, h)) && Addr(h, st.next[h]) in Connect(st, h).socks && SockInv(Connect(st, h), Addr(h, st.next[h]))
  {
    hide Linked, Wires, InboxOf, OpensOf;
    var made := Addr(h, st.next[h]);
    var st1 := Put(st, made, FRESH).(next := st.next[h := st.next[h] + 1]);
    NewSocket(st, h);
    SameWires(st, st1);
    SendOpen(st1, made);
  }

  lemma ConnectWires(st: State, h: nat)
    requires Inv(st) && IsEnd(h)
    ensures Shape(Connect(st, h)) && Wires(Connect(st, h))
  {
    hide Linked, Wires, SockInv;
    var made := Addr(h, st.next[h]);
    var st1 := Put(st, made, FRESH).(next := st.next[h := st.next[h] + 1]);
    NewSocket(st, h);
    PutWires(st, made, FRESH);
    NextWires(Put(st, made, FRESH), st1);
    SendWires(st1, Other(h), Open(made.id));
  }

  lemma ConnectKeepsInv(st: State, h: nat)
    requires Inv(st) && IsEnd(h)
    ensures Inv(Connect(st, h))
  {
    hide InboxOf, OpensOf, Linked, Wires, Untouched;
    var st' := Connect(st, h);
    ConnectWires(st, h);
    ConnectMakes(st, h);
    forall a | a in st'.socks
      ensures SockInv(st', a)
    {
      if a in st.socks {
        assert SockInv(st, a);
        ConnectTouches(st, h, a);
        if st.socks[a].far.Some? {
          ConnectTouches(st, h, FarAddr(a, st.socks[a]));
        }
        UntouchedKept(st, st', a);
      }
    }
  }

  lemma SameWires(st: State, st': State)
    requires Shape(st) && Shape(st') && st'.wire == st.wire
    ensures forall c: Addr :: IsEnd(c.host) ==> InboxOf(st', c) == InboxOf(st, c)
    ensures forall c: Addr :: IsEnd(c.host) ==> OpensOf(st', c) == OpensOf(st, c)
  {
  }

  lemma NextWires(st: State, st': State)
    requires Shape(st) && Shape(st') && st'.socks == st.socks && st'.wire == st.wire
    ensures Wires(st) ==> Wires(st')
  {
    assert forall g, p :: IsEnd(g) && PacketInv(st, g, p) ==> PacketInv(st', g, p);
  }

  /** The two sockets of one stream. */
  predicate Pair(st: State, a: Addr, b: Addr) {
    && Shape(st) && a in st.socks && b in st.socks
    && st.socks[a].far == Some(b.id) && st.socks[b].far == Some(a.id) && b.host == Other(a.host)
  }

  lemma PairOf(st: State, a: Addr) returns (b: Addr)
    requires Inv(st) && a in st.socks && st.socks[a].far.Some?
    ensures b == FarAddr(a, st.socks[a]) && Pair(st, a, b)
  {
    b := FarAddr(a, st.socks[a]);
    assert SockInv(st, a);
  }

  /** The wires hold the same for every socket but `a` and `b`. */
  ghost predicate Apart(st: State, st': State, a: Addr, b: Addr)
    requires Shape(st) && Shape(st')
  {
    && (forall c: Addr :: IsEnd(c.host) && c != a && c != b ==> InboxOf(st', c) == InboxOf(st, c))
    && (forall c: Addr :: IsEnd(c.host) ==> OpensOf(st', c) == OpensOf(st, c))
  }

  lemma ApartThrough(st: State, mid: State, st': State, a: Addr, b: Addr)
    requires Shape(st) && Shape(mid) && Shape(st') && Apart(st, mid, a, b) && Apart(mid, st', a, b)
    ensures Apart(st, st', a, b)
  {
    hide InboxOf, OpensOf;
  }

  lemma PutApart(st: State, a: Addr, b: Addr, s: Sock)
    requires Shape(st) && IsEnd(a.host)
    ensures Apart(st, Put(st, a, s), a, b)
    ensures forall c: Addr :: IsEnd(c.host) ==> InboxOf(Put(st, a, s), c) == InboxOf(st, c)
  {
  }

  /** A packet sent within a stream reaches only its addressee's inbox. */
  lemma SendApart(st: State, a: Addr, b: Addr, p: Packet)
    requires Shape(st) && IsEnd(b.host) && IsTo(p, b.id)
    ensures Apart(st, Send(st, b.host, p), a, b)
    ensures InboxOf(Send(st, b.host, p), b) == Extend(InboxOf(st, b), p)
    ensures IsEnd(a.host) && a != b ==> InboxOf(Send(st, b.host, p), a) == InboxOf(st, a)
  {
    forall c: Addr | IsEnd(c.host)
      ensures InboxOf(Send(st, b.host, p), c) == if c == b then Extend(InboxOf(st, b), p) else InboxOf(st, c)
      ensures OpensOf(Send(st, b.host, p), c) == OpensOf(st, c)
    {
      ToSnoc(st.wire[b.host], p, c.id);
      OpensSnoc(st.wire[b.host], p, c.id);
    }
  }

  /** A packet taken off the wire leaves only its addressee's inbox. */
  lemma PopApart(st: State, a: Addr, b: Addr)
    requires Shape(st) && IsEnd(a.host) && st.wire[a.host] != [] && IsTo(st.wire[a.host][0], a.id)
    ensures Apart(st, Popped(st, a.host), a, b)
    ensures InboxOf(st, a) == Prepend(st.wire[a.host][0], InboxOf(Popped(st, a.host), a))
    ensures IsEnd(b.host) && a != b ==> InboxOf(Popped(st, a.host), b) == InboxOf(st, b)
  {
  }

  /** Both directions of a stream. */
  predicate Stream(a: Addr, b: Addr, s: Sock, f: Sock, inbox: Inbox, farInbox: Inbox) {
    && QueueInv(s) && QueueInv(f) && s.far == Some(b.id) && f.far == Some(a.id)
    && Linked(a, s, f, inbox, farInbox, 0) && Linked(b, f, s, farInbox, inbox, 0)
  }

  predicate StreamInv(st: State, a: Addr, b: Addr)
    requires Pair(st, a, b)
  {
    && Stream(a, b, st.socks[a], st.socks[b], InboxOf(st, a), InboxOf(st, b))
    && OpensOf(st, a) == 0 && OpensOf(st, b) == 0
  }

  /** What the invariant says of a socket with a far end. */
  lemma HalfOf(st: State, a: Addr, b: Addr)
    requires Shape(st) && Pair(st, a, b) && SockInv(st, a)
    ensures QueueInv(st.socks[a]) && OpensOf(st, a) == 0
    ensures Linked(a, st.socks[a], st.socks[b], InboxOf(st, a), InboxOf(st, b), 0)
  {
    hide InboxOf, OpensOf, QueueInv, Credits, Sent;
  }

  lemma StreamOf(st: State, a: Addr) returns (b: Addr)
    requires Inv(st) && a in st.socks && st.socks[a].far.Some?
    ensures b == FarAddr(a, st.socks[a]) && Pair(st, a, b) && StreamInv(st, a, b) && a != b
  {
    b := PairOf(st, a);
    assert SockInv(st, a) && SockInv(st, b);
    hide InboxOf, OpensOf, Linked, Wires, QueueInv, SockInv;
    HalfOf(st, a, b);
    HalfOf(st, b, a);
  }

  /** A step within a stream that keeps the stream's own invariant keeps the whole one. */
  lemma StreamStep(st: State, st': State, a: Addr, b: Addr, s: Sock)
    requires Inv(st) && Pair(st, a, b) && StreamInv(st, a, b) && Shape(st') && !st'.crashed && Wires(st')
    requires st'.next == st.next && st'.socks == st.socks[a := s] && a != b && Apart(st, st', a, b)
    requires Stream(a, b, s, st.socks[b], InboxOf(st', a), InboxOf(st', b))
    ensures Inv(st')
  {
    hide InboxOf, OpensOf, Linked, Wires, QueueInv;
    assert SockInv(st, a) && SockInv(st, b);
    assert FarAddr(b, st'.socks[b]) == a && FarAddr(a, s) == b;
    forall c | c in st'.socks ensures SockInv(st', c) {
      if c == a || c == b {
      } else {
        assert SockInv(st, c);
        if st.socks[c].far.Some? {
          var d := PairOf(st, c);
          assert d != a && d != b;
        }
        UntouchedKept(st, st', c);
      }
    }
  }

  /** The same with a packet sent to the other end. */
  lemma StreamSend(st: State, mid: State, a: Addr, b: Addr, s: Sock, p: Packet)
    requires Inv(st) && Pair(st, a, b) && StreamInv(st, a, b) && Shape(mid) && !mid.crashed && Wires(mid)
    requires mid.next == st.next && mid.socks == st.socks[a := s] && a != b && Apart(st, mid, a, b)
    requires IsTo(p, b.id) && PacketInv(mid, b.host, p)
    requires Stream(a, b, s, st.socks[b], InboxOf(mid, a), Extend(InboxOf(mid, b), p))
    ensures Inv(Send(mid, b.host, p))
  {
    hide InboxOf, OpensOf, Linked, Wires, QueueInv, Apart, Stream;
    SendWires(mid, b.host, p);
    SendApart(mid, a, b, p);
    ApartThrough(st, mid, Send(mid, b.host, p), a, b);
    StreamStep(st, Send(mid, b.host, p), a, b, s);
  }

  lemma ReadPair(a: Addr, b: Addr, s: Sock, f: Sock, inbox: Inbox, farInbox: Inbox, data: Bytes)
    requires Stream(a, b, s, f, inbox, farInbox) && s.wantRead
    ensures s.peer == Some(b.id)
    ensures Stream(a, b, s.(taken := s.taken + data, wantRead := false), f, inbox,
                   Extend(farInbox, Wrte(a.id, b.id, data)))
  {
    assert Sent(f, farInbox) + data == Sent(f, Extend(farInbox, Wrte(a.id, b.id, data)));
  }

  lemma ReadKeepsInv(st: State, a: Addr, data: Bytes)
    requires Inv(st) && Enabled(st, DoRead(a, data))
    ensures Inv(Read(st, a, data))
  {
    hide InboxOf, OpensOf, Linked, Wires, Stream, Apart;
    assert SockInv(st, a);
    var b := StreamOf(st, a);
    var s := st.socks[a];
    ReadPair(a, b, s, st.socks[b], InboxOf(st, a), InboxOf(st, b), data);
    var s' := s.(taken := s.taken + data, wantRead := false);
    PutWires(st, a, s');
    PutApart(st, a, b, s');
    StreamSend(st, Put(st, a, s'), a, b, s', Wrte(a.id, b.id, data));
  }

  lemma WritePair(a: Addr, b: Addr, s: Sock, f: Sock, inbox: Inbox, farInbox: Inbox, k: nat)
    requires Stream(a, b, s, f, inbox, farInbox) && s.wantWrite && k <= |Concat(s.queue)|
    ensures var s' := WriteEvent(s, k);
            if s'.queue != [] then Stream(a, b, s', f, inbox, farInbox)
            else s.peer == Some(b.id) && Stream(a, b, s', f, inbox, Extend(farInbox, Okay(a.id, b.id)))
  {
    var s' := WriteEvent(s, k);
    DrainKeepsBytes(s.queue, k);
    assert s'.given + Concat(s'.queue) == s.given + (Concat(s.queue)[..k] + Concat(s'.queue));
    hide Drain;
  }

  lemma WriteKeepsInv(st: State, a: Addr, k: nat)
    requires Inv(st) && Enabled(st, DoWrite(a, k))
    ensures Inv(Write(st, a, k))
  {
    hide InboxOf, OpensOf, Linked, Wires, Stream, Apart, Concat, Drain;
    assert SockInv(st, a);
    var b := StreamOf(st, a);
    WritePair(a, b, st.socks[a], st.socks[b], InboxOf(st, a), InboxOf(st, b), k);
    var s' := WriteEvent(st.socks[a], k);
    PutWires(st, a, s');
    PutApart(st, a, b, s');
    if s'.queue != [] {
      StreamStep(st, Put(st, a, s'), a, b, s');
    } else {
      StreamSend(st, Put(st, a, s'), a, b, s', Okay(a.id, b.id));
    }
  }

  lemma OkayPair(a: Addr, b: Addr, s: Sock, f: Sock, inbox: Inbox, farInbox: Inbox)
    requires Stream(a, b, s, f, Prepend(Okay(b.id, a.id), inbox), farInbox)
    ensures Stream(a, b, s.(peer := if s.peer.None? then Some(b.id) else s.peer, wantRead := true), f, inbox, farInbox)
  {
  }

  lemma OkayKeepsInv(st: State, h: nat, k: nat)
    requires Inv(st) && Enabled(st, DoDeliver(h, k)) && st.wire[h][0].Okay?
    ensures Inv(Deliver(st, h, k))
  {
    hide InboxOf, OpensOf, Linked, Wires, Stream, Apart;
    var p, mid := st.wire[h][0], Popped(st, h);
    PopWires(st, h);
    var a := Addr(h, p.arg1);
    var b := StreamOf(st, a);
    PopApart(st, a, b);
    OkayPair(a, b, st.socks[a], st.socks[b], InboxOf(mid, a), InboxOf(st, b));
    var s := st.socks[a];
    var s' := s.(peer := if s.peer.None? then Some(p.arg0) else s.peer, wantRead := true);
    PutWires(mid, a, s');
    PutApart(mid, a, b, s');
    ApartThrough(st, mid, Put(mid, a, s'), a, b);
    StreamStep(st, Put(mid, a, s'), a, b, s');
  }

  lemma WrteLinks(a: Addr, b: Addr, s: Sock, f: Sock, inbox: Inbox, farInbox: Inbox, data: Bytes)
    requires Stream(a, b, s, f, Prepend(Wrte(b.id, a.id, data), inbox), farInbox)
    ensures s.queue == [] && s.peer == Some(b.id) && !f.wantRead && farInbox.okays == 0 && inbox.wrtes == 0
    ensures s.given + data + inbox.data == f.taken
  {
    assert Concat([]) == [];
    assert s.given + [] + (data + inbox.data) == s.given + data + inbox.data;
  }

  lemma WrtePair(a: Addr, b: Addr, s: Sock, f: Sock, inbox: Inbox, farInbox: Inbox, data: Bytes, k: nat)
    requires Stream(a, b, s, f, Prepend(Wrte(b.id, a.id, data), inbox), farInbox)
    requires data != [] && k <= |data|
    ensures var s' := Enqueue(s, data, k);
            if Ready(s, data, k) then Stream(a, b, s', f, inbox, Extend(farInbox, Okay(a.id, b.id)))
            else Stream(a, b, s', f, inbox, farInbox)
  {
    WrteLinks(a, b, s, f, inbox, farInbox, data);
    var s' := Enqueue(s, data, k);
    assert s'.given + Concat(s'.queue) == s.given + data by {
      assert Concat([]) == [] && Concat([data[k..]]) == data[k..] + Concat([]);
      assert data[..k] + data[k..] == data;
      assert data[k..] + [] == data[k..];
    }
    hide Concat;
  }

  lemma WrteKeepsInv(st: State, h: nat, k: nat)
    requires Inv(st) && Enabled(st, DoDeliver(h, k)) && st.wire[h][0].Wrte?
    ensures Inv(Deliver(st, h, k))
  {
    hide InboxOf, OpensOf, Linked, Wires, Stream, Apart, Ready;
    var p, mid := st.wire[h][0], Popped(st, h);
    PopWires(st, h);
    var a := Addr(h, p.arg1);
    var b := StreamOf(st, a);
    PopApart(st, a, b);
    WrtePair(a, b, st.socks[a], st.socks[b], InboxOf(mid, a), InboxOf(st, b), p.data, k);
    var s' := Enqueue(st.socks[a], p.data, k);
    PutWires(mid, a, s');
    PutApart(mid, a, b, s');
    ApartThrough(st, mid, Put(mid, a, s'), a, b);
    if Ready(st.socks[a], p.data, k) {
      StreamSend(st, Put(mid, a, s'), a, b, s', Okay(a.id, b.id));
    } else {
      StreamStep(st, Put(mid, a, s'), a, b, s');
    }
  }

  /** An OPEN taken off the wire. */
  lemma PopOpen(st: State, h: nat, r: nat)
    requires Shape(st) && IsEnd(h) && st.wire[h] != [] && st.wire[h][0] == Open(r)
    ensures var mid := Popped(st, h);
            && (forall c: Addr :: IsEnd(c.host) ==> InboxOf(mid, c) == InboxOf(st, c))
            && (forall c: Addr :: IsEnd(c.host) && c != Addr(Other(h), r) ==> OpensOf(mid, c) == OpensOf(st, c))
            && OpensOf(mid, Addr(Other(h), r)) == OpensOf(st, Addr(Other(h), r)) - 1
  {
  }

  /** Once its OPEN is off the wire, a socket may be given its far end. */
  lemma LinkWires(st: State, o: Addr, j: nat)
    requires Shape(st) && Wires(st) && o in st.socks && st.socks[o].far.None? && OpensOf(st, o) == 0
    ensures Wires(Put(st, o, st.socks[o].(far := Some(j))))
  {
    var st' := Put(st, o, st.socks[o].(far := Some(j)));
    OpensNone(st.wire[Other(o.host)], o.id);
    forall g, k | 0 <= g < 2 && 0 <= k < |st.wire[g]| ensures PacketInv(st', g, st.wire[g][k]) {
      assert PacketInv(st, g, st.wire[g][k]);
    }
  }

  /** HandleOpen in its parts: the new socket, the far end of the opener, and the answer. */
  lemma OpenWires(st: State, h: nat, k: nat)
    requires Inv(st) && Enabled(st, DoDeliver(h, k)) && st.wire[h][0].Open?
    ensures Wires(Deliver(st, h, k))
  {
    hide InboxOf, OpensOf, Wires, Linked, QueueInv, Deliver;
    var r, j, mid := st.wire[h][0].arg0, st.next[h], Popped(st, h);
    var made, o := Addr(h, j), Addr(Other(h), r);
    PopWires(st, h);
    assert SockInv(st, o);
    hide SockInv;
    PopOpen(st, h, r);
    NewSocket(st, h);
    var s := FRESH.(peer := Some(r), wantRead := true, far := Some(r));
    PutWires(mid, made, s);
    SameWires(mid, Put(mid, made, s));
    LinkWires(Put(mid, made, s), o, j);
    var st2 := Put(Put(mid, made, s), o, FRESH.(far := Some(j)));
    var st3 := st2.(next := st.next[h := j + 1]);
    NextWires(st2, st3);
    SendWires(st3, o.host, Okay(j, r));
    OpenState(st, h, k);
  }

  lemma OpenState(st: State, h: nat, k: nat)
    requires Shape(st) && Enabled(st, DoDeliver(h, k)) && st.wire[h][0].Open?
    requires Addr(Other(h), st.wire[h][0].arg0) in st.socks && st.socks[Addr(Other(h), st.wire[h][0].arg0)] == FRESH
    requires Addr(h, st.next[h]) !in st.socks
    ensures var r, j, mid := st.wire[h][0].arg0, st.next[h], Popped(st, h);
            var o := Addr(Other(h), r);
            var st1 := Put(mid, Addr(h, j), FRESH.(peer := Some(r), wantRead := true, far := Some(r)));
            var st2 := Put(st1, o, FRESH.(far := Some(j)));
            Deliver(st, h, k) == Send(st2.(next := st.next[h := j + 1]), o.host, Okay(j, r))
  {
  }

  /** What HandleOpen does to inboxes and OPENs on the wire. */
  lemma OpenInboxes(st: State, h: nat, k: nat)
    requires Shape(st) && Enabled(st, DoDeliver(h, k)) && st.wire[h][0].Open?
    ensures var st', o := Deliver(st, h, k), Addr(Other(h), st.wire[h][0].arg0);
            && InboxOf(st', o) == Extend(InboxOf(st, o), Okay(st.next[h], o.id))
            && OpensOf(st', o) == OpensOf(st, o) - 1
            && (forall c: Addr :: IsEnd(c.host) && c != o ==> InboxOf(st', c) == InboxOf(st, c))
            && (forall c: Addr :: IsEnd(c.host) && c != o ==> OpensOf(st', c) == OpensOf(st, c))
  {
    hide InboxOf, OpensOf;
    var st' := Deliver(st, h, k);
    var r := st.wire[h][0].arg0;
    var o, p := Addr(Other(h), r), Okay(st.next[h], r);
    PopOpen(st, h, r);
    var before := st'.(wire := Popped(st, h).wire);
    SameWires(Popped(st, h), before);
    assert st' == Send(before, o.host, p);
    SendApart(before, o, o, p);
    assert Apart(before, st', o, o);
  }

  lemma OpenKeepsInv(st: State, h: nat, k: nat)
    requires Inv(st) && Enabled(st, DoDeliver(h, k)) && st.wire[h][0].Open?
    ensures Inv(Deliver(st, h, k))
  {
    hide InboxOf, OpensOf, Wires, Linked, Deliver;
    var r, j := st.wire[h][0].arg0, st.next[h];
    var made, o := Addr(h, j), Addr(Other(h), r);
    PopWires(st, h);
    assert SockInv(st, o);
    NewSocket(st, h);
    OpenWires(st, h, k);
    OpenInboxes(st, h, k);
    OpenedPair(made, o);
    OpenState(st, h, k);
    var st' := Deliver(st, h, k);
    assert st'.socks == st.socks[made := FRESH.(peer := Some(r), wantRead := true, far := Some(r))][o := FRESH.(far := Some(j))];
    LinkedNow(st', made, o);
    hide SockInv;
    forall a | a in st'.socks ensures SockInv(st', a) {
      if a != made && a != o {
        assert SockInv(st, a);
        if st.socks[a].far.Some? {
          var d := PairOf(st, a);
          assert d != o;
        }
        UntouchedKept(st, st', a);
      }
    }
  }

  /** The two ends of a stream just opened. */
  lemma LinkedNow(st: State, made: Addr, o: Addr)
    requires Shape(st) && made in st.socks && o in st.socks && made.host == Other(o.host)
    requires made.id < st.next[made.host] && o.id < st.next[o.host] && OpensOf(st, made) == 0 && OpensOf(st, o) == 0
    requires Stream(made, o, st.socks[made], st.socks[o], InboxOf(st, made), InboxOf(st, o))
    ensures SockInv(st, made) && SockInv(st, o)
  {
    hide InboxOf, OpensOf, Linked, QueueInv;
    assert FarAddr(made, st.socks[made]) == o && FarAddr(o, st.socks[o]) == made;
  }

  lemma OpenedPair(made: Addr, o: Addr)
    ensures Stream(made, o, FRESH.(peer := Some(o.id), wantRead := true, far := Some(o.id)),
                   FRESH.(far := Some(made.id)), EMPTY, Extend(EMPTY, Okay(made.id, o.id)))
  {
    assert Concat([]) == [];
  }

  /** Every step keeps the invariant. */
  lemma StepKeepsInv(st: State, step: Step)
    requires Inv(st) && Enabled(st, step)
    ensures Inv(Apply(st, step))
  {
    hide Wires, SockInv, Connect, Read, Write, Deliver;
    match step
    case DoConnect(h) => ConnectKeepsInv(st, h);
    case DoRead(a, data) => ReadKeepsInv(st, a, data);
    case DoWrite(a, k) => WriteKeepsInv(st, a, k);
    case DoDeliver(h, k) =>
      if st.wire[h][0].Open? {
        OpenKeepsInv(st, h, k);
      } else if st.wire[h][0].Okay? {
        OkayKeepsInv(st, h, k);
      } else {
        WrteKeepsInv(st, h, k);
      }
  }

  lemma {:induction false} RunInv(run: seq<State>, k: nat)
    requires IsRun(run) && k < |run|
    ensures Inv(run[k])
  {
    if k == 0 {
      InitialInv();
    } else {
      RunInv(run, k - 1);
      assert Follows(run[k - 1], run[k - 1 + 1]);
      var step :| Enabled(run[k - 1], step) && run[k] == Apply(run[k - 1], step);
      StepKeepsInv(run[k - 1], step);
    }
  }

  /**
   In every state of every run, for every socket with a far end: the direction from it holds exactly
   one credit, at most one packet is queued at either end, and what it has read is what the far end
   has written, queued and still on the wire, in that order.
   */
  lemma StreamsAreSafe(run: seq<State>, k: nat, a: Addr)
    requires IsRun(run) && k < |run| && a in run[k].socks && run[k].socks[a].far.Some?
    ensures Inv(run[k])
    ensures var st := run[k];
            var s, b := st.socks[a], FarAddr(a, st.socks[a]);
            && b in st.socks && st.socks[b].far == Some(a.id)
            && Unit(s.wantRead) + To(st.wire[b.host], b.id).wrtes + Unit(st.socks[b].queue != [])
               + To(st.wire[a.host], a.id).okays == 1
            && |s.queue| <= 1
            && st.socks[b].given + Concat(st.socks[b].queue) + To(st.wire[b.host], b.id).data == s.taken
            && st.socks[b].given <= s.taken
  {
    RunInv(run, k);
    hide To, Inv, IsRun;
    var b := StreamOf(run[k], a);
    var s, f, d := run[k].socks[a], run[k].socks[b], To(run[k].wire[b.host], b.id).data;
    assert s.taken[..|f.given|] == f.given;
  }

  /** No run ever calls through a null peer, and an OPEN stands for the first credit until it is answered. */
  lemma NoNullPeer(run: seq<State>, k: nat, a: Addr)
    requires IsRun(run) && k < |run|
    ensures !run[k].crashed
    ensures Inv(run[k])
    ensures a in run[k].socks && run[k].socks[a].wantRead ==> run[k].socks[a].peer == run[k].socks[a].far != None
    ensures a in run[k].socks && run[k].socks[a].far.None? ==>
              run[k].socks[a] == FRESH && Opens(run[k].wire[Other(a.host)], a.id) == 1
  {
    RunInv(run, k);
    assert a in run[k].socks ==> SockInv(run[k], a);
  }

  lemma CreditSomewhere(a: Addr, b: Addr, s: Sock, f: Sock, inbox: Inbox, farInbox: Inbox)
    requires Stream(a, b, s, f, inbox, farInbox)
    ensures s.wantRead || farInbox != EMPTY || f.wantWrite || inbox != EMPTY
  {
  }

  lemma EmptyWire(i: nat)
    ensures To([], i) == EMPTY
  {
  }
}
