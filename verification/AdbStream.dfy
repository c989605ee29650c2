/**
 adb streams: OPEN, OKAY and WRTE between local sockets at the two ends of a transport.
 A state is everything both ends hold; a step is one event-loop callback or one packet handled,
 with any number of bytes read or accepted by the file descriptors.  No stream is closed.
 */
module AdbStream {
  import opened CText
  import opened Octets

  /** A socket's place: end 0 or 1 of the transport, and its local id. */
  datatype Addr = Addr(host: nat, id: nat)

  /**
   A local asocket with its file descriptor.  `wantRead` and `wantWrite` are FDE_READ and FDE_WRITE,
   `queue` holds what is left of the queued packets, `peer` is the id of the remote asocket.
   `taken` and `given` record the bytes read from and written to the descriptor, and `far` the
   socket at the other end, once there is one.
   */
  datatype Sock = Sock(
    peer: Option<nat>,
    wantRead: bool,
    wantWrite: bool,
    queue: seq<Bytes>,
    taken: Bytes,
    given: Bytes,
    far: Option<nat>)

  datatype Packet =
    | Open(arg0: nat)
    | Okay(arg0: nat, arg1: nat)
    | Wrte(arg0: nat, arg1: nat, data: Bytes)

  /** `wire[h]` holds the packets on their way to end `h`; `crashed` marks a call through a null peer. */
  datatype State = State(socks: map<Addr, Sock>, next: seq<nat>, wire: seq<seq<Packet>>, crashed: bool)

  predicate IsEnd(h: nat) {
    h < 2
  }

  function Other(h: nat): nat
    requires IsEnd(h)
  {
    1 - h
  }

  predicate Shape(st: State) {
    |st.next| == 2 && |st.wire| == 2 && forall a :: a in st.socks ==> IsEnd(a.host)
  }

  const FRESH := Sock(None, false, false, [], [], [], None)

  function Send(st: State, h: nat, p: Packet): State
    requires Shape(st) && IsEnd(h)
  {
    st.(wire := st.wire[h := st.wire[h] + [p]])
  }

  function Put(st: State, a: Addr, s: Sock): State {
    st.(socks := st.socks[a := s])
  }

  // ---- the callbacks of one socket ----

  /** What the drain loop leaves when the descriptor accepts `k` more bytes. */
  function Drain(queue: seq<Bytes>, k: nat): seq<Bytes> {
    if queue == [] then []
    else if k >= |queue[0]| then Drain(queue[1..], k - |queue[0]|)
    else [queue[0][k..]] + queue[1..]
  }

  /** Draining moves bytes from the front and loses none. */
  lemma {:induction false} DrainKeepsBytes(queue: seq<Bytes>, k: nat)
    requires k <= |Concat(queue)|
    ensures Concat(queue)[..k] + Concat(Drain(queue, k)) == Concat(queue)
    ensures |Drain(queue, k)| <= |queue|
    ensures (forall j :: 0 <= j < |queue| ==> queue[j] != []) ==>
              forall j :: 0 <= j < |Drain(queue, k)| ==> Drain(queue, k)[j] != []
  {
    if queue != [] {
      var q, rest := queue[0], queue[1..];
      if k >= |q| {
        DrainKeepsBytes(rest, k - |q|);
        assert Concat(queue)[..k] == q + Concat(rest)[..k - |q|];
      } else {
        assert ([q[k..]] + rest)[1..] == rest;
        assert Concat(queue)[..k] == q[..k];
        assert q[..k] + q[k..] == q;
      }
    }
  }

  /** local_socket_enqueue when the descriptor accepts `k` bytes. */
  function Enqueue(s: Sock, data: Bytes, k: nat): Sock
    requires k <= |data|
  {
    if s.queue != [] then s.(queue := s.queue + [data], wantWrite := true)
    else if k == |data| then s.(given := s.given + data)
    else s.(given := s.given + data[..k], queue := [data[k..]], wantWrite := true)
  }

  /** The packet is gone and the sender may be told so at once. */
  predicate Ready(s: Sock, data: Bytes, k: nat) {
    s.queue == [] && k == |data|
  }

  /** The FDE_WRITE half of local_socket_event_func when the descriptor accepts `k` bytes. */
  function WriteEvent(s: Sock, k: nat): Sock
    requires k <= |Concat(s.queue)|
  {
    var rest := Drain(s.queue, k);
    s.(given := s.given + Concat(s.queue)[..k], queue := rest, wantWrite := rest != [])
  }

  lemma {:induction false} ConcatSnoc(q: seq<Bytes>, data: Bytes)
    ensures Concat(q + [data]) == Concat(q) + data
  {
    if q == [] {
      assert q + [data] == [data] && [data][1..] == [];
    } else {
      assert (q + [data])[1..] == q[1..] + [data];
      ConcatSnoc(q[1..], data);
    }
  }

  /** Whatever a socket has queued, a packet goes behind it, and writing takes from the front: no byte is lost or moved. */
  lemma BytesStayInOrder(s: Sock, data: Bytes, k: nat)
    ensures k <= |data| ==> var t := Enqueue(s, data, k); t.given + Concat(t.queue) == s.given + Concat(s.queue) + data
    ensures k <= |Concat(s.queue)| ==> var t := WriteEvent(s, k); t.given + Concat(t.queue) == s.given + Concat(s.queue)
  {
    hide Drain, Enqueue;
    if k <= |data| {
      EnqueueKeepsBytes(s, data, k);
    }
    if k <= |Concat(s.queue)| {
      DrainKeepsBytes(s.queue, k);
    }
  }

  lemma EnqueueKeepsBytes(s: Sock, data: Bytes, k: nat)
    requires k <= |data|
    ensures var t := Enqueue(s, data, k); t.given + Concat(t.queue) == s.given + Concat(s.queue) + data
  {
    if s.queue == [] {
      Halves(s.given, data, k);
      assert [data[k..]][1..] == [];
    } else {
      hide Concat;
      ConcatSnoc(s.queue, data);
    }
  }

  lemma Halves(given: Bytes, data: Bytes, k: nat)
    requires k <= |data|
    ensures given + data[..k] + data[k..] == given + data
  {
    assert data[..k] + data[k..] == data;
  }

  // ---- the steps ----

  /** create_local_socket and connect_to_remote at end `h` */
  function Connect(st: State, h: nat): State
    requires Shape(st) && IsEnd(h)
  {
    var i := st.next[h];
    Send(Put(st, Addr(h, i), FRESH).(next := st.next[h := i + 1]), Other(h), Open(i))
  }

  /** The FDE_READ half of local_socket_event_func after reading `data`; remote_socket_enqueue */
  function Read(st: State, a: Addr, data: Bytes): State
    requires Shape(st) && a in st.socks
  {
    var s := st.socks[a];
    if s.peer.None? then Put(st, a, s.(taken := s.taken + data))
    else
      Send(Put(st, a, s.(taken := s.taken + data, wantRead := false)), Other(a.host), Wrte(a.id, s.peer.value, data))
  }

  /** The FDE_WRITE half of local_socket_event_func; remote_socket_ready once all is written */
  function Write(st: State, a: Addr, k: nat): State
    requires Shape(st) && a in st.socks && k <= |Concat(st.socks[a].queue)|
  {
    var s := WriteEvent(st.socks[a], k);
    if s.queue != [] then Put(st, a, s)
    else if s.peer.None? then Put(st, a, s).(crashed := true)
    else Send(Put(st, a, s), Other(a.host), Okay(a.id, s.peer.value))
  }

  /** A_OPEN of handle_packet, for a service that exists */
  function HandleOpen(st: State, h: nat, r: nat): State
    requires Shape(st) && IsEnd(h)
  {
    var j, o := st.next[h], Addr(Other(h), r);
    var st1 := Put(st, Addr(h, j), FRESH.(peer := Some(r), wantRead := true, far := Some(r)));
    var st2 := if o in st1.socks then Put(st1, o, st1.socks[o].(far := Some(j))) else st1;
    Send(st2.(next := st.next[h := j + 1]), Other(h), Okay(j, r))
  }

  /** A_OKAY of handle_packet */
  function HandleOkay(st: State, h: nat, r: nat, i: nat): State
    requires Shape(st) && IsEnd(h)
  {
    var a := Addr(h, i);
    if a !in st.socks then st
    else
      var s := st.socks[a];
      Put(st, a, s.(peer := if s.peer.None? then Some(r) else s.peer, wantRead := true))
  }

  /** A_WRTE of handle_packet; send_ready if the socket has taken it all */
  function HandleWrte(st: State, h: nat, r: nat, i: nat, data: Bytes, k: nat): State
    requires Shape(st) && IsEnd(h) && k <= |data|
  {
    var a := Addr(h, i);
    if a !in st.socks then st
    else
      var s := st.socks[a];
      var st1 := Put(st, a, Enqueue(s, data, k));
      if Ready(s, data, k) then Send(st1, Other(h), Okay(i, r)) else st1
  }

  /** handle_packet on the first packet that reaches end `h` */
  function Deliver(st: State, h: nat, k: nat): State
    requires Shape(st) && IsEnd(h) && st.wire[h] != []
    requires st.wire[h][0].Wrte? ==> k <= |st.wire[h][0].data|
  {
    var st1 := st.(wire := st.wire[h := st.wire[h][1..]]);
    match st.wire[h][0]
    case Open(r) => HandleOpen(st1, h, r)
    case Okay(r, i) => HandleOkay(st1, h, r, i)
    case Wrte(r, i, data) => HandleWrte(st1, h, r, i, data, k)
  }

  datatype Step =
    | DoConnect(h: nat)
    | DoRead(a: Addr, data: Bytes)
    | DoWrite(a: Addr, k: nat)
    | DoDeliver(h: nat, k: nat)

  predicate Enabled(st: State, step: Step)
    requires Shape(st)
  {
    match step
    case DoConnect(h) => IsEnd(h)
    case DoRead(a, data) => a in st.socks && st.socks[a].wantRead && 0 < |data| <= MAX_PAYLOAD
    case DoWrite(a, k) => a in st.socks && st.socks[a].wantWrite && k <= |Concat(st.socks[a].queue)|
    case DoDeliver(h, k) => IsEnd(h) && st.wire[h] != [] && (st.wire[h][0].Wrte? ==> k <= |st.wire[h][0].data|)
  }

  function Apply(st: State, step: Step): (r: State)
    requires Shape(st) && Enabled(st, step)
    ensures Shape(r)
  {
    match step
    case DoConnect(h) => Connect(st, h)
    case DoRead(a, data) => Read(st, a, data)
    case DoWrite(a, k) => Write(st, a, k)
    case DoDeliver(h, k) => Deliver(st, h, k)
  }

  /** Two adb ends with a transport up and no stream yet; ids start at 1. */
  const INITIAL := State(map[], [1, 1], [[], []], false)

  ghost predicate Follows(st: State, st': State) {
    Shape(st) && exists step :: Enabled(st, step) && st' == Apply(st, step)
  }

  /** A run: each state follows from the one before by an enabled step. */
  ghost predicate IsRun(run: seq<State>) {
    run != [] && run[0] == INITIAL && forall k :: 0 <= k < |run| - 1 ==> Follows(run[k], run[k + 1])
  }
}
