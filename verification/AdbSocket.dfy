/**
 A local asocket as the event loop drives it.  The methods mirror the callbacks of sockets.c and are
 proved against the functions that AdbStream's steps use; adb_read and adb_write may take any part.
 */
module AdbSocket {
  import opened CText
  import opened Numbers
  import opened Octets
  import opened AdbStream

  class LocalSocket {
    var peer: Option<nat>
    var wantRead: bool
    var wantWrite: bool
    var queue: seq<Bytes>
    var taken: Bytes
    var given: Bytes
    var far: Option<nat>
    /** How many bytes the descriptor takes before a write would block. */
    var room: nat

    function View(): Sock
      reads this
    {
      Sock(peer, wantRead, wantWrite, queue, taken, given, far)
    }

    /** create_local_socket */
    constructor ()
      ensures View() == FRESH
    {
      peer, wantRead, wantWrite, queue, taken, given, far, room := None, false, false, [], [], [], None, 0;
    }

    /** adb_write on the descriptor; 0 stands for EAGAIN. */
    method AdbWrite(p: Bytes) returns (r: nat)
      requires p != []
      modifies this`given, this`room
      ensures r <= |p| && given == old(given) + p[..r] && room == old(room) - r && (r == 0 <==> old(room) == 0)
    {
      r := 0;
      if room > 0 {
        r :| 0 < r <= |p| && r <= room;
      }
      given, room := given + p[..r], room - r;
    }

    /** local_socket_enqueue; true for its 0 return */
    method EnqueuePacket(data: Bytes) returns (ready: bool, ghost k: nat)
      modifies this
      ensures k <= |data| && View() == Enqueue(old(View()), data, k) && ready == Ready(old(View()), data, k)
      ensures k == if old(queue) == [] then Min(|data|, old(room)) else 0
      ensures room == old(room) - k
    {
      k := 0;
      if queue != [] {
        queue, wantWrite := queue + [data], true;
        return false, 0;
      }
      var rest := data;
      while rest != []
        invariant k <= |data| && rest == data[k..] && room == old(room) - k
        invariant View() == old(View()).(given := old(given) + data[..k])
        decreases |rest|
      {
        var r := AdbWrite(rest);
        if r == 0 { break; }
        FrontGrows(data, k, r);
        rest, k := rest[r..], k + r;
      }
      if rest == [] {
        assert data[..k] == data;
        return true, k;
      }
      queue, wantWrite := [rest], true;
      ready := false;
    }

    /**
     The FDE_READ half of local_socket_event_func, with `arrived` waiting at the descriptor: reads until
     a packet is full or adb_read would block, and hands the packet to the peer.
     */
    method OnReadable(arrived: Bytes) returns (data: Bytes)
      modifies this
      ensures data == arrived[..Min(|arrived|, MAX_PAYLOAD)]
      ensures room == old(room) && View() == old(View()).(taken := old(taken) + data, wantRead := wantRead)
      ensures wantRead == (if data != [] && peer.Some? then false else old(wantRead))
    {
      data := [];
      while |data| < MAX_PAYLOAD
        invariant data <= arrived && |data| <= MAX_PAYLOAD
        invariant room == old(room) && View() == old(View()).(taken := old(taken) + data)
        decreases MAX_PAYLOAD - |data|
      {
        if |data| == |arrived| { break; }
        var r: nat :| 0 < r <= MAX_PAYLOAD - |data| && r <= |arrived| - |data|;
        var x := arrived[|data|..|data| + r];
        assert data + x == arrived[..|data| + r];
        taken, data := taken + x, data + x;
      }
      if data != [] && peer.Some? {
        wantRead := false;
      }
    }

    /** The FDE_WRITE half of local_socket_event_func; true once the peer may be told to go on. */
    method OnWritable() returns (drained: bool, ghost k: nat)
      requires wantWrite && queue != []
      modifies this
      ensures k <= |Concat(old(queue))| && View() == WriteEvent(old(View()), k) && drained == (queue == [])
      ensures k == Min(|Concat(old(queue))|, old(room)) && room == old(room) - k
    {
      hide Drain, Concat;
      k := 0;
      ghost var q0 := queue;
      DrainNone(queue);
      while queue != []
        invariant k <= |Concat(q0)| && Drain(q0, k) == Drain(queue, 0) && room == old(room) - k
        invariant k + |Concat(queue)| == |Concat(q0)|
        invariant View() == old(View()).(given := old(given) + Concat(q0)[..k], queue := queue)
        decreases |queue|
      {
        var p := queue[0];
        label Outer:
        while p != []
          invariant queue != [] && queue[0] == p && |queue| == old@Outer(|queue|)
          invariant k <= |Concat(q0)| && Drain(q0, k) == Drain(queue, 0) && room == old(room) - k
          invariant k + |Concat(queue)| == |Concat(q0)|
          invariant View() == old(View()).(given := old(given) + Concat(q0)[..k], queue := queue)
          decreases |p|
        {
          var r := AdbWrite(p);
          DrainHead(q0, queue, k, r);
          if r == 0 {
            return false, k;
          }
          ConcatHead(queue, r);
          p, k := p[r..], k + r;
          queue := [p] + queue[1..];
        }
        DrainDone(queue);
        ConcatHead(queue, 0);
        queue := queue[1..];
      }
      DrainDone(queue);
      ConcatEmpty();
      wantWrite, drained := false, true;
    }
  }

  lemma FrontGrows(data: Bytes, k: nat, r: nat)
    requires k + r <= |data|
    ensures data[..k] + data[k..][..r] == data[..k + r] && data[k..][r..] == data[k + r..]
  {
  }

  lemma DrainNone(q: seq<Bytes>)
    ensures Concat(q)[..0] == []
  {
  }

  lemma ConcatHead(q: seq<Bytes>, r: nat)
    requires q != [] && r <= |q[0]|
    ensures |Concat([q[0][r..]] + q[1..])| == |Concat(q)| - r && |Concat(q)| == |q[0]| + |Concat(q[1..])|
  {
    assert ([q[0][r..]] + q[1..])[1..] == q[1..];
  }

  lemma ConcatEmpty()
    ensures Concat([]) == []
  {
  }

  /** A packet that is all written is dropped. */
  lemma DrainDone(q: seq<Bytes>)
    ensures q == [] ==> Drain(q, 0) == []
    ensures q != [] && q[0] == [] ==> Drain(q, 0) == Drain(q[1..], 0)
  {
  }

  lemma {:induction false} DrainAdd(q: seq<Bytes>, k: nat, r: nat)
    ensures Drain(q, k + r) == Drain(Drain(q, k), r)
  {
    if q != [] {
      if k >= |q[0]| {
        DrainAdd(q[1..], k - |q[0]|, r);
      } else {
        assert ([q[0][k..]] + q[1..])[1..] == q[1..];
        assert k + r < |q[0]| ==> q[0][k..][r..] == q[0][k + r..];
      }
    }
  }

  /** The descriptor accepts `r` bytes of the first packet. */
  lemma DrainHead(q0: seq<Bytes>, q: seq<Bytes>, k: nat, r: nat)
    requires q != [] && q[0] != [] && r <= |q[0]| && k <= |Concat(q0)| && Drain(q0, k) == Drain(q, 0)
    ensures Drain(q, 0) == q && k + r <= |Concat(q0)|
    ensures Drain(q0, k + r) == Drain([q[0][r..]] + q[1..], 0)
    ensures Concat(q0)[..k] + q[0][..r] == Concat(q0)[..k + r]
  {
    assert [q[0][0..]] + q[1..] == q;
    DrainAdd(q0, k, r);
    assert ([q[0][r..]] + q[1..])[1..] == q[1..];
    assert q[0][r..][0..] == q[0][r..];
    DrainKeepsBytes(q0, k);
    assert Concat(q0) == Concat(q0)[..k] + (q[0] + Concat(q[1..]));
  }
}
