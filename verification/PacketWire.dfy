/**
 adb packets on a stream connection: send_packet seals them, remote_write writes them and remote_read
 reads and checks them.
 */
module PacketWire {
  import opened CText
  import opened Octets

  /** amessage */
  datatype Message = Message(command: Word, arg0: Word, arg1: Word, dataLength: Word, dataCheck: Word, magic: Word)

  datatype Packet = Packet(msg: Message, data: Bytes)

  /** The sum of the payload bytes in 32-bit arithmetic. */
  function Sum(data: Bytes): Word {
    if data == [] then 0 else (Sum(data[..|data| - 1]) + data[|data| - 1]) % WORD_SIZE
  }

  /** Exclusive or with all ones. */
  function Complement(w: Word): Word {
    WORD_SIZE - 1 - w
  }

  /** A bit of a word, the lowest first. */
  function Bit(w: nat, k: nat): bool {
    if k == 0 then w % 2 == 1 else Bit(w / 2, k - 1)
  }

  function Pow2(n: nat): nat {
    if n == 0 then 1 else 2 * Pow2(n - 1)
  }

  lemma {:induction false} FlipBits(w: nat, n: nat, k: nat)
    requires w < Pow2(n) && k < n
    ensures Bit(Pow2(n) - 1 - w, k) == !Bit(w, k)
  {
    if k > 0 {
      FlipBits(w / 2, n - 1, k - 1);
      assert (Pow2(n) - 1 - w) / 2 == Pow2(n - 1) - 1 - w / 2;
    }
  }

  /** The magic is the command with every bit flipped. */
  lemma ComplementFlips(w: Word, k: nat)
    requires k < 32
    ensures Bit(Complement(w), k) == !Bit(w, k)
    ensures Complement(Complement(w)) == w
  {
    assert Pow2(32) == WORD_SIZE by { Powers(); }
    FlipBits(w, 32, k);
  }

  lemma Powers()
    ensures Pow2(32) == WORD_SIZE
  {
    assert Pow2(8) == 256;
    assert Pow2(16) == 256 * Pow2(8);
    assert Pow2(24) == 256 * Pow2(16);
  }

  /** The sum of the bytes. */
  function Total(data: Bytes): nat {
    if data == [] then 0 else data[0] + Total(data[1..])
  }

  lemma {:induction false} TotalSnoc(data: Bytes, b: Byte)
    ensures Total(data + [b]) == Total(data) + b
  {
    if data == [] {
      assert data + [b] == [b];
    } else {
      assert (data + [b])[1..] == data[1..] + [b];
      TotalSnoc(data[1..], b);
    }
  }

  lemma {:induction false} TotalBound(data: Bytes)
    ensures Total(data) <= 255 * |data|
  {
    if data != [] {
      TotalBound(data[1..]);
    }
  }

  /** The checksum is the sum of the bytes; within a payload it never wraps around. */
  lemma {:induction false} SumIsTotal(data: Bytes)
    requires |data| <= MAX_PAYLOAD
    ensures Sum(data) == Total(data)
  {
    TotalBound(data);
    if data != [] {
      var n := |data| - 1;
      SumIsTotal(data[..n]);
      TotalSnoc(data[..n], data[n]);
      assert data == data[..n] + [data[n]];
    }
  }

  lemma {:induction false} TotalReplaced(data: Bytes, i: nat, b: Byte)
    requires i < |data|
    ensures Total(data[i := b]) == Total(data) - data[i] + b
  {
    if i > 0 {
      TotalReplaced(data[1..], i - 1, b);
      assert data[i := b][1..] == data[1..][i - 1 := b];
    } else {
      assert data[i := b][1..] == data[1..];
    }
  }

  /** A single byte that changes on the way is noticed. */
  lemma OneByteNoticed(p: Packet, i: nat, b: Byte)
    requires Sealed(p) && i < |p.data| && b != p.data[i]
    ensures !Sealed(p.(data := p.data[i := b]))
  {
    SumIsTotal(p.data);
    SumIsTotal(p.data[i := b]);
    TotalReplaced(p.data, i, b);
  }

  /** The payload is as long as the header says and fits. */
  predicate Sized(p: Packet) {
    p.msg.dataLength == |p.data| <= MAX_PAYLOAD
  }

  predicate Sealed(p: Packet) {
    Sized(p) && p.msg.magic == Complement(p.msg.command) && p.msg.dataCheck == Sum(p.data)
  }

  /** The checksum loop of send_packet and of check_data */
  method Checksum(data: Bytes) returns (sum: Word)
    ensures sum == Sum(data)
  {
    var n := 0;
    sum := 0;
    while n < |data|
      invariant 0 <= n <= |data| && sum == Sum(data[..n])
    {
      assert data[..n + 1][..n] == data[..n];
      sum := (sum + data[n]) % WORD_SIZE;
      n := n + 1;
    }
    assert data[..n] == data;
  }

  /** All that a caller of send_packet fills in. */
  predicate SameContent(p: Packet, q: Packet) {
    q.data == p.data && q.msg == p.msg.(magic := q.msg.magic, dataCheck := q.msg.dataCheck)
  }

  /** send_packet, up to the queue */
  method Seal(p: Packet) returns (q: Packet)
    requires Sized(p)
    ensures Sealed(q) && SameContent(p, q)
  {
    var sum := Checksum(p.data);
    q := p.(msg := p.msg.(magic := Complement(p.msg.command), dataCheck := sum));
  }

  function Header(m: Message): (b: Bytes)
    ensures |b| == 24
  {
    Le32(m.command) + Le32(m.arg0) + Le32(m.arg1) + Le32(m.dataLength) + Le32(m.dataCheck) + Le32(m.magic)
  }

  function FromHeader(b: Bytes): Message
    requires |b| == 24
  {
    Message(FromLe32(b[0..4]), FromLe32(b[4..8]), FromLe32(b[8..12]), FromLe32(b[12..16]), FromLe32(b[16..20]), FromLe32(b[20..24]))
  }

  function Encode(p: Packet): Bytes {
    Header(p.msg) + p.data
  }

  function EncodeAll(ps: seq<Packet>): Bytes {
    if ps == [] then [] else Encode(ps[0]) + EncodeAll(ps[1..])
  }

  lemma HeaderRoundTrip(m: Message)
    ensures FromHeader(Header(m)) == m
  {
    hide Le32, FromLe32;
    var h := Header(m);
    assert h[0..4] == Le32(m.command) && h[4..8] == Le32(m.arg0) && h[8..12] == Le32(m.arg1);
    assert h[12..16] == Le32(m.dataLength) && h[16..20] == Le32(m.dataCheck) && h[20..24] == Le32(m.magic);
    WordRoundTrip(m.command);
    WordRoundTrip(m.arg0);
    WordRoundTrip(m.arg1);
    WordRoundTrip(m.dataLength);
    WordRoundTrip(m.dataCheck);
    WordRoundTrip(m.magic);
  }

  lemma HeaderFromBytes(b: Bytes)
    requires |b| == 24
    ensures Header(FromHeader(b)) == b
  {
    hide Le32, FromLe32;
    BytesRoundTrip(b[0..4]);
    BytesRoundTrip(b[4..8]);
    BytesRoundTrip(b[8..12]);
    BytesRoundTrip(b[12..16]);
    BytesRoundTrip(b[16..20]);
    BytesRoundTrip(b[20..24]);
    assert b == b[0..4] + b[4..8] + b[8..12] + b[12..16] + b[16..20] + b[20..24];
  }

  /** check_header */
  predicate HeaderOk(m: Message) {
    m.magic == Complement(m.command) && m.dataLength <= MAX_PAYLOAD
  }

  /** What remote_read makes of a byte stream: a packet and what is left, or failure. */
  function Decode(s: Bytes): Option<(Packet, Bytes)> {
    if |s| < 24 then None
    else
      var m := FromHeader(s[..24]);
      if !HeaderOk(m) || |s| < 24 + m.dataLength then None
      else
        var data := s[24..24 + m.dataLength];
        if Sum(data) != m.dataCheck then None else Some((Packet(m, data), s[24 + m.dataLength..]))
  }

  /** remote_read accepts exactly the streams that start with a sealed packet, and returns that packet. */
  lemma DecodeExactly(s: Bytes, p: Packet, rest: Bytes)
    ensures Decode(s) == Some((p, rest)) <==> Sealed(p) && s == Encode(p) + rest
  {
    hide Header, FromHeader, Sum;
    if Sealed(p) && s == Encode(p) + rest {
      HeaderRoundTrip(p.msg);
      assert s[..24] == Header(p.msg) && s[24..24 + |p.data|] == p.data && s[24 + |p.data|..] == rest;
    }
    if Decode(s) == Some((p, rest)) {
      HeaderFromBytes(s[..24]);
      assert s == s[..24] + s[24..24 + |p.data|] + s[24 + |p.data|..];
    }
  }

  /** remote_write */
  method RemoteWrite(w: Writer, p: Packet)
    requires Sized(p)
    modifies w
    ensures w.done == old(w.done) + Encode(p)
  {
    w.Writex(Header(p.msg) + p.data[..p.msg.dataLength]);
    assert p.data[..p.msg.dataLength] == p.data;
  }

  /** remote_read */
  method RemoteRead(r: Reader) returns (p: Option<Packet>)
    modifies r
    ensures match Decode(old(r.rest))
            case Some((q, rest)) => p == Some(q) && r.rest == rest
            case None => p == None
  {
    hide FromHeader, Sum;
    var ok, head := r.Readx(24);
    if !ok { return None; }
    var m := FromHeader(head);
    if !HeaderOk(m) { return None; }
    var data;
    ok, data := r.Readx(m.dataLength);
    if !ok { return None; }
    assert data == old(r.rest)[24..24 + m.dataLength] && r.rest == old(r.rest)[24 + m.dataLength..];
    var sum := Checksum(data);
    if sum != m.dataCheck { return None; }
    p := Some(Packet(m, data));
  }

  /** The output side: any packets sealed and written one after the other. */
  method WriteAll(w: Writer, ps: seq<Packet>) returns (qs: seq<Packet>)
    requires forall k :: 0 <= k < |ps| ==> Sized(ps[k])
    modifies w
    ensures |qs| == |ps| && forall k :: 0 <= k < |ps| ==> Sealed(qs[k]) && SameContent(ps[k], qs[k])
    ensures w.done == old(w.done) + EncodeAll(qs)
  {
    hide Encode, Sealed, EncodeAll, SameContent, Sized;
    qs := [];
    NothingEncoded(w.done);
    while |qs| < |ps|
      invariant |qs| <= |ps| && forall k :: 0 <= k < |qs| ==> Sealed(qs[k]) && SameContent(ps[k], qs[k])
      invariant w.done == old(w.done) + EncodeAll(qs)
      decreases |ps| - |qs|
    {
      var q := Seal(ps[|qs|]);
      SealedIsSized(q);
      RemoteWrite(w, q);
      EncodeSnoc(qs, q);
      Regroup(old(w.done), EncodeAll(qs), Encode(q));
      qs := qs + [q];
    }
  }

  lemma NothingEncoded(s: Bytes)
    ensures s == s + EncodeAll([])
  {
  }

  lemma Regroup(a: Bytes, b: Bytes, c: Bytes)
    ensures a + b + c == a + (b + c)
  {
  }

  lemma SealedIsSized(p: Packet)
    requires Sealed(p)
    ensures Sized(p)
  {
  }

  lemma {:induction false} EncodeSnoc(ps: seq<Packet>, p: Packet)
    ensures EncodeAll(ps + [p]) == EncodeAll(ps) + Encode(p)
  {
    hide Encode;
    if ps == [] {
      assert ps + [p] == [p] && [p][1..] == [] && Encode(p) + [] == [] + Encode(p);
    } else {
      assert (ps + [p])[1..] == ps[1..] + [p];
      EncodeSnoc(ps[1..], p);
    }
  }

  /** What reading packet after packet makes of a stream. */
  function DecodeAll(s: Bytes): seq<Packet>
    decreases |s|
  {
    match Decode(s)
    case Some((p, rest)) => [p] + DecodeAll(rest)
    case None => []
  }

  /** The packets read are the packets sent, in order; no header or checksum test fails. */
  lemma {:induction false} PacketsRoundTrip(ps: seq<Packet>)
    requires forall k :: 0 <= k < |ps| ==> Sealed(ps[k])
    ensures DecodeAll(EncodeAll(ps)) == ps
  {
    hide Decode, Encode;
    if ps == [] {
      DecodeNothing();
    } else {
      DecodeExactly(EncodeAll(ps), ps[0], EncodeAll(ps[1..]));
      PacketsRoundTrip(ps[1..]);
    }
  }

  lemma DecodeNothing()
    ensures Decode([]) == None
  {
  }

  /** The input side, whatever the fragmentation of the stream. */
  method ReadAll(r: Reader) returns (ps: seq<Packet>)
    modifies r
    ensures ps == DecodeAll(old(r.rest))
  {
    ps := [];
    while true
      invariant ps + DecodeAll(r.rest) == DecodeAll(old(r.rest))
      decreases |r.rest|
    {
      ghost var before := r.rest;
      var p := RemoteRead(r);
      if p.None? { break; }
      assert DecodeAll(before) == [p.value] + DecodeAll(r.rest);
      ps := ps + [p.value];
    }
  }

  /** send_packet, remote_write and remote_read end to end: the packets arrive as they were given, in order. */
  method Transfer(ps: seq<Packet>) returns (qs: seq<Packet>)
    requires forall k :: 0 <= k < |ps| ==> Sized(ps[k])
    ensures |qs| == |ps| && forall k :: 0 <= k < |ps| ==> SameContent(ps[k], qs[k])
  {
    hide Encode, Sealed, Decode, SameContent;
    var w := new Writer();
    var sent := WriteAll(w, ps);
    PacketsRoundTrip(sent);
    var r := new Reader(w.done);
    assert [] + EncodeAll(sent) == EncodeAll(sent);
    qs := ReadAll(r);
  }
}
