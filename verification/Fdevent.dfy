/**
 adb's event loop over select: a table of fdevents by descriptor, three descriptor sets, select_n, flag bits
 and an intrusive list of pending fdevents, which must all agree.
 */
module Fdevent {

  /** A word of flags, as the set of its bit positions. */
  type Flags = set<nat>

  const READ: nat := 0
  const WRITE: nat := 1
  const ERROR: nat := 2
  const ACTIVE: nat := 8
  const PENDING: nat := 9

  /** The low byte holds events and features, the high byte the state. */
  const STATE_BITS: nat := 8

  function Events(word: Flags): Flags {
    set b | b in word && b < STATE_BITS
  }

  /** The event half of a state word replaced, the state half kept. */
  function WithEvents(state: Flags, events: Flags): Flags {
    (set b | b in state && b >= STATE_BITS) + events
  }

  /** The pending events fdevent_set leaves. */
  function SetEvents(state: Flags, pending: Flags, wanted: Flags): Flags {
    if Events(state) == Events(wanted) then pending else pending - Events(wanted)
  }

  /**
   fdevent_set takes away what is wanted, not what is unwanted: no unwanted event stays pending if and only if none
   was pending before; and a change loses the wanted ones.
   */
  lemma UnwantedStays(state: Flags, pending: Flags, wanted: Flags)
    ensures SetEvents(state, pending, wanted) <= Events(wanted) <==> pending <= Events(wanted)
    ensures Events(state) != Events(wanted) ==> SetEvents(state, pending, wanted) * Events(wanted) == {}
  {
    var left := SetEvents(state, pending, wanted);
    assert forall b :: b in left ==> b in pending;
    assert forall b :: b in pending && b !in left ==> b in Events(wanted);
  }

  lemma UnwantedExample()
    ensures SetEvents({READ, WRITE, ACTIVE, PENDING}, {READ, WRITE}, {WRITE}) == {READ}
  {
    var state := {READ, WRITE, ACTIVE, PENDING};
    assert READ in Events(state) && READ !in Events({WRITE});
    assert Events({WRITE}) == {WRITE};
  }

  function SetState(state: Flags, pending: Flags, wanted: Flags): Flags {
    var s := WithEvents(state, Events(wanted));
    if Events(state) == Events(wanted) then state
    else if PENDING in s && pending - Events(wanted) == {} then s - {PENDING}
    else s
  }

  class FdEvent {
    var next: FdEvent?
    var prev: FdEvent?
    var fd: int
    var state: Flags
    var events: Flags

    constructor ()
      ensures state == {} && events == {}
    {
      next, prev, fd, state, events := null, null, 0, {}, {};
    }
  }

  // ---- the pending list ----

  /** The neighbours of node i in a ring through `nodes` and the sentinel. */
  ghost function After(list: FdEvent, nodes: seq<FdEvent>, i: nat): FdEvent {
    if i + 1 < |nodes| then nodes[i + 1] else list
  }

  ghost function Before(list: FdEvent, nodes: seq<FdEvent>, i: nat): FdEvent {
    if 0 < i <= |nodes| then nodes[i - 1] else list
  }

  ghost predicate Distinct(nodes: seq<FdEvent>) {
    forall i, j :: 0 <= i < j < |nodes| ==> nodes[i] != nodes[j]
  }

  /** Node i points to its neighbours. */
  ghost predicate InPlace(list: FdEvent, nodes: seq<FdEvent>, i: nat)
    requires i < |nodes|
    reads nodes`next, nodes`prev
  {
    nodes[i].next == After(list, nodes, i) && nodes[i].prev == Before(list, nodes, i)
  }

  /** `list` is the sentinel of a doubly linked ring through `nodes`. */
  ghost predicate Ring(list: FdEvent, nodes: seq<FdEvent>)
    reads list`next, list`prev, nodes`next, nodes`prev
  {
    && list !in nodes && Distinct(nodes)
    && list.next == (if nodes == [] then list else nodes[0])
    && list.prev == Before(list, nodes, |nodes|)
    && forall i :: 0 <= i < |nodes| ==> InPlace(list, nodes, i)
  }

  /** fdevent_plist_enqueue */
  method Enqueue(list: FdEvent, node: FdEvent, ghost nodes: seq<FdEvent>)
    requires Ring(list, nodes) && node !in nodes && node != list
    modifies list`next, list`prev, node`next, node`prev, nodes`next, nodes`prev
    ensures Ring(list, nodes + [node])
  {
    node.next := list;
    node.prev := list.prev;
    node.prev.next := node;
    list.prev := node;
    ghost var more := nodes + [node];
    forall i | 0 <= i < |more|
      ensures InPlace(list, more, i)
    {
      if i < |nodes| {
        assert more[i] == nodes[i] && old(InPlace(list, nodes, i));
      }
    }
  }

  /** fdevent_plist_remove */
  method Unlink(list: FdEvent, node: FdEvent, ghost nodes: seq<FdEvent>, ghost k: nat)
    requires Ring(list, nodes) && k < |nodes| && nodes[k] == node
    modifies list`next, list`prev, nodes`next, nodes`prev
    ensures Ring(list, nodes[..k] + nodes[k + 1..])
    ensures node.next == null && node.prev == null
  {
    assert InPlace(list, nodes, k);
    node.prev.next := node.next;
    node.next.prev := node.prev;
    node.next := null;
    node.prev := null;
    ghost var left := nodes[..k] + nodes[k + 1..];
    forall i | 0 <= i < |left|
      ensures InPlace(list, left, i)
    {
      var m := if i < k then i else i + 1;
      assert left[i] == nodes[m] && old(InPlace(list, nodes, m));
    }
  }

  /** `now` is `was` without f. */
  ghost predicate Dropped(was: seq<FdEvent>, now: seq<FdEvent>, f: FdEvent) {
    exists k :: 0 <= k < |was| && was[k] == f && now == was[..k] + was[k + 1..]
  }

  lemma DroppedMembers(was: seq<FdEvent>, now: seq<FdEvent>, f: FdEvent)
    requires Dropped(was, now, f) && Distinct(was)
    ensures forall g :: g in now <==> g in was && g != f
    ensures |now| == |was| - 1
  {
    var k :| 0 <= k < |was| && was[k] == f && now == was[..k] + was[k + 1..];
    forall g
      ensures g in now <==> g in was && g != f
    {
      if g in was && g != f {
        var i :| 0 <= i < |was| && was[i] == g;
        assert now[if i < k then i else i - 1] == g;
      }
    }
  }

  /** `a` is `b` with some elements left out. */
  ghost predicate Sub(a: seq<FdEvent>, b: seq<FdEvent>)
    decreases b
  {
    a == [] || (b != [] && ((a[0] == b[0] && Sub(a[1..], b[1..])) || Sub(a, b[1..])))
  }

  lemma {:induction false} SubSelf(a: seq<FdEvent>)
    ensures Sub(a, a)
  {
    if a != [] {
      SubSelf(a[1..]);
    }
  }

  lemma {:induction false} SubTrans(a: seq<FdEvent>, b: seq<FdEvent>, c: seq<FdEvent>)
    requires Sub(a, b) && Sub(b, c)
    ensures Sub(a, c)
    decreases c
  {
    if a != [] {
      if b[0] == c[0] && Sub(b[1..], c[1..]) {
        if a[0] == b[0] && Sub(a[1..], b[1..]) {
          SubTrans(a[1..], b[1..], c[1..]);
        } else {
          SubTrans(a, b[1..], c[1..]);
        }
      } else {
        SubTrans(a, b, c[1..]);
      }
    }
  }

  lemma {:induction false} SubAfter(x: seq<FdEvent>, a: seq<FdEvent>, b: seq<FdEvent>)
    requires Sub(a, b)
    ensures Sub(x + a, x + b)
  {
    if x == [] {
      assert x + a == a && x + b == b;
    } else {
      SubAfter(x[1..], a, b);
      assert (x + a)[1..] == x[1..] + a && (x + b)[1..] == x[1..] + b;
    }
  }

  lemma {:induction false} SubMembers(a: seq<FdEvent>, b: seq<FdEvent>, f: FdEvent)
    requires Sub(a, b) && f in a
    ensures f in b
    decreases b
  {
    if a[0] == b[0] && Sub(a[1..], b[1..]) {
      if f != a[0] {
        SubMembers(a[1..], b[1..], f);
      }
    } else {
      SubMembers(a, b[1..], f);
    }
  }

  /** With nothing left out it is the whole. */
  lemma {:induction false} SubAll(a: seq<FdEvent>, b: seq<FdEvent>)
    requires Sub(a, b) && Distinct(b) && forall f :: f in b ==> f in a
    ensures a == b
    decreases b
  {
    if b != [] {
      assert b[0] in b;
      if a[0] == b[0] && Sub(a[1..], b[1..]) {
        forall f | f in b[1..]
          ensures f in a[1..]
        {
          assert f in b && f in a;
        }
        SubAll(a[1..], b[1..]);
        assert a == [a[0]] + a[1..] && b == [b[0]] + b[1..];
      } else {
        SubMembers(a, b[1..], b[0]);
        assert false;
      }
    }
  }

  lemma {:induction false} SubShorter(a: seq<FdEvent>, b: seq<FdEvent>)
    requires Sub(a, b)
    ensures |a| <= |b|
    decreases b
  {
    if a != [] {
      if a[0] == b[0] && Sub(a[1..], b[1..]) {
        SubShorter(a[1..], b[1..]);
      } else {
        SubShorter(a, b[1..]);
      }
    }
  }

  lemma DroppedSub(was: seq<FdEvent>, now: seq<FdEvent>, f: FdEvent)
    requires Dropped(was, now, f)
    ensures Sub(now, was)
  {
    var k :| 0 <= k < |was| && was[k] == f && now == was[..k] + was[k + 1..];
    SubSelf(was[k + 1..]);
    assert was[k..][1..] == was[k + 1..];
    assert Sub(was[k + 1..], was[k..]) by { SubSelfTail(was[k..]); }
    SubAfter(was[..k], was[k + 1..], was[k..]);
    assert was[..k] + was[k..] == was;
  }

  lemma SubSelfTail(a: seq<FdEvent>)
    requires a != []
    ensures Sub(a[1..], a)
  {
    SubSelf(a[1..]);
  }

  method UnlinkFrom(list: FdEvent, node: FdEvent, ghost nodes: seq<FdEvent>) returns (ghost left: seq<FdEvent>)
    requires Ring(list, nodes) && node in nodes
    modifies list`next, list`prev, nodes`next, nodes`prev
    ensures Ring(list, left) && Dropped(nodes, left, node)
    ensures forall g :: g in left <==> g in nodes && g != node
  {
    ghost var k :| 0 <= k < |nodes| && nodes[k] == node;
    Unlink(list, node, nodes, k);
    left := nodes[..k] + nodes[k + 1..];
    DroppedMembers(nodes, left, node);
  }

  /** fdevent_plist_dequeue: the oldest pending fdevent */
  method Dequeue(list: FdEvent, ghost nodes: seq<FdEvent>) returns (node: FdEvent?)
    requires Ring(list, nodes)
    modifies list`next, list`prev, nodes`next, nodes`prev
    ensures nodes == [] ==> node == null && Ring(list, nodes)
    ensures nodes != [] ==> node == nodes[0] && Ring(list, nodes[1..]) && node !in nodes[1..]
  {
    node := list.next;
    if node == list {
      return null;
    }
    assert InPlace(list, nodes, 0);
    list.next := node.next;
    list.next.prev := list;
    node.next := null;
    node.prev := null;
    forall i | 0 <= i < |nodes| - 1
      ensures InPlace(list, nodes[1..], i)
    {
      assert nodes[1..][i] == nodes[i + 1] && old(InPlace(list, nodes, i + 1));
    }
  }

  // ---- the loop's state ----

  /** What select reports: -1 or the number of ready entries, and the three sets cut down to them. */
  datatype Ready = Ready(n: int, rfd: set<int>, wfd: set<int>, efd: set<int>)

  function EventsOf(ready: Ready, i: int): Flags {
    (if i in ready.rfd then {READ} else {})
    + (if i in ready.wfd then {WRITE} else {})
    + (if i in ready.efd then {ERROR} else {})
  }

  lemma EventsSpelt(ready: Ready, i: int)
    ensures READ in EventsOf(ready, i) <==> i in ready.rfd
    ensures WRITE in EventsOf(ready, i) <==> i in ready.wfd
    ensures ERROR in EventsOf(ready, i) <==> i in ready.efd
    ensures EventsOf(ready, i) <= {READ, WRITE, ERROR}
  {
  }

  /** The ready descriptors from i on. */
  ghost function ReadyFrom(ready: Ready, i: int): set<int> {
    set x | x in ready.rfd + ready.wfd + ready.efd && x >= i
  }

  /** The count of select is enough for one decrement per ready descriptor. */
  lemma CountSuffices(ready: Ready, i: int)
    requires ready.n == |ready.rfd| + |ready.wfd| + |ready.efd|
    ensures |ReadyFrom(ready, i)| <= ready.n
  {
    var all := ready.rfd + ready.wfd + ready.efd;
    SubsetSize(ReadyFrom(ready, i), all);
  }

  lemma SubsetSize(a: set<int>, b: set<int>)
    requires a <= b
    ensures |a| <= |b|
  {
    assert b == a + (b - a);
  }

  lemma ReadyStep(ready: Ready, i: int)
    ensures |ReadyFrom(ready, i)| == |ReadyFrom(ready, i + 1)| + if EventsOf(ready, i) != {} then 1 else 0
  {
    var here := i in ready.rfd + ready.wfd + ready.efd;
    assert here <==> EventsOf(ready, i) != {};
    assert ReadyFrom(ready, i) == ReadyFrom(ready, i + 1) + if here then {i} else {};
  }

  // ---- what callbacks do ----

  datatype Choice = Removes | Sets | Adds | Dels

  /** A call that a callback makes: on the fdevent of a descriptor, or to install one there if it has none. */
  datatype Action = Action(fd: int, choice: Choice, events: Flags)

  function ActionsAt(script: seq<seq<Action>>, j: nat): seq<Action> {
    if j < |script| then script[j] else []
  }

  function FdsOf(actions: seq<Action>): set<int> {
    set a | a in actions :: a.fd
  }

  /** The descriptors that the first j callbacks of a turn make calls on. */
  function Touched(script: seq<seq<Action>>, j: nat): set<int> {
    if j == 0 then {} else Touched(script, j - 1) + FdsOf(ActionsAt(script, j - 1))
  }

  /** One call of a callback by the loop. */
  datatype Call = Call(fde: FdEvent, fd: int, events: Flags)

  function Called(calls: seq<Call>): (r: seq<FdEvent>)
    ensures |r| == |calls| && forall j :: 0 <= j < |r| ==> r[j] == calls[j].fde
  {
    seq(|calls|, j requires 0 <= j < |calls| => calls[j].fde)
  }

  /** What a turn owes a fdevent: a call with its descriptor and these events. */
  datatype Due = Due(fd: int, events: Flags)

  /** It gets the events that are due, if none of the callbacks before has touched its descriptor, and never others. */
  ghost predicate Fits(call: Call, due: map<FdEvent, Due>, touched: set<int>) {
    && call.fde in due && call.fd == due[call.fde].fd && call.events != {} && call.events <= due[call.fde].events
    && (call.fd !in touched ==> call.events == due[call.fde].events)
  }

  ghost predicate AllFit(calls: seq<Call>, due: map<FdEvent, Due>, script: seq<seq<Action>>) {
    forall j :: 0 <= j < |calls| ==> Fits(calls[j], due, Touched(script, j))
  }

  lemma OneMore(calls: seq<Call>, call: Call, due: map<FdEvent, Due>, script: seq<seq<Action>>)
    requires AllFit(calls, due, script) && Fits(call, due, Touched(script, |calls|))
    ensures AllFit(calls + [call], due, script)
    ensures Touched(script, |calls| + 1) == Touched(script, |calls|) + FdsOf(ActionsAt(script, |calls|))
  {
    hide Fits, FdsOf, ActionsAt;
  }

  lemma NoneYet(due: map<FdEvent, Due>, script: seq<seq<Action>>)
    ensures AllFit([], due, script) && Touched(script, 0) == {}
  {
  }

  ghost function Queue(fde: FdEvent?, rest: seq<FdEvent>): seq<FdEvent> {
    if fde == null then [] else [fde] + rest
  }

  /** One more call, with less of the queue behind it. */
  lemma AfterCall(calls: seq<Call>, call: Call, was: seq<FdEvent>, now: seq<FdEvent>, order: seq<FdEvent>)
    requires Sub(Called(calls) + Queue(call.fde, was), order) && Sub(now, was)
    ensures Sub(Called(calls + [call]) + now, order)
    ensures forall f :: f in Called(calls + [call]) <==> f in Called(calls) || f == call.fde
  {
    hide Sub;
    var c := Called(calls);
    assert Called(calls + [call]) == c + [call.fde];
    SubAfter(c + [call.fde], now, was);
    assert c + [call.fde] + was == c + Queue(call.fde, was);
    SubTrans(c + [call.fde] + now, c + [call.fde] + was, order);
  }

  class EventLoop {
    const list: FdEvent
    /** Whether a pointer is twice as wide as an int. */
    const wide: bool
    var table: array<FdEvent?>
    var readFds: set<int>
    var writeFds: set<int>
    var errorFds: set<int>
    var selectN: int
    ghost var pending: seq<FdEvent>
    /** The calls that the loop has made, with what it passed. */
    ghost var called: seq<Call>
    /** The fdevents that the program has installed, which are those its callbacks can reach. */
    var installed: set<FdEvent>

    /** An installed fdevent is in the table at its descriptor. */
    ghost predicate InTable(f: FdEvent)
      reads `table, `selectN, table, f`fd, f`state
    {
      0 <= f.fd < table.Length && f.fd < selectN && table[f.fd] == f && ACTIVE in f.state
    }

    /** It is on the list exactly when its pending bit is set, and exactly when it has events. */
    ghost predicate ListAgrees(f: FdEvent)
      reads `pending, f`state, f`events
    {
      (PENDING in f.state <==> f in pending) && (f.events != {} <==> f in pending)
    }

    /** Its event bits are those of the descriptor sets. */
    ghost predicate SetsAgree(f: FdEvent)
      reads `readFds, `writeFds, `errorFds, f`fd, f`state
    {
      && (f.fd in readFds <==> READ in f.state)
      && (f.fd in writeFds <==> WRITE in f.state)
      && (f.fd in errorFds <==> ERROR in f.state)
    }

    /** The entry is an installed fdevent. */
    ghost predicate IsOwn(i: int)
      reads `table, `installed, table, installed`fd
    {
      0 <= i < table.Length && table[i] != null && table[i] in installed && table[i].fd == i
    }

    /** If pointers are no wider than an int, every entry of the table is empty or an installed fdevent. */
    ghost predicate EntryOk(i: int)
      reads `table, `installed, table, installed`fd
    {
      !wide && 0 <= i < table.Length && table[i] != null ==> IsOwn(i)
    }

    /** A descriptor that is in a set has its fdevent in the table. */
    ghost predicate SetOk(i: int)
      reads `table, `readFds, `writeFds, `errorFds, table, `installed, installed`fd
    {
      i in readFds || i in writeFds || i in errorFds ==> IsOwn(i)
    }

    /** Everything agrees, except perhaps for one installed fdevent. */
    ghost predicate ValidBut(x: FdEvent?)
      reads this, table, list, installed
    {
      && list !in installed && (forall f :: f in pending ==> f in installed)
      && Ring(list, pending)
      && (forall f :: f in installed && f != x ==> InTable(f))
      && (forall f :: f in installed && f != x ==> ListAgrees(f))
      && (forall f :: f in installed && f != x ==> SetsAgree(f))
      && (forall i :: EntryOk(i)) && (forall i :: SetOk(i))
      && 0 <= selectN <= table.Length
    }

    ghost predicate Valid()
      reads this, table, list, installed
    {
      ValidBut(null)
    }

    constructor (wide: bool)
      ensures Valid() && fresh(list) && fresh(table) && installed == {} && pending == [] && called == [] && this.wide == wide
    {
      this.wide := wide;
      list := new FdEvent();
      table := new FdEvent?[0];
      readFds, writeFds, errorFds, selectN := {}, {}, {}, 0;
      pending, installed, called := [], {}, [];
      new;
      list.next, list.prev := list, list;
    }

    /**
     The part of fdevent_register that makes room in fd_table. It clears an int per new entry: with wide pointers the
     second half of the new entries keeps whatever realloc finds there.
     */
    method Grow(fd: int)
      requires Valid() && table.Length <= fd <= 32000
      modifies this`table
      ensures Valid() && fresh(table) && fd < table.Length
      ensures forall i :: 0 <= i < old(table.Length) ==> table[i] == old(table[i])
      ensures forall i :: old(table.Length) <= i < old(table.Length) + Cleared(table.Length - old(table.Length)) ==> table[i] == null
    {
      hide Ring, ListAgrees, SetsAgree;
      var max := table.Length;
      if max == 0 {
        max := 256;
      }
      while max <= fd
        invariant max >= table.Length && max >= 1
        decreases fd - max
      {
        max := max * 2;
      }
      var was := table;
      table := Realloc(was, max, Cleared(max - was.Length));
      assert forall f :: f in installed ==> old(InTable(f)) ==> InTable(f);
      assert forall i :: old(EntryOk(i)) ==> EntryOk(i);
      assert forall i :: old(SetOk(i)) ==> SetOk(i);
    }

    /** How many of n new entries the memset of fdevent_register clears. */
    function Cleared(n: nat): nat {
      if wide then n / 2 else n
    }

    /** realloc and memset: the old entries, `clear` empty ones, and others that may hold anything. */
    static method Realloc(was: array<FdEvent?>, max: nat, clear: nat) returns (now: array<FdEvent?>)
      requires was.Length + clear <= max
      ensures fresh(now) && now.Length == max
      ensures forall i :: 0 <= i < was.Length ==> now[i] == was[i]
      ensures forall i :: was.Length <= i < was.Length + clear ==> now[i] == null
    {
      now := new FdEvent?[max];
      forall i | 0 <= i < was.Length {
        now[i] := was[i];
      }
      forall i | was.Length <= i < was.Length + clear {
        now[i] := null;
      }
    }

    /** The entry of the table and select_n. */
    method Enter(fde: FdEvent)
      requires Valid() && fde !in installed && fde != list
      requires 0 <= fde.fd < table.Length && fde.state == {ACTIVE} && fde.events == {}
      requires forall f :: f in installed ==> f.fd != fde.fd
      modifies this`installed, this`selectN, table
      ensures Valid() && installed == old(installed) + {fde}
    {
      hide Ring;
      assert SetOk(fde.fd);
      table[fde.fd] := fde;
      if fde.fd >= selectN {
        selectN := fde.fd + 1;
      }
      installed := installed + {fde};
      assert InTable(fde) && ListAgrees(fde) && SetsAgree(fde);
      assert forall f :: f in installed && f != fde ==> old(InTable(f)) ==> InTable(f);
      assert forall i :: old(EntryOk(i)) ==> EntryOk(i);
      assert forall i :: old(SetOk(i)) ==> SetOk(i);
    }

    /** fdevent_install with register and connect; false stands for the abort on a descriptor out of range. */
    method Install(fde: FdEvent, fd: int) returns (ok: bool)
      requires Valid() && fde !in installed && fde != list
      requires forall f :: f in installed ==> f.fd != fd
      modifies this`installed, this`selectN, this`table, table, fde
      ensures ok <==> 0 <= fd && (fd < old(table.Length) || fd <= 32000)
      ensures ok ==> Valid() && installed == old(installed) + {fde} && (table == old(table) || fresh(table))
      ensures ok ==> fde.fd == fd && fde.state == {ACTIVE}
    {
      hide Ring, InTable, ListAgrees, SetsAgree, EntryOk, SetOk;
      fde.next, fde.prev, fde.events := null, null, {};
      fde.state, fde.fd := {ACTIVE}, fd;
      if fd < 0 {
        return false;
      }
      if fd >= table.Length {
        if fd > 32000 {
          return false;
        }
        Grow(fd);
      }
      Enter(fde);
      return true;
    }

    /** fdevent_plist_remove for a pending fdevent; its own bits are still to be changed. */
    method LeaveList(fde: FdEvent)
      requires ValidBut(fde) && fde in pending
      modifies this`pending, list`next, list`prev, installed`next, installed`prev
      ensures ValidBut(fde) && Dropped(old(pending), pending, fde) && fde !in pending
    {
      hide Ring, Dropped, InTable, SetsAgree, EntryOk, SetOk;
      ghost var left := UnlinkFrom(list, fde, pending);
      pending := left;
      assert forall f :: f in installed && f != fde ==> old(ListAgrees(f)) ==> ListAgrees(f);
    }

    method JoinList(fde: FdEvent)
      requires ValidBut(fde) && fde in installed && fde !in pending
      modifies this`pending, list`next, list`prev, installed`next, installed`prev
      ensures ValidBut(fde) && pending == old(pending) + [fde]
    {
      hide Ring, InTable, SetsAgree, EntryOk, SetOk;
      Enqueue(list, fde, pending);
      pending := pending + [fde];
      assert forall f :: f in installed && f != fde ==> old(ListAgrees(f)) ==> ListAgrees(f);
    }

    method LeaveFirst() returns (fde: FdEvent?)
      requires Valid()
      modifies this`pending, list`next, list`prev, installed`next, installed`prev
      ensures old(pending) == [] ==> fde == null && pending == [] && Valid()
      ensures old(pending) != [] ==>
                fde == old(pending)[0] && pending == old(pending)[1..] && fde !in pending && ValidBut(fde)
    {
      hide Ring, InTable, SetsAgree, EntryOk, SetOk;
      fde := Dequeue(list, pending);
      if fde != null {
        pending := pending[1..];
        assert forall f :: f in installed && f != fde ==> old(ListAgrees(f)) ==> ListAgrees(f);
      }
    }

    /** fdevent_disconnect: select_n becomes one more than the last descriptor in the table, the leaving one included. */
    method Disconnect(fde: FdEvent)
      requires ValidBut(fde) && fde in installed && 0 <= fde.fd < selectN && table[fde.fd] == fde
      modifies this`readFds, this`writeFds, this`errorFds, this`selectN
      ensures ValidBut(fde)
      ensures readFds == old(readFds) - {fde.fd} && writeFds == old(writeFds) - {fde.fd} && errorFds == old(errorFds) - {fde.fd}
      ensures fde.fd < selectN <= old(selectN) && table[selectN - 1] != null && (!wide ==> IsOwn(selectN - 1))
    {
      hide Ring, ListAgrees, SetsAgree, SetOk;
      assert forall f :: f in installed && f != fde ==> InTable(f) ==> f.fd != fde.fd;
      var n := LastEntry();
      selectN := n + 1;
      assert forall f :: f in installed && f != fde ==> old(InTable(f)) ==> InTable(f);
      ClearSets(fde.fd);
      assert EntryOk(n);
    }

    /** FD_CLR in all three sets */
    method ClearSets(fd: int)
      modifies this`readFds, this`writeFds, this`errorFds
      ensures readFds == old(readFds) - {fd} && writeFds == old(writeFds) - {fd} && errorFds == old(errorFds) - {fd}
      ensures forall f :: f in installed && f.fd != fd && old(SetsAgree(f)) ==> SetsAgree(f)
      ensures forall i :: old(SetOk(i)) ==> SetOk(i)
    {
      readFds, writeFds, errorFds := readFds - {fd}, writeFds - {fd}, errorFds - {fd};
    }

    /** The loop of fdevent_disconnect */
    method LastEntry() returns (n: int)
      requires 0 <= selectN <= table.Length
      ensures 0 <= n && (n < selectN || n == 0)
      ensures forall i :: n < i < selectN ==> table[i] == null
      ensures (exists i :: 0 <= i < selectN && table[i] != null) ==> n < selectN && table[n] != null
    {
      n := 0;
      for i := 0 to selectN
        invariant 0 <= n && (n < i || n == 0)
        invariant forall j :: n < j < i ==> table[j] == null
        invariant (exists j :: 0 <= j < i && table[j] != null) ==> n < i && table[n] != null
      {
        if table[i] != null {
          n := i;
        }
      }
    }

    /** The end of fdevent_unregister */
    method Unregister(fde: FdEvent)
      requires ValidBut(fde) && fde in installed && fde !in pending && 0 <= fde.fd < selectN && table[fde.fd] == fde
      requires fde.fd !in readFds && fde.fd !in writeFds && fde.fd !in errorFds
      modifies this`installed, table
      ensures Valid() && installed == old(installed) - {fde} && table[fde.fd] == null
    {
      hide Ring, ListAgrees, SetsAgree;
      table[fde.fd] := null;
      installed := installed - {fde};
      assert forall f :: f in installed ==> old(InTable(f)) ==> InTable(f);
      assert forall i :: old(EntryOk(i)) ==> EntryOk(i);
      assert forall i :: old(SetOk(i)) ==> SetOk(i);
    }

    /** fdevent_remove; fdevent_unregister never finds the table out of sync. */
    method Remove(fde: FdEvent)
      requires Valid() && fde in installed
      modifies this`pending, this`installed, this`readFds, this`writeFds, this`errorFds, this`selectN
      modifies table, list`next, list`prev, installed`next, installed`prev, fde`state, fde`events
      ensures Valid() && installed == old(installed) - {fde} && fde.state == {} && fde.events == {}
      ensures if fde in old(pending) then Dropped(old(pending), pending, fde) else pending == old(pending)
      ensures readFds == old(readFds) - {fde.fd} && writeFds == old(writeFds) - {fde.fd} && errorFds == old(errorFds) - {fde.fd}
      ensures table[fde.fd] == null && 0 < selectN <= old(selectN) && old(table[..])[selectN - 1] != null
      ensures !wide ==> old(table[..])[selectN - 1] in old(installed)
    {
      hide Ring, Dropped, EntryOk, SetOk, SetsAgree;
      assert InTable(fde) && ListAgrees(fde);
      if PENDING in fde.state {
        LeaveList(fde);
      }
      if ACTIVE in fde.state {
        Disconnect(fde);
        assert 0 <= fde.fd < table.Length && table[fde.fd] == fde;
        Unregister(fde);
      }
      fde.state, fde.events := {}, {};
    }

    /** fdevent_update: the descriptor sets follow the event bits. */
    method Update(fde: FdEvent, events: Flags)
      requires Valid() && fde in installed && events == Events(events)
      modifies this`readFds, this`writeFds, this`errorFds, fde`state
      ensures Valid() && fde.state == WithEvents(old(fde.state), events)
    {
      hide Ring, EntryOk, SetOk;
      assert InTable(fde) && ListAgrees(fde);
      assert forall f :: f in installed && f != fde ==> InTable(f) ==> f.fd != fde.fd;
      SetSets(fde.fd, events);
      fde.state := WithEvents(fde.state, events);
      assert InTable(fde) && ListAgrees(fde) && SetsAgree(fde);
    }

    /** FD_SET or FD_CLR in each set */
    method SetSets(fd: int, events: Flags)
      requires IsOwn(fd)
      modifies this`readFds, this`writeFds, this`errorFds
      ensures fd in readFds <==> READ in events
      ensures fd in writeFds <==> WRITE in events
      ensures fd in errorFds <==> ERROR in events
      ensures forall f :: f in installed && f.fd != fd && old(SetsAgree(f)) ==> SetsAgree(f)
      ensures forall i :: old(SetOk(i)) ==> SetOk(i)
    {
      readFds := if READ in events then readFds + {fd} else readFds - {fd};
      writeFds := if WRITE in events then writeFds + {fd} else writeFds - {fd};
      errorFds := if ERROR in events then errorFds + {fd} else errorFds - {fd};
    }

    /** Sets or clears the pending bit, which table and sets do not depend on. */
    method MarkPending(fde: FdEvent, on: bool)
      modifies fde`state
      ensures fde.state == if on then old(fde.state) + {PENDING} else old(fde.state) - {PENDING}
      ensures forall f :: f in installed && old(InTable(f)) ==> InTable(f)
      ensures forall f :: f in installed && old(SetsAgree(f)) ==> SetsAgree(f)
    {
      fde.state := if on then fde.state + {PENDING} else fde.state - {PENDING};
      forall f | f in installed && old(InTable(f))
        ensures InTable(f)
      {
      }
      forall f | f in installed && old(SetsAgree(f))
        ensures SetsAgree(f)
      {
      }
    }

    /** The part of fdevent_set for a pending fdevent. */
    method MaskPending(fde: FdEvent, events: Flags)
      requires Valid() && fde in pending
      modifies this`pending, list`next, list`prev, installed`next, installed`prev, fde`state, fde`events
      ensures Valid() && fde.events == old(fde.events) - events
      ensures fde.events != {} ==> fde.state == old(fde.state) && pending == old(pending)
      ensures fde.events == {} ==> fde.state == old(fde.state) - {PENDING} && Dropped(old(pending), pending, fde)
    {
      hide Ring, Dropped, EntryOk, SetOk, InTable, SetsAgree;
      assert InTable(fde) && ListAgrees(fde) && SetsAgree(fde);
      fde.events := fde.events - events;
      if fde.events == {} {
        LeaveList(fde);
        MarkPending(fde, false);
      }
      assert ListAgrees(fde);
    }

    /** fdevent_set: what was pending and is now wanted is dropped. */
    method Set(fde: FdEvent, events: Flags)
      requires Valid() && fde in installed
      modifies this`pending, this`readFds, this`writeFds, this`errorFds
      modifies list`next, list`prev, installed`next, installed`prev, fde`state, fde`events
      ensures Valid() && Events(fde.state) == Events(events)
      ensures fde.events == SetEvents(old(fde.state), old(fde.events), events)
      ensures fde.state == SetState(old(fde.state), old(fde.events), events)
      ensures if fde in old(pending) && fde.events == {} then Dropped(old(pending), pending, fde) else pending == old(pending)
    {
      hide Ring, Dropped, EntryOk, SetOk;
      var e := Events(events);
      assert InTable(fde) && ListAgrees(fde);
      if Events(fde.state) == e {
        return;
      }
      if ACTIVE in fde.state {
        Update(fde, e);
      }
      fde.state := WithEvents(fde.state, e);
      assert fde.state == WithEvents(old(fde.state), e);
      assert InTable(fde) && ListAgrees(fde);
      if PENDING in fde.state {
        MaskPending(fde, e);
      }
    }

    /** fdevent_add and fdevent_del */
    method Add(fde: FdEvent, events: Flags)
      requires Valid() && fde in installed
      modifies this`pending, this`readFds, this`writeFds, this`errorFds
      modifies list`next, list`prev, installed`next, installed`prev, fde`state, fde`events
      ensures Valid() && Events(fde.state) == Events(old(fde.state)) + Events(events)
      ensures fde.events == SetEvents(old(fde.state), old(fde.events), Events(old(fde.state)) + Events(events))
      ensures if fde in old(pending) && fde.events == {} then Dropped(old(pending), pending, fde) else pending == old(pending)
    {
      hide ValidBut, Dropped;
      Set(fde, Events(fde.state) + Events(events));
    }

    method Del(fde: FdEvent, events: Flags)
      requires Valid() && fde in installed
      modifies this`pending, this`readFds, this`writeFds, this`errorFds
      modifies list`next, list`prev, installed`next, installed`prev, fde`state, fde`events
      ensures Valid() && Events(fde.state) == Events(old(fde.state)) - Events(events)
      ensures fde.events == SetEvents(old(fde.state), old(fde.events), Events(old(fde.state)) - Events(events))
      ensures if fde in old(pending) && fde.events == {} then Dropped(old(pending), pending, fde) else pending == old(pending)
    {
      hide ValidBut, Dropped;
      Set(fde, Events(fde.state) - Events(events));
    }

    /** The sets select may hand back. */
    ghost predicate FromSelect(ready: Ready)
      reads `readFds, `writeFds, `errorFds
    {
      ready.n >= 0 ==>
        && ready.rfd <= readFds && ready.wfd <= writeFds && ready.efd <= errorFds
        && ready.n == |ready.rfd| + |ready.wfd| + |ready.efd|
    }

    /** The body of the loop of fdevent_process for a descriptor with events. */
    method Signal(fde: FdEvent, events: Flags)
      requires Valid() && fde in installed && events != {}
      modifies this`pending, list`next, list`prev, installed`next, installed`prev, fde`state, fde`events
      ensures Valid() && fde.events == old(fde.events) + events
      ensures pending == old(pending) + if fde in old(pending) then [] else [fde]
    {
      hide Ring, EntryOk, SetOk, InTable, SetsAgree;
      assert InTable(fde) && ListAgrees(fde) && SetsAgree(fde);
      fde.events := fde.events + events;
      if PENDING in fde.state {
        return;
      }
      JoinList(fde);
      MarkPending(fde, true);
      assert ListAgrees(fde);
    }

    /** The pending fdevents are the earlier ones in their order, then new ones by descriptor, below `bound`. */
    ghost predicate Appended(was: seq<FdEvent>, bound: int)
      reads `pending, pending`fd
    {
      && was <= pending
      && (forall j :: |was| <= j < |pending| ==> pending[j].fd < bound)
      && forall j, k :: |was| <= j < k < |pending| ==> pending[j].fd < pending[k].fd
    }

    /** The descriptors below i have been dealt with; `was` are the events before, `order` the list before. */
    ghost predicate Progress(was: map<FdEvent, Flags>, order: seq<FdEvent>, ready: Ready, i: int)
      reads `pending, `installed, installed`fd, installed`events, pending`fd
    {
      && Appended(order, i)
      && forall f :: f in installed ==> f in was && Signalled(f, was[f], order, ready, i)
    }

    ghost predicate Signalled(f: FdEvent, was: Flags, order: seq<FdEvent>, ready: Ready, i: int)
      reads `pending, f`fd, f`events
    {
      && f.events == was + (if f.fd < i then EventsOf(ready, f.fd) else {})
      && (f.fd >= i && f in pending ==> f in order)
    }

    lemma NothingAt(ready: Ready, i: int, was: map<FdEvent, Flags>, order: seq<FdEvent>)
      requires Progress(was, order, ready, i) && EventsOf(ready, i) == {}
      ensures Progress(was, order, ready, i + 1)
    {
      hide EventsOf;
      forall f | f in installed
        ensures f in was && Signalled(f, was[f], order, ready, i + 1)
      {
        assert Signalled(f, was[f], order, ready, i);
      }
    }

    /** One turn of the loop of fdevent_process */
    method Visit(ready: Ready, i: int, ghost was: map<FdEvent, Flags>, ghost order: seq<FdEvent>) returns (hit: bool)
      requires Valid() && FromSelect(ready) && ready.n >= 0 && 0 <= i < selectN && Progress(was, order, ready, i)
      modifies this`pending, list`next, list`prev, installed`next, installed`prev, installed`state, installed`events
      ensures Valid() && Progress(was, order, ready, i + 1) && hit == (EventsOf(ready, i) != {})
    {
      hide ValidBut, EventsOf, Progress, FromSelect;
      var events := EventsOf(ready, i);
      hit := events != {};
      if hit {
        var fde := ReadyEntry(ready, i);
        SignalAt(fde, ready, i, was, order);
      } else {
        NothingAt(ready, i, was, order);
      }
    }

    method SignalAt(fde: FdEvent, ready: Ready, i: int, ghost was: map<FdEvent, Flags>, ghost order: seq<FdEvent>)
      requires Valid() && Progress(was, order, ready, i) && EventsOf(ready, i) != {} && fde in installed && fde.fd == i
      requires forall f :: f in installed && f.fd == i ==> f == fde
      modifies this`pending, list`next, list`prev, installed`next, installed`prev, fde`state, fde`events
      ensures Valid() && Progress(was, order, ready, i + 1)
    {
      hide ValidBut, EventsOf;
      assert Signalled(fde, was[fde], order, ready, i);
      Signal(fde, EventsOf(ready, i));
      forall f | f in installed
        ensures f in was && Signalled(f, was[f], order, ready, i + 1)
      {
        assert old(Signalled(f, was[f], order, ready, i));
      }
    }

    lemma LoopBounds(ready: Ready)
      requires Valid() && FromSelect(ready) && ready.n >= 0
      ensures 0 <= selectN && |ReadyFrom(ready, 0)| <= ready.n
    {
      CountSuffices(ready, 0);
    }

    /** The loop of fdevent_process */
    method VisitAll(ready: Ready, ghost was: map<FdEvent, Flags>, ghost order: seq<FdEvent>) returns (i: int)
      requires Valid() && FromSelect(ready) && ready.n >= 0 && Progress(was, order, ready, 0)
      modifies this`pending, list`next, list`prev, installed`next, installed`prev, installed`state, installed`events
      ensures Valid() && Progress(was, order, ready, i) && i <= selectN && (i == selectN || ReadyFrom(ready, i) == {})
    {
      hide ValidBut, ReadyFrom, EventsOf, Progress, FromSelect;
      LoopBounds(ready);
      var n := ready.n;
      i := 0;
      while i < selectN && n > 0
        invariant 0 <= i <= selectN && Valid() && FromSelect(ready) && Progress(was, order, ready, i)
        invariant n >= |ReadyFrom(ready, i)|
        decreases selectN - i
      {
        ReadyStep(ready, i);
        var hit := Visit(ready, i, was, order);
        if hit {
          n := n - 1;
        }
        i := i + 1;
      }
    }

    /** fdevent_process: every ready descriptor gets its events; no fdevent is missing; the early exit skips none. */
    method Process(ready: Ready)
      requires Valid() && FromSelect(ready)
      modifies this`pending, list`next, list`prev, installed`next, installed`prev, installed`state, installed`events
      ensures Valid()
      ensures ready.n < 0 ==> pending == old(pending)
      ensures forall f :: f in installed ==>
                f.events == old(f.events) + if ready.n < 0 then {} else EventsOf(ready, f.fd)
      ensures Appended(old(pending), selectN)
    {
      assert forall f :: f in installed ==> InTable(f) ==> f.fd >= 0;
      hide ValidBut, EventsOf, ReadyFrom;
      if ready.n < 0 {
        return;
      }
      ghost var was: map<FdEvent, Flags> := map f: FdEvent | f in installed :: f.events;
      var i := VisitAll(ready, was, pending);
      forall f | f in installed
        ensures f.events == was[f] + EventsOf(ready, f.fd)
      {
        assert Signalled(f, was[f], old(pending), ready, i);
        AllSeen(ready, i, f);
      }
    }

    /** Only wanted events are ready. */
    lemma ReadyWanted(ready: Ready)
      requires Valid() && FromSelect(ready) && ready.n >= 0
      ensures forall f :: f in installed ==> EventsOf(ready, f.fd) <= Events(f.state)
    {
      forall f | f in installed
        ensures EventsOf(ready, f.fd) <= Events(f.state)
      {
        assert SetsAgree(f);
        EventsSpelt(ready, f.fd);
      }
    }

    /** After the loop no ready descriptor is left. */
    lemma AllSeen(ready: Ready, i: int, f: FdEvent)
      requires Valid() && f in installed && (i >= selectN || ReadyFrom(ready, i) == {})
      ensures f.fd < i || EventsOf(ready, f.fd) == {}
    {
      assert InTable(f);
      if f.fd >= i {
        assert f.fd !in ReadyFrom(ready, i);
      }
    }

    method ReadyEntry(ready: Ready, i: int) returns (fde: FdEvent?)
      requires Valid() && FromSelect(ready) && ready.n >= 0 && EventsOf(ready, i) != {}
      ensures fde != null && fde in installed && fde.fd == i
      ensures forall f :: f in installed && f.fd == i ==> f == fde
    {
      assert SetOk(i);
      fde := table[i];
      assert forall f :: f in installed && f.fd == i ==> InTable(f) ==> f == fde;
    }

    /** fdevent_plist_dequeue and what fdevent_loop does before it calls back: events are delivered once. */
    method Next() returns (fde: FdEvent?, events: Flags)
      requires Valid()
      modifies this`pending, list`next, list`prev, installed`next, installed`prev, installed`state, installed`events
      ensures Valid()
      ensures old(pending) == [] ==> fde == null && pending == []
      ensures old(pending) != [] ==>
                && fde == old(pending)[0] && pending == old(pending)[1..]
                && events == old(pending[0].events) != {}
      ensures forall f :: f in installed ==> f.events == if f == fde then {} else old(f.events)
    {
      hide Ring, EntryOk, SetOk, InTable, SetsAgree;
      assert forall f :: f in pending ==> ListAgrees(f) && InTable(f) && SetsAgree(f);
      fde := LeaveFirst();
      if fde == null {
        return fde, {};
      }
      events := fde.events;
      fde.events := {};
      MarkPending(fde, false);
      assert ListAgrees(fde);
    }

    lemma DistinctPending()
      requires Valid()
      ensures Distinct(pending) && forall f :: f in pending ==> f in installed
    {
    }

    /** One call of a callback on a fdevent. */
    method Perform(fde: FdEvent, a: Action)
      requires Valid() && fde in installed
      modifies this`pending, this`installed, this`readFds, this`writeFds, this`errorFds, this`selectN, table
      modifies list`next, list`prev, installed`next, installed`prev, fde`state, fde`events
      ensures Valid() && installed <= old(installed) && Sub(pending, old(pending)) && fde.events <= old(fde.events)
      ensures forall f :: f in old(pending) && f != fde ==> f in pending
      ensures forall f :: f in pending ==> f in old(pending)
    {
      hide ValidBut, Dropped, Sub, Distinct, Events;
      ghost var was := pending;
      DistinctPending();
      match a.choice {
        case Removes => Remove(fde);
        case Sets => Set(fde, a.events);
        case Adds => Add(fde, a.events);
        case Dels => Del(fde, a.events);
      }
      LessPending(was, pending, fde);
    }

    static lemma LessPending(was: seq<FdEvent>, now: seq<FdEvent>, f: FdEvent)
      requires Distinct(was) && (now == was || Dropped(was, now, f))
      ensures Sub(now, was) && (forall g :: g in was && g != f ==> g in now) && forall g :: g in now ==> g in was
    {
      hide Dropped, Sub, Distinct;
      if now == was {
        SubSelf(was);
      } else {
        DroppedSub(was, now, f);
        DroppedMembers(was, now, f);
      }
    }

    /** A new fdevent, for a descriptor that has none. */
    method InstallNew(fd: int)
      requires Valid() && 0 <= fd <= 32000 && forall f :: f in installed ==> f.fd != fd
      modifies this`installed, this`selectN, this`table, table
      ensures Valid() && pending == old(pending)
      ensures fresh(installed - old(installed)) && (table == old(table) || fresh(table))
    {
      hide ValidBut;
      var made := new FdEvent();
      var ok := Install(made, fd);
    }

    /** What one action leaves of the pending fdevents. */
    method Act(a: Action)
      requires Valid()
      modifies this`pending, this`installed, this`readFds, this`writeFds, this`errorFds, this`selectN, this`table, table
      modifies list`next, list`prev, installed`next, installed`prev, installed`state, installed`events
      ensures Valid() && Sub(pending, old(pending))
      ensures fresh(installed - old(installed)) && (table == old(table) || fresh(table))
      ensures forall f :: f in old(pending) && f.fd != a.fd ==> f in pending && f.events == old(f.events)
      ensures forall f :: f in pending ==> f in old(pending) && f.events <= old(f.events)
    {
      hide ValidBut, Sub;
      DistinctPending();
      if exists f :: f in installed && f.fd == a.fd {
        var f :| f in installed && f.fd == a.fd;
        Perform(f, a);
      } else {
        SubSelf(pending);
        if 0 <= a.fd <= 32000 {
          InstallNew(a.fd);
        }
      }
    }

    method Record(call: Call)
      requires Valid()
      modifies this`called
      ensures Valid() && called == old(called) + [call]
    {
      called := called + [call];
    }

    /** fde->func: the call is recorded, and the callback then does what the script says. */
    method Callback(fde: FdEvent, fd: int, events: Flags, actions: seq<Action>)
      requires Valid()
      modifies this`called, this`pending, this`installed, this`readFds, this`writeFds, this`errorFds, this`selectN, this`table, table
      modifies list`next, list`prev, installed`next, installed`prev, installed`state, installed`events
      ensures Valid() && Sub(pending, old(pending)) && called == old(called) + [Call(fde, fd, events)]
      ensures fresh(installed - old(installed)) && (table == old(table) || fresh(table))
      ensures forall f :: f in old(pending) && f.fd !in FdsOf(actions) ==> f in pending && f.events == old(f.events)
      ensures forall f :: f in pending ==> f in old(pending) && f.events <= old(f.events)
    {
      hide ValidBut, Sub;
      Record(Call(fde, fd, events));
      SubSelf(pending);
      DistinctPending();
      var k := 0;
      while k < |actions|
        invariant 0 <= k <= |actions| && Valid() && Sub(pending, old(pending))
        invariant fresh(installed - old(installed)) && (table == old(table) || fresh(table))
        invariant forall f :: f in old(pending) && f.fd !in FdsOf(actions) ==> f in pending && f.events == old(f.events)
        invariant forall f :: f in pending ==> f in old(pending) && f.events <= old(f.events)
        invariant called == old(called) + [Call(fde, fd, events)]
      {
        ghost var was := pending;
        assert actions[k].fd in FdsOf(actions);
        Act(actions[k]);
        SubTrans(pending, was, old(pending));
        k := k + 1;
      }
    }

    /** The events of the pending fdevents: those due, but for what has been taken away where a callback made a call. */
    ghost predicate Waiting(due: map<FdEvent, Due>, touched: set<int>)
      reads `pending, pending`events, pending`fd
    {
      forall f :: f in pending ==>
        f in due && f.fd == due[f].fd && f.events <= due[f].events && (f.fd !in touched ==> f.events == due[f].events)
    }

    /** Nothing is forgotten: called, still in the queue, or touched. */
    static ghost predicate Covered(order: seq<FdEvent>, calls: seq<Call>, queue: seq<FdEvent>, touched: set<int>)
      reads order`fd
    {
      forall f :: f in order ==> f in Called(calls) || f in queue || f.fd in touched
    }

    /** The fdevents that a turn calls back, in the order of the list. */
    method Gather(ready: Ready) returns (ghost order: seq<FdEvent>, ghost due: map<FdEvent, Due>)
      requires Valid() && FromSelect(ready)
      modifies this`pending, list`next, list`prev, installed`next, installed`prev, installed`state, installed`events
      ensures Valid() && order == pending && Distinct(order) && old(pending) <= order
      ensures due.Keys == installed
      ensures forall f :: f in installed ==>
                due[f] == Due(f.fd, old(f.events) + if ready.n < 0 then {} else EventsOf(ready, f.fd))
      ensures ready.n >= 0 ==> forall f :: f in due ==> EventsOf(ready, f.fd) <= Events(old(f.state))
      ensures forall f :: f in order <==> f in due && due[f].events != {}
      ensures forall j, k :: |old(pending)| <= j < k < |order| ==> order[j].fd < order[k].fd
      ensures Waiting(due, {})
    {
      hide ValidBut, EventsOf, Distinct, Events;
      if ready.n >= 0 {
        ReadyWanted(ready);
      }
      Process(ready);
      order := pending;
      DistinctPending();
      due := map f: FdEvent | f in installed :: Due(f.fd, f.events);
      PendingHasEvents();
    }

    lemma PendingHasEvents()
      requires Valid()
      ensures forall f :: f in installed ==> (f in pending <==> f.events != {})
    {
      forall f | f in installed
        ensures f in pending <==> f.events != {}
      {
        assert ListAgrees(f);
      }
    }

    /** The calls so far and what is left of the order. */
    ghost predicate Underway(order: seq<FdEvent>, due: map<FdEvent, Due>, calls: seq<Call>, queue: seq<FdEvent>, touched: set<int>)
      reads `pending, pending`events, pending`fd, order`fd
    {
      Sub(Called(calls) + queue, order) && Waiting(due, touched) && Covered(order, calls, queue, touched)
    }

    /** The next fdevent is taken off the list. */
    method Take(ghost order: seq<FdEvent>, ghost due: map<FdEvent, Due>, ghost calls: seq<Call>, ghost touched: set<int>)
      returns (fde: FdEvent?, events: Flags)
      requires Valid() && Underway(order, due, calls, pending, touched)
      modifies this`pending, list`next, list`prev, installed`next, installed`prev, installed`state, installed`events
      ensures Valid() && Underway(order, due, calls, Queue(fde, pending), touched)
      ensures fde == null ==> pending == []
      ensures fde != null ==> fde in old(pending) && |pending| < |old(pending)| && Fits(Call(fde, fde.fd, events), due, touched)
    {
      hide ValidBut, Sub, Distinct;
      DistinctPending();
      ghost var was := pending;
      fde, events := Next();
      assert was != [] ==> was == [was[0]] + was[1..];
      if was != [] {
        NotAgain(was);
      }
    }

    lemma NotAgain(was: seq<FdEvent>)
      requires Valid() && was != [] && pending == was[1..] && Distinct(was)
      ensures was[0] !in pending
    {
    }

    /** One callback. */
    method CallOut(fde: FdEvent, events: Flags, actions: seq<Action>, ghost order: seq<FdEvent>, ghost due: map<FdEvent, Due>,
                   ghost calls: seq<Call>, ghost touched: set<int>)
      requires Valid() && Underway(order, due, calls, Queue(fde, pending), touched)
      modifies this`called, this`pending, this`installed, this`readFds, this`writeFds, this`errorFds, this`selectN, this`table, table
      modifies list`next, list`prev, installed`next, installed`prev, installed`state, installed`events
      ensures Valid() && called == old(called) + [Call(fde, fde.fd, events)] && |pending| <= |old(pending)|
      ensures Underway(order, due, calls + [Call(fde, fde.fd, events)], pending, touched + FdsOf(actions))
      ensures fresh(installed - old(installed)) && (table == old(table) || fresh(table))
    {
      hide ValidBut, Sub, Distinct, FdsOf;
      ghost var was := pending;
      DistinctPending();
      Callback(fde, fde.fd, events, actions);
      AfterCall(calls, Call(fde, fde.fd, events), was, pending, order);
      SubShorter(pending, was);
    }

    /**
     One turn of fdevent_loop; `script` is what its callbacks do. It ends, and then nothing is pending. The fdevents that
     were pending or are ready are called back in order, the old list first and then the others by descriptor, each at
     most once and with a non-empty part of its pending and ready events; with all of them, and without fail, unless a
     callback before has made a call on its descriptor.
     */
    method Turn(ready: Ready, script: seq<seq<Action>>)
      returns (ghost order: seq<FdEvent>, ghost due: map<FdEvent, Due>, ghost calls: seq<Call>)
      requires Valid() && FromSelect(ready)
      modifies this, table, list`next, list`prev, installed`next, installed`prev, installed`state, installed`events
      ensures Valid() && pending == [] && called == old(called) + calls
      ensures due.Keys == old(installed)
      ensures forall f :: f in due ==> due[f] == Due(f.fd, old(f.events) + if ready.n < 0 then {} else EventsOf(ready, f.fd))
      ensures ready.n >= 0 ==> forall f :: f in due ==> EventsOf(ready, f.fd) <= Events(old(f.state))
      ensures forall f :: f in order <==> f in due && due[f].events != {}
      ensures Distinct(order) && old(pending) <= order
      ensures forall j, k :: |old(pending)| <= j < k < |order| ==> order[j].fd < order[k].fd
      ensures Sub(Called(calls), order) && AllFit(calls, due, script)
      ensures forall f :: f in order ==> f in Called(calls) || f.fd in Touched(script, |calls|)
      ensures Touched(script, |calls|) == {} ==> Called(calls) == order
    {
      hide ValidBut, Sub, Distinct, EventsOf, FdsOf, Waiting, Underway, Touched, AllFit;
      order, due := Gather(ready);
      FirstUnderway(order, due);
      calls := CallAll(script, order, due);
    }

    /** The loop over the list. */
    method CallAll(script: seq<seq<Action>>, ghost order: seq<FdEvent>, ghost due: map<FdEvent, Due>) returns (ghost calls: seq<Call>)
      requires Valid() && Underway(order, due, [], pending, {}) && Distinct(order)
      modifies this, table, list`next, list`prev, installed`next, installed`prev, installed`state, installed`events
      ensures Valid() && pending == [] && called == old(called) + calls
      ensures Sub(Called(calls), order) && AllFit(calls, due, script)
      ensures forall f :: f in order ==> f in Called(calls) || f.fd in Touched(script, |calls|)
      ensures Touched(script, |calls|) == {} ==> Called(calls) == order
    {
      hide ValidBut, Sub, Distinct, Fits, FdsOf, Underway, Touched, AllFit;
      calls := [];
      NoneYet(due, script);
      var fde, events := Take(order, due, calls, Touched(script, 0));
      var j: nat := 0;
      while fde != null
        invariant Valid() && (fde == null ==> pending == []) && j == |calls| && called == old(called) + calls
        invariant fresh(installed - old(installed)) && (table == old(table) || fresh(table))
        invariant Underway(order, due, calls, Queue(fde, pending), Touched(script, j))
        invariant fde != null ==> Fits(Call(fde, fde.fd, events), due, Touched(script, j))
        invariant AllFit(calls, due, script)
        decreases |pending| + if fde == null then 0 else 1
      {
        CallOut(fde, events, ActionsAt(script, j), order, due, calls, Touched(script, j));
        OneMore(calls, Call(fde, fde.fd, events), due, script);
        calls := calls + [Call(fde, fde.fd, events)];
        j := j + 1;
        fde, events := Take(order, due, calls, Touched(script, j));
      }
      AllCalled(order, due, calls, Touched(script, j));
    }

    lemma FirstUnderway(order: seq<FdEvent>, due: map<FdEvent, Due>)
      requires order == pending && Waiting(due, {})
      ensures Underway(order, due, [], pending, {})
    {
      assert Called([]) + order == order;
      SubSelf(order);
    }

    lemma AllCalled(order: seq<FdEvent>, due: map<FdEvent, Due>, calls: seq<Call>, touched: set<int>)
      requires Underway(order, due, calls, [], touched) && Distinct(order)
      ensures Sub(Called(calls), order) && forall f :: f in order ==> f in Called(calls) || f.fd in touched
      ensures touched == {} ==> Called(calls) == order
    {
      assert Called(calls) + [] == Called(calls);
      if touched == {} {
        SubAll(Called(calls), order);
      }
    }
  }
}
