/**
 The SYNC handshake of an adb transport: the output thread, the main loop and the input thread, joined
 by two packet queues.  Only packets that the input thread hands to write_to_remote reach the remote.
 */
module TransportSync {

  /** `Data` stands for every command other than SYNC and CNXN. */
  datatype Packet = Sync(arg0: nat, arg1: nat) | Cnxn | Data(n: nat)

  datatype OutputPc = Starting | Pumping | Stopped

  /**
   `up` runs from the output thread to the main loop and `down` from the main loop to the input thread.
   `handled` records what has left `up`, `sent` and `read` what has entered and left `down`, `written` what the
   remote has been given.
   */
  datatype State = State(
    host: bool,
    token: nat,
    output: OutputPc,
    up: seq<Packet>,
    down: seq<Packet>,
    active: bool,
    exited: bool,
    handled: seq<Packet>,
    sent: seq<Packet>,
    read: seq<Packet>,
    written: seq<Packet>)

  predicate Initial(st: State) {
    && st.output == Starting && st.up == [] && st.down == [] && !st.active && !st.exited
    && st.handled == [] && st.sent == [] && st.read == [] && st.written == []
  }

  datatype Step =
    | Start                          // output_thread posts SYNC(1, token)
    | FromRemote(p: Packet)          // read_from_remote succeeds, with any packet
    | RemoteFails                    // it fails: SYNC(0, 0)
    | Handle(replies: seq<nat>)      // handle_packet on the next packet from the output thread
    | MainSends(n: nat)              // the main loop sends a packet of its own
    | InputReads                     // input_thread reads one packet

  predicate Enabled(st: State, step: Step) {
    match step
    case Start => st.output == Starting
    case FromRemote(_) => st.output == Pumping
    case RemoteFails => st.output == Pumping
    case Handle(_) => st.up != []
    case MainSends(_) => true
    case InputReads => st.down != [] && !st.exited
  }

  function Send(st: State, ps: seq<Packet>): State {
    st.(down := st.down + ps, sent := st.sent + ps)
  }

  /** What handle_packet sends in answer; a plain packet may be answered by any number of others. */
  function Answer(host: bool, p: Packet, replies: seq<nat>): seq<Packet> {
    match p
    case Sync(a0, _) => if a0 != 0 && host then [p, Cnxn] else [p]
    case Cnxn => if host then [] else [Cnxn]
    case Data(_) => seq(|replies|, i requires 0 <= i < |replies| => Data(replies[i]))
  }

  /** One turn of the loop of input_thread. */
  function Consume(st: State): State
    requires st.down != []
  {
    var p := st.down[0];
    var st1 := st.(down := st.down[1..], read := st.read + [p]);
    match p
    case Sync(a0, a1) =>
      if a0 == 0 then st1.(exited := true)
      else if a1 == st.token then st1.(active := true)
      else st1
    case _ => if st.active then st1.(written := st.written + [p]) else st1
  }

  function Apply(st: State, step: Step): State
    requires Enabled(st, step)
  {
    match step
    case Start => st.(token := st.token + 1, output := Pumping, up := st.up + [Sync(1, st.token + 1)])
    case FromRemote(p) => st.(up := st.up + [p])
    case RemoteFails => st.(up := st.up + [Sync(0, 0)], output := Stopped)
    case Handle(replies) => Send(st.(up := st.up[1..], handled := st.handled + [st.up[0]]), Answer(st.host, st.up[0], replies))
    case MainSends(n) => Send(st, [Data(n)])
    case InputReads => Consume(st)
  }

  ghost predicate Follows(st: State, st': State) {
    exists step :: Enabled(st, step) && st' == Apply(st, step)
  }

  ghost predicate IsRun(run: seq<State>) {
    run != [] && Initial(run[0]) && forall k :: 0 <= k < |run| - 1 ==> Follows(run[k], run[k + 1])
  }

  // ---- what the remote is owed ----

  /** The offset of the first SYNC(0, _), or the length. */
  function Shutdown(ps: seq<Packet>): (n: nat)
    ensures n <= |ps|
    ensures forall k :: 0 <= k < n ==> !(ps[k].Sync? && ps[k].arg0 == 0)
    ensures n < |ps| ==> ps[n].Sync? && ps[n].arg0 == 0
  {
    if ps == [] || (ps[0].Sync? && ps[0].arg0 == 0) then 0 else 1 + Shutdown(ps[1..])
  }

  /** The offset after the first SYNC that carries the token, or the length if there is none. */
  function Online(ps: seq<Packet>, token: nat): (n: nat)
    ensures n <= |ps|
    ensures if HasOnline(ps, token) then 0 < n && IsOnline(ps[n - 1], token) else n == |ps|
  {
    if ps == [] then 0
    else if IsOnline(ps[0], token) then 1
    else 1 + Online(ps[1..], token)
  }

  function Payload(ps: seq<Packet>): seq<Packet> {
    if ps == [] then []
    else if ps[0].Sync? then Payload(ps[1..])
    else [ps[0]] + Payload(ps[1..])
  }

  /** What was sent between the SYNC with the token and the shutdown, without the SYNCs. */
  function Owed(ps: seq<Packet>, token: nat): seq<Packet> {
    var up := ps[..Shutdown(ps)];
    Payload(up[Online(up, token)..])
  }

  predicate IsOnline(p: Packet, token: nat) {
    p.Sync? && p.arg0 != 0 && p.arg1 == token
  }

  predicate HasOnline(ps: seq<Packet>, token: nat) {
    exists k :: 0 <= k < |ps| && IsOnline(ps[k], token)
  }

  lemma {:induction false} ShutdownSnoc(ps: seq<Packet>, p: Packet)
    ensures Shutdown(ps + [p]) == if Shutdown(ps) < |ps| then Shutdown(ps)
                                  else if p.Sync? && p.arg0 == 0 then |ps| else |ps| + 1
  {
    if ps == [] {
      assert ps + [p] == [p];
    } else {
      assert (ps + [p])[1..] == ps[1..] + [p];
      ShutdownSnoc(ps[1..], p);
    }
  }

  lemma {:induction false} OnlineSnoc(ps: seq<Packet>, p: Packet, token: nat)
    ensures Online(ps + [p], token) == if HasOnline(ps, token) then Online(ps, token) else |ps| + 1
  {
    if ps == [] {
      assert ps + [p] == [p];
    } else {
      assert (ps + [p])[1..] == ps[1..] + [p];
      OnlineSnoc(ps[1..], p, token);
      if !IsOnline(ps[0], token) && HasOnline(ps, token) {
        var k :| 0 <= k < |ps| && IsOnline(ps[k], token);
        assert IsOnline(ps[1..][k - 1], token);
      }
    }
  }

  lemma {:induction false} PayloadSnoc(ps: seq<Packet>, p: Packet)
    ensures Payload(ps + [p]) == Payload(ps) + if p.Sync? then [] else [p]
  {
    if ps == [] {
      assert ps + [p] == [p];
    } else {
      assert (ps + [p])[1..] == ps[1..] + [p];
      PayloadSnoc(ps[1..], p);
    }
  }

  predicate Closed(ps: seq<Packet>) {
    Shutdown(ps) < |ps|
  }

  /** One more packet changes what is owed only between the online SYNC and the shutdown. */
  lemma OwedSnoc(ps: seq<Packet>, p: Packet, token: nat)
    ensures Owed(ps + [p], token) ==
            if !Closed(ps) && HasOnline(ps, token) && !p.Sync? then Owed(ps, token) + [p] else Owed(ps, token)
  {
    ShutdownSnoc(ps, p);
    if Closed(ps) {
      assert (ps + [p])[..Shutdown(ps)] == ps[..Shutdown(ps)];
    } else if p.Sync? && p.arg0 == 0 {
      assert (ps + [p])[..|ps|] == ps == ps[..|ps|];
    } else {
      assert (ps + [p])[..|ps| + 1] == ps + [p] && ps[..|ps|] == ps;
      OnlineSnoc(ps, p, token);
      var n := Online(ps, token);
      if HasOnline(ps, token) {
        assert (ps + [p])[n..] == ps[n..] + [p];
        PayloadSnoc(ps[n..], p);
      } else {
        assert ps[|ps|..] == [] && (ps + [p])[|ps| + 1..] == [];
      }
    }
  }

  lemma {:induction false} OwedGrows(a: seq<Packet>, b: seq<Packet>, token: nat)
    ensures Owed(a, token) <= Owed(a + b, token)
    ensures Closed(a) ==> Owed(a, token) == Owed(a + b, token) && Closed(a + b)
    decreases b
  {
    if b == [] {
      assert a + b == a;
    } else {
      var n := |b| - 1;
      OwedGrows(a, b[..n], token);
      assert a + b == a + b[..n] + [b[n]];
      ShutdownSnoc(a + b[..n], b[n]);
      OwedSnoc(a + b[..n], b[n], token);
    }
  }

  predicate NoSync(ps: seq<Packet>) {
    forall k :: 0 <= k < |ps| ==> !ps[k].Sync?
  }

  lemma OwedNothing(ps: seq<Packet>, token: nat)
    requires NoSync(ps)
    ensures Owed(ps, token) == [] && !Closed(ps) && !HasOnline(ps, token)
  {
    assert ps[..|ps|] == ps && ps[|ps|..] == [];
  }

  /** The loop of input_thread over the packets it is sent: it writes what it owes and stops at the shutdown. */
  method InputThread(ps: seq<Packet>, token: nat) returns (written: seq<Packet>, stopped: bool)
    ensures written == Owed(ps, token) && (stopped <==> Closed(ps))
  {
    var active, i := false, 0;
    written, stopped := [], false;
    OwedNothing([], token);
    while i < |ps|
      invariant 0 <= i <= |ps|
      invariant written == Owed(ps[..i], token) && !Closed(ps[..i])
      invariant active <==> HasOnline(ps[..i], token)
    {
      var p := ps[i];
      assert ps[..i + 1] == ps[..i] + [p];
      OwedSnoc(ps[..i], p, token);
      ShutdownSnoc(ps[..i], p);
      if p.Sync? {
        if p.arg0 == 0 {
          assert ps == ps[..i + 1] + ps[i + 1..];
          OwedGrows(ps[..i + 1], ps[i + 1..], token);
          stopped := true;
          return;
        } else if p.arg1 == token {
          assert IsOnline(ps[..i + 1][i], token);
          active := true;
        }
      } else if active {
        written := written + [p];
      }
      i := i + 1;
    }
    assert ps[..i] == ps;
  }

  // ---- every run ----

  /** The first SYNC is the output thread's own. */
  predicate FirstSync(ps: seq<Packet>, token: nat) {
    exists k :: 0 <= k < |ps| && ps[k] == Sync(1, token) && NoSync(ps[..k])
  }

  /** On the host every online SYNC is followed at once by CNXN. */
  predicate ConnectFollows(ps: seq<Packet>) {
    forall k :: 0 <= k < |ps| && ps[k].Sync? && ps[k].arg0 != 0 ==> k + 1 < |ps| && ps[k + 1] == Cnxn
  }

  predicate SentInv(st: State) {
    && st.sent == st.read + st.down
    && (st.host ==> ConnectFollows(st.sent))
    && (st.output == Starting ==> st.up == [])
    && if NoSync(st.sent) then st.output != Starting ==> st.up != [] && st.up[0] == Sync(1, st.token)
       else st.output != Starting && FirstSync(st.sent, st.token)
  }

  predicate InputInv(st: State) {
    && st.written == Owed(st.read, st.token)
    && (st.exited <==> Closed(st.read))
    && (st.active <==> HasOnline(st.read[..Shutdown(st.read)], st.token))
  }

  predicate Inv(st: State) {
    SentInv(st) && InputInv(st)
  }

  lemma FirstSyncGrows(a: seq<Packet>, b: seq<Packet>, token: nat)
    requires FirstSync(a, token)
    ensures FirstSync(a + b, token) && !NoSync(a + b)
  {
    var k :| 0 <= k < |a| && a[k] == Sync(1, token) && NoSync(a[..k]);
    assert (a + b)[..k] == a[..k] && (a + b)[k] == a[k];
  }

  lemma FirstSyncHere(a: seq<Packet>, b: seq<Packet>, token: nat)
    requires NoSync(a)
    ensures FirstSync(a + ([Sync(1, token)] + b), token) && !NoSync(a + ([Sync(1, token)] + b))
  {
    var all := a + ([Sync(1, token)] + b);
    assert all[|a|] == Sync(1, token) && all[..|a|] == a;
  }

  lemma ConnectAppend(a: seq<Packet>, b: seq<Packet>)
    requires ConnectFollows(a) && ConnectFollows(b)
    ensures ConnectFollows(a + b)
  {
  }

  lemma AnswerConnects(p: Packet, replies: seq<nat>)
    ensures ConnectFollows(Answer(true, p, replies))
  {
  }

  lemma HandleKeepsSent(st: State, replies: seq<nat>)
    requires SentInv(st) && st.up != []
    ensures SentInv(Apply(st, Handle(replies)))
  {
    hide FirstSync, NoSync, ConnectFollows;
    var p := st.up[0];
    var answer := Answer(st.host, p, replies);
    assert st.read + st.down + answer == st.read + (st.down + answer);
    if st.host {
      AnswerConnects(p, replies);
      ConnectAppend(st.sent, answer);
    }
    if NoSync(st.sent) {
      assert answer == [p] + answer[1..];
      FirstSyncHere(st.sent, answer[1..], st.token);
    } else {
      FirstSyncGrows(st.sent, answer, st.token);
    }
  }

  lemma MainSendsKeepsSent(st: State, n: nat)
    requires SentInv(st)
    ensures SentInv(Apply(st, MainSends(n)))
  {
    assert st.read + st.down + [Data(n)] == st.read + (st.down + [Data(n)]);
    if !NoSync(st.sent) {
      FirstSyncGrows(st.sent, [Data(n)], st.token);
    }
  }

  lemma OnlineAfter(ps: seq<Packet>, p: Packet, token: nat)
    requires !Closed(ps)
    ensures var qs := ps + [p];
            HasOnline(qs[..Shutdown(qs)], token) <==> HasOnline(ps[..Shutdown(ps)], token) || IsOnline(p, token)
  {
    ShutdownSnoc(ps, p);
    var qs := ps + [p];
    assert ps[..|ps|] == ps && qs[..|ps|] == ps && qs[..|qs|] == qs;
    assert qs[|ps|] == p;
    hide Shutdown;
    assert forall k :: 0 <= k < |ps| ==> qs[k] == ps[k];
  }

  lemma InputReadsKeepsInv(st: State)
    requires Inv(st) && Enabled(st, InputReads)
    ensures Inv(Apply(st, InputReads))
  {
    hide Owed, HasOnline, Shutdown, FirstSync, NoSync, ConnectFollows;
    var p := st.down[0];
    assert st.read + st.down == st.read + [p] + st.down[1..];
    OwedSnoc(st.read, p, st.token);
    ShutdownSnoc(st.read, p);
    OnlineAfter(st.read, p, st.token);
    assert st.read[..|st.read|] == st.read;
  }

  lemma StartKeepsInv(st: State)
    requires Inv(st) && Enabled(st, Start)
    ensures Inv(Apply(st, Start))
  {
    assert forall k :: 0 <= k < |st.read| ==> st.read[k] == st.sent[k];
    OwedNothing(st.read, st.token);
    OwedNothing(st.read, st.token + 1);
    assert st.read[..|st.read|] == st.read;
  }

  lemma StepKeepsInv(st: State, step: Step)
    requires Inv(st) && Enabled(st, step)
    ensures Inv(Apply(st, step))
  {
    hide InputInv, FirstSync, NoSync, ConnectFollows;
    match step
    case Start => StartKeepsInv(st);
    case FromRemote(p) => SameInput(st, Apply(st, step));
    case RemoteFails => SameInput(st, Apply(st, step));
    case Handle(replies) => HandleKeepsSent(st, replies); SameInput(st, Apply(st, step));
    case MainSends(n) => MainSendsKeepsSent(st, n); SameInput(st, Apply(st, step));
    case InputReads => InputReadsKeepsInv(st);
  }

  lemma SameInput(st: State, st': State)
    requires InputInv(st) && st'.read == st.read && st'.token == st.token
    requires st'.written == st.written && st'.exited == st.exited && st'.active == st.active
    ensures InputInv(st')
  {
  }

  lemma {:induction false} RunInv(run: seq<State>, k: nat)
    requires IsRun(run) && k < |run|
    ensures Inv(run[k])
  {
    if k == 0 {
      OwedNothing([], run[0].token);
    } else {
      RunInv(run, k - 1);
      assert Follows(run[k - 1], run[k - 1 + 1]);
      var step :| Enabled(run[k - 1], step) && run[k] == Apply(run[k - 1], step);
      hide Inv, Apply;
      StepKeepsInv(run[k - 1], step);
    }
  }

  lemma OwedNeedsSync(ps: seq<Packet>, token: nat)
    ensures var up := ps[..Shutdown(ps)];
            Owed(ps, token) != [] ==> HasOnline(up, token) && Online(up, token) < |up|
  {
    var up := ps[..Shutdown(ps)];
    if Online(up, token) == |up| {
      assert up[|up|..] == [];
    }
  }

  /** In every run nothing reaches the remote before the input thread has read the SYNC with the token. */
  lemma NothingBeforeSync(run: seq<State>, k: nat)
    requires IsRun(run) && k < |run| && run[k].written != []
    ensures FirstSync(run[k].sent, run[k].token) && HasOnline(run[k].read, run[k].token)
  {
    RunInv(run, k);
    hide IsRun;
    var st := run[k];
    var up := st.read[..Shutdown(st.read)];
    OwedNeedsSync(st.read, st.token);
    var j :| 0 <= j < |up| && IsOnline(up[j], st.token);
    assert st.read[j] == up[j] == st.sent[j];
  }

  lemma {:induction false} PayloadLead(ps: seq<Packet>)
    requires ps != [] && !ps[0].Sync?
    ensures Payload(ps) != [] && Payload(ps)[0] == ps[0]
  {
  }

  /** In every run of a host, the first packet that reaches the remote is CNXN. */
  lemma HostConnectsFirst(run: seq<State>, k: nat)
    requires IsRun(run) && k < |run| && run[k].host && run[k].written != []
    ensures run[k].written[0] == Cnxn
  {
    RunInv(run, k);
    hide IsRun;
    var st := run[k];
    var up := st.read[..Shutdown(st.read)];
    var n := Online(up, st.token);
    OwedNeedsSync(st.read, st.token);
    assert st.sent[n - 1] == up[n - 1] && st.sent[n] == up[n];
    PayloadLead(up[n..]);
  }

  /**
   In every run, what reached the remote is a prefix of what the main loop sent between the online SYNC
   and the shutdown, in order; once the input thread has stopped it is all of it.
   */
  lemma WrittenInOrder(run: seq<State>, k: nat)
    requires IsRun(run) && k < |run|
    ensures run[k].written <= Owed(run[k].sent, run[k].token)
    ensures run[k].exited || run[k].down == [] ==> run[k].written == Owed(run[k].sent, run[k].token)
  {
    RunInv(run, k);
    hide IsRun;
    var st := run[k];
    OwedGrows(st.read, st.down, st.token);
    assert st.read + [] == st.read;
  }

  // ---- what the main loop makes of what it takes ----

  function Syncs(ps: seq<Packet>): seq<Packet> {
    if ps == [] then []
    else if ps[0].Sync? then [ps[0]] + Syncs(ps[1..])
    else Syncs(ps[1..])
  }

  /** All but the plain packets. */
  function Control(ps: seq<Packet>): seq<Packet> {
    if ps == [] then []
    else if ps[0].Data? then Control(ps[1..])
    else [ps[0]] + Control(ps[1..])
  }

  function Connects(ps: seq<Packet>): nat {
    if ps == [] then 0 else (if ps[0].Cnxn? then 1 else 0) + Connects(ps[1..])
  }

  function Onlines(ps: seq<Packet>): nat {
    if ps == [] then 0 else (if ps[0].Sync? && ps[0].arg0 != 0 then 1 else 0) + Onlines(ps[1..])
  }

  lemma {:induction false} FiltersAdd(a: seq<Packet>, b: seq<Packet>)
    ensures Syncs(a + b) == Syncs(a) + Syncs(b) && Control(a + b) == Control(a) + Control(b)
    ensures Connects(a + b) == Connects(a) + Connects(b) && Onlines(a + b) == Onlines(a) + Onlines(b)
  {
    if a == [] {
      assert a + b == b;
    } else {
      assert (a + b)[1..] == a[1..] + b;
      FiltersAdd(a[1..], b);
    }
  }

  lemma {:induction false} PlainOnly(ps: seq<Packet>)
    requires forall k :: 0 <= k < |ps| ==> ps[k].Data?
    ensures Syncs(ps) == [] && Control(ps) == [] && Connects(ps) == 0 && Onlines(ps) == 0
  {
    if ps != [] {
      PlainOnly(ps[1..]);
    }
  }

  lemma FiltersOne(p: Packet)
    ensures Syncs([p]) == if p.Sync? then [p] else []
    ensures Control([p]) == if p.Data? then [] else [p]
    ensures Connects([p]) == (if p.Cnxn? then 1 else 0) && Onlines([p]) == if p.Sync? && p.arg0 != 0 then 1 else 0
  {
  }

  /** SYNCs are sent back as they come; a device sends back CNXNs too; a host connects once per online SYNC. */
  predicate Echoed(host: bool, handled: seq<Packet>, sent: seq<Packet>) {
    && Syncs(sent) == Syncs(handled)
    && (!host ==> Control(sent) == Control(handled))
    && (host ==> Connects(sent) == Onlines(handled))
  }

  /** What handle_packet sends back for one packet. */
  lemma AnswerEchoes(host: bool, p: Packet, replies: seq<nat>)
    ensures Echoed(host, [p], Answer(host, p, replies))
  {
    var ps := Answer(host, p, replies);
    FiltersOne(p);
    if p.Data? {
      PlainOnly(ps);
    } else if p.Sync? && host && p.arg0 != 0 {
      FiltersAdd([p], [Cnxn]);
      FiltersOne(Cnxn);
      assert ps == [p] + [Cnxn];
    }
  }

  /** The output thread ends with a SYNC(0, 0), handled or on its way. */
  predicate EndPosted(st: State) {
    st.output == Stopped ==> var all := st.handled + st.up; all != [] && all[|all| - 1] == Sync(0, 0)
  }

  predicate EchoInv(st: State) {
    Echoed(st.host, st.handled, st.sent) && EndPosted(st)
  }

  lemma SendsEchoed(host: bool, handled: seq<Packet>, sent: seq<Packet>, taken: seq<Packet>, more: seq<Packet>)
    requires Echoed(host, handled, sent) && Echoed(host, taken, more)
    ensures Echoed(host, handled + taken, sent + more)
  {
    FiltersAdd(handled, taken);
    FiltersAdd(sent, more);
  }

  lemma StepKeepsEcho(st: State, step: Step)
    requires EchoInv(st) && Enabled(st, step)
    ensures EchoInv(Apply(st, step))
  {
    hide Echoed, Answer;
    var st' := Apply(st, step);
    match step
    case Handle(replies) =>
      AnswerEchoes(st.host, st.up[0], replies);
      SendsEchoed(st.host, st.handled, st.sent, [st.up[0]], Answer(st.host, st.up[0], replies));
      assert st'.handled + st'.up == st.handled + st.up;
    case MainSends(n) =>
      PlainEchoed(st.host, n);
      SendsEchoed(st.host, st.handled, st.sent, [], [Data(n)]);
      assert st.handled + [] == st.handled;
    case RemoteFails =>
      assert st'.handled + st'.up == st.handled + st.up + [Sync(0, 0)];
    case _ =>
  }

  lemma PlainEchoed(host: bool, n: nat)
    ensures Echoed(host, [], [Data(n)])
  {
    FiltersOne(Data(n));
  }

  lemma {:induction false} RunEchoes(run: seq<State>, k: nat)
    requires IsRun(run) && k < |run|
    ensures EchoInv(run[k])
  {
    if k > 0 {
      RunEchoes(run, k - 1);
      assert Follows(run[k - 1], run[k - 1 + 1]);
      var step :| Enabled(run[k - 1], step) && run[k] == Apply(run[k - 1], step);
      hide EchoInv, Apply;
      StepKeepsEcho(run[k - 1], step);
    }
  }

  lemma {:induction false} SyncsKeep(ps: seq<Packet>, p: Packet)
    requires p.Sync?
    ensures p in ps <==> p in Syncs(ps)
  {
    if ps != [] {
      SyncsKeep(ps[1..], p);
    }
  }

  lemma ShutdownSeen(ps: seq<Packet>, p: Packet)
    requires p in ps && p.Sync? && p.arg0 == 0
    ensures Closed(ps)
  {
  }

  /** Once the output thread has stopped and all it posted has been handled, the shutdown has been sent. */
  lemma ShutdownSent(st: State)
    requires EchoInv(st) && st.output == Stopped && st.up == []
    ensures Closed(st.sent)
  {
    assert st.handled + st.up == st.handled;
    assert st.handled[|st.handled| - 1] in st.handled;
    SyncsKeep(st.handled, Sync(0, 0));
    SyncsKeep(st.sent, Sync(0, 0));
    ShutdownSeen(st.sent, Sync(0, 0));
  }

  /**
   In every run, once the output thread has stopped and all it posted has been handled, the input thread has exited,
   or has a packet to read. With both queues empty it has exited, and the remote has been given all that it is owed.
   */
  lemma ShutdownReaches(run: seq<State>, k: nat)
    requires IsRun(run) && k < |run| && run[k].output == Stopped && run[k].up == []
    ensures run[k].exited || Enabled(run[k], InputReads)
    ensures run[k].down == [] ==> run[k].exited && run[k].written == Owed(run[k].sent, run[k].token)
  {
    RunInv(run, k);
    RunEchoes(run, k);
    WrittenInOrder(run, k);
    hide IsRun;
    ShutdownSent(run[k]);
    assert run[k].read + [] == run[k].read;
  }

  ghost predicate IsPath(path: seq<State>) {
    path != [] && forall k :: 0 <= k < |path| - 1 ==> Follows(path[k], path[k + 1])
  }

  /**
   From every state in which the output thread has stopped, the main loop and the input thread alone bring the
   transport to its end: the input thread exits, and the remote has been given all that it is owed.
   */
  lemma {:induction false} ShutdownCompletes(st: State) returns (path: seq<State>)
    requires Inv(st) && EchoInv(st) && st.output == Stopped
    ensures IsPath(path) && path[0] == st
    ensures var last := path[|path| - 1];
            && last.exited && last.written == Owed(last.sent, last.token)
            && last.handled == st.handled + st.up && last.up == []
    decreases |st.up|, |st.down|
  {
    hide Inv, EchoInv, Owed, Apply, Closed;
    if st.up == [] && st.exited {
      path := [st];
      assert st.handled + [] == st.handled;
      AllWritten(st);
      return;
    }
    if st.up == [] {
      MustRead(st);
    }
    var step := if st.up != [] then Handle([]) else InputReads;
    StepKeepsInv(st, step);
    StepKeepsEcho(st, step);
    var rest := StepOn(st, step);
    path := ShutdownCompletes(rest);
    path := [st] + path;
    forall k | 0 <= k < |path| - 1 ensures Follows(path[k], path[k + 1]) {
      if k > 0 {
        assert Follows(path[1..][k - 1], path[1..][k - 1 + 1]);
      }
    }
  }

  /** One step towards the end. */
  lemma StepOn(st: State, step: Step) returns (st': State)
    requires Enabled(st, step) && (step == Handle([]) || (step == InputReads && st.up == []))
    ensures st' == Apply(st, step) && Follows(st, st') && st'.output == st.output
    ensures st'.handled + st'.up == st.handled + st.up
    ensures |st'.up| < |st.up| || (st'.up == st.up && |st'.down| < |st.down|)
  {
    st' := Apply(st, step);
  }

  lemma AllWritten(st: State)
    requires Inv(st) && st.exited
    ensures st.written == Owed(st.sent, st.token)
  {
    OwedGrows(st.read, st.down, st.token);
  }

  lemma MustRead(st: State)
    requires Inv(st) && EchoInv(st) && st.output == Stopped && st.up == []
    ensures st.exited || st.down != []
  {
    ShutdownSent(st);
    assert st.read + [] == st.read;
  }

  /** In every run: SYNCs are sent back in order; a device sends back exactly the SYNCs and CNXNs it takes, in order. */
  lemma MainLoopEchoes(run: seq<State>, k: nat)
    requires IsRun(run) && k < |run|
    ensures Syncs(run[k].sent) == Syncs(run[k].handled)
    ensures !run[k].host ==> Control(run[k].sent) == Control(run[k].handled)
    ensures run[k].host ==> Connects(run[k].sent) == Onlines(run[k].handled)
  {
    RunEchoes(run, k);
  }

  // ---- what enters, by the steps of the run ----

  /** The steps that lead from each state to the next. */
  ghost predicate IsTrace(run: seq<State>, steps: seq<Step>) {
    && |run| == |steps| + 1 && Initial(run[0])
    && forall k :: 0 <= k < |steps| ==> Enabled(run[k], steps[k]) && run[k + 1] == Apply(run[k], steps[k])
  }

  /** The packets that came from the remote. */
  function FromRemotes(steps: seq<Step>): seq<Packet> {
    if steps == [] then []
    else FromRemotes(steps[..|steps| - 1]) + match steps[|steps| - 1] case FromRemote(p) => [p] case _ => []
  }

  /** The output thread posts its SYNC, then all that comes from the remote, in order, then its SYNC(0, 0). */
  lemma {:induction false} OutputPosts(run: seq<State>, steps: seq<Step>)
    requires IsTrace(run, steps)
    ensures var st := run[|steps|];
            && st.host == run[0].host
            && (if st.output == Starting then st.handled + st.up == [] && FromRemotes(steps) == [] && st.token == run[0].token
                else
                  && st.token == run[0].token + 1
                  && st.handled + st.up == [Sync(1, st.token)] + FromRemotes(steps)
                                           + if st.output == Stopped then [Sync(0, 0)] else [])
    decreases steps
  {
    if steps != [] {
      var n := |steps| - 1;
      var before, st, st' := steps[..n], run[n], run[n + 1];
      assert run[..n + 1][n] == st;
      OutputPosts(run[..n + 1], before);
      assert Enabled(st, steps[n]) && st' == Apply(st, steps[n]);
      hide IsTrace, Answer;
      Posting(st, steps[n]);
      var now := match steps[n] case FromRemote(p) => [p] case _ => [];
      assert FromRemotes(steps) == FromRemotes(before) + now;
    }
  }

  lemma Posting(st: State, step: Step)
    requires Enabled(st, step)
    ensures var st' := Apply(st, step);
            && st'.host == st.host
            && st'.handled + st'.up == st.handled + st.up + (match step
                                                             case Start => [Sync(1, st.token + 1)]
                                                             case FromRemote(p) => [p]
                                                             case RemoteFails => [Sync(0, 0)]
                                                             case _ => [])
            && st'.token == (if step.Start? then st.token + 1 else st.token)
            && st'.output == (if step.Start? then Pumping else if step.RemoteFails? then Stopped else st.output)
  {
    hide Answer;
    if step.Handle? {
      assert st.handled + [st.up[0]] + st.up[1..] == st.handled + st.up;
    }
  }

  function Plain(ps: seq<Packet>): seq<nat> {
    if ps == [] then []
    else if ps[0].Data? then [ps[0].n] + Plain(ps[1..])
    else Plain(ps[1..])
  }

  lemma {:induction false} PlainAdd(a: seq<Packet>, b: seq<Packet>)
    ensures Plain(a + b) == Plain(a) + Plain(b)
  {
    if a == [] {
      assert a + b == b;
    } else {
      assert (a + b)[1..] == a[1..] + b;
      PlainAdd(a[1..], b);
    }
  }

  lemma {:induction false} PlainReplies(ps: seq<Packet>, ns: seq<nat>)
    requires |ps| == |ns| && forall k :: 0 <= k < |ps| ==> ps[k] == Data(ns[k])
    ensures Plain(ps) == ns
  {
    if ps != [] {
      PlainReplies(ps[1..], ns[1..]);
    }
  }

  /** The plain packets that the main loop sends at one step: its own, and its replies to a plain packet. */
  function SendsPlain(st: State, step: Step): seq<nat>
    requires Enabled(st, step)
  {
    match step
    case MainSends(n) => [n]
    case Handle(replies) => if st.up[0].Data? then replies else []
    case _ => []
  }

  /** Every plain packet sent enters the queue to the input thread, after all those before. */
  lemma PlainInOrder(st: State, step: Step)
    requires Enabled(st, step)
    ensures Plain(Apply(st, step).sent) == Plain(st.sent) + SendsPlain(st, step)
  {
    match step
    case MainSends(n) => PlainAdd(st.sent, [Data(n)]);
    case Handle(replies) =>
      var answer := Answer(st.host, st.up[0], replies);
      PlainAdd(st.sent, answer);
      if st.up[0].Data? {
        PlainReplies(answer, replies);
      } else {
        assert Plain([Cnxn]) == [] && |answer| <= 2;
        assert |answer| == 2 ==> answer[1..] == [Cnxn];
      }
    case _ =>
  }
}
