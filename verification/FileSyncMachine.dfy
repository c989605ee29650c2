/**
 The loops of the file sync programs, over connections read and written in pieces of any size.
 */
module FileSyncMachine {
  import opened CText
  import opened Octets
  import opened FileSync

  lemma {:induction false} FramesSnoc(cs: seq<Bytes>, c: Bytes)
    requires AreChunks(cs) && IsChunk(c)
    ensures DataFrames(cs + [c]) == DataFrames(cs) + Frame(ID_DATA, |c|) + c && Concat(cs + [c]) == Concat(cs) + c
  {
    hide Frame;
    var more := cs + [c];
    var f, d := Frame(ID_DATA, |more[0]|), more[0];
    assert DataFrames(more) == f + d + DataFrames(more[1..]) && Concat(more) == d + Concat(more[1..]);
    if cs == [] {
      assert more[1..] == [];
      assert f + d + [] == [] + f + d && d + [] == [] + d;
    } else {
      assert more[1..] == cs[1..] + [c];
      FramesSnoc(cs[1..], c);
      Regroup(f + d, DataFrames(cs[1..]), Frame(ID_DATA, |c|), c);
      Regroup(d, Concat(cs[1..]), c, []);
    }
  }

  lemma Regroup(a: Bytes, b: Bytes, c: Bytes, d: Bytes)
    ensures a + (b + c + d) == a + b + c + d && a + (b + c) == a + b + c
  {
  }

  /**
   write_data_file: a read returns any part of what is left before the end or a failure, up to SYNC_DATA_MAX.
   The result is false only for a file that does not open.
   */
  method WriteDataFile(w: Writer, file: Bytes, local: Disk) returns (ok: bool, ghost chunks: seq<Bytes>)
    modifies w
    ensures ok == local.opens && AreChunks(chunks) && Concat(chunks) == LocalBytes(file, local)
    ensures w.done == old(w.done) + DataFrames(chunks)
  {
    hide Frame, DataFrames, Concat;
    chunks := [];
    NoFrames();
    if !local.opens {
      return false, chunks;
    }
    var readable := BytesRead(local, file);
    var n := 0;
    while n < |readable|
      invariant 0 <= n <= |readable| && AreChunks(chunks)
      invariant Concat(chunks) == readable[..n] && w.done == old(w.done) + DataFrames(chunks)
    {
      var r: nat :| 0 < r <= SYNC_DATA_MAX && r <= |readable| - n;
      var c := readable[n..n + r];
      FramesSnoc(chunks, c);
      w.Writex(Frame(ID_DATA, r) + c);
      assert readable[..n] + c == readable[..n + r];
      chunks, n := chunks + [c], n + r;
    }
    assert readable[..n] == readable;
    ok := true;
  }

  lemma NoFrames()
    ensures DataFrames([]) == [] && Concat([]) == []
  {
  }

  /** write_data_buffer: full chunks, then what is left. */
  method WriteDataBuffer(w: Writer, file: Bytes) returns (ghost chunks: seq<Bytes>)
    modifies w
    ensures AreChunks(chunks) && Concat(chunks) == file && w.done == old(w.done) + DataFrames(chunks)
    ensures forall k :: 0 <= k < |chunks| - 1 ==> |chunks[k]| == SYNC_DATA_MAX
  {
    hide Frame, DataFrames, Concat;
    chunks := [];
    NoFrames();
    var total := 0;
    while total < |file|
      invariant 0 <= total <= |file| && AreChunks(chunks)
      invariant Concat(chunks) == file[..total] && w.done == old(w.done) + DataFrames(chunks)
      invariant forall k :: 0 <= k < |chunks| - (if total == |file| then 1 else 0) ==> |chunks[k]| == SYNC_DATA_MAX
    {
      var count := |file| - total;
      if count > SYNC_DATA_MAX {
        count := SYNC_DATA_MAX;
      }
      var c := file[total..total + count];
      FramesSnoc(chunks, c);
      w.Writex(Frame(ID_DATA, count) + c);
      assert file[..total] + c == file[..total + count];
      chunks, total := chunks + [c], total + count;
    }
    assert file[..total] == file;
  }

  /** sync_send for a regular file, up to the status: what write_data_file returns is not looked at. */
  method SyncSend(w: Writer, path: Path, mode: nat, file: Bytes, local: Disk, mtime: Word) returns (ghost r: Request)
    requires Sendable(Push(path, mode, [], mtime))
    modifies w
    ensures r.Push? && r == Push(path, mode, r.chunks, mtime) && Sendable(r) && Concat(r.chunks) == LocalBytes(file, local)
    ensures w.done == old(w.done) + RequestBytes(r)
  {
    hide Frame, DataFrames, Concat, LocalBytes;
    NameFits(Push(path, mode, [], mtime));
    w.Writex(Frame(ID_SEND, |NameWithMode(path, mode)|));
    w.Writex(path);
    w.Writex([COMMA] + Decimal(mode));
    var _, chunks := WriteDataFile(w, file, local);
    w.Writex(Frame(ID_DONE, mtime));
    r := Push(path, mode, chunks, mtime);
    assert path + ([COMMA] + Decimal(mode)) == NameWithMode(path, mode);
  }

  /** The status at the end of sync_send. */
  method FinishSend(r: Reader) returns (got: bool, okay: bool)
    modifies r
    ensures match ReadStatus(old(r.rest))
            case Some((told, rest)) => got && okay == told && r.rest == rest
            case None => !got
  {
    hide FrameId, FrameSize;
    ghost var s := r.rest;
    var head;
    got, head := r.Readx(8);
    if !got { return false, false; }
    assert FrameId(s) == FrameId(head) && FrameSize(s) == FrameSize(head) by { FrameHead(s); }
    if FrameId(head) == ID_OKAY { return true, true; }
    if FrameId(head) == ID_FAIL {
      var len := FrameSize(head);
      if len > 256 {
        len := 256;
      }
      var text;
      got, text := r.Readx(len);
      assert got ==> r.rest == s[8 + len..];
    }
    okay := false;
  }

  /** The loop of handle_send_file; `rx0` is the state after the attempt to open the file, `base` what was written before. */
  method ReceiveFile(r: Reader, w: Writer, rx0: Receiving, disk: Disk, ghost base: Bytes)
    returns (finished: bool, rx: Receiving, mtime: Word)
    requires DiskOk(disk) && w.done == base + rx0.replies
    modifies r, w
    ensures match ReceiveLoop(old(r.rest), rx0, disk)
            case Finished(rx', mtime', rest) =>
              finished && rx == rx' && mtime == mtime' && r.rest == rest && w.done == base + rx.replies
            case GivenUp(replies) => !finished && w.done == base + replies
  {
    hide FrameId, FrameSize, FailReply;
    rx, mtime := rx0, 0;
    while true
      invariant ReceiveLoop(r.rest, rx, disk) == ReceiveLoop(old(r.rest), rx0, disk) && w.done == base + rx.replies
      decreases |r.rest|
    {
      ghost var s, replies := r.rest, rx.replies;
      var ok, head := r.Readx(8);
      if !ok { return false, rx, 0; }
      assert FrameId(s) == FrameId(head) && FrameSize(s) == FrameSize(head) by { FrameHead(s); }
      var id, len := FrameId(head), FrameSize(head);
      if id != ID_DATA {
        if id == ID_DONE { return true, rx, len; }
        w.Writex(FailReply(Ascii("invalid data message")));
        Onto(base, replies, FailReply(Ascii("invalid data message")));
        return false, rx, 0;
      }
      if len > SYNC_DATA_MAX {
        w.Writex(FailReply(Ascii("oversize data message")));
        Onto(base, replies, FailReply(Ascii("oversize data message")));
        return false, rx, 0;
      }
      var buffer;
      ok, buffer := r.Readx(len);
      if !ok { return false, rx, 0; }
      assert buffer == s[8..8 + len] && r.rest == s[8 + len..];
      if rx.open {
        if disk.failsAt == Some(rx.count) {
          w.Writex(FailReply(disk.reason));
          Onto(base, replies, FailReply(disk.reason));
          rx := rx.(open := false, replies := rx.replies + FailReply(disk.reason));
        } else {
          rx := rx.(data := rx.data + buffer, count := rx.count + 1);
        }
      }
    }
  }

  lemma Onto(a: Bytes, b: Bytes, c: Bytes)
    ensures a + b + c == a + (b + c)
  {
  }

  /** What one command has done is what the function says: files, replies, and where the input stands. */
  ghost predicate Did(o: Served, base: Bytes, files: Files, goOn: bool, done: Bytes, rest: Bytes) {
    files == o.files && done == base + o.replies && (goOn <==> o.rest.Some?) && (goOn ==> rest == o.rest.value)
  }

  /** handle_send_file for a path that do_send has unlinked */
  method HandleSendFile(r: Reader, w: Writer, files: Files, path: Path, mode: nat, disk: Disk) returns (goOn: bool, files': Files)
    requires DiskOk(disk)
    modifies r, w
    ensures Did(SendFile(old(r.rest), files, path, mode, disk), old(w.done), files', goOn, w.done, r.rest)
  {
    hide FailReply, ReceiveLoop, Permissions, Frame;
    ghost var base := w.done;
    var rx := Receiving(disk.opens, [], 0, if disk.opens then [] else FailReply(disk.reason));
    if !disk.opens {
      w.Writex(FailReply(disk.reason));
    }
    assert w.done == base + rx.replies;
    var finished, end, mtime := ReceiveFile(r, w, rx, disk, base);
    if !finished {
      return false, files - {path};
    }
    if end.open {
      w.Writex(OKAY_REPLY);
      Onto(base, end.replies, OKAY_REPLY);
      return true, files[path := File(end.data, mtime, Permissions(mode))];
    }
    return true, files - {path};
  }

  /** The first piece of a file, and the rest. */
  lemma SplitStep(data: Bytes, sizes: seq<nat>, r: nat)
    requires data != []
    requires var most := if |data| <= SYNC_DATA_MAX then |data| else SYNC_DATA_MAX;
             r == if sizes != [] && 0 < sizes[0] < most then sizes[0] else most
    ensures 0 < r <= |data| && IsChunk(data[..r])
    ensures Split(data, sizes) == [data[..r]] + Split(data[r..], if sizes == [] then [] else sizes[1..])
  {
  }

  lemma SplitNothing(sizes: seq<nat>)
    ensures Split([], sizes) == []
  {
  }

  /** The loop of do_recv over what can be read; `sizes` are what the reads return, as far as they can. */
  method SendData(w: Writer, file: Bytes, sizes: seq<nat>)
    modifies w
    ensures w.done == old(w.done) + DataFrames(Split(file, sizes))
  {
    hide Frame, DataFrames, Split, Concat;
    NoFrames();
    var rest, ns := file, sizes;
    ghost var sent: seq<Bytes> := [];
    while rest != []
      invariant AreChunks(sent) && w.done == old(w.done) + DataFrames(sent)
      invariant Split(file, sizes) == sent + Split(rest, ns)
      decreases |rest|
    {
      var r := if |rest| <= SYNC_DATA_MAX then |rest| else SYNC_DATA_MAX;
      if ns != [] && 0 < ns[0] < r {
        r := ns[0];
      }
      SplitStep(rest, ns, r);
      var c, ns' := rest[..r], if ns == [] then [] else ns[1..];
      FramesSnoc(sent, c);
      w.Writex(Frame(ID_DATA, r));
      w.Writex(c);
      Join(sent, c, Split(rest[r..], ns'));
      Onto(old(w.done) + DataFrames(sent), Frame(ID_DATA, r), c);
      Onto(old(w.done), DataFrames(sent), Frame(ID_DATA, r) + c);
      Onto(DataFrames(sent), Frame(ID_DATA, r), c);
      sent := sent + [c];
      rest, ns := rest[r..], ns';
    }
    SplitNothing(ns);
    assert sent + [] == sent;
  }

  lemma Join(a: seq<Bytes>, c: Bytes, b: seq<Bytes>)
    ensures a + ([c] + b) == a + [c] + b
  {
  }

  /** do_recv */
  method DoRecv(w: Writer, files: Files, path: Path, disk: Disk)
    requires DiskOk(disk)
    modifies w
    ensures w.done == old(w.done) + RecvReply(files, path, disk)
  {
    hide Frame, DataFrames, Split, FailReply;
    if path !in files || !disk.opens {
      w.Writex(FailReply(disk.reason));
      return;
    }
    var data := files[path].data;
    SendData(w, BytesRead(disk, data), disk.pieces);
    var last := if ReadFails(disk, data) then FailReply(disk.reason) else Frame(ID_DONE, 0);
    w.Writex(last);
    Onto(old(w.done), DataFrames(Split(BytesRead(disk, data), disk.pieces)), last);
  }

  /** One turn of the command loop; nothing is promised of a command outside the model. */
  method ServeCommand(r: Reader, w: Writer, files: Files, disk: Disk) returns (known: bool, goOn: bool, files': Files)
    requires DiskOk(disk)
    modifies r, w
    ensures match ServeOne(old(r.rest), files, disk)
            case NotModelled => !known && w.done == old(w.done)
            case Done(o) => known && Did(o, old(w.done), files', goOn, w.done, r.rest)
  {
    hide FrameId, FrameSize, FailReply, SendFile, StatReply, RecvReply, SplitName, CStr;
    ghost var s := r.rest;
    var ok, head := r.Readx(8);
    if !ok {
      w.Writex(FailReply(Ascii("command read failure")));
      return true, false, files;
    }
    assert FrameId(s) == FrameId(head) && FrameSize(s) == FrameSize(head) by { FrameHead(s); }
    var id, n := FrameId(head), FrameSize(head);
    if n > MAX_NAME {
      w.Writex(FailReply(Ascii("invalid namelen")));
      return true, false, files;
    }
    var text;
    ok, text := r.Readx(n);
    if !ok {
      w.Writex(FailReply(Ascii("filename read failure")));
      return true, false, files;
    }
    assert text == s[8..8 + n] && r.rest == s[8 + n..];
    var name := CStr(text);
    if id == ID_STAT {
      w.Writex(StatReply(files, name));
      return true, true, files;
    } else if id == ID_RECV {
      DoRecv(w, files, name, disk);
      return true, true, files;
    } else if id == ID_SEND {
      var (path, mode) := SplitName(name);
      if IsLink(mode) {
        return false, false, files;
      }
      goOn, files' := HandleSendFile(r, w, files, path, mode, disk);
      return true, goOn, files';
    } else if id == ID_QUIT {
      assert w.done == old(w.done) + [];
      return true, false, files;
    } else if id == ID_LIST {
      return false, false, files;
    }
    w.Writex(FailReply(Ascii("unknown command")));
    return true, false, files;
  }

  /** file_sync_service */
  method Service(r: Reader, w: Writer, files: Files, disks: seq<Disk>) returns (files': Files)
    requires DisksOk(disks)
    modifies r, w
    ensures var o := Serve(old(r.rest), files, disks); files' == o.files && w.done == old(w.done) + o.replies
  {
    hide ServeOne;
    files' := files;
    var ds := disks;
    ghost var replies: Bytes := [];
    while true
      invariant DisksOk(ds) && w.done == old(w.done) + replies
      invariant var o, all := Serve(r.rest, files', ds), Serve(old(r.rest), files, disks);
                all.files == o.files && all.replies == replies + o.replies
      decreases |r.rest|
    {
      ghost var s := r.rest;
      var was := files';
      var known, goOn;
      known, goOn, files' := ServeCommand(r, w, was, NextDisk(ds));
      if !known {
        assert replies + [] == replies;
        return was;
      }
      ghost var o := ServeOne(s, was, NextDisk(ds)).served;
      Onto(old(w.done), replies, o.replies);
      if !goOn {
        return;
      }
      Onto(replies, o.replies, Serve(r.rest, files', Later(ds)).replies);
      replies := replies + o.replies;
      ds := Later(ds);
    }
  }

  lemma FrameHead(s: Bytes)
    requires |s| >= 8
    ensures FrameId(s[..8]) == FrameId(s) && FrameSize(s[..8]) == FrameSize(s)
  {
    assert s[..8][0..4] == s[0..4] && s[..8][4..8] == s[4..8];
  }

  /**
   sync_recv after its request: the data loop, and the text of a failure. `local` is the file at the local path, if any;
   the code is what the callers see of the outcome `p`.
   */
  method SyncRecv(r: Reader, here: Disk, local: Option<Bytes>) returns (code: int, local': Option<Bytes>, ghost p: Pulled)
    modifies r
    ensures p == PullFile(old(r.rest), here) && code == PullCode(p)
    ensures code == 0 <==> !p.Lost?
    ensures !p.Lost? ==> p.rest == r.rest && local' == LocalFile(p)
    ensures |old(r.rest)| < 8 ==> local' == local
  {
    hide FrameId, FrameSize;
    var data: Bytes, count := [], 0;
    local' := local;
    while true
      invariant (count > 0 ==> here.opens) && (count == 0 ==> data == [] && r.rest == old(r.rest) && local' == local)
      invariant count > 0 ==> ReceivePull(r.rest, data, count, here) == PullFile(old(r.rest), here) && 8 <= |old(r.rest)|
      decreases |r.rest|
    {
      ghost var s := r.rest;
      var got, head := r.Readx(8);
      if !got { return -1, local', Lost; }
      assert FrameId(s) == FrameId(head) && FrameSize(s) == FrameSize(head) by { FrameHead(s); }
      var id, len := FrameId(head), FrameSize(head);
      if id != ID_DATA && id != ID_DONE {
        if id == ID_FAIL {
          if len > 256 {
            len := 256;
          }
          var text;
          got, text := r.Readx(len);
          if !got { return -1, None, Lost; }
          assert r.rest == s[8 + len..];
        }
        return 0, None, RemoteError(r.rest);
      }
      if count == 0 && !here.opens { return -1, None, Lost; }
      if id == ID_DONE { return 0, Some(data), Received(data, r.rest); }
      if len > SYNC_DATA_MAX { return -1, Some(data), Lost; }
      var buffer;
      got, buffer := r.Readx(len);
      if !got || here.failsAt == Some(count) { return -1, Some(data), Lost; }
      assert buffer == s[8..8 + len] && r.rest == s[8 + len..];
      data, count := data + buffer, count + 1;
      local' := Some(data);
    }
  }

  // ---- one file from end to end ----

  /** What the client writes after its request: QUIT, or nothing before it hangs up. */
  function Ending(quit: bool): Bytes {
    if quit then Frame(ID_QUIT, 0) else []
  }

  lemma EndingServed(quit: bool, files: Files, disks: seq<Disk>)
    requires DisksOk(disks)
    ensures Serve(Ending(quit), files, disks).files == files
  {
    hide Frame, FrameId, FrameSize;
    FrameRoundTrip(ID_QUIT, 0, []);
    assert Frame(ID_QUIT, 0) + [] == Frame(ID_QUIT, 0);
  }

  /** A session of one request: the files are those that serving it leaves, and its reply comes first. */
  lemma SessionOfOne(r: Request, quit: bool, files: Files, disk: Disk) returns (more: Bytes)
    requires Sendable(r) && DiskOk(disk) && (r.Push? || r.Pull?)
    ensures var o := ServeOne(RequestBytes(r) + Ending(quit), files, disk);
            && o.Done? && Serve(RequestBytes(r) + Ending(quit), files, [disk]) == Session(o.served.files, o.served.replies + more)
  {
    hide ServeOne, RequestBytes, Ending, NameOf, Effect, Reply, FailReply;
    var s := RequestBytes(r) + Ending(quit);
    assert NextDisk([disk]) == disk && Later([disk]) == [];
    if |NameOf(r)| <= MAX_NAME {
      RequestServed(r, files, disk, Ending(quit));
      EndingServed(quit, Effect(files, r, disk), []);
      more := Serve(Ending(quit), Effect(files, r, disk), []).replies;
    } else {
      PullNameFits(r);
      LongNameServed(r, files, disk, Ending(quit));
      more := [];
      var o := ServeOne(s, files, disk).served;
      assert o.replies + [] == o.replies;
    }
  }

  lemma PullNameFits(r: Request)
    requires Sendable(r)
    ensures !r.Push? ==> |NameOf(r)| <= MAX_NAME
  {
  }

  /**
   A regular file pushed from end to end: sync_send, file_sync_service, and the status that the client reads. OKAY means
   that the server holds what was read of the local file, which is the file if and only if it was read to its end.
   Anything else means that the path is gone; or, if path and mode suffix are too long, that nothing has changed.
   */
  method PushFile(path: Path, mode: nat, file: Bytes, local: Disk, mtime: Word, files: Files, disk: Disk, quit: bool)
    returns (told: bool, files': Files)
    requires 0 !in path && IsRegular(mode) && mode < 0x1_0000 && DiskOk(disk)
    ensures |NameWithMode(path, mode)| > MAX_NAME ==> !told && files' == files
    ensures told ==> path in files' && Widened(files'[path].mode, mode)
    ensures told ==> files' == files[path := File(LocalBytes(file, local), mtime, files'[path].mode)]
    ensures told ==> (files'[path].data == file <==> ReadsAll(file, local))
    ensures !told && |NameWithMode(path, mode)| <= MAX_NAME ==> files' == files - {path}
    ensures |NameWithMode(path, mode)| <= MAX_NAME && disk.opens && disk.failsAt.None? ==> told
    ensures !disk.opens ==> !told
  {
    hide Permissions, Widened, ServeOne, Serve, RequestBytes, ReadStatus, Frame, LocalBytes, ReadsAll, Ending, Decimal, IsRegular;
    if |path| > MAX_NAME {
      return false, files;
    }
    var up := new Writer();
    var down := new Writer();
    ghost var r := SyncSend(up, path, mode, file, local, mtime);
    up.Writex(Ending(quit));
    assert up.done == RequestBytes(r) + Ending(quit) by { FromNothing(RequestBytes(r)); }
    var server := new Reader(up.done);
    files' := Service(server, down, files, [disk]);
    ghost var more := SessionOfOne(r, quit, files, disk);
    PushConfirmed(r, files, disk, Ending(quit), more);
    assert down.done == Serve(up.done, files, [disk]).replies by { FromNothing(Serve(up.done, files, [disk]).replies); }
    var client := new Reader(down.done);
    var got, okay := FinishSend(client);
    told := got && okay;
    ReadsAllIff(file, local);
  }

  lemma FromNothing(s: Bytes)
    ensures [] + s == s
  {
  }

  /**
   A file pulled from end to end, with a working local disk: sync_recv returns 0 whenever it asks at all, and the file
   is at the local path if and only if the server could open it and read it to its end.
   */
  method PullToFile(path: Path, local: Option<Bytes>, here: Disk, files: Files, disk: Disk, quit: bool)
    returns (code: int, local': Option<Bytes>, files': Files)
    requires 0 !in path && DiskOk(disk) && here.opens && here.failsAt.None?
    ensures files' == files
    ensures |path| > MAX_NAME ==> code == -1 && local' == local
    ensures |path| <= MAX_NAME ==>
              code == 0 && local' == if Readable(files, path, disk) then Some(files[path].data) else None
  {
    hide ServeOne, Serve, RequestBytes, Frame, Ending, Readable, PullFile, LocalFile;
    if |path| > MAX_NAME {
      return -1, local, files;
    }
    var up := new Writer();
    var down := new Writer();
    up.Writex(Frame(ID_RECV, |path|));
    up.Writex(path);
    ghost var r := Pull(path);
    assert up.done == RequestBytes(r) by { PullBytes(path); }
    up.Writex(Ending(quit));
    assert up.done == RequestBytes(r) + Ending(quit) by { FromNothing(RequestBytes(r)); }
    var server := new Reader(up.done);
    files' := Service(server, down, files, [disk]);
    ghost var more := SessionOfOne(r, quit, files, disk);
    PullCodeIsBlind(files, path, disk, Ending(quit), more, here);
    PullKeepsFiles(path, files, disk, Ending(quit));
    assert down.done == Serve(up.done, files, [disk]).replies by { FromNothing(Serve(up.done, files, [disk]).replies); }
    var client := new Reader(down.done);
    ghost var p;
    code, local', p := SyncRecv(client, here, local);
  }

  lemma PullBytes(path: Path)
    requires Sendable(Pull(path))
    ensures [] + Frame(ID_RECV, |path|) + path == RequestBytes(Pull(path))
  {
    hide Frame;
    assert [] + Frame(ID_RECV, |path|) == Frame(ID_RECV, |path|);
  }

  lemma PullKeepsFiles(path: Path, files: Files, disk: Disk, rest: Bytes)
    requires Sendable(Pull(path)) && DiskOk(disk)
    ensures var o := ServeOne(RequestBytes(Pull(path)) + rest, files, disk); o.Done? && o.served.files == files
  {
    hide ServeOne, RequestBytes, Reply;
    RequestServed(Pull(path), files, disk, rest);
  }
}
