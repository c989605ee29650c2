/**
 The bip buffer behind adb's socket pairs on Windows: two regions of one array that together hold a queue.
 */
module BipBuffer {
  import opened Numbers
  import opened Octets

  const SIZE: nat := 4096

  /** What a call returns: a count, EPIPE, or the need to wait for the event. */
  datatype Outcome = Count(n: nat) | Pipe | Wait

  /** The parts of an array after a stretch of it has been overwritten. */
  lemma Spliced(was: Bytes, at: nat, src: Bytes)
    requires at + |src| <= |was|
    ensures var now := was[..at] + src + was[at + |src|..];
            && |now| == |was|
            && (forall lo :: 0 <= lo <= at ==> now[lo..at + |src|] == was[lo..at] + src)
            && (forall lo, hi :: at + |src| <= lo <= hi <= |was| ==> now[lo..hi] == was[lo..hi])
  {
  }

  class Bip {
    var aStart: nat
    var aEnd: nat
    var bEnd: nat
    var canRead: bool
    var canWrite: bool
    var evtRead: bool
    var evtWrite: bool
    var closed: bool
    const buff: array<Byte>

    /** The two regions. */
    ghost predicate Regions()
      reads this, buff
    {
      && buff.Length == SIZE
      && bEnd <= aStart <= aEnd <= SIZE
      && (bEnd > 0 ==> aEnd == SIZE)
      && (aStart == aEnd ==> aEnd == 0)
    }

    /** The queued bytes, the next to be read first. */
    ghost function Contents(): (s: Bytes)
      requires Regions()
      reads this, buff
      ensures |s| == aEnd - aStart + bEnd
    {
      buff[aStart..aEnd] + buff[..bEnd]
    }

    /** The flags say exactly when the queue has bytes and when it has room. */
    ghost predicate Valid()
      reads this, buff
    {
      && Regions()
      && (canRead <==> Contents() != [])
      && (canWrite <==> |Contents()| < SIZE)
      && (canRead ==> evtRead) && (canWrite ==> evtWrite)
      && (!closed ==> evtRead == canRead && evtWrite == canWrite)
    }

    constructor ()
      ensures Valid() && Contents() == [] && !closed && fresh(buff)
    {
      aStart, aEnd, bEnd := 0, 0, 0;
      canWrite, canRead, closed := true, false, false;
      evtWrite, evtRead := true, false;
      buff := new Byte[SIZE](i => 0);
    }

    /** bip_buffer_close: nobody stays waiting. */
    method Close()
      requires Valid()
      modifies this
      ensures Valid() && Contents() == old(Contents())
      ensures closed && evtRead && evtWrite
    {
      closed := true;
      if !canRead {
        evtRead := true;
      }
      if !canWrite {
        evtWrite := true;
      }
    }

    /** memcpy into the buffer */
    method CopyIn(at: nat, src: Bytes)
      requires buff.Length == SIZE && at + |src| <= SIZE
      modifies buff
      ensures buff[..] == old(buff[..at]) + src + old(buff[at + |src|..])
    {
      forall i | 0 <= i < |src| {
        buff[at + i] := src[i];
      }
    }

    /** The two parts of a write: at the end of region A, then at the end of region B. */
    method AppendA(src: Bytes)
      requires Regions() && aEnd + |src| <= SIZE && bEnd == 0 && src != []
      modifies this`aEnd, buff
      ensures Regions() && Contents() == old(Contents()) + src && aEnd == old(aEnd) + |src|
    {
      ghost var was := buff[..];
      CopyIn(aEnd, src);
      aEnd := aEnd + |src|;
      Spliced(was, old(aEnd), src);
      assert buff[aStart..aEnd] == buff[..][aStart..aEnd] == was[aStart..old(aEnd)] + src;
    }

    method AppendB(src: Bytes)
      requires Regions() && aEnd == SIZE && bEnd + |src| <= aStart
      modifies this`bEnd, buff
      ensures Regions() && Contents() == old(Contents()) + src && bEnd == old(bEnd) + |src|
    {
      ghost var was := buff[..];
      CopyIn(bEnd, src);
      bEnd := bEnd + |src|;
      Spliced(was, old(bEnd), src);
      assert buff[aStart..aEnd] == buff[..][aStart..aEnd] == was[aStart..aEnd];
      assert buff[..bEnd] == buff[..][..bEnd] == was[..old(bEnd)] + src;
    }

    /** The copying part of bip_buffer_write. */
    method Fill(src: Bytes) returns (count: nat, full: bool)
      requires Regions() && |Contents()| < SIZE && src != []
      modifies this`aEnd, this`bEnd, buff
      ensures Regions() && count == Min(|src|, SIZE - |old(Contents())|) > 0
      ensures Contents() == old(Contents()) + src[..count] && full == (|Contents()| == SIZE)
    {
      hide Contents;
      count, full := 0, false;
      ghost var before := Contents();
      var rest := |src|;
      var avail := SIZE - aEnd;
      if avail > 0 {
        if avail > rest {
          avail := rest;
        }
        AppendA(src[..avail]);
        count, rest := avail, rest - avail;
        if aEnd == SIZE && aStart == 0 {
          return count, true;
        }
      } else {
        assert Contents() == before + src[..0];
      }
      if rest == 0 {
        return;
      }
      avail := aStart - bEnd;
      assert avail > 0;
      if avail > rest {
        avail := rest;
      }
      AppendB(src[count..count + avail]);
      assert src[..count] + src[count..count + avail] == src[..count + avail];
      count := count + avail;
      full := bEnd == aStart;
    }

    /** bip_buffer_write takes as much as there is room for. */
    method Write(src: Bytes, len: int) returns (r: Outcome)
      requires Valid() && len <= |src|
      modifies this, buff
      ensures Valid() && closed == old(closed)
      ensures len <= 0 ==> r == Count(0) && Contents() == old(Contents())
      ensures len > 0 && |old(Contents())| == SIZE ==>
                r == (if closed then Pipe else Wait) && Contents() == old(Contents())
      ensures len > 0 && |old(Contents())| < SIZE ==>
                && r == Count(Min(len, SIZE - |old(Contents())|)) && r.n > 0
                && Contents() == old(Contents()) + src[..r.n]
                && evtRead && evtWrite == (|Contents()| < SIZE)
      ensures !(r.Count? && r.n > 0) ==> evtRead == old(evtRead) && evtWrite == old(evtWrite)
    {
      hide Contents;
      if len <= 0 {
        return Count(0);
      }
      if !canWrite {
        return if closed then Pipe else Wait;
      }
      var count, full := Fill(src[..len]);
      assert src[..len][..count] == src[..count];
      label Filled:
      if full {
        canWrite, evtWrite := false, false;
      }
      assert count > 0;
      if !canRead {
        canRead, evtRead := true, true;
      }
      SameContents@Filled();
      return Count(count);
    }

    /** The flags are no part of the contents. */
    twostate lemma SameContents()
      requires old(Regions()) && unchanged(this`aStart, this`aEnd, this`bEnd, buff)
      ensures Contents() == old(Contents())
    {
    }

    /** memcpy out of the buffer */
    method CopyOut(from: nat, n: nat, dst: array<Byte>, at: nat)
      requires from + n <= buff.Length && at + n <= dst.Length && dst != buff
      modifies dst
      ensures dst[..] == old(dst[..at]) + buff[from..from + n] + old(dst[at + n..])
    {
      forall i | 0 <= i < n {
        dst[at + i] := buff[from + i];
      }
    }

    /** Takes n bytes from the front of region A; an emptied region A is replaced by region B. */
    method TakeA(n: nat, dst: array<Byte>, at: nat)
      requires Regions() && 0 < n <= aEnd - aStart && at + n <= dst.Length && dst != buff
      modifies this`aStart, this`aEnd, this`bEnd, dst
      ensures Regions() && Contents() == old(Contents())[n..]
      ensures dst[..] == old(dst[..at]) + old(Contents())[..n] + old(dst[at + n..])
      ensures old(aStart) + n == old(aEnd) ==> aStart == 0 && bEnd == 0 && aEnd == old(bEnd)
      ensures old(aStart) + n < old(aEnd) ==> aStart == old(aStart) + n && aEnd == old(aEnd)
    {
      CopyOut(aStart, n, dst, at);
      ghost var s := buff[..];
      aStart := aStart + n;
      assert s[old(aStart)..aEnd] == s[old(aStart)..aStart] + s[aStart..aEnd];
      assert old(Contents())[..n] == buff[old(aStart)..old(aStart) + n];
      if aStart == aEnd {
        aStart := 0;
        aEnd := bEnd;
        bEnd := 0;
      }
    }

    /** The copying part of bip_buffer_read. */
    method Drain(dst: array<Byte>, len: nat) returns (count: nat)
      requires Regions() && Contents() != [] && 0 < len <= dst.Length && dst != buff
      modifies this`aStart, this`aEnd, this`bEnd, dst
      ensures Regions() && count == Min(len, |old(Contents())|) > 0
      ensures dst[..] == old(Contents())[..count] + old(dst[count..]) && Contents() == old(Contents())[count..]
    {
      hide Contents;
      ghost var before, out := Contents(), dst[..];
      var avail := aEnd - aStart;
      assert avail > 0;
      if avail > len {
        avail := len;
      }
      var emptied := aStart + avail == aEnd;
      TakeA(avail, dst, 0);
      count := avail;
      assert dst[..] == before[..count] + out[count..];
      assert Contents() == before[count..];
      if !emptied || aEnd == 0 {
        return;
      }
      avail := aEnd;
      if avail > len - count {
        avail := len - count;
      }
      if avail > 0 {
        ghost var middle, half := Contents(), dst[..];
        TakeA(avail, dst, count);
        assert before[..count] + middle[..avail] == before[..count + avail];
        assert half[..count] == before[..count] && half[count + avail..] == out[count + avail..];
        count := count + avail;
      }
    }

    /** bip_buffer_read gives as much as there is. */
    method Read(dst: array<Byte>, len: int) returns (r: Outcome)
      requires Valid() && len <= dst.Length && dst != buff
      modifies this, dst
      ensures Valid() && closed == old(closed)
      ensures len <= 0 ==> r == Count(0) && Contents() == old(Contents()) && dst[..] == old(dst[..])
      ensures len > 0 && old(Contents()) == [] ==>
                r == (if closed then Pipe else Wait) && Contents() == [] && dst[..] == old(dst[..])
      ensures len > 0 && old(Contents()) != [] ==>
                && r == Count(Min(len, |old(Contents())|)) && r.n > 0
                && dst[..] == old(Contents())[..r.n] + old(dst[r.n..]) && Contents() == old(Contents())[r.n..]
                && evtWrite && evtRead == (Contents() != [])
      ensures !(r.Count? && r.n > 0) ==> evtRead == old(evtRead) && evtWrite == old(evtWrite)
    {
      hide Contents;
      if len <= 0 {
        return Count(0);
      }
      if !canRead {
        return if closed then Pipe else Wait;
      }
      var count := Drain(dst, len);
      label Filled:
      if aEnd == 0 {
        canRead, evtRead := false, false;
      }
      assert count > 0;
      if !canWrite {
        canWrite, evtWrite := true, true;
      }
      SameContents@Filled();
      return Count(count);
    }
  }
}
