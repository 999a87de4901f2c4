// The TCP send path: src/Network/Socket.cpp (send_l, flushAll, flushData,
// onWriteAble) on top of the scatter-gather list BufferSendMsg of
// src/Network/BufferSock.cpp.

module SendBytes {
  // Buffer contents are C chars.
  type Packet = string

  function Concat(packets: seq<Packet>): Packet {
    if |packets| == 0 then [] else packets[0] + Concat(packets[1..])
  }

  lemma {:induction false} ConcatAppend(a: seq<Packet>, b: seq<Packet>)
    ensures Concat(a + b) == Concat(a) + Concat(b)
  {
    if |a| == 0 {
      assert a + b == b;
    } else {
      ConcatAppend(a[1..], b);
      assert (a + b)[1..] == a[1..] + b && (a + b)[0] == a[0];
    }
  }

  lemma ConcatOne(p: Packet)
    ensures Concat([p]) == p
  {
    assert [p][1..] == [];
  }
}

// The kernel's side of a connected stream socket: it takes a non-empty prefix
// of what it is offered, or refuses.
module StreamKernel {
  import opened SendBytes

  datatype Errno = Again | Other

  class Kernel {
    var accepted: Packet
    var errno: Errno
    ghost var refusals: nat // how often it has returned -1
    ghost var offered: Packet // what the last call put before it

    constructor ()
      ensures accepted == [] && refusals == 0 && offered == []
    {
      accepted := [];
      errno := Again;
      refusals, offered := 0, [];
    }

    method SendMsg(offer: Packet) returns (n: int)
      requires |offer| > 0
      modifies this
      ensures n == -1 || 0 < n <= |offer|
      ensures accepted == old(accepted) + (if n == -1 then [] else offer[..n])
      ensures refusals == old(refusals) + (if n == -1 then 1 else 0)
      ensures n != -1 ==> errno == old(errno)
      ensures offered == offer
    {
      offered := offer;
      var choice: int := *;
      if 0 < choice <= |offer| {
        n := choice;
        accepted := accepted + offer[..n];
      } else {
        n := -1;
        var again: bool := *;
        errno := if again then Again else Other;
        refusals := refusals + 1;
      }
    }
  }
}

module SendList {
  import opened SendBytes
  import opened StreamKernel

  const IOV_MAX := 1024

  class BufferSendMsg {
    var iovecOff: nat
    var remainSize: nat
    var iovec: seq<Packet>
    // The buffers whose result has not been reported, and those reported as sent.
    var pktList: seq<Packet>
    ghost var reported: seq<Packet>
    ghost var all: seq<Packet>

    // The bytes still to be sent.
    ghost function Rest(): Packet
      reads this
    {
      if remainSize == 0 || iovecOff > |iovec| then [] else Concat(iovec[iovecOff..])
    }

    ghost predicate Valid()
      reads this
    {
      && iovecOff <= |iovec|
      && remainSize == |Rest()|
      && reported + pktList == all
      && (remainSize > 0 ==> Aligned(iovec[iovecOff..], pktList))
      && (remainSize == 0 ==> pktList == [])
    }

    // The unsent slices belong to the unreported buffers, one to one; only the
    // first slice may be a proper suffix.
    static ghost predicate Aligned(slices: seq<Packet>, packets: seq<Packet>) {
      && |slices| == |packets| > 0
      && |slices[0]| > 0
      && IsTail(slices[0], packets[0])
      && forall i :: 0 < i < |slices| ==> slices[i] == packets[i] && |slices[i]| > 0
    }

    static ghost predicate IsTail(tail: Packet, whole: Packet) {
      |tail| <= |whole| && whole[|whole| - |tail|..] == tail
    }

    constructor (list: seq<Packet>)
      requires |list| > 0 && forall p :: p in list ==> |p| > 0
      ensures Valid() && Rest() == Concat(list) && all == list && reported == [] && remainSize > 0
    {
      iovecOff := 0;
      iovec := list;
      pktList := list;
      remainSize := |Concat(list)|;
      reported, all := [], list;
      new;
      assert Concat(list) == list[0] + Concat(list[1..]);
      assert iovec[0..] == list;
    }

    predicate Empty()
      reads this
    {
      remainSize == 0
    }

    method SendFrontSuccess()
      requires |pktList| > 0
      modifies this`pktList, this`reported
      ensures pktList == old(pktList)[1..] && reported == old(reported) + [old(pktList)[0]]
    {
      reported := reported + [pktList[0]];
      pktList := pktList[1..];
    }

    method SendCompleted()
      modifies this`pktList, this`reported
      ensures pktList == [] && reported == old(reported + pktList)
    {
      while |pktList| != 0
        invariant reported + pktList == old(reported + pktList)
        decreases |pktList|
      {
        SendFrontSuccess();
      }
    }

    // Passing the first slice.
    static lemma PassFirst(slices: seq<Packet>, packets: seq<Packet>, n: nat)
      requires Aligned(slices, packets) && |slices[0]| <= n < |Concat(slices)|
      ensures Aligned(slices[1..], packets[1..])
      ensures n - |slices[0]| < |Concat(slices[1..])|
      ensures Concat(slices)[n..] == Concat(slices[1..])[n - |slices[0]|..]
    {
      var first, others := slices[0], slices[1..];
      assert Concat(slices) == first + Concat(others);
      if |others| > 0 {
        assert others[0] == packets[1..][0];
      }
    }

    // Cutting the first slice.
    static lemma CutFirst(slices: seq<Packet>, packets: seq<Packet>, n: nat)
      requires Aligned(slices, packets) && n < |slices[0]|
      ensures var cut := slices[0 := slices[0][n..]];
        Aligned(cut, packets) && Concat(cut) == Concat(slices)[n..]
      ensures n < |Concat(slices)|
    {
      var cut := slices[0 := slices[0][n..]];
      assert Concat(slices) == slices[0] + Concat(slices[1..]);
      assert cut[1..] == slices[1..];
      assert Concat(cut) == slices[0][n..] + Concat(slices[1..]);
      var whole := packets[0];
      assert whole[|whole| - |slices[0]|..][n..] == whole[|whole| - |slices[0]| + n..];
    }

    // Skips n sent bytes: whole slices are reported and passed, the slice in
    // which the write stopped is cut.
    method ReOffset(n: nat)
      requires Valid() && 0 < n < remainSize
      modifies this
      ensures Valid() && Rest() == old(Rest())[n..] && all == old(all)
    {
      hide Concat, Aligned, IsTail;
      ghost var rest := Rest();
      remainSize := remainSize - n;
      var offset := 0;
      var i := iovecOff;
      while i != |iovec|
        invariant iovecOff <= i <= |iovec| && offset < n
        invariant reported + pktList == all
        invariant Aligned(iovec[i..], pktList) && n - offset < |Concat(iovec[i..])|
        invariant Concat(iovec[i..])[n - offset..] == rest[n..]
        modifies this`pktList, this`reported
        decreases |iovec| - i
      {
        Walk(iovec, i, pktList, n - offset);
        var len := |iovec[i]|;
        offset := offset + len;
        if offset < n {
          SendFrontSuccess();
          i := i + 1;
          continue;
        }
        break;
      }
      NonEmpty(iovec[i..], pktList);
      iovecOff := i;
      if offset == n {
        iovecOff := iovecOff + 1;
        SendFrontSuccess();
      } else {
        var remain := offset - n;
        iovec := iovec[i := iovec[i][|iovec[i]| - remain..]];
      }
    }

    // The slice at i, when n bytes are still to be skipped.
    static lemma Walk(iovec: seq<Packet>, i: nat, packets: seq<Packet>, n: nat)
      requires i < |iovec| && Aligned(iovec[i..], packets) && n < |Concat(iovec[i..])|
      ensures |packets| > 0
      ensures |iovec[i]| <= n ==>
        && Aligned(iovec[i + 1..], packets[1..])
        && n - |iovec[i]| < |Concat(iovec[i + 1..])|
        && Concat(iovec[i..])[n..] == Concat(iovec[i + 1..])[n - |iovec[i]|..]
      ensures n < |iovec[i]| ==>
        var cut := iovec[i := iovec[i][n..]];
        Aligned(cut[i..], packets) && Concat(cut[i..]) == Concat(iovec[i..])[n..]
    {
      var slices := iovec[i..];
      assert slices[1..] == iovec[i + 1..];
      if |iovec[i]| <= n {
        PassFirst(slices, packets, n);
      } else {
        CutFirst(slices, packets, n);
        assert iovec[i := iovec[i][n..]][i..] == slices[0 := slices[0][n..]];
      }
    }

    static lemma NonEmpty(slices: seq<Packet>, packets: seq<Packet>)
      requires Aligned(slices, packets)
      ensures |slices| == |packets| > 0
    {
    }

    // One sendmsg over at most IOV_MAX slices.
    method SendOnce(kernel: Kernel) returns (n: int)
      requires Valid() && remainSize > 0
      modifies this, kernel
      ensures Valid() && all == old(all) && remainSize == |Rest()|
      ensures n == -1 || 0 < n <= |old(Rest())|
      ensures n == -1 ==> Rest() == old(Rest()) && kernel.accepted == old(kernel.accepted)
      ensures n != -1 ==> Rest() == old(Rest())[n..] && kernel.accepted == old(kernel.accepted) + old(Rest())[..n]
      ensures kernel.refusals == old(kernel.refusals) + (if n == -1 then 1 else 0)
      ensures var slices := old(iovec[iovecOff..]);
        kernel.offered == Concat(slices[..if |slices| > 1024 then 1024 else |slices|])
    {
      hide Concat, Aligned;
      ghost var slices := iovec[iovecOff..];
      NonEmpty(slices, pktList);
      var count := |iovec| - iovecOff;
      if count > IOV_MAX {
        count := IOV_MAX;
      }
      var offer := Concat(iovec[iovecOff..iovecOff + count]);
      assert iovec[iovecOff..iovecOff + count] == slices[..count];
      Offered(slices, pktList, count);
      n := kernel.SendMsg(offer);
      if n >= remainSize {
        remainSize := 0;
        SendCompleted();
      } else if n > 0 {
        ReOffset(n);
      }
    }

    static lemma Offered(slices: seq<Packet>, packets: seq<Packet>, count: nat)
      requires Aligned(slices, packets) && 0 < count <= |slices|
      ensures 0 < |Concat(slices[..count])| <= |Concat(slices)|
      ensures Concat(slices)[..|Concat(slices[..count])|] == Concat(slices[..count])
    {
      ConcatAppend(slices[..count], slices[count..]);
      assert slices == slices[..count] + slices[count..];
      assert slices[..count][0] == slices[0];
    }

    static lemma TakeMore(base: Packet, rest: Packet, done: nat, n: nat)
      requires done + n <= |rest|
      ensures rest[done..][n..] == rest[done + n..]
      ensures base + rest[..done] + rest[done..][..n] == base + rest[..done + n]
    {
    }

    static lemma TakeNone(base: Packet, rest: Packet)
      ensures rest[0..] == rest && base + rest[..0] == base
    {
    }

    // `done` bytes of `rest` have gone to the kernel, which had accepted `base`.
    ghost predicate Moved(kernel: Kernel, packets: seq<Packet>, rest: Packet, base: Packet, done: nat)
      reads this, kernel
    {
      && Valid() && all == packets
      && done <= |rest| && remainSize == |rest| - done
      && Rest() == rest[done..] && kernel.accepted == base + rest[..done]
    }

    // One turn of send's loop.
    method SendMore(kernel: Kernel, ghost packets: seq<Packet>, ghost rest: Packet, ghost base: Packet, ghost done: nat)
      returns (n: int)
      requires Moved(kernel, packets, rest, base, done) && remainSize > 0
      modifies this, kernel
      ensures n == -1 || 0 < n <= |rest| - done
      ensures Moved(kernel, packets, rest, base, if n == -1 then done else done + n)
      ensures kernel.refusals == old(kernel.refusals) + (if n == -1 then 1 else 0)
    {
      hide Valid, Rest, Concat;
      n := SendOnce(kernel);
      if n != -1 {
        TakeMore(base, rest, done, n);
      }
    }

    // send: repeats until everything is written or the kernel refuses. Either a
    // non-empty prefix goes out, or nothing changes; a rest means a refusal.
    method Send(kernel: Kernel) returns (sent: int)
      requires Valid() && remainSize > 0
      modifies this, kernel
      ensures Valid() && all == old(all)
      ensures sent == -1 || 0 < sent <= |old(Rest())|
      ensures sent == -1 ==> Rest() == old(Rest()) && kernel.accepted == old(kernel.accepted)
      ensures sent != -1 ==> Rest() == old(Rest())[sent..]
      ensures sent != -1 ==> kernel.accepted == old(kernel.accepted) + old(Rest())[..sent]
      ensures kernel.refusals == old(kernel.refusals) + (if remainSize == 0 then 0 else 1)
    {
      var before := remainSize;
      ghost var packets, rest, base, done := all, Rest(), kernel.accepted, 0;
      assert before == |rest|;
      TakeNone(base, rest);
      assert Moved(kernel, packets, rest, base, 0);
      hide Valid, Rest, Concat;
      while remainSize != 0
        invariant done >= 0 && Moved(kernel, packets, rest, base, done)
        invariant kernel.refusals == old(kernel.refusals)
        decreases remainSize
      {
        var n := SendMore(kernel, packets, rest, base, done);
        if n == -1 {
          break;
        }
        done := done + n;
      }
      sent := before - remainSize;
      if sent <= 0 {
        sent := -1;
      }
    }
  }
}

module SocketSend {
  import opened SendBytes
  import opened StreamKernel
  import opened SendList

  datatype Outcome = Sent | Blocked | Failed

  // A connected TCP socket. `queued` is everything handed to send so far,
  // `lazy` says that something was queued without a flush since the last
  // successful flush, `writeEvent` is what the poller is asked to watch.
  class Socket {
    const kernel: Kernel
    var open: bool
    var sendable: bool
    var writeEvent: bool
    var waiting: seq<Packet>
    var sending: seq<BufferSendMsg>
    ghost var queued: Packet
    ghost var lazy: bool

    ghost function SendingBytes(): Packet
      reads this, sending
    {
      ListBytes(sending)
    }

    static ghost function ListBytes(list: seq<BufferSendMsg>): Packet
      reads list
    {
      if |list| == 0 then [] else list[0].Rest() + ListBytes(list[1..])
    }

    static lemma Single(b: BufferSendMsg)
      ensures ListBytes([b]) == b.Rest() && ListBytes([]) == []
    {
      assert [b][1..] == [];
    }

    ghost predicate ListOk(list: seq<BufferSendMsg>)
      reads list
    {
      // With flushData calls that do not overlap, one list is in flight at most.
      && |list| <= 1
      && forall b :: b in list ==> b.Valid() && b.remainSize > 0
    }

    ghost predicate Valid()
      reads this, sending, kernel
    {
      && ListOk(sending)
      && (forall p :: p in waiting ==> |p| > 0)
      && (open ==> kernel.accepted + SendingBytes() + Concat(waiting) == queued)
      && kernel.accepted <= queued
      && (open ==> Armed())
    }

    // Unsent data that someone asked to flush is always waiting for a write event.
    ghost predicate Armed()
      reads this
    {
      && (!sendable ==> writeEvent)
      && (sending != [] ==> writeEvent)
      && (waiting != [] && !lazy ==> writeEvent)
    }

    // attachEvent registers for writing, too.
    constructor (kernel: Kernel)
      requires kernel.accepted == []
      ensures Valid() && open && sendable && writeEvent && queued == []
      ensures this.kernel == kernel && waiting == [] && sending == [] && !lazy
    {
      this.kernel := kernel;
      open, sendable, writeEvent := true, true, true;
      waiting, sending := [], [];
      queued, lazy := [], false;
    }

    method StartWriteAbleEvent()
      modifies this`sendable, this`writeEvent
      ensures !sendable && writeEvent
    {
      sendable := false;
      writeEvent := true;
    }

    method StopWriteAbleEvent()
      modifies this`sendable, this`writeEvent
      ensures sendable && !writeEvent
    {
      sendable := true;
      writeEvent := false;
    }

    method EmitErr()
      modifies this`open
      ensures !open
    {
      open := false;
    }

    // One round of the loop in flushData: the packet goes out entirely, or the
    // kernel stops taking bytes and a write event is wanted, or the socket fails.
    method SendFront(packet: BufferSendMsg, pollerThread: bool) returns (outcome: Outcome)
      requires open && packet.Valid() && packet.remainSize > 0 && (pollerThread ==> writeEvent)
      modifies this`sendable, this`writeEvent, this`open, kernel, packet
      ensures packet.Valid()
      ensures kernel.accepted + packet.Rest() == old(kernel.accepted + packet.Rest())
      ensures outcome == Sent <==> packet.remainSize == 0
      ensures outcome == Failed <==> !open
      ensures outcome == Sent || pollerThread ==> sendable == old(sendable) && writeEvent == old(writeEvent)
      ensures outcome == Blocked && !pollerThread ==> !sendable
      ensures outcome == Blocked ==> writeEvent
      ensures kernel.refusals == old(kernel.refusals) + (if outcome == Sent then 0 else 1)
      ensures outcome == Failed ==> kernel.errno == Other && packet.Rest() == old(packet.Rest())
      ensures outcome == Blocked ==> kernel.errno == Again || kernel.accepted != old(kernel.accepted)
    {
      hide BufferSendMsg.Rest, BufferSendMsg.Aligned;
      ghost var base, rest := kernel.accepted, packet.Rest();
      var n := packet.Send(kernel);
      if n > 0 {
        assert (base + rest[..n]) + rest[n..] == base + rest;
        if packet.Empty() {
          return Sent;
        }
        if !pollerThread {
          StartWriteAbleEvent();
        }
        return Blocked;
      }
      if kernel.errno == Again {
        if !pollerThread {
          StartWriteAbleEvent();
        }
        return Blocked;
      }
      EmitErr();
      return Failed;
    }

    // The loop of flushData over the list taken out of _send_buf_sending.
    method SendAll(list: seq<BufferSendMsg>, pollerThread: bool) returns (outcome: Outcome, left: seq<BufferSendMsg>)
      requires open && ListOk(list) && (pollerThread ==> writeEvent)
      modifies this`sendable, this`writeEvent, this`open, kernel, list
      ensures ListOk(left) && (left == list || left == [])
      ensures kernel.accepted + ListBytes(left) == old(kernel.accepted + ListBytes(list))
      ensures outcome == Sent <==> left == []
      ensures outcome == Failed <==> !open
      ensures outcome == Sent || pollerThread ==> sendable == old(sendable) && writeEvent == old(writeEvent)
      ensures outcome == Blocked && !pollerThread ==> !sendable
      ensures outcome == Blocked ==> writeEvent
      ensures kernel.refusals == old(kernel.refusals) + (if outcome == Sent then 0 else 1)
      ensures outcome == Failed ==> kernel.errno == Other
    {
      hide BufferSendMsg.Rest, BufferSendMsg.Aligned;
      left := list;
      outcome := Sent;
      while left != []
        invariant ListOk(left) && (left == list || left == []) && open && outcome == Sent
        invariant kernel.accepted + ListBytes(left) == old(kernel.accepted + ListBytes(list))
        invariant sendable == old(sendable) && writeEvent == old(writeEvent)
        invariant kernel.refusals == old(kernel.refusals)
        modifies this`sendable, this`writeEvent, this`open, kernel, list
        decreases |left|
      {
        assert left == [list[0]];
        Single(list[0]);
        outcome := SendFront(left[0], pollerThread);
        Single(list[0]);
        if outcome == Sent {
          NothingLeft(list[0]);
          left := left[1..];
          continue;
        }
        return;
      }
    }

    static lemma NothingLeft(b: BufferSendMsg)
      requires b.remainSize == 0
      ensures b.Rest() == []
    {
    }

    // Everything unsent is under a write event.
    ghost predicate Flushed()
      reads this
    {
      sending != [] || waiting != [] ==> writeEvent
    }

    // Takes the list to send out of the second-level queue, or makes one of all
    // the first-level queue holds.
    method TakeList() returns (list: seq<BufferSendMsg>)
      requires Valid() && open
      modifies this`sending, this`waiting
      ensures sending == [] && ListOk(list)
      ensures kernel.accepted + ListBytes(list) + Concat(waiting) == queued
      ensures list == old(sending) || (|list| == 1 && fresh(list[0]))
      ensures old(sending) != [] ==> list == old(sending) && waiting == old(waiting)
      ensures old(sending) == [] ==> waiting == [] && (list == [] <==> old(waiting) == [])
    {
      list := sending;
      sending := [];
      if list == [] && waiting != [] {
        var packet := new BufferSendMsg(waiting);
        Single(packet);
        list := [packet];
        waiting := [];
        assert Concat([]) == [];
      }
    }

    // Nothing is left unsent unless the kernel refused to take more.
    method FlushData(pollerThread: bool) returns (ok: bool, ghost blocked: bool)
      requires Valid() && open && (pollerThread ==> writeEvent)
      modifies this, kernel, sending
      ensures Valid() && ok == open && queued == old(queued) && lazy == old(lazy)
      ensures sending == [] || sending == old(sending) || fresh(sending[0])
      ensures ok && (pollerThread || old(sending) == [] || old(writeEvent)) ==> Flushed()
      ensures ok && !blocked ==> sending == []
      ensures ok && !blocked ==> waiting == if pollerThread || old(sending) == [] then [] else old(waiting)
      ensures ok && !blocked && pollerThread ==> sendable && !writeEvent
      ensures ok && !blocked && !pollerThread ==> sendable == old(sendable)
      ensures blocked || !ok ==> kernel.refusals > old(kernel.refusals)
      ensures kernel.refusals >= old(kernel.refusals)
      ensures !ok ==> kernel.errno == Other
      decreases |queued| - |kernel.accepted|
    {
      hide BufferSendMsg.Valid, BufferSendMsg.Rest, Concat, ListBytes;
      blocked := false;
      var list := TakeList();
      if list == [] {
        if pollerThread {
          StopWriteAbleEvent();
        }
        return true, false;
      }
      Positive(list);
      var outcome, left := SendAll(list, pollerThread);
      blocked := outcome == Blocked;
      if outcome == Failed {
        return false, blocked;
      }
      if left != [] {
        sending := left + sending;
        assert sending == left;
        return true, blocked;
      }
      NoBytes();
      if pollerThread {
        ok, blocked := FlushData(pollerThread);
        return;
      }
      return true, blocked;
    }

    static lemma NoBytes()
      ensures ListBytes([]) == []
    {
    }

    lemma Positive(list: seq<BufferSendMsg>)
      requires ListOk(list) && list != []
      ensures |ListBytes(list)| > 0
    {
      assert list == [list[0]];
      Single(list[0]);
    }

    // flushAll. `timedOut` is the clock's answer when the socket is not writable.
    method FlushAll(timedOut: bool) returns (r: int, ghost blocked: bool)
      requires Valid()
      modifies this, kernel, sending
      ensures Valid() && queued == old(queued)
      ensures sending == [] || sending == old(sending) || fresh(sending[0])
      ensures r == 0 || r == -1
      ensures r == 0 <==> open
      ensures !old(open) ==> !open && kernel.accepted == old(kernel.accepted)
      ensures r == 0 ==> Flushed() && !lazy
      ensures r == 0 && !blocked && old(sendable) ==>
        sendable && sending == [] && (waiting == if old(sending) == [] then [] else old(waiting))
      ensures old(open && !sendable) ==>
        && (r == 0 <==> !timedOut) && kernel.accepted == old(kernel.accepted)
        && kernel.refusals == old(kernel.refusals) && sending == old(sending) && waiting == old(waiting)
        && sendable == old(sendable) && writeEvent == old(writeEvent)
      ensures blocked ==> kernel.refusals > old(kernel.refusals)
      ensures kernel.refusals >= old(kernel.refusals)
      ensures old(open) && !open ==> kernel.refusals > old(kernel.refusals) || (timedOut && !old(sendable))
    {
      blocked := false;
      if !open {
        return -1, blocked;
      }
      if sendable {
        var ok;
        ok, blocked := FlushData(false);
        if !ok {
          return -1, blocked;
        }
        lazy := false;
        return 0, blocked;
      }
      if timedOut {
        EmitErr();
        return -1, blocked;
      }
      lazy := false;
      return 0, blocked;
    }

    // send_l for a buffer without an address.
    method SendL(buf: Packet, tryFlush: bool, timedOut: bool) returns (r: int)
      requires Valid()
      modifies this, kernel, sending
      ensures Valid() && queued == old(queued) + buf
      ensures sending == [] || sending == old(sending) || fresh(sending[0])
      ensures r == if tryFlush && buf != [] && !open then -1 else |buf|
      ensures !old(open) ==> !open && kernel.accepted == old(kernel.accepted)
      ensures tryFlush && buf != [] && open ==> Flushed()
      ensures tryFlush && open && !old(lazy) ==> !lazy
      ensures !tryFlush || buf == [] || old(open && !sendable && !timedOut) ==>
        && open == old(open) && sending == old(sending) && sendable == old(sendable) && writeEvent == old(writeEvent)
        && kernel.accepted == old(kernel.accepted) && kernel.refusals == old(kernel.refusals)
        && waiting == if buf == [] then old(waiting) else old(waiting) + [buf]
      ensures old(open && !sendable) && timedOut && tryFlush && buf != [] ==> !open
      ensures old(open) && !open ==> kernel.refusals > old(kernel.refusals) || (timedOut && !old(sendable))
      ensures kernel.refusals >= old(kernel.refusals)
      ensures kernel.refusals == old(kernel.refusals) && old(open && sendable && sending == []) ==>
        open && sendable && sending == [] && (tryFlush && (buf != [] || old(waiting) == []) ==> waiting == [])
    {
      hide BufferSendMsg.Valid, BufferSendMsg.Rest;
      if |buf| == 0 {
        assert queued + buf == queued;
        return 0;
      }
      Enqueue(buf, waiting);
      waiting := waiting + [buf];
      queued := queued + buf;
      lazy := true;
      if tryFlush {
        ghost var blocked;
        r, blocked := FlushAll(timedOut);
        if r != 0 {
          return -1;
        }
      }
      return |buf|;
    }

    lemma Enqueue(buf: Packet, packets: seq<Packet>)
      ensures Concat(packets + [buf]) == Concat(packets) + buf
    {
      ConcatAppend(packets, [buf]);
      ConcatOne(buf);
    }

    // The poller reports a registered socket as writable.
    method OnWriteAble() returns (ghost blocked: bool)
      requires Valid() && open && writeEvent
      modifies this, kernel, sending
      ensures Valid() && queued == old(queued)
      ensures sending == [] || sending == old(sending) || fresh(sending[0])
      ensures open ==> Flushed() && !lazy
      ensures open && !blocked ==> sending == [] && waiting == [] && sendable && !writeEvent
      ensures blocked || !open ==> kernel.refusals > old(kernel.refusals)
      ensures kernel.refusals >= old(kernel.refusals)
      ensures kernel.refusals == old(kernel.refusals) ==> kernel.accepted == queued
    {
      blocked := false;
      if waiting == [] && sending == [] {
        StopWriteAbleEvent();
        lazy := false;
      } else {
        var ok;
        ok, blocked := FlushData(true);
        lazy := false;
      }
    }
  }
}

// Whole runs: any mixture of sends and write events, against any kernel.
module SocketRun {
  import opened SendBytes
  import opened StreamKernel
  import opened SendList
  import opened SocketSend

  datatype Event = Send(buf: Packet, tryFlush: bool, timedOut: bool) | Writable

  function Handed(events: seq<Event>): Packet {
    if |events| == 0 then []
    else
      var e := events[|events| - 1];
      Handed(events[..|events| - 1]) + (if e.Send? then e.buf else [])
  }

  predicate AlwaysFlushes(events: seq<Event>) {
    forall e :: e in events && e.Send? ==> e.tryFlush
  }

  lemma SplitLast(events: seq<Event>, e: Event)
    ensures Handed(events + [e]) == Handed(events) + (if e.Send? then e.buf else [])
    ensures AlwaysFlushes(events + [e]) <==> AlwaysFlushes(events) && (e.Send? ==> e.tryFlush)
  {
    assert (events + [e])[..|events|] == events;
    assert forall x :: x in events + [e] <==> x in events || x == e;
  }

  // One event. A kernel that refuses nothing takes all that is flushed, and after a
  // write event all there is.
  method Step(socket: Socket, e: Event)
    requires socket.Valid()
    modifies socket, socket.kernel, socket.sending
    ensures socket.Valid() && |socket.sending| <= 1
    ensures socket.sending == [] || socket.sending == old(socket.sending) || fresh(socket.sending[0])
    ensures socket.queued == old(socket.queued) + (if e.Send? then e.buf else [])
    ensures socket.open && !old(socket.lazy) && (e.Send? ==> e.tryFlush) ==> !socket.lazy
    ensures !old(socket.open) ==> !socket.open
    ensures socket.kernel.refusals >= old(socket.kernel.refusals)
    ensures socket.kernel.refusals == old(socket.kernel.refusals) && old(Clear(socket)) ==>
      Clear(socket) && (old(socket.waiting) == [] && (e.Send? ==> e.tryFlush) ==> socket.waiting == [])
    ensures e.Writable? && old(socket.open && (socket.writeEvent || !socket.lazy)) ==>
      socket.kernel.refusals > old(socket.kernel.refusals) || socket.kernel.accepted == socket.queued
  {
    match e {
      case Send(buf, tryFlush, timedOut) =>
        var r := socket.SendL(buf, tryFlush, timedOut);
      case Writable =>
        assert socket.queued + [] == socket.queued;
        if socket.open {
          if socket.writeEvent {
            ghost var blocked := socket.OnWriteAble();
          } else {
            Account(socket);
          }
        }
    }
  }

  // Nothing stands in the way of sending.
  ghost predicate Clear(socket: Socket)
    reads socket
  {
    socket.open && socket.sendable && socket.sending == []
  }

  // What a run keeps.
  ghost predicate Accounted(socket: Socket, events: seq<Event>)
    reads socket, socket.kernel, socket.sending
  {
    && socket.Valid() && |socket.sending| <= 1
    && socket.queued == Handed(events)
    && (socket.open && AlwaysFlushes(events) ==> !socket.lazy)
    && (socket.kernel.refusals == 0 ==> Clear(socket) && (AlwaysFlushes(events) ==> socket.waiting == []))
  }

  method StepInRun(socket: Socket, ghost before: seq<Event>, e: Event)
    requires Accounted(socket, before)
    modifies socket, socket.kernel, socket.sending
    ensures Accounted(socket, before + [e])
    ensures socket.sending == [] || socket.sending == old(socket.sending) || fresh(socket.sending[0])
  {
    hide Socket.Valid, Handed, AlwaysFlushes;
    SplitLast(before, e);
    Step(socket, e);
  }

  // All events, one after the other.
  method RunAll(socket: Socket, events: seq<Event>)
    requires Accounted(socket, []) && socket.sending == []
    modifies socket, socket.kernel
    ensures Accounted(socket, events)
  {
    hide Accounted;
    assert events[..0] == [];
    for i := 0 to |events|
      invariant |socket.sending| <= 1 && (socket.sending != [] ==> fresh(socket.sending[0]))
      invariant Accounted(socket, events[..i])
    {
      assert events[..i + 1] == events[..i] + [events[i]];
      StepInRun(socket, events[..i], events[i]);
      AtMostOne(socket, events[..i + 1]);
    }
    assert events[..|events|] == events;
  }

  // What the kernel took is always the start of what was handed over. While the
  // socket lives, the rest is still in the two queues, in order. If every send asked
  // for a flush, the rest has a write event coming, and there is none if the kernel
  // never refused to take more.
  method Run(events: seq<Event>) returns (socket: Socket)
    ensures fresh(socket) && socket.Valid() && socket.queued == Handed(events)
    ensures socket.kernel.accepted <= Handed(events)
    ensures socket.open ==> socket.kernel.accepted + Unsent(socket) == Handed(events)
    ensures socket.open && AlwaysFlushes(events) ==> !socket.lazy && (Unsent(socket) != [] ==> socket.writeEvent)
    ensures socket.kernel.refusals == 0 ==> Clear(socket)
    ensures socket.kernel.refusals == 0 && AlwaysFlushes(events) ==> socket.kernel.accepted == Handed(events)
  {
    var kernel := new Kernel();
    socket := new Socket(kernel);
    assert Accounted(socket, []);
    hide Accounted, Socket.Valid, Unsent, Handed, AlwaysFlushes, Clear;
    RunAll(socket, events);
    Balance(socket, events);
  }

  lemma AtMostOne(socket: Socket, events: seq<Event>)
    requires Accounted(socket, events)
    ensures |socket.sending| <= 1
  {
  }

  lemma Balance(socket: Socket, events: seq<Event>)
    requires Accounted(socket, events)
    ensures socket.Valid() && socket.queued == Handed(events)
    ensures socket.kernel.accepted <= Handed(events)
    ensures socket.open ==> socket.kernel.accepted + Unsent(socket) == Handed(events)
    ensures socket.open && AlwaysFlushes(events) ==> !socket.lazy && (Unsent(socket) != [] ==> socket.writeEvent)
    ensures socket.kernel.refusals == 0 ==> Clear(socket)
    ensures socket.kernel.refusals == 0 && AlwaysFlushes(events) ==> socket.kernel.accepted == Handed(events)
  {
    hide Socket.Valid, Handed, AlwaysFlushes, Unsent;
    Account(socket);
  }

  lemma Account(socket: Socket)
    requires socket.Valid()
    ensures socket.kernel.accepted <= socket.queued
    ensures var unsent := Unsent(socket);
      socket.open ==>
        && socket.kernel.accepted + unsent == socket.queued
        && (unsent != [] && !socket.lazy ==> socket.writeEvent)
        && (socket.sending == [] && socket.waiting == [] ==> unsent == [])
  {
    var a, b, c := socket.kernel.accepted, socket.SendingBytes(), Concat(socket.waiting);
    assert a + b + c == a + (b + c);
  }

  ghost function Unsent(socket: Socket): Packet
    reads socket, socket.sending
  {
    socket.SendingBytes() + Concat(socket.waiting)
  }
}
