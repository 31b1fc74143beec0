// A peer connection's two byte queues: the receiver that reassembles messages
// from whatever the socket hands over, and the sender that writes as much as
// the socket takes.
module NetNode {
  import opened Arithmetic
  import opened MessageFrames
  import opened Octets

  function Resized(v: Bytes, n: nat): (r: Bytes)
    ensures |r| == n && forall i :: 0 <= i < n ==> r[i] == if i < |v| then v[i] else 0
  {
    if n <= |v| then v[..n] else v + seq(n - |v|, _ => 0)
  }

  // memcpy(&v[at], src, |src|)
  function Copied(v: Bytes, at: nat, src: Bytes): (r: Bytes)
    requires at + |src| <= |v|
    ensures |r| == |v| && r[..at + |src|] == v[..at] + src
  {
    v[..at] + src + v[at + |src|..]
  }

  // CNetMessage: a message being received.
  class NetMessage {
    var in_data: bool
    var hdrbuf: Bytes
    var nHdrPos: nat
    var nMessageSize: nat
    var vRecv: Bytes
    var nDataPos: nat

    constructor ()
      ensures Valid() && Taken() == []
    {
      in_data, hdrbuf, nHdrPos := false, seq(HEADER_SIZE, _ => 0), 0;
      nMessageSize, vRecv, nDataPos := 0, [], 0;
    }

    // The bytes taken off the stream for this message so far.
    ghost function Taken(): Bytes
      reads this
    {
      if nHdrPos <= |hdrbuf| && nDataPos <= |vRecv| then hdrbuf[..nHdrPos] + vRecv[..nDataPos] else []
    }

    ghost predicate Valid()
      reads this
    {
      && |hdrbuf| == HEADER_SIZE && nHdrPos <= HEADER_SIZE && nDataPos <= |vRecv|
      && if in_data then
           && nHdrPos == HEADER_SIZE && nMessageSize == SizeField(hdrbuf) <= MAX_SIZE
           && nDataPos <= nMessageSize && |vRecv| <= nMessageSize
         else nHdrPos < HEADER_SIZE && nDataPos == 0 && vRecv == []
    }

    predicate Complete()
      reads this
    {
      in_data && nMessageSize == nDataPos
    }

    lemma TakenIs()
      requires Valid()
      ensures Complete() ==> IsFrame(Taken()) && vRecv == Taken()[HEADER_SIZE..]
      ensures !Complete() ==> IsPartial(Taken()) && !IsFrame(Taken())
    {
      if in_data {
        assert Taken()[..HEADER_SIZE] == hdrbuf;
        SizeFieldPrefix(hdrbuf, Taken());
      }
    }

    // readHeader: -1 for a header announcing more than MAX_SIZE.
    method ReadHeader(pch: Bytes) returns (handled: int)
      requires Valid() && !in_data && pch != []
      modifies this
      ensures handled == -1 || 0 < handled <= |pch|
      ensures handled != -1 ==> Valid() && Taken() == old(Taken()) + pch[..handled]
      ensures handled == -1 ==> Oversized(old(Taken()) + pch)
    {
      var nRemaining := HEADER_SIZE - nHdrPos;
      var nCopy := Min(nRemaining, |pch|);
      hdrbuf := Copied(hdrbuf, nHdrPos, pch[..nCopy]);
      nHdrPos := nHdrPos + nCopy;
      assert hdrbuf[..nHdrPos] == old(Taken()) + pch[..nCopy];
      if nHdrPos < HEADER_SIZE {
        return nCopy;
      }
      nMessageSize := SizeField(hdrbuf);
      if nMessageSize > MAX_SIZE {
        assert hdrbuf[..nHdrPos] == hdrbuf;
        assert hdrbuf <= old(Taken()) + pch;
        SizeFieldPrefix(hdrbuf, old(Taken()) + pch);
        return -1;
      }
      in_data := true;
      handled := nCopy;
    }

    // readData
    method ReadData(pch: Bytes) returns (handled: int)
      requires Valid() && in_data && !Complete() && pch != []
      modifies this
      ensures Valid() && 0 < handled <= |pch|
      ensures Taken() == old(Taken()) + pch[..handled]
      ensures |vRecv| == if old(|vRecv|) < nDataPos then Min(nMessageSize, nDataPos + 262144) else old(|vRecv|)
    {
      hide SizeField;
      var nRemaining := nMessageSize - nDataPos;
      var nCopy := Min(nRemaining, |pch|);
      if |vRecv| < nDataPos + nCopy {
        vRecv := Resized(vRecv, Min(nMessageSize, nDataPos + nCopy + 256 * 1024));
      }
      assert vRecv[..nDataPos] == old(vRecv[..nDataPos]);
      assert old(Taken()) + pch[..nCopy] == hdrbuf + (old(vRecv[..nDataPos]) + pch[..nCopy]);
      vRecv := Copied(vRecv, nDataPos, pch[..nCopy]);
      nDataPos := nDataPos + nCopy;
      handled := nCopy;
    }
  }

  // The stream's next header announces more than a receiver accepts.
  predicate Oversized(b: Bytes) {
    |b| >= HEADER_SIZE && SizeField(b) > MAX_SIZE
  }

  // What the messages of a receive queue have taken, one by one.
  ghost function Views(ms: seq<NetMessage>): seq<Bytes>
    reads ms
  {
    seq(|ms|, i requires 0 <= i < |ms| reads ms => ms[i].Taken())
  }

  lemma ViewsSize(ms: seq<NetMessage>)
    ensures |Views(ms)| == |ms| && (ms == [] ==> Views(ms) == [])
  {
  }

  // Every one of these messages is complete.
  ghost predicate Whole(ms: seq<NetMessage>)
    reads ms
  {
    forall i :: 0 <= i < |ms| ==> ms[i].Valid() && ms[i].Complete() && ms[i].Taken() != []
  }

  // A receive queue: all messages but the last are whole.
  ghost predicate Reassembling(ms: seq<NetMessage>, repr: set<NetMessage>)
    reads repr
  {
    && (forall m :: m in ms ==> m in repr)
    && (ms == [] || (
          var last := |ms| - 1;
          Whole(ms[..last]) && ms[last] !in ms[..last] && ms[last].Valid() && ms[last].Taken() != []))
  }

  lemma ReassemblingNow(front: seq<NetMessage>, msg: NetMessage, repr: set<NetMessage>)
    requires Whole(front) && msg !in front && msg.Valid() && msg.Taken() != []
    requires msg in repr && forall m :: m in front ==> m in repr
    ensures Reassembling(front + [msg], repr)
  {
    assert (front + [msg])[..|front|] == front;
  }

  lemma WholeAreFrames(ms: seq<NetMessage>)
    requires Whole(ms)
    ensures forall i :: 0 <= i < |Views(ms)| ==> IsFrame(Views(ms)[i])
  {
    forall i | 0 <= i < |ms|
      ensures IsFrame(Views(ms)[i])
    {
      ms[i].TakenIs();
    }
  }

  lemma ViewsAppend(ms: seq<NetMessage>, m: NetMessage)
    ensures Views(ms + [m]) == Views(ms) + [m.Taken()]
  {
  }

  // An oversized header stands at the start of a message.
  ghost predicate Rejects(stream: Bytes, got: seq<Bytes>, rest: Bytes) {
    (forall i :: 0 <= i < |got| ==> IsFrame(got[i])) && stream == Concat(got) + rest && Oversized(rest)
  }

  ghost predicate RejectsAfter(stream: Bytes, got: seq<Bytes>) {
    exists rest :: Rejects(stream, got, rest)
  }

  // A receiver refuses a queue of messages at the first that is too big, having
  // taken all those before it.
  lemma {:induction false} RejectedAt(frames: seq<Bytes>, stream: Bytes, got: seq<Bytes>, rest: Bytes)
    requires (forall i :: 0 <= i < |frames| ==> IsMessage(frames[i])) && stream <= Concat(frames)
    requires Rejects(stream, got, rest)
    ensures FirstBig(frames) < |frames| && got == frames[..FirstBig(frames)]
    ensures |stream| >= |Concat(got)| + HEADER_SIZE
  {
    if got == [] {
      RestIsRejected(frames, stream);
    } else {
      var s := Concat(frames);
      assert stream == got[0] + (Concat(got[1..]) + rest);
      assert frames != [] && frames[0] <= s;
      SameStart(got[0], frames[0], s);
      CancelPrefix(got[0], Concat(got[1..]) + rest, Concat(frames[1..]));
      RejectedAt(frames[1..], Concat(got[1..]) + rest, got[1..], rest);
    }
  }

  lemma RestIsRejected(frames: seq<Bytes>, rest: Bytes)
    requires (forall i :: 0 <= i < |frames| ==> IsMessage(frames[i])) && rest <= Concat(frames) && Oversized(rest)
    ensures frames != [] && FirstBig(frames) == 0
  {
    SizeFieldPrefix(rest, Concat(frames));
    SizeFieldPrefix(frames[0], Concat(frames));
  }

  // A payload too big for the receiver but not for the size field is refused as
  // soon as its header is in.
  lemma BigFrameIsRejected(frame: Bytes)
    requires |frame| >= HEADER_SIZE && SizeField(frame) == |frame| - HEADER_SIZE > MAX_SIZE
    ensures Rejects(frame, [], frame)
  {
  }

  function Max0(n: int): nat { if n > 0 then n else 0 }

  // Messages it.. of a queue are left, of the first of them off bytes have gone, and
  // what has gone and what is left make up the whole.
  ghost predicate Unsent(queue: seq<Bytes>, it: nat, off: nat, size: nat, sent: Bytes, whole: Bytes) {
    && it <= |queue| && size == |Concat(queue[it..])| && off <= size
    && (forall i :: 0 <= i < |queue| ==> queue[i] != [])
    && (if it == |queue| then off == 0 else off < |queue[it]|)
    && sent + Concat(queue[it..])[off..] == whole
  }

  lemma NoneUnsent(queue: seq<Bytes>, off: nat, sent: Bytes)
    requires (forall i :: 0 <= i < |queue| ==> queue[i] != []) && off <= |Concat(queue)|
    requires if queue == [] then off == 0 else off < |queue[0]|
    ensures Unsent(queue, 0, off, |Concat(queue)|, sent, sent + Concat(queue)[off..])
  {
    hide Concat;
    assert queue[0..] == queue;
  }

  // However many bytes of the message go next.
  lemma UnsentNext(queue: seq<Bytes>, it: nat, off: nat, size: nat, sent: Bytes, whole: Bytes)
    requires Unsent(queue, it, off, size, sent, whole) && it < |queue|
    ensures off < |queue[it]| <= size
    ensures forall now :: off <= now < |queue[it]| ==> Unsent(queue, it, now, size, sent + queue[it][off..now], whole)
    ensures Unsent(queue, it + 1, 0, size - |queue[it]|, sent + queue[it][off..|queue[it]|], whole)
  {
    hide Concat;
    ConcatHead(queue, it);
    var data, rest := queue[it], Concat(queue[it + 1..]);
    forall now | off <= now <= |data|
      ensures sent + data[off..now] + (data + rest)[now..] == whole
    {
      assert (data + rest)[off..] == data[off..now] + (data + rest)[now..];
    }
    assert (data + rest)[|data|..] == rest[0..];
  }

  lemma UnsentSays(queue: seq<Bytes>, it: nat, off: nat, size: nat, sent: Bytes, whole: Bytes)
    requires Unsent(queue, it, off, size, sent, whole)
    ensures size == |Concat(queue[it..])| && off <= size && sent + Concat(queue[it..])[off..] == whole
    ensures if it == |queue| then off == 0 == size else off < |queue[it]|
    ensures forall i :: 0 <= i < |queue| ==> queue[i] != []
  {
    hide Concat;
    if it == |queue| {
      ConcatNone(queue[it..]);
    }
  }

  datatype Offer = Offer(data: Bytes, answer: int)

  // What is unsent of message i of a queue whose first message has been sent up to off.
  function Rest(queue: seq<Bytes>, off: nat, i: nat): Bytes
    requires i < |queue| && off <= |queue[0]|
  {
    if i == 0 then queue[0][off..] else queue[i]
  }

  // The first n offers were the first n messages, and were taken whole.
  ghost predicate TakenWhole(queue: seq<Bytes>, off: nat, made: seq<Offer>, n: nat) {
    && n <= |made| && n <= |queue| && (queue != [] ==> off <= |queue[0]|)
    && forall i :: 0 <= i < n ==> made[i] == Offer(Rest(queue, off, i), |Rest(queue, off, i)|)
  }

  // The messages were offered in turn, up to the first that was not taken whole;
  // that one and those after it are left.
  ghost predicate Offered(queue: seq<Bytes>, off: nat, made: seq<Offer>, left: seq<Bytes>) {
    && |left| <= |queue| && left == queue[|queue| - |left|..]
    && var n := |queue| - |left|;
       && TakenWhole(queue, off, made, n) && |made| == (if left == [] then n else n + 1)
       && (left != [] ==> made[n].data == Rest(queue, off, n) && made[n].answer < |made[n].data|)
  }

  lemma NoneOffered(queue: seq<Bytes>, off: nat)
    requires queue != [] ==> off <= |queue[0]|
    ensures TakenWhole(queue, off, [], 0)
  {
  }

  lemma OneMoreOffered(queue: seq<Bytes>, off: nat, made: seq<Offer>, n: nat, answer: int)
    requires TakenWhole(queue, off, made, n) && |made| == n < |queue| && off <= |queue[0]|
    requires answer <= |Rest(queue, off, n)|
    ensures var next := made + [Offer(Rest(queue, off, n), answer)];
            if answer < |Rest(queue, off, n)| then Offered(queue, off, next, queue[n..])
            else TakenWhole(queue, off, next, n + 1)
  {
  }

  lemma AllOffered(queue: seq<Bytes>, off: nat, made: seq<Offer>)
    requires TakenWhole(queue, off, made, |queue|) && |made| == |queue|
    ensures Offered(queue, off, made, queue[|queue|..])
  {
    hide TakenWhole;
    assert queue[|queue|..] == [];
  }

  // What SocketSendData keeps: messages before it have been offered and taken whole.
  ghost predicate Sending(queue: seq<Bytes>, off: nat, it: nat, now: nat, size: nat, sent: Bytes, whole: Bytes,
                          made: seq<Offer>) {
    && Unsent(queue, it, now, size, sent, whole) && TakenWhole(queue, off, made, it)
    && |made| == it && now == (if it == 0 then off else 0) && (queue != [] ==> off <= |queue[0]|)
  }

  lemma NoneSending(queue: seq<Bytes>, off: nat, sent: Bytes)
    requires (forall i :: 0 <= i < |queue| ==> queue[i] != []) && off <= |Concat(queue)|
    requires if queue == [] then off == 0 else off < |queue[0]|
    ensures Sending(queue, off, 0, off, |Concat(queue)|, sent, sent + Concat(queue)[off..], [])
  {
    hide Concat, Unsent;
    NoneUnsent(queue, off, sent);
  }

  lemma SendingSays(queue: seq<Bytes>, off: nat, it: nat, now: nat, size: nat, sent: Bytes, whole: Bytes,
                    made: seq<Offer>)
    requires Sending(queue, off, it, now, size, sent, whole, made)
    ensures Unsent(queue, it, now, size, sent, whole) && (it == |queue| ==> Offered(queue, off, made, queue[it..]))
  {
    hide Unsent, Offered;
    if it == |queue| {
      AllOffered(queue, off, made);
    }
  }

  // A socket that takes all it is offered empties the queue; and a queue that is not
  // empty is offered to it.
  lemma OfferedSays(queue: seq<Bytes>, off: nat, made: seq<Offer>, left: seq<Bytes>)
    requires Offered(queue, off, made, left) && (queue != [] ==> off <= |queue[0]|)
    ensures queue != [] ==> made != [] && made[0].data == queue[0][off..]
    ensures forall i :: 0 < i < |made| ==> i < |queue| && made[i].data == queue[i]
    ensures left == [] <==> forall i :: 0 <= i < |made| ==> made[i].answer == |made[i].data|
  {
  }

  // CNode: both directions of a connection.
  class Node {
    var vRecvMsg: seq<NetMessage>
    ghost var Repr: set<NetMessage>
    var ssSend: Bytes
    var vSendMsg: seq<Bytes>
    var nSendSize: nat
    var nSendOffset: nat
    var nSendBytes: nat
    // What the socket has taken, and every message ever put in the queue.
    ghost var sent: Bytes
    ghost var queued: seq<Bytes>
    // What the socket has been offered, and what it answered.
    ghost var offers: seq<Offer>

    constructor ()
      ensures ReceiveOk() && vRecvMsg == []
      ensures SendOk() && ssSend == [] && sent == [] && queued == [] && offers == []
    {
      vRecvMsg, Repr, ssSend, vSendMsg := [], {}, [], [];
      nSendSize, nSendOffset, nSendBytes := 0, 0, 0;
      sent, queued, offers := [], [], [];
    }

    // ---------------------------------------------------------------- receiving

    ghost predicate ReceiveOk()
      reads this, Repr
    {
      Reassembling(vRecvMsg, Repr)
    }

    // The stream met an oversized header; the messages before it are all here.
    ghost predicate Refused(stream: Bytes)
      reads this, Repr, vRecvMsg
    {
      vRecvMsg != [] && RejectsAfter(stream, Views(vRecvMsg[..|vRecvMsg| - 1]))
    }

    // The message to take bytes for: the incomplete last one, or a new one.
    method Current() returns (msg: NetMessage, ghost front: seq<NetMessage>)
      requires ReceiveOk()
      modifies this`vRecvMsg, this`Repr
      ensures msg.Valid() && !msg.Complete() && msg !in front && Whole(front) && vRecvMsg == front + [msg]
      ensures msg in Repr && fresh(Repr - old(Repr)) && old(Repr) <= Repr
      ensures forall m :: m in front ==> m in Repr
      ensures Concat(Views(vRecvMsg)) == old(Concat(Views(vRecvMsg)))
    {
      hide Concat, Views;
      front := vRecvMsg;
      if |vRecvMsg| == 0 || vRecvMsg[|vRecvMsg| - 1].Complete() {
        assert Whole(front);
        msg := new NetMessage();
        ViewsAppend(front, msg);
        AppendNothing(Views(front));
        vRecvMsg, Repr := vRecvMsg + [msg], Repr + {msg};
      } else {
        msg := vRecvMsg[|vRecvMsg| - 1];
        front := vRecvMsg[..|vRecvMsg| - 1];
      }
    }

    // One round of ReceiveMsgBytes: some of the bytes go to the current message.
    method Absorb(pch: Bytes) returns (handled: int)
      requires ReceiveOk() && pch != []
      modifies this`vRecvMsg, this`Repr, Repr
      ensures handled <= |pch| && (handled < 0 || handled > 0)
      ensures handled > 0 ==> ReceiveOk() && Concat(Views(vRecvMsg)) == old(Concat(Views(vRecvMsg))) + pch[..handled]
      ensures fresh(Repr - old(Repr))
      ensures handled < 0 ==> Refused(old(Concat(Views(vRecvMsg))) + pch)
    {
      hide Concat, Rejects, IsFrame, Oversized, Views, Whole, Reassembling;
      ghost var front;
      var msg;
      msg, front := Current();
      ghost var p, taken := Views(front), msg.Taken();
      ViewsAppend(front, msg);
      WholeAreFrames(front);
      if !msg.in_data {
        handled := msg.ReadHeader(pch);
      } else {
        handled := msg.ReadData(pch);
      }
      assert Views(front) == p && Whole(front);
      if handled < 0 {
        BoundaryRejects(p, taken, pch);
        assert vRecvMsg[..|front|] == front;
      } else {
        ViewsAppend(front, msg);
        TakenMore(p, taken, pch[..handled]);
        ReassemblingNow(front, msg, Repr);
      }
    }

    method ReceiveMsgBytes(pch: Bytes) returns (ok: bool)
      requires ReceiveOk()
      modifies this`vRecvMsg, this`Repr, Repr
      ensures ok ==> ReceiveOk() && Concat(Views(vRecvMsg)) == old(Concat(Views(vRecvMsg))) + pch
      ensures fresh(Repr - old(Repr))
      ensures !ok ==> Refused(old(Concat(Views(vRecvMsg))) + pch)
    {
      hide Concat, Rejects, Views, Reassembling;
      ghost var start := Concat(Views(vRecvMsg));
      var left := pch;
      while left != []
        invariant ReceiveOk() && Concat(Views(vRecvMsg)) + left == start + pch
        invariant fresh(Repr - old(Repr))
        decreases |left|
      {
        ghost var held := Concat(Views(vRecvMsg));
        var handled := Absorb(left);
        if handled < 0 {
          return false;
        }
        SplitAt(held, left, handled);
        left := left[handled..];
      }
      ok := true;
    }

    // ---------------------------------------------------------------- sending

    // What is still to be written.
    ghost function Pending(): Bytes
      reads this
    {
      if nSendOffset <= |Concat(vSendMsg)| then Concat(vSendMsg)[nSendOffset..] else []
    }

    ghost predicate SendOk()
      reads this
    {
      && nSendSize == |Concat(vSendMsg)|
      && (forall i :: 0 <= i < |vSendMsg| ==> vSendMsg[i] != [])
      && (if vSendMsg == [] then nSendOffset == 0 else nSendOffset < |vSendMsg[0]|)
      && sent + Pending() == Concat(queued) && nSendBytes == |sent|
    }

    // The socket takes some of the bytes offered, or none, or fails.
    method Send(data: Bytes) returns (nBytes: int)
      requires data != []
      modifies this`sent, this`offers
      ensures nBytes <= |data| && offers == old(offers) + [Offer(data, nBytes)]
      ensures sent == if nBytes > 0 then old(sent) + data[..nBytes] else old(sent)
    {
      nBytes :| nBytes <= |data|;
      offers := offers + [Offer(data, nBytes)];
      if nBytes > 0 {
        sent := sent + data[..nBytes];
      }
    }

    // One round of SocketSendData: offer the rest of a message to the socket.
    method SendSome(data: Bytes) returns (nBytes: int)
      requires nSendOffset < |data|
      modifies this`nSendOffset, this`nSendBytes, this`sent, this`offers
      ensures offers == old(offers) + [Offer(data[old(nSendOffset)..], nBytes)] && nBytes <= |data| - old(nSendOffset)
      ensures nSendOffset == old(nSendOffset) + Max0(nBytes) && nSendBytes == old(nSendBytes) + Max0(nBytes)
      ensures sent == old(sent) + data[old(nSendOffset)..nSendOffset]
    {
      nBytes := Send(data[nSendOffset..]);
      if nBytes > 0 {
        assert data[nSendOffset..][..nBytes] == data[nSendOffset..nSendOffset + nBytes];
        nSendBytes := nSendBytes + nBytes;
        nSendOffset := nSendOffset + nBytes;
      }
    }

    // The message at it is offered; more, when it was taken whole.
    method OfferMessage(it: nat, ghost off: nat, ghost made: seq<Offer>, ghost whole: Bytes)
      returns (more: bool, ghost next: seq<Offer>)
      requires it < |vSendMsg| && Sending(vSendMsg, off, it, nSendOffset, nSendSize, sent, whole, made)
      modifies this`nSendSize, this`nSendOffset, this`nSendBytes, this`sent, this`offers
      ensures old(sent) <= sent && nSendBytes == old(nSendBytes) + |sent| - |old(sent)|
      ensures exists o :: offers == old(offers) + [o] && next == made + [o]
      ensures more ==> Sending(vSendMsg, off, it + 1, nSendOffset, nSendSize, sent, whole, next)
      ensures !more ==> Unsent(vSendMsg, it, nSendOffset, nSendSize, sent, whole)
      ensures !more ==> Offered(vSendMsg, off, next, vSendMsg[it..])
    {
      hide TakenWhole, Offered, Unsent;
      UnsentNext(vSendMsg, it, nSendOffset, nSendSize, sent, whole);
      var data := vSendMsg[it];
      ghost var at := nSendOffset;
      var nBytes := SendSome(data);
      next := made + [Offer(Rest(vSendMsg, off, it), nBytes)];
      OneMoreOffered(vSendMsg, off, made, it, nBytes);
      if nBytes <= 0 {
        assert data[at..at] == [] && sent + [] == sent;
        return false, next;
      }
      if nSendOffset < |data| {
        return false, next;
      }
      nSendOffset := 0;
      nSendSize := nSendSize - |data|;
      more := true;
    }

    method SocketSendData()
      requires SendOk()
      modifies this`vSendMsg, this`nSendSize, this`nSendOffset, this`nSendBytes, this`sent, this`offers
      ensures SendOk() && old(sent) <= sent && nSendBytes == old(nSendBytes) + |sent| - |old(sent)|
      ensures sent + Pending() == old(sent) + old(Pending())
      ensures exists made :: offers == old(offers) + made && Offered(old(vSendMsg), old(nSendOffset), made, vSendMsg)
    {
      hide Concat, Offered, Unsent, Sending;
      ghost var queue, off, whole, made := vSendMsg, nSendOffset, sent + Pending(), [];
      var it := 0;
      OffsetInside(queue, off);
      NoneSending(queue, off, sent);
      while it < |vSendMsg|
        invariant it <= |vSendMsg| && vSendMsg == queue && queued == old(queued) && offers == old(offers) + made
        invariant Sending(queue, off, it, nSendOffset, nSendSize, sent, whole, made)
        invariant old(sent) <= sent && nSendBytes == old(nSendBytes) + |sent| - |old(sent)|
      {
        SendingSays(queue, off, it, nSendOffset, nSendSize, sent, whole, made);
        var more;
        more, made := OfferMessage(it, off, made, whole);
        if !more {
          break;
        }
        it := it + 1;
      }
      if it == |vSendMsg| {
        SendingSays(queue, off, it, nSendOffset, nSendSize, sent, whole, made);
      }
      UnsentSays(queue, it, nSendOffset, nSendSize, sent, whole);
      vSendMsg := vSendMsg[it..];
    }

    // Starts a message: the network's mark, the command, no payload yet.
    method BeginMessage(pchMessageStart: Bytes, pszCommand: Bytes)
      requires |pchMessageStart| == MESSAGE_START_SIZE && 0 !in pszCommand && ssSend == []
      modifies this`ssSend
      ensures IsFrame(ssSend) && |ssSend| == HEADER_SIZE && ssSend[..MESSAGE_START_SIZE] == pchMessageStart
      ensures ssSend[CHECKSUM_OFFSET..] == [0, 0, 0, 0]
      ensures GetCommand(ssSend) == pszCommand[..Min(|pszCommand|, COMMAND_SIZE)]
    {
      ssSend := pchMessageStart + CommandField(pszCommand) + ToLe32(0) + [0, 0, 0, 0];
      assert ssSend[MESSAGE_START_SIZE..MESSAGE_SIZE_OFFSET] == CommandField(pszCommand);
      assert ssSend[MESSAGE_SIZE_OFFSET..CHECKSUM_OFFSET] == ToLe32(0);
      Le32RoundTrip(0);
      CommandIsRead(pszCommand);
    }

    // Seals the message and queues it; drop stands for the test option that
    // throws messages away, checksum for the first bytes of the payload's hash.
    method EndMessage(drop: bool, checksum: Bytes)
      requires SendOk() && (ssSend == [] || |ssSend| >= HEADER_SIZE) && |checksum| == 4
      modifies this`ssSend, this`vSendMsg, this`nSendSize, this`nSendOffset, this`nSendBytes, this`sent, this`queued,
               this`offers
      ensures SendOk() && ssSend == [] && old(sent) <= sent
      ensures drop || old(ssSend) == [] ==> vSendMsg == old(vSendMsg) && sent == old(sent)
      ensures !drop && old(ssSend) != [] ==>
                var frame := Sealed(old(ssSend), checksum);
                if old(vSendMsg) != [] then offers == old(offers) && vSendMsg == old(vSendMsg) + [frame]
                else exists made :: offers == old(offers) + made && Offered([frame], 0, made, vSendMsg)
      ensures queued == if drop || old(ssSend) == [] then old(queued) else old(queued) + [Sealed(old(ssSend), checksum)]
    {
      hide Concat, Sealed, Copied, Offered;
      if drop {
        ssSend := [];
        return;
      }
      if ssSend == [] {
        return;
      }
      var nSize := |ssSend| - HEADER_SIZE;
      var frame := Copied(ssSend, MESSAGE_SIZE_OFFSET, ToLe32(nSize));
      frame := Copied(frame, CHECKSUM_OFFSET, checksum);
      SealedIs(ssSend, checksum);
      ssSend := [];
      PushFrame(frame);
    }

    // Queues a frame, and offers it to the socket at once if it is the only one.
    method PushFrame(frame: Bytes)
      requires SendOk() && frame != []
      modifies this`vSendMsg, this`nSendSize, this`nSendOffset, this`nSendBytes, this`sent, this`queued, this`offers
      ensures SendOk() && old(sent) <= sent && queued == old(queued) + [frame]
      ensures if old(vSendMsg) != [] then offers == old(offers) && vSendMsg == old(vSendMsg) + [frame]
              else exists made :: offers == old(offers) + made && Offered([frame], 0, made, vSendMsg)
    {
      hide Concat, Offered;
      OffsetInside(vSendMsg, nSendOffset);
      QueueGrows(vSendMsg, nSendOffset, queued, sent, frame);
      vSendMsg := vSendMsg + [frame];
      queued := queued + [frame];
      nSendSize := nSendSize + |frame|;
      if |vSendMsg| == 1 {
        assert vSendMsg == [frame] && nSendOffset == 0;
        SocketSendData();
      }
    }
  }

  // strncpy: the command cut to its field, and zeros.
  function CommandField(pszCommand: Bytes): (r: Bytes)
    ensures |r| == COMMAND_SIZE
  {
    var n := Min(|pszCommand|, COMMAND_SIZE);
    pszCommand[..n] + seq(COMMAND_SIZE - n, _ => 0)
  }

  // strlen, within the field.
  function ToZero(b: Bytes): Bytes {
    if b == [] || b[0] == 0 then [] else [b[0]] + ToZero(b[1..])
  }

  // The command of a header: all twelve bytes, or those up to the first zero.
  function GetCommand(header: Bytes): Bytes
    requires |header| >= HEADER_SIZE
  {
    var pchCommand := header[MESSAGE_START_SIZE..MESSAGE_SIZE_OFFSET];
    if pchCommand[COMMAND_SIZE - 1] == 0 then ToZero(pchCommand) else pchCommand
  }

  lemma CommandIsRead(pszCommand: Bytes)
    requires 0 !in pszCommand
    ensures var n, f := Min(|pszCommand|, COMMAND_SIZE), CommandField(pszCommand);
            (if f[COMMAND_SIZE - 1] == 0 then ToZero(f) else f) == pszCommand[..n]
  {
    var n := Min(|pszCommand|, COMMAND_SIZE);
    ZerosEnd(pszCommand[..n], seq(COMMAND_SIZE - n, _ => 0));
  }

  lemma {:induction false} ZerosEnd(a: Bytes, z: Bytes)
    requires 0 !in a && (z == [] || z[0] == 0)
    ensures ToZero(a + z) == a
  {
    if a == [] {
      assert a + z == z;
    } else {
      assert (a + z)[1..] == a[1..] + z;
      ZerosEnd(a[1..], z);
      assert a == [a[0]] + a[1..];
    }
  }

  // A message with its size and checksum filled in.
  function Sealed(b: Bytes, checksum: Bytes): (r: Bytes)
    requires |b| >= HEADER_SIZE && |checksum| == 4
    ensures |r| == |b| && r[..MESSAGE_SIZE_OFFSET] == b[..MESSAGE_SIZE_OFFSET] && r[HEADER_SIZE..] == b[HEADER_SIZE..]
  {
    b[..MESSAGE_SIZE_OFFSET] + ToLe32(|b| - HEADER_SIZE) + checksum + b[HEADER_SIZE..]
  }

  // A sealed message is a frame the receiver accepts exactly when its payload is
  // no bigger than MAX_SIZE; it keeps its command.
  lemma SealedIsFrame(b: Bytes, checksum: Bytes)
    requires |b| >= HEADER_SIZE && |checksum| == 4
    ensures IsFrame(Sealed(b, checksum)) <==> |b| - HEADER_SIZE <= MAX_SIZE
    ensures |b| - HEADER_SIZE < 0x1_0000_0000 ==> IsMessage(Sealed(b, checksum))
    ensures MAX_SIZE < |b| - HEADER_SIZE < 0x1_0000_0000 ==> Rejects(Sealed(b, checksum), [], Sealed(b, checksum))
    ensures GetCommand(Sealed(b, checksum)) == GetCommand(b)
  {
    hide Sealed, ToLe32, FromLe32, ToZero, Concat;
    SealedParts(b, checksum);
    Le32RoundTrip(|b| - HEADER_SIZE);
    ConcatNone([]);
  }

  lemma SealedParts(b: Bytes, checksum: Bytes)
    requires |b| >= HEADER_SIZE && |checksum| == 4
    ensures var s := Sealed(b, checksum);
            && |s| == |b| && s[MESSAGE_START_SIZE..MESSAGE_SIZE_OFFSET] == b[MESSAGE_START_SIZE..MESSAGE_SIZE_OFFSET]
            && s[MESSAGE_SIZE_OFFSET..CHECKSUM_OFFSET] == ToLe32(|b| - HEADER_SIZE)
  {
    hide ToLe32;
  }

  // Writing the two fields over what BeginMessage left there seals the message.
  lemma SealedIs(b: Bytes, checksum: Bytes)
    requires |b| >= HEADER_SIZE && |checksum| == 4
    ensures var sized := Copied(b, MESSAGE_SIZE_OFFSET, ToLe32(|b| - HEADER_SIZE));
            |sized| == |b| && Copied(sized, CHECKSUM_OFFSET, checksum) == Sealed(b, checksum)
            && |Sealed(b, checksum)| == |b|
  {
    hide ToLe32;
  }

  lemma ConcatHead(bs: seq<Bytes>, i: nat)
    requires i < |bs|
    ensures Concat(bs[i..]) == bs[i] + Concat(bs[i + 1..])
  {
    assert bs[i..][1..] == bs[i + 1..];
  }

  lemma ConcatNone(bs: seq<Bytes>)
    requires bs == []
    ensures Concat(bs) == []
  {
  }

  lemma OffsetInside(bs: seq<Bytes>, off: nat)
    requires if bs == [] then off == 0 else off < |bs[0]|
    ensures off <= |Concat(bs)|
  {
  }

  lemma QueueGrows(queue: seq<Bytes>, off: nat, queued: seq<Bytes>, sent: Bytes, frame: Bytes)
    requires off <= |Concat(queue)| && sent + Concat(queue)[off..] == Concat(queued)
    ensures Concat(queue + [frame]) == Concat(queue) + frame
    ensures sent + Concat(queue + [frame])[off..] == Concat(queued + [frame])
  {
    ConcatAppend(queue, [frame]);
    ConcatAppend(queued, [frame]);
    ConcatOne(frame);
    hide Concat;
    assert (Concat(queue) + frame)[off..] == Concat(queue)[off..] + frame;
    assert sent + (Concat(queue)[off..] + frame) == (sent + Concat(queue)[off..]) + frame;
  }

  lemma SplitAt(a: Bytes, b: Bytes, n: nat)
    requires n <= |b|
    ensures a + b == (a + b[..n]) + b[n..]
  {
  }

  lemma AppendNothing(p: seq<Bytes>)
    ensures Concat(p + [[]]) == Concat(p)
  {
    ConcatAppend(p, [[]]);
    ConcatOne([]);
  }

  lemma SplitJoin(a: Bytes, b: Bytes, c: Bytes)
    ensures a + (b + c) == a + b + c
  {
  }

  lemma TakenMore(p: seq<Bytes>, taken: Bytes, more: Bytes)
    ensures Concat(p + [taken + more]) == Concat(p + [taken]) + more
  {
    ConcatAppend(p, [taken]);
    ConcatAppend(p, [taken + more]);
    ConcatOne(taken);
    ConcatOne(taken + more);
    hide Concat;
    assert Concat(p) + (taken + more) == (Concat(p) + taken) + more;
  }

  lemma BoundaryRejects(p: seq<Bytes>, taken: Bytes, pch: Bytes)
    requires Oversized(taken + pch) && forall i :: 0 <= i < |p| ==> IsFrame(p[i])
    ensures Rejects(Concat(p + [taken]) + pch, p, taken + pch)
  {
    hide Concat, IsFrame, Oversized;
    ConcatAppend(p, [taken]);
    ConcatOne(taken);
    SplitJoin(Concat(p), taken, pch);
    assert Rejects(Concat(p) + taken + pch, p, taken + pch);
    assert Concat(p + [taken]) == Concat(p) + taken;
  }

  lemma ReceivedViews(n: Node)
    requires n.ReceiveOk()
    ensures Received(Views(n.vRecvMsg))
    ensures n.vRecvMsg != [] ==> Views(n.vRecvMsg)[|n.vRecvMsg| - 1] != []
  {
    var ms := n.vRecvMsg;
    if ms != [] {
      var last := |ms| - 1;
      assert ms == ms[..last] + [ms[last]];
      WholeAreFrames(ms[..last]);
      ViewsAppend(ms[..last], ms[last]);
      ms[last].TakenIs();
    }
  }

  // From end to end: whatever part of the queued messages the sender's socket has
  // taken, and however it is cut into chunks on arrival, the receiver accepts it
  // exactly when the header of the first message that is too big has not arrived
  // whole. It holds the first of the messages, in order and unchanged, and at most
  // a strict part of the next one; or, refusing, all those before the one too big.
  method Relay(tx: Node, rx: Node, chunks: seq<Bytes>) returns (ok: bool)
    requires tx.SendOk() && forall i :: 0 <= i < |tx.queued| ==> IsMessage(tx.queued[i])
    requires Concat(chunks) <= tx.sent && rx.ReceiveOk() && rx.vRecvMsg == []
    modifies rx`vRecvMsg, rx`Repr, rx.Repr
    ensures var big, frames := FirstBig(old(tx.queued)), old(tx.queued);
            && (ok <==> big == |frames| || |Concat(chunks)| < |Concat(frames[..big])| + HEADER_SIZE)
            && (!ok ==> rx.vRecvMsg != [] && Views(rx.vRecvMsg[..|rx.vRecvMsg| - 1]) == frames[..big])
    ensures ok ==> rx.ReceiveOk() && Concat(Views(rx.vRecvMsg)) == Concat(chunks)
    ensures ok ==>
              var got, frames := Views(rx.vRecvMsg), old(tx.queued);
              && |got| <= |frames| && (forall i :: 0 <= i < WholeFrames(got) ==> got[i] == frames[i])
              && (WholeFrames(got) < |got| ==> got[|got| - 1] < frames[|got| - 1])
  {
    hide Concat, IsFrame, IsMessage, Rejects, Views, Reassembling, Received, WholeFrames, FirstBig;
    ghost var frames := tx.queued;
    SentIsPrefix(tx);
    ViewsSize(rx.vRecvMsg);
    ConcatNone(Views(rx.vRecvMsg));
    ConcatNone(chunks[..0]);
    ok := true;
    var i := 0;
    while i < |chunks|
      invariant i <= |chunks| && ok && rx.ReceiveOk() && fresh(rx.Repr - old(rx.Repr))
      invariant Concat(Views(rx.vRecvMsg)) == Concat(chunks[..i])
    {
      ConcatTake(chunks, i);
      ok := rx.ReceiveMsgBytes(chunks[i]);
      if !ok {
        ghost var got := Views(rx.vRecvMsg[..|rx.vRecvMsg| - 1]);
        ghost var rest :| Rejects(Concat(chunks[..i + 1]), got, rest);
        RejectedAt(frames, Concat(chunks[..i + 1]), got, rest);
        return;
      }
      i := i + 1;
    }
    assert chunks[..i] == chunks;
    ReceivedViews(rx);
    ViewsSize(rx.vRecvMsg);
    Delivery(frames, Views(rx.vRecvMsg));
    ShortOfBig(frames, Views(rx.vRecvMsg));
  }

  lemma SentIsPrefix(tx: Node)
    requires tx.SendOk()
    ensures tx.sent <= Concat(tx.queued)
  {
  }
}
