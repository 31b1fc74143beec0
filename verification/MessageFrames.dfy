// The framing of peer-to-peer messages: a 24-byte header that carries the
// payload size, and what a stream of such frames determines.
module MessageFrames {
  import opened Octets

  const MESSAGE_START_SIZE: nat := 4
  const COMMAND_SIZE: nat := 12
  const HEADER_SIZE: nat := 24
  const MESSAGE_SIZE_OFFSET: nat := 16
  const CHECKSUM_OFFSET: nat := 20
  const MAX_SIZE: nat := 0x02000000

  function SizeField(header: Bytes): nat
    requires |header| >= HEADER_SIZE
  {
    FromLe32(header[MESSAGE_SIZE_OFFSET..CHECKSUM_OFFSET])
  }

  // A whole message: the header's size field is the length of what follows.
  predicate IsMessage(b: Bytes) {
    |b| >= HEADER_SIZE && SizeField(b) == |b| - HEADER_SIZE
  }

  // One a receiver accepts.
  predicate IsFrame(b: Bytes) {
    IsMessage(b) && SizeField(b) <= MAX_SIZE
  }

  // The beginning of one, still short of its end.
  predicate IsPartial(b: Bytes) {
    |b| < HEADER_SIZE || (|b| - HEADER_SIZE < SizeField(b) <= MAX_SIZE)
  }

  ghost function Concat(bs: seq<Bytes>): Bytes {
    if bs == [] then [] else bs[0] + Concat(bs[1..])
  }

  lemma {:induction false} ConcatAppend(a: seq<Bytes>, b: seq<Bytes>)
    ensures Concat(a + b) == Concat(a) + Concat(b)
  {
    if a == [] {
      assert a + b == b;
    } else {
      assert (a + b)[1..] == a[1..] + b;
      ConcatAppend(a[1..], b);
    }
  }

  lemma ConcatOne(b: Bytes)
    ensures Concat([b]) == b
  {
  }

  lemma ConcatTake(bs: seq<Bytes>, i: nat)
    requires i < |bs|
    ensures Concat(bs[..i + 1]) == Concat(bs[..i]) + bs[i]
    ensures Concat(bs[..i + 1]) <= Concat(bs)
  {
    hide Concat;
    TakeNext(bs, i);
    ConcatPrefix(bs, i + 1);
    ConcatNext(bs[..i], bs[i]);
  }

  lemma TakeNext<T>(s: seq<T>, i: nat)
    requires i < |s|
    ensures s[..i + 1] == s[..i] + [s[i]]
  {
  }

  lemma ConcatNext(bs: seq<Bytes>, b: Bytes)
    ensures Concat(bs + [b]) == Concat(bs) + b
  {
    hide Concat;
    ConcatAppend(bs, [b]);
    ConcatOne(b);
  }

  lemma ConcatPrefix(bs: seq<Bytes>, i: nat)
    requires i <= |bs|
    ensures Concat(bs[..i]) <= Concat(bs)
  {
    hide Concat;
    assert bs == bs[..i] + bs[i..];
    ConcatAppend(bs[..i], bs[i..]);
    var x, y := Concat(bs[..i]), Concat(bs[i..]);
    assert Concat(bs) == x + y && (x + y)[..|x|] == x;
  }

  // The size field lies in the first 24 bytes.
  lemma SizeFieldPrefix(a: Bytes, b: Bytes)
    requires |a| >= HEADER_SIZE && a <= b
    ensures SizeField(a) == SizeField(b)
  {
    assert a[MESSAGE_SIZE_OFFSET..CHECKSUM_OFFSET] == b[MESSAGE_SIZE_OFFSET..CHECKSUM_OFFSET];
  }

  // A message is as long as its header says, so two of them, or one and a partial
  // one, that begin the same stream are comparable.
  lemma SameStart(a: Bytes, b: Bytes, s: Bytes)
    requires a <= s && b <= s && IsMessage(b)
    ensures IsFrame(a) ==> a == b
    ensures IsPartial(a) ==> a <= b && |a| < |b| && (IsFrame(b) || |a| < HEADER_SIZE)
  {
    if |a| >= HEADER_SIZE {
      SizeFieldPrefix(s[..HEADER_SIZE], s);
      SizeFieldPrefix(a, s);
      SizeFieldPrefix(b, s);
    }
  }

  // What a receiver holds: whole frames, then at most one partial one.
  ghost predicate Received(got: seq<Bytes>) {
    && (forall i :: 0 <= i < |got| - 1 ==> IsFrame(got[i]))
    && (got != [] ==> IsFrame(got[|got| - 1]) || IsPartial(got[|got| - 1]))
  }

  ghost function WholeFrames(got: seq<Bytes>): nat {
    if got != [] && IsPartial(got[|got| - 1]) then |got| - 1 else |got|
  }

  // However the bytes of the messages were cut on the way, what has arrived is
  // their beginning: the first messages, in order, and part of the next; of one
  // that is too big, not even the header.
  lemma {:induction false} Delivery(frames: seq<Bytes>, got: seq<Bytes>)
    requires (forall i :: 0 <= i < |frames| ==> IsMessage(frames[i])) && Received(got)
    requires Concat(got) <= Concat(frames)
    requires got != [] ==> got[|got| - 1] != []
    ensures |got| <= |frames|
    ensures forall i :: 0 <= i < WholeFrames(got) ==> got[i] == frames[i]
    ensures WholeFrames(got) < |got| ==>
              && got[|got| - 1] < frames[|got| - 1]
              && (IsFrame(frames[|got| - 1]) || |got[|got| - 1]| < HEADER_SIZE)
  {
    if got != [] {
      var s := Concat(frames);
      assert Concat(got) == got[0] + Concat(got[1..]);
      assert got[0] <= s;
      assert got[0] != [];
      assert frames != [];
      assert frames[0] <= s;
      SameStart(got[0], frames[0], s);
      if |got| > 1 {
        assert IsFrame(got[0]) && got[0] == frames[0];
        CancelPrefix(got[0], Concat(got[1..]), Concat(frames[1..]));
        Delivery(frames[1..], got[1..]);
        assert forall i :: 1 <= i < |got| ==> got[i] == got[1..][i - 1];
        assert forall i :: 1 <= i < |frames| ==> frames[i] == frames[1..][i - 1];
      }
    }
  }

  lemma CancelPrefix(a: Bytes, x: Bytes, y: Bytes)
    requires a + x <= a + y
    ensures x <= y
  {
    assert x == (a + x)[|a|..];
    assert y == (a + y)[|a|..];
    assert (a + x)[|a|..] == (a + y)[..|a| + |x|][|a|..];
  }

  // The first message too big for a receiver, if there is one.
  function FirstBig(frames: seq<Bytes>): (n: nat)
    ensures n <= |frames| && (n < |frames| ==> !IsFrame(frames[n])) && forall i :: 0 <= i < n ==> IsFrame(frames[i])
  {
    if frames == [] || !IsFrame(frames[0]) then 0 else 1 + FirstBig(frames[1..])
  }

  lemma WholeBeforeBig(frames: seq<Bytes>, got: seq<Bytes>)
    requires (forall i :: 0 <= i < |frames| ==> IsMessage(frames[i])) && Received(got)
    requires Concat(got) <= Concat(frames) && FirstBig(frames) < |frames|
    requires got != [] ==> got[|got| - 1] != []
    ensures WholeFrames(got) <= FirstBig(frames) && |got| - 1 <= WholeFrames(got) <= |got|
    ensures forall i :: 0 <= i < FirstBig(frames) ==> IsFrame(frames[i])
    ensures !IsFrame(frames[FirstBig(frames)])
  {
    hide Concat;
    Delivery(frames, got);
    assert forall i :: 0 <= i < WholeFrames(got) ==> got[i] == frames[i] && IsFrame(got[i]);
  }

  // What a receiver can hold of a queue ends before the header of that message.
  lemma ShortOfBig(frames: seq<Bytes>, got: seq<Bytes>)
    requires (forall i :: 0 <= i < |frames| ==> IsMessage(frames[i])) && Received(got)
    requires Concat(got) <= Concat(frames)
    requires got != [] ==> got[|got| - 1] != []
    ensures var n := FirstBig(frames); n < |frames| ==> |Concat(got)| < |Concat(frames[..n])| + HEADER_SIZE
  {
    var n, k := FirstBig(frames), WholeFrames(got);
    if n < |frames| {
      WholeBeforeBig(frames, got);
      hide IsMessage, IsFrame, IsPartial, Concat, FirstBig, Received, WholeFrames;
      Delivery(frames, got);
      assert got[..k] == frames[..k];
      ConcatPrefix(frames[..n], k);
      assert frames[..n][..k] == frames[..k];
      if k < |got| {
        ConcatTake(got, k);
        assert got[..k + 1] == got;
        if k < n {
          ConcatTake(frames[..n], k);
        }
      } else {
        assert got == got[..k];
      }
    }
  }

  // The bytes determine the frames: two ways of holding the same bytes are one.
  lemma SameBytesSameFrames(a: seq<Bytes>, b: seq<Bytes>)
    requires (forall i :: 0 <= i < |a| ==> IsFrame(a[i])) && forall i :: 0 <= i < |b| ==> IsFrame(b[i])
    requires Concat(a) == Concat(b)
    ensures a == b
  {
    Delivery(a, b);
    Delivery(b, a);
  }
}
