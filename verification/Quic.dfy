/** Length-prefixed framing of messages on a QUIC stream (proto-core/transport/quic.go). */
module Quic {
  import opened Wrappers
  import opened Hex

  const MAX_MESSAGE_SIZE: nat := 65536
  const LENGTH_SIZE: nat := 4

  /** The low `width` bytes of `n`, most significant first: what a conversion to an unsigned type of that
      width followed by a big-endian write puts out. */
  function BigEndian(n: nat, width: nat): (b: Bytes)
    ensures |b| == width
  {
    if width == 0 then [] else BigEndian(n / 256, width - 1) + [n % 256]
  }

  function Value(b: Bytes): nat {
    if b == [] then 0 else Value(b[..|b| - 1]) * 256 + b[|b| - 1]
  }

  function Pow256(k: nat): nat {
    if k == 0 then 1 else 256 * Pow256(k - 1)
  }

  lemma {:induction false} ValueOfBigEndian(n: nat, width: nat)
    requires n < Pow256(width)
    ensures Value(BigEndian(n, width)) == n
  {
    if width > 0 {
      ValueOfBigEndian(n / 256, width - 1);
      var b := BigEndian(n, width);
      assert b[..|b| - 1] == BigEndian(n / 256, width - 1);
    }
  }

  lemma {:induction false} BigEndianOfValue(b: Bytes)
    ensures BigEndian(Value(b), |b|) == b
  {
    if b != [] {
      var init, last := b[..|b| - 1], b[|b| - 1];
      BigEndianOfValue(init);
      var n := Value(b);
      assert n == Value(init) * 256 + last && n / 256 == Value(init) && n % 256 == last;
      assert b == init + [last];
    }
  }

  /** Lengths below 2^32 fit the prefix. */
  predicate FitsPrefix(data: Bytes) {
    |data| < 0x1_0000_0000
  }

  lemma PrefixRange()
    ensures Pow256(LENGTH_SIZE) == 0x1_0000_0000
  {
    assert Pow256(1) == 256 && Pow256(2) == 0x1_0000 && Pow256(3) == 0x100_0000;
  }

  /** What WriteMessage puts on the stream; the length is cut to 32 bits. */
  function Frame(data: Bytes): Bytes {
    BigEndian(|data|, LENGTH_SIZE) + data
  }

  /** The frame on the wire: four bytes of length, the most significant first, then the message. */
  lemma FrameIs(data: Bytes)
    ensures Frame(data) ==
      [|data| / 0x100_0000 % 0x100, |data| / 0x1_0000 % 0x100, |data| / 0x100 % 0x100, |data| % 0x100] + data
  {
    var n := |data|;
    DivideTwice(n);
    assert BigEndian(n, 1 + 0) == BigEndian(n / 256, 0) + [n % 256];
    FourBytes(n);
  }

  lemma DivideTwice(n: nat)
    ensures n / 256 / 256 == n / 0x1_0000 && n / 256 / 256 / 256 == n / 0x100_0000
  {
  }

  lemma FourBytes(n: nat)
    ensures BigEndian(n, 4) == [n / 256 / 256 / 256 % 256, n / 256 / 256 % 256, n / 256 % 256, n % 256]
  {
    var a, b, c := n / 256, n / 256 / 256, n / 256 / 256 / 256;
    assert BigEndian(c, 1) == BigEndian(c / 256, 0) + [c % 256];
    assert BigEndian(b, 2) == BigEndian(c, 1) + [b % 256];
    assert BigEndian(a, 3) == BigEndian(b, 2) + [a % 256];
    assert BigEndian(n, 4) == BigEndian(a, 3) + [n % 256];
  }

  lemma FrameParts(data: Bytes, rest: Bytes)
    requires FitsPrefix(data)
    ensures var f := Frame(data) + rest;
      |f| >= LENGTH_SIZE && Value(f[..LENGTH_SIZE]) == |data| && f[LENGTH_SIZE..] == data + rest
  {
    PrefixRange();
    ValueOfBigEndian(|data|, LENGTH_SIZE);
    assert (Frame(data) + rest)[..LENGTH_SIZE] == BigEndian(|data|, LENGTH_SIZE);
  }

  /** What ReadMessage returns and leaves of a stream that ends after `input`. A read that runs out of
      bytes has consumed them all. */
  function ReadFrame(input: Bytes): (Result<Bytes>, Bytes) {
    if |input| < LENGTH_SIZE then (Err("quic read length"), [])
    else
      var n, body := Value(input[..LENGTH_SIZE]), input[LENGTH_SIZE..];
      if n > MAX_MESSAGE_SIZE then (Err("quic message too large"), body)
      else if |body| < n then (Err("quic read payload"), [])
      else (Ok(body[..n]), body[n..])
  }

  /** How a write turns out; without an error it takes all its bytes. */
  datatype WriteCall = WriteCall(taken: nat, ok: bool)

  function Taken(bytes: Bytes, w: WriteCall): (n: nat)
    ensures n <= |bytes|
  {
    if w.ok || w.taken > |bytes| then |bytes| else w.taken
  }

  /** How many bytes of a message's frame get on the stream. */
  function Sent(data: Bytes, length: WriteCall, payload: WriteCall): (n: nat)
    ensures n <= |Frame(data)|
  {
    var n := Taken(BigEndian(|data|, LENGTH_SIZE), length);
    if length.ok then n + Taken(data, payload) else n
  }

  class QuicConn {
    var incoming: Bytes
    var outgoing: Bytes

    constructor (incoming: Bytes)
      ensures this.incoming == incoming && outgoing == []
    {
      this.incoming, this.outgoing := incoming, [];
    }

    method ReadFull(n: nat) returns (r: Option<Bytes>)
      modifies this`incoming
      ensures r.Some? <==> n <= |old(incoming)|
      ensures r.Some? ==> r.value == old(incoming)[..n] && incoming == old(incoming)[n..]
      ensures r.None? ==> incoming == []
    {
      if |incoming| < n {
        incoming := [];
        return None;
      }
      r := Some(incoming[..n]);
      incoming := incoming[n..];
    }

    method ReadMessage() returns (r: Result<Bytes>)
      modifies this`incoming
      ensures (r, incoming) == ReadFrame(old(incoming))
    {
      var length := ReadFull(LENGTH_SIZE);
      if length.None? {
        return Err("quic read length");
      }
      var n := Value(length.value);
      if n > MAX_MESSAGE_SIZE {
        return Err("quic message too large");
      }
      var payload := ReadFull(n);
      if payload.None? {
        return Err("quic read payload");
      }
      return Ok(payload.value);
    }

    /** One write: on an error the stream may still have taken some of the bytes, or all. */
    method Write(bytes: Bytes, w: WriteCall) returns (ok: bool)
      modifies this`outgoing
      ensures ok == w.ok && outgoing == old(outgoing) + bytes[..Taken(bytes, w)]
    {
      outgoing := outgoing + bytes[..Taken(bytes, w)];
      ok := w.ok;
    }

    method WriteMessage(data: Bytes, length: WriteCall, payload: WriteCall) returns (r: Result<()>)
      modifies this`outgoing
      ensures r == if !length.ok then Err("quic write length") else if !payload.ok then Err("quic write payload") else Ok(())
      ensures outgoing == old(outgoing) + Frame(data)[..Sent(data, length, payload)]
      ensures r.Ok? ==> outgoing == old(outgoing) + Frame(data)
    {
      var prefix := BigEndian(|data|, LENGTH_SIZE);
      assert forall n :: 0 <= n <= |data| ==> (prefix + data)[..LENGTH_SIZE + n] == prefix + data[..n];
      assert forall n :: 0 <= n <= LENGTH_SIZE ==> (prefix + data)[..n] == prefix[..n];
      var ok := Write(prefix, length);
      if !ok {
        return Err("quic write length");
      }
      assert outgoing == old(outgoing) + prefix;
      ok := Write(data, payload);
      assert outgoing == old(outgoing) + (prefix + data[..Taken(data, payload)]);
      if !ok {
        return Err("quic write payload");
      }
      assert data[..|data|] == data;
      return Ok(());
    }
  }

  /** A read succeeds exactly on a stream that starts with the frame of a message within the limit, and
      then returns that message and consumes that frame and no more. */
  lemma ReadsExactlyFrames(input: Bytes, data: Bytes, rest: Bytes)
    ensures ReadFrame(input) == (Ok(data), rest) <==> |data| <= MAX_MESSAGE_SIZE && input == Frame(data) + rest
  {
    if |data| <= MAX_MESSAGE_SIZE && input == Frame(data) + rest {
      FrameParts(data, rest);
      assert (data + rest)[..|data|] == data && (data + rest)[|data|..] == rest;
    }
    if ReadFrame(input) == (Ok(data), rest) {
      BigEndianOfValue(input[..LENGTH_SIZE]);
      assert input == input[..LENGTH_SIZE] + input[LENGTH_SIZE..];
      assert input[LENGTH_SIZE..] == data + rest;
    }
  }

  /** Only messages within the limit survive the trip, whatever their length. */
  lemma RoundTripIffWithinLimit(data: Bytes, rest: Bytes)
    ensures ReadFrame(Frame(data) + rest) == (Ok(data), rest) <==> |data| <= 65536
  {
    ReadsExactlyFrames(Frame(data) + rest, data, rest);
  }

  /** A larger message below 2^32 bytes is refused, its payload staying on the stream. */
  lemma OversizeIsRefused(data: Bytes, rest: Bytes)
    requires MAX_MESSAGE_SIZE < |data| && FitsPrefix(data)
    ensures ReadFrame(Frame(data) + rest) == (Err("quic message too large"), data + rest)
  {
    FrameParts(data, rest);
  }

  // Whole streams.

  function FrameAll(msgs: seq<Bytes>): Bytes {
    if msgs == [] then [] else Frame(msgs[0]) + FrameAll(msgs[1..])
  }

  /** Reading until the first error: the messages delivered, the error, and what is left. */
  function ReadAll(input: Bytes): (seq<Bytes>, string, Bytes)
    decreases |input|
  {
    match ReadFrame(input)
    case (Err(e), rest) => ([], e, rest)
    case (Ok(data), rest) =>
      var (msgs, e, left) := ReadAll(rest);
      ([data] + msgs, e, left)
  }

  predicate WithinLimit(msgs: seq<Bytes>) {
    forall i :: 0 <= i < |msgs| ==> |msgs[i]| <= MAX_MESSAGE_SIZE
  }

  lemma ReadAllFirst(data: Bytes, tail: Bytes)
    requires |data| <= MAX_MESSAGE_SIZE
    ensures ReadAll(Frame(data) + tail) == ([data] + ReadAll(tail).0, ReadAll(tail).1, ReadAll(tail).2)
  {
    ReadsExactlyFrames(Frame(data) + tail, data, tail);
  }

  /** Reading a stream delivers the framed messages first and then what the rest gives. */
  lemma {:induction false} ReadAllFramed(msgs: seq<Bytes>, rest: Bytes)
    requires WithinLimit(msgs)
    ensures ReadAll(FrameAll(msgs) + rest).0 == msgs + ReadAll(rest).0
    ensures ReadAll(FrameAll(msgs) + rest).1 == ReadAll(rest).1
    ensures ReadAll(FrameAll(msgs) + rest).2 == ReadAll(rest).2
    decreases |msgs|
  {
    if msgs == [] {
      assert FrameAll(msgs) + rest == rest;
    } else {
      var tail := FrameAll(msgs[1..]) + rest;
      assert FrameAll(msgs) + rest == Frame(msgs[0]) + tail;
      ReadAllFirst(msgs[0], tail);
      ReadAllFramed(msgs[1..], rest);
      Regroup(msgs, ReadAll(rest).0);
    }
  }

  lemma Regroup(msgs: seq<Bytes>, more: seq<Bytes>)
    requires msgs != []
    ensures [msgs[0]] + (msgs[1..] + more) == msgs + more
  {
  }

  /** Any list of messages within the limit comes out as it went in, and an oversize message after
      them is refused only once they are all delivered. */
  lemma StreamRoundTrip(msgs: seq<Bytes>, big: Bytes, rest: Bytes)
    requires WithinLimit(msgs) && MAX_MESSAGE_SIZE < |big| && FitsPrefix(big)
    ensures ReadAll(FrameAll(msgs)) == (msgs, "quic read length", [])
    ensures ReadAll(FrameAll(msgs) + (Frame(big) + rest)) == (msgs, "quic message too large", big + rest)
  {
    ReadAllFramed(msgs, []);
    assert FrameAll(msgs) + [] == FrameAll(msgs) && msgs + [] == msgs;
    ReadAllFramed(msgs, Frame(big) + rest);
    OversizeIsRefused(big, rest);
  }

  /** A frame cut short is an error that delivers nothing. */
  lemma CutFrame(data: Bytes, n: nat)
    requires |data| <= MAX_MESSAGE_SIZE && n < |Frame(data)|
    ensures ReadAll(Frame(data)[..n]).0 == [] && ReadFrame(Frame(data)[..n]).0.Err?
  {
    var input := Frame(data)[..n];
    if n >= LENGTH_SIZE {
      FrameParts(data, []);
      assert input[..LENGTH_SIZE] == (Frame(data) + [])[..LENGTH_SIZE];
    }
  }

  /** What the reader gets when the last of some writes may have failed: all messages before, and the last
      one exactly if its whole frame was taken, which an error does not exclude. */
  lemma WriteThenRead(msgs: seq<Bytes>, data: Bytes, length: WriteCall, payload: WriteCall)
    requires WithinLimit(msgs) && |data| <= MAX_MESSAGE_SIZE
    ensures var n := Sent(data, length, payload);
      && ReadAll(FrameAll(msgs) + Frame(data)[..n]).0 == msgs + (if n == |Frame(data)| then [data] else [])
      && (length.ok && payload.ok ==> n == |Frame(data)|)
  {
    var n := Sent(data, length, payload);
    ReadAllFramed(msgs, Frame(data)[..n]);
    if n == |Frame(data)| {
      assert Frame(data)[..n] == Frame(data) + [];
      ReadAllFirst(data, []);
    } else {
      CutFrame(data, n);
    }
  }

  /** It does occur: a payload write that takes everything and still reports an error. */
  lemma FailedWriteDelivers(msgs: seq<Bytes>, data: Bytes)
    requires WithinLimit(msgs) && |data| <= MAX_MESSAGE_SIZE
    ensures var payload := WriteCall(|data|, false);
      && Sent(data, WriteCall(LENGTH_SIZE, true), payload) == |Frame(data)|
      && ReadAll(FrameAll(msgs) + Frame(data)[..Sent(data, WriteCall(LENGTH_SIZE, true), payload)]).0 == msgs + [data]
  {
    WriteThenRead(msgs, data, WriteCall(LENGTH_SIZE, true), WriteCall(|data|, false));
  }

  lemma {:induction false} FramesLength(msgs: seq<Bytes>, k: nat)
    requires k < |msgs|
    ensures |FrameAll(msgs[..k + 1])| == |FrameAll(msgs[..k])| + |Frame(msgs[k])|
    decreases k
  {
    if k > 0 {
      FramesLength(msgs[1..], k - 1);
      assert msgs[..k + 1][1..] == msgs[1..][..k] && msgs[..k][1..] == msgs[1..][..k - 1];
    } else {
      assert msgs[..1][1..] == [] && msgs[..0] == [];
    }
  }

  lemma CutAppend(a: Bytes, b: Bytes, n: nat)
    requires n <= |a + b|
    ensures (a + b)[..n] == if n < |a| then a[..n] else a + b[..n - |a|]
  {
  }

  /** The first message of a cut stream: delivered if its frame is whole. */
  lemma CutFirst(msgs: seq<Bytes>, n: nat)
    requires WithinLimit(msgs) && msgs != [] && n <= |FrameAll(msgs)|
    ensures n < |Frame(msgs[0])| ==> ReadAll(FrameAll(msgs)[..n]).0 == []
    ensures n >= |Frame(msgs[0])| ==>
      n - |Frame(msgs[0])| <= |FrameAll(msgs[1..])|
      && ReadAll(FrameAll(msgs)[..n]).0 == [msgs[0]] + ReadAll(FrameAll(msgs[1..])[..n - |Frame(msgs[0])|]).0
  {
    var first, rest := Frame(msgs[0]), FrameAll(msgs[1..]);
    CutAppend(first, rest, n);
    if n < |first| {
      CutFrame(msgs[0], n);
    } else {
      ReadAllFirst(msgs[0], rest[..n - |first|]);
    }
  }

  /** The stream cut after `n` bytes delivers the first `k` messages, whose frames it holds whole, and no more. */
  ghost predicate DeliversFirst(msgs: seq<Bytes>, n: nat, k: nat)
    requires n <= |FrameAll(msgs)|
  {
    && k <= |msgs| && ReadAll(FrameAll(msgs)[..n]).0 == msgs[..k]
    && |FrameAll(msgs[..k])| <= n
    && (k < |msgs| ==> n < |FrameAll(msgs[..k + 1])|)
  }

  /** What a cut stream delivers after its first message is what the stream without it delivers. */
  lemma CutRest(msgs: seq<Bytes>, n: nat, j: nat)
    requires WithinLimit(msgs) && msgs != [] && |Frame(msgs[0])| <= n <= |FrameAll(msgs)|
    requires n - |Frame(msgs[0])| <= |FrameAll(msgs[1..])| && DeliversFirst(msgs[1..], n - |Frame(msgs[0])|, j)
    ensures DeliversFirst(msgs, n, j + 1)
  {
    CutFirst(msgs, n);
    PrefixFrames(msgs, j);
    if j + 1 < |msgs| {
      PrefixFrames(msgs, j + 1);
    }
  }

  /** A stream cut off at any byte delivers exactly the messages whose frames it still holds whole. */
  lemma {:induction false} CutStreamDeliversWholeFrames(msgs: seq<Bytes>, n: nat) returns (k: nat)
    requires WithinLimit(msgs) && n <= |FrameAll(msgs)|
    ensures DeliversFirst(msgs, n, k)
    decreases |msgs|
  {
    k := 0;
    if msgs == [] {
      assert FrameAll(msgs)[..n] == [];
    } else {
      CutFirst(msgs, n);
      if n < |Frame(msgs[0])| {
        FramesLength(msgs, 0);
      } else {
        var j := CutStreamDeliversWholeFrames(msgs[1..], n - |Frame(msgs[0])|);
        k := j + 1;
        CutRest(msgs, n, j);
      }
    }
  }

  lemma PrefixFrames(msgs: seq<Bytes>, k: nat)
    requires k < |msgs|
    ensures msgs[..k + 1] == [msgs[0]] + msgs[1..][..k]
    ensures |FrameAll(msgs[..k + 1])| == |Frame(msgs[0])| + |FrameAll(msgs[1..][..k])|
  {
    assert msgs[..k + 1][1..] == msgs[1..][..k];
  }
}
