/** The live preview's wire format: each frame behind its length in four bytes, big end first. */
module Framing {
  import opened Base
  import opened Arithmetic

  type Bytes = seq<byte>

  const WORD: int := 0x1_0000_0000
  const MAX_FRAME: int := 8 * 1024 * 1024

  /** htonl((uint32_t)len) */
  function Header(len: nat): (h: Bytes)
    ensures |h| == 4
  {
    var n := len % WORD;
    [((n / 0x100_0000) % 0x100) as byte, ((n / 0x1_0000) % 0x100) as byte,
     ((n / 0x100) % 0x100) as byte, (n % 0x100) as byte]
  }

  function Size(h: Bytes): (n: nat)
    requires |h| == 4
    ensures n < WORD
  {
    (((h[0] as int) * 0x100 + (h[1] as int)) * 0x100 + (h[2] as int)) * 0x100 + (h[3] as int)
  }

  lemma SizeOfHeader(len: nat)
    ensures Size(Header(len)) == len % WORD
  {
    var n := len % WORD;
    var a := n / 0x100;
    var b := n / 0x1_0000;
    var c := n / 0x100_0000;
    assert b == a / 0x100 && c == b / 0x100;
    assert n == a * 0x100 + n % 0x100;
    assert a == b * 0x100 + a % 0x100;
    assert b == c * 0x100 + b % 0x100;
    assert c < 0x100;
  }

  lemma Digit(high: nat, low: nat, scale: nat)
    requires low < scale
    ensures (high * scale + low) / scale == high && (high * scale + low) % scale == low
  {
    DivIs(high * scale + low, scale, high);
  }

  /** The most significant byte goes first. */
  lemma HeaderIsBigEndian(a: byte, b: byte, c: byte, d: byte)
    ensures Header((((a as int) * 0x100 + (b as int)) * 0x100 + (c as int)) * 0x100 + (d as int)) == [a, b, c, d]
  {
    var top := (a as int) * 0x100 + (b as int);
    var mid := top * 0x100 + (c as int);
    var n := mid * 0x100 + (d as int);
    assert n < WORD;
    Digit(mid, d as int, 0x100);
    Digit(top, c as int, 0x100);
    Digit(a as int, b as int, 0x100);
    DivIs(n, 0x1_0000, top);
    DivIs(n, 0x100_0000, a as int);
  }

  function Message(f: Bytes): Bytes
  {
    Header(|f|) + f
  }

  /** The bytes of the frames sent, one message after the other. */
  function Wire(frames: seq<Bytes>): Bytes
  {
    if frames == [] then [] else Message(frames[0]) + Wire(frames[1..])
  }

  predicate Fits(f: Bytes)
  {
    1 <= |f| <= MAX_FRAME
  }

  predicate AllFit(frames: seq<Bytes>)
  {
    forall i :: 0 <= i < |frames| ==> Fits(frames[i])
  }

  /** What readFrames publishes from a byte stream: it stops at a bad size or a short read. */
  function Decode(s: Bytes): (r: seq<Bytes>)
    ensures AllFit(r)
    decreases |s|
  {
    if |s| < 4 then []
    else
      var n := Size(s[..4]);
      if n == 0 || n > MAX_FRAME || |s| - 4 < n then []
      else [s[4..4 + n]] + Decode(s[4 + n..])
  }

  /** The frames that arrived whole when only the first n bytes did. */
  function Whole(frames: seq<Bytes>, n: nat): (k: nat)
    ensures k <= |frames|
  {
    if frames == [] || n < 4 + |frames[0]| then 0 else 1 + Whole(frames[1..], n - 4 - |frames[0]|)
  }

  lemma {:induction false} DecodeOne(s: Bytes, n: nat)
    requires |s| >= 4 && Size(s[..4]) == n && 1 <= n <= MAX_FRAME && n <= |s| - 4
    ensures Decode(s) == [s[4..4 + n]] + Decode(s[4 + n..])
  {
  }

  lemma {:induction false} DecodeMessage(f: Bytes, rest: Bytes)
    requires Fits(f)
    ensures Decode(Message(f) + rest) == [f] + Decode(rest)
  {
    hide Decode, Size;
    var s := Message(f) + rest;
    SizeOfHeader(|f|);
    assert s[..4] == Header(|f|);
    assert s[4..4 + |f|] == f;
    assert s[4 + |f|..] == rest;
    DecodeOne(s, |f|);
  }

  lemma DecodeCutMessage(f: Bytes, n: nat)
    requires Fits(f) && n < 4 + |f|
    ensures Decode(Message(f)[..n]) == []
  {
    if n >= 4 {
      SizeOfHeader(|f|);
      assert Message(f)[..n][..4] == Header(|f|);
    }
  }

  /** A stream cut anywhere decodes to exactly the frames that arrived whole. */
  lemma {:induction false} TruncatedDecodes(frames: seq<Bytes>, n: nat)
    requires AllFit(frames) && n <= |Wire(frames)|
    ensures Decode(Wire(frames)[..n]) == frames[..Whole(frames, n)]
    decreases |frames|
  {
    if frames != [] {
      var f, rest := frames[0], frames[1..];
      var w := Wire(frames)[..n];
      if n >= 4 + |f| {
        var m := n - 4 - |f|;
        assert w == Message(f) + Wire(rest)[..m];
        DecodeMessage(f, Wire(rest)[..m]);
        TruncatedDecodes(rest, m);
        assert frames[..Whole(frames, n)] == [f] + rest[..Whole(rest, m)];
      } else {
        assert w == Message(f)[..n];
        DecodeCutMessage(f, n);
      }
    }
  }

  lemma {:induction false} AllWhole(frames: seq<Bytes>)
    ensures Whole(frames, |Wire(frames)|) == |frames|
    decreases |frames|
  {
    if frames != [] {
      AllWhole(frames[1..]);
    }
  }

  /** Decoding what was sent gives back the frames exactly when each has 1 to 8 MiB. */
  lemma {:induction false} RoundTrip(frames: seq<Bytes>)
    ensures Decode(Wire(frames)) == frames <==>
            forall i :: 0 <= i < |frames| ==> 1 <= |frames[i]| <= 8 * 1024 * 1024
  {
    if AllFit(frames) {
      TruncatedDecodes(frames, |Wire(frames)|);
      AllWhole(frames);
      assert Wire(frames)[..|Wire(frames)|] == Wire(frames);
      assert frames[..|frames|] == frames;
    }
  }

  lemma {:induction false} DecodeWire(before: seq<Bytes>, tail: Bytes)
    requires AllFit(before)
    ensures Decode(Wire(before) + tail) == before + Decode(tail)
    decreases |before|
  {
    hide Decode, Message;
    if before == [] {
      assert Wire(before) + tail == tail;
    } else {
      var more := Wire(before[1..]) + tail;
      DecodeWire(before[1..], tail);
      DecodeMessage(before[0], more);
      assert Wire(before) + tail == Message(before[0]) + more;
    }
  }

  /** A bad size ends the connection: of frames sent around one that is empty or over 8 MiB, those before it
    * are published and none behind. */
  lemma BadSizeStops(before: seq<Bytes>, bad: Bytes, rest: Bytes)
    requires AllFit(before) && |bad| < WORD && (|bad| == 0 || |bad| > 8 * 1024 * 1024)
    ensures Decode(Wire(before) + (Message(bad) + rest)) == before
  {
    BadMessageStops(bad, rest);
    DecodeWire(before, Message(bad) + rest);
  }

  lemma BadMessageStops(bad: Bytes, rest: Bytes)
    requires |bad| < WORD && (|bad| == 0 || |bad| > 8 * 1024 * 1024)
    ensures Decode(Message(bad) + rest) == []
  {
    var s := Message(bad) + rest;
    SizeOfHeader(|bad|);
    assert s[..4] == Header(|bad|);
  }

  // ---------------------------------------------------------------- sender

  /** How one sendmsg ends: the whole message, EAGAIN, or a broken connection. */
  datatype Sent = Sent | Busy | Broken

  lemma {:induction false} WireSnoc(frames: seq<Bytes>, f: Bytes)
    ensures Wire(frames + [f]) == Wire(frames) + Message(f)
    decreases |frames|
  {
    if frames == [] {
      assert frames + [f] == [f] && [f][1..] == [];
    } else {
      assert (frames + [f])[1..] == frames[1..] + [f];
      WireSnoc(frames[1..], f);
    }
  }

  /** web_sock_push's state.  `streams` holds the bytes each connection carried, the current one
    * last; `sent` the frames they were. */
  class Sender {
    const listening: bool
    var connected: bool
    var streams: seq<Bytes>
    ghost var sent: seq<seq<Bytes>>

    ghost predicate Valid()
      reads this
    {
      && |streams| == |sent| && (connected ==> streams != [])
      && forall i :: 0 <= i < |streams| ==> streams[i] == Wire(sent[i])
    }

    constructor (listening: bool)
      ensures Valid() && streams == [] && !connected && this.listening == listening
    {
      this.listening, connected, streams, sent := listening, false, [], [];
    }

    /** Every connection carries whole frames only: a busy or broken socket skips the frame. */
    method Push(data: Bytes, accepts: bool, outcome: Sent)
      requires Valid()
      modifies this
      ensures Valid()
      ensures !listening || (!old(connected) && !accepts) ==>
                streams == old(streams) && sent == old(sent) && connected == old(connected)
      ensures listening && (old(connected) || accepts) ==>
                var before := if old(connected) then old(sent) else old(sent) + [[]];
                var n := |before| - 1;
                && sent == (if outcome == Sent then before[..n] + [before[n] + [data]] else before)
                && connected == (outcome != Broken)
    {
      if !listening {
        return;
      }
      if !connected {
        if !accepts {
          return;
        }
        streams, sent := streams + [[]], sent + [[]];
        connected := true;
      }
      var n := |streams| - 1;
      if outcome == Sent {
        WireSnoc(sent[n], data);
        streams := streams[..n] + [streams[n] + (Header(|data|) + data)];
        sent := sent[..n] + [sent[n] + [data]];
      } else if outcome == Broken {
        connected := false;
      }
    }
  }

  // -------------------------------------------------------------- receiver

  function Concat(chunks: seq<Bytes>): Bytes
  {
    if chunks == [] then [] else chunks[0] + Concat(chunks[1..])
  }

  /** The receiving end of a connection: the chunks still to come, and then end of file. */
  class Reader {
    var chunks: seq<Bytes>

    constructor (chunks: seq<Bytes>)
      ensures this.chunks == chunks
    {
      this.chunks := chunks;
    }

    /** io.ReadFull: n bytes, or None when the connection ends first. */
    method ReadFull(n: nat) returns (out: Option<Bytes>)
      modifies this
      ensures out.Some? <==> n <= |Concat(old(chunks))|
      ensures out.Some? ==> |out.value| == n && out.value + Concat(chunks) == Concat(old(chunks))
      ensures out.None? ==> chunks == []
    {
      var got: Bytes := [];
      while |got| < n
        invariant |got| <= n
        invariant got + Concat(chunks) == Concat(old(chunks))
        decreases |chunks|, n - |got|
      {
        if chunks == [] {
          return None;
        }
        var c := chunks[0];
        var rest := chunks[1..];
        assert Concat(chunks) == c + Concat(rest);
        var need := n - |got|;
        if |c| <= need {
          got, chunks := got + c, rest;
        } else {
          assert c == c[..need] + c[need..];
          assert ([c[need..]] + rest)[1..] == rest;
          got, chunks := got + c[..need], [c[need..]] + rest;
        }
      }
      return Some(got);
    }

    /** readFrames: however the bytes are cut into chunks, it publishes what they decode to. */
    method ReadFrames() returns (published: seq<Bytes>)
      modifies this
      ensures published == Decode(Concat(old(chunks)))
    {
      hide Size;
      published := [];
      ghost var all := Concat(chunks);
      while true
        invariant Decode(all) == published + Decode(Concat(chunks))
        decreases |Concat(chunks)|
      {
        ghost var s := Concat(chunks);
        var sizeBuf := ReadFull(4);
        if sizeBuf.None? {
          return;
        }
        assert s[..4] == sizeBuf.value && s[4..] == Concat(chunks);
        var size := Size(sizeBuf.value);
        if size == 0 || size > MAX_FRAME {
          return;
        }
        var frame := ReadFull(size);
        if frame.None? {
          return;
        }
        assert s[4..4 + size] == frame.value && s[4 + size..] == Concat(chunks);
        published := published + [frame.value];
      }
    }
  }
}
