/** The cutter of module HlsMedia over the byte buffer it reallocates as it grows. */
module HlsMediaBuffer {
  import opened Base
  import HM = HlsMedia

  /** Room added at each reallocation beyond the packet asked for. */
  const GROWTH: nat := HM.PACKET * 10 * 1024

  type Packet = p: seq<byte> | |p| == HM.PACKET witness seq(HM.PACKET, _ => 0)

  /** The packets have no say in where a segment is cut. */
  predicate SameCut(m: HM.Media, i: HM.Input, j: HM.Input)
  {
    HM.Begins(m, i) == HM.Begins(m, j) && HM.Forced(m, i) == HM.Forced(m, j) && HM.Aborts(m, i) == HM.Aborts(m, j)
  }

  class HlsMedia {
    const maxsize: nat
    const duration: int
    var ptr: array<byte>
    var bytes: nat
    var capacity: nat
    var first: Option<HM.Stamp>
    var dtsLast: Option<int>
    var audioOnly: bool

    ghost predicate Valid()
      reads this
    {
      bytes <= capacity == ptr.Length
    }

    ghost function View(): HM.Media
      reads this, ptr
      requires Valid()
    {
      HM.Media(duration, maxsize, ptr[..bytes], first, dtsLast, audioOnly)
    }

    constructor (duration: int)
      ensures Valid() && fresh(ptr) && View() == HM.Media(duration, 100 * 1024 * 1024, [], None, None, false)
    {
      this.maxsize, this.duration := HM.MAX_FILE, duration;
      ptr := new byte[0];
      bytes, capacity, first, dtsLast, audioOnly := 0, 0, None, None, false;
    }

    /** hls_ts_alloc: room for one packet after the bytes written so far, or None when the buffer
      * must grow and there is no memory; either way the written bytes stay. */
    method Alloc(memory: bool) returns (at: Option<nat>)
      requires Valid()
      modifies this`ptr, this`capacity
      ensures Valid() && ptr[..bytes] == old(ptr[..bytes])
      ensures ptr == old(ptr) || fresh(ptr)
      ensures at.Some? ==> at.value == bytes && bytes + HM.PACKET <= capacity
      ensures at.None? <==> !memory && old(capacity) - bytes < HM.PACKET
    {
      if capacity - bytes < HM.PACKET {
        if !memory {
          return None;
        }
        var p := new byte[capacity + HM.PACKET + GROWTH];
        forall i | 0 <= i < bytes {
          p[i] := ptr[i];
        }
        ptr := p;
        capacity := p.Length;
      }
      return Some(bytes);
    }

    /** The muxer fills the room it was given and commits it through hls_ts_write. */
    method Write(at: nat, packet: Packet)
      requires Valid() && at == bytes && bytes + HM.PACKET <= capacity
      modifies this`bytes, ptr
      ensures Valid() && ptr[..bytes] == old(ptr[..bytes]) + packet
    {
      forall i | 0 <= i < HM.PACKET {
        ptr[at + i] := packet[i];
      }
      bytes := bytes + HM.PACKET;
      assert ptr[..bytes] == ptr[..at] + ptr[at..bytes];
      assert ptr[at..bytes] == packet;
    }

    /** mpeg_ts_write: appends the packets of a frame one by one; a failed allocation stops it. */
    method Mux(packets: seq<Packet>, memory: bool) returns (written: nat)
      requires Valid()
      modifies this`ptr, this`bytes, this`capacity, ptr
      ensures Valid() && (ptr == old(ptr) || fresh(ptr))
      ensures written <= |packets| && (memory ==> written == |packets|)
      ensures ptr[..bytes] == old(ptr[..bytes]) + Flatten(packets[..written])
    {
      written := 0;
      while written < |packets|
        invariant Valid() && (ptr == old(ptr) || fresh(ptr)) && written <= |packets|
        invariant ptr[..bytes] == old(ptr[..bytes]) + Flatten(packets[..written])
      {
        var at := Alloc(memory);
        if at.None? {
          return;
        }
        Write(at.value, packets[written]);
        assert packets[..written + 1] == packets[..written] + [packets[written]];
        FlattenSnoc(packets[..written], packets[written]);
        written := written + 1;
      }
    }

    /** The end of hls_media_input: the frame joins the segment. */
    method Append(isVideo: bool, dts: int, packets: seq<Packet>, memory: bool) returns (written: nat)
      requires Valid()
      modifies this`ptr, this`bytes, this`capacity, this`audioOnly, this`dtsLast, ptr
      ensures Valid() && (ptr == old(ptr) || fresh(ptr))
      ensures written <= |packets| && (memory ==> written == |packets|)
      ensures View() == old(View()).(audioOnly := old(audioOnly) && !isVideo, dtsLast := Some(dts),
                                     buf := old(View()).buf + Flatten(packets[..written]))
    {
      if audioOnly && isVideo {
        audioOnly := false;
      }
      dtsLast := Some(dts);
      written := Mux(packets, memory);
    }

    /** Whether a new segment begins with the input, and whether it is forced. */
    method Falls(empty: bool, key: bool, dts: int, ghost i: HM.Input) returns (begins: bool, force: bool)
      requires Valid() && HM.Started(View()) && i.empty == empty && i.key == key && i.dts == dts
      ensures begins == HM.Begins(View(), i) && force == HM.Forced(View(), i)
    {
      var rewind := dtsLast.Some? && dts + duration < dtsLast.value;
      force := rewind || empty;
      var elapsed := first.Some? && dts - first.value.dts >= duration;
      var segment := ((elapsed || duration == 0) && (key || bytes >= maxsize)) || (audioOnly && elapsed);
      begins := bytes == 0 || segment || force;
    }

    /** hls_media_input.  `handlerOk` is the handler's answer should it be called; `report` is what
      * it was called with, `ok` whether the frame was accepted and fully written. */
    method Input(isVideo: bool, empty: bool, key: bool, pts: int, dts: int, packets: seq<Packet>,
                 handlerOk: bool, memory: bool)
      returns (ok: bool, report: Option<HM.Report>, ghost written: nat)
      requires Valid() && HM.Started(View())
      requires !HM.Aborts(View(), HM.Input(isVideo, empty, key, pts, dts, []))
      modifies this, ptr
      ensures Valid() && (ptr == old(ptr) || fresh(ptr)) && written <= |packets|
      ensures var i := HM.Input(isVideo, empty, key, pts, dts, Flatten(packets[..written]));
              && report == (if HM.Cuts(old(View()), i) then Some(HM.ReportOf(old(View()), i)) else None)
              && View() == (if HM.Accepts(old(View()), HM.Feed(i, handlerOk))
                            then HM.Accept(old(View()), i) else old(View()))
              && (ok <==> HM.Accepts(old(View()), HM.Feed(i, handlerOk)) && written == |packets|)
      ensures memory && HM.Accepts(old(View()), HM.Feed(HM.Input(isVideo, empty, key, pts, dts, []), handlerOk)) ==> ok
    {
      report, written := None, 0;
      ghost var i := HM.Input(isVideo, empty, key, pts, dts, []);
      var begins, force := Falls(empty, key, dts, i);
      assert forall p: seq<byte> :: SameCut(View(), i, i.(packets := p));
      hide HM.Begins, HM.Forced, HM.Aborts;
      if begins {
        if bytes > 0 {
          var end := if force || dts > dtsLast.value + 100 then dtsLast.value else dts;
          report := Some(HM.Report(ptr[..bytes], first.value.pts, first.value.dts, end - first.value.dts));
          if !handlerOk {
            return false, report, 0;
          }
        }
        first := Some(HM.Stamp(pts, dts));
        bytes := 0;
        audioOnly := true;
      }
      var n := Append(isVideo, dts, packets, memory);
      written := n;
      ok := n == |packets|;
    }
  }
}
