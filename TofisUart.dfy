/**
  The device side of the link: a UART slave device with its transmit buffer,
  and the two frame senders. `SendData` serialises the result field by field
  in big-endian order into the device buffer; `SendDataLe` copies the whole
  structure into a packet and transmits its memory image. The UART transfer
  itself is not modelled: each sender returns the bytes it hands to it.
 */
module TofisUart {
  import opened TofisData
  import opened StructImage
  import CheckSum

  /** `s` with the bytes from `at` on replaced by `bytes`. */
  function Overwrite(s: seq<byte>, at: nat, bytes: seq<byte>): (r: seq<byte>)
    requires at + |bytes| <= |s|
    ensures |r| == |s|
  {
    s[..at] + bytes + s[at + |bytes|..]
  }

  lemma OverwriteTwice(s: seq<byte>, at: nat, a: seq<byte>, b: seq<byte>)
    requires at + |a| + |b| <= |s|
    ensures Overwrite(Overwrite(s, at, a), at + |a|, b) == Overwrite(s, at, a + b)
  {
    var t := Overwrite(s, at, a);
    assert t[..at + |a|] == s[..at] + a;
    assert t[at + |a| + |b|..] == s[at + |a| + |b|..];
  }

  /** `n & 0xFF`: the least significant byte of n. */
  function Low(n: nat): byte
  {
    (n % 0x100) as byte
  }

  /** The four bytes `(v >> 24) & 0xFF`, `(v >> 16) & 0xFF`, `(v >> 8) & 0xFF`, `v & 0xFF`. */
  function Be32(v: nat): seq<byte>
    requires v < 0x1_0000_0000
  {
    [Low(v / 0x100_0000), Low(v / 0x1_0000), Low(v / 0x100), Low(v)]
  }

  /** A word's bytes in the opposite order: most significant byte first. */
  function Reversed(w: Word): (r: Word)
    ensures r[0] == w[3] && r[1] == w[2] && r[2] == w[1] && r[3] == w[0]
  {
    [w[3], w[2], w[1], w[0]]
  }

  lemma DivBy8(lo: nat, hi: nat)
    requires lo < 0x100
    ensures (lo + 0x100 * hi) / 0x100 == hi && (lo + 0x100 * hi) % 0x100 == lo
  {}
  lemma DivBy16(lo: nat, hi: nat)
    requires lo < 0x1_0000
    ensures (lo + 0x1_0000 * hi) / 0x1_0000 == hi
  {}
  lemma DivBy24(lo: nat, hi: nat)
    requires lo < 0x100_0000
    ensures (lo + 0x100_0000 * hi) / 0x100_0000 == hi
  {}
  lemma LowOf(x: byte, n: nat)
    requires n % 0x100 == x as nat
    ensures Low(n) == x
  {}
  lemma Byte0(w: Word)
    ensures Low(Value(w)) == w[0]
  {
    var a, b, c, d := w[0] as nat, w[1] as nat, w[2] as nat, w[3] as nat;
    DivBy8(a, b + 0x100 * (c + 0x100 * d));
    LowOf(w[0], Value(w));
  }
  lemma Byte1(w: Word)
    ensures Low(Value(w) / 0x100) == w[1]
  {
    var a, b, c, d := w[0] as nat, w[1] as nat, w[2] as nat, w[3] as nat;
    DivBy8(a, b + 0x100 * (c + 0x100 * d));
    DivBy8(b, c + 0x100 * d);
    LowOf(w[1], Value(w) / 0x100);
  }
  lemma Byte2(w: Word)
    ensures Low(Value(w) / 0x1_0000) == w[2]
  {
    var a, b, c, d := w[0] as nat, w[1] as nat, w[2] as nat, w[3] as nat;
    DivBy16(a + 0x100 * b, c + 0x100 * d);
    DivBy8(c, d);
    LowOf(w[2], Value(w) / 0x1_0000);
  }
  lemma Byte3(w: Word)
    ensures Low(Value(w) / 0x100_0000) == w[3]
  {
    var a, b, c, d := w[0] as nat, w[1] as nat, w[2] as nat, w[3] as nat;
    DivBy24(a + 0x100 * b + 0x1_0000 * c, d);
    assert d % 0x100 == d;
    LowOf(w[3], d);
  }
  /** Shifting out the bytes of a uint32 gives its memory image reversed. */
  lemma Be32OfValue(w: Word)
    ensures Be32(Value(w)) == Reversed(w)
  {
    Byte0(w);
    Byte1(w);
    Byte2(w);
    Byte3(w);
  }

  /** An array of 4-byte fields sent most significant byte first. */
  function WordsBigEndian(ws: seq<Word>): (b: seq<byte>)
    ensures |b| == 4 * |ws|
  {
    if ws == [] then [] else WordsBigEndian(ws[..|ws| - 1]) + Reversed(ws[|ws| - 1])
  }

  /** One zone as SendData serialises it: the target count and the four arrays, no padding. */
  function ZoneBigEndian(z: ZoneResult): (b: seq<byte>)
    ensures |b| == 17
  {
    [z.numberOfTargets] + WordsBigEndian(z.distance) + WordsBigEndian(z.status)
      + WordsBigEndian(z.ambient) + WordsBigEndian(z.signal)
  }

  function ZonesBigEndian(zs: seq<ZoneResult>): (b: seq<byte>)
    ensures |b| == 17 * |zs|
  {
    if zs == [] then [] else ZonesBigEndian(zs[..|zs| - 1]) + ZoneBigEndian(zs[|zs| - 1])
  }

  /** The bytes SendData transmits: the header, the zone count and the first NumberOfZones zones. */
  function BigEndianFrame(resolution: byte, r: Result): seq<byte>
    requires Value(r.numberOfZones) <= MaxNbZones
  {
    FrameWith(resolution, r, Value(r.numberOfZones))
  }

  /** The frame with the first n zones of the result. */
  function FrameWith(resolution: byte, r: Result, n: nat): seq<byte>
    requires n <= MaxNbZones
  {
    [StartByte, resolution, CheckSum.Xor(Image(r)), EndByte] + Reversed(r.numberOfZones)
      + ZonesBigEndian(r.zoneResult[..n])
  }

  /** A zone as a receiver of the big-endian frame rebuilds it: the padding is not sent, so it reads as zero. */
  function Unpadded(z: ZoneResult): ZoneResult
  {
    z.(padding := [0, 0, 0])
  }

  /** Reads one 17-byte zone of a big-endian frame. */
  function ParseZoneBigEndian(b: seq<byte>): ZoneResult
    requires |b| == 17
  {
    ZoneResult(b[0], [0, 0, 0], [Reversed(b[1..5])], [Reversed(b[5..9])],
               [Reversed(b[9..13])], [Reversed(b[13..17])])
  }

  /** Reads n zones from 17 * n bytes of a big-endian frame. */
  function ParseZonesBigEndian(b: seq<byte>, n: nat): (zs: seq<ZoneResult>)
    requires |b| == 17 * n
    ensures |zs| == n
  {
    if n == 0 then [] else ParseZonesBigEndian(b[..|b| - 17], n - 1) + [ParseZoneBigEndian(b[|b| - 17..])]
  }

  lemma ReversedTwice(ws: TargetWords)
    ensures [Reversed(Reversed(ws[0]))] == ws
  {
    assert Reversed(Reversed(ws[0])) == ws[0];
  }

  lemma WordsBigEndianOne(ws: seq<Word>)
    requires |ws| == 1
    ensures WordsBigEndian(ws) == Reversed(ws[0])
  {
    assert ws[..0] == [];
  }

  lemma WordsImageOne(ws: seq<Word>)
    requires |ws| == 1
    ensures WordsImage(ws) == ws[0]
  {
    assert ws[..0] == [];
  }

  /** Where the fields of a 17-byte zone lie. */
  lemma ZoneFieldsAt(t: byte, a: Word, b: Word, c: Word, d: Word)
    ensures var x := [t] + a + b + c + d;
      x[0] == t && x[1..5] == a && x[5..9] == b && x[9..13] == c && x[13..17] == d
  {
  }

  lemma ZoneBigEndianRoundTrip(z: ZoneResult)
    ensures ParseZoneBigEndian(ZoneBigEndian(z)) == Unpadded(z)
  {
    WordsBigEndianOne(z.distance);
    WordsBigEndianOne(z.status);
    WordsBigEndianOne(z.ambient);
    WordsBigEndianOne(z.signal);
    ZoneFieldsAt(z.numberOfTargets, Reversed(z.distance[0]), Reversed(z.status[0]),
                 Reversed(z.ambient[0]), Reversed(z.signal[0]));
    ReversedTwice(z.distance);
    ReversedTwice(z.status);
    ReversedTwice(z.ambient);
    ReversedTwice(z.signal);
  }

  /** Decoding the zone part of a big-endian frame gives back every sent zone but its padding. */
  lemma {:induction false} ZonesBigEndianRoundTrip(zs: seq<ZoneResult>)
    ensures var r := ParseZonesBigEndian(ZonesBigEndian(zs), |zs|);
      forall k :: 0 <= k < |zs| ==> r[k] == Unpadded(zs[k])
  {
    if zs != [] {
      var init, last := zs[..|zs| - 1], zs[|zs| - 1];
      LastSplit(zs);
      ZonesBigEndianRoundTrip(init);
      ParseZonesBigEndianStep(ZonesBigEndian(init), init, last);
    }
  }

  /** Reading one more big-endian zone behind read ones adds it, padding dropped. */
  lemma ParseZonesBigEndianStep(a: seq<byte>, init: seq<ZoneResult>, last: ZoneResult)
    requires |a| == 17 * |init|
    requires forall k :: 0 <= k < |init| ==> ParseZonesBigEndian(a, |init|)[k] == Unpadded(init[k])
    ensures var zs, r := init + [last], ParseZonesBigEndian(a + ZoneBigEndian(last), |init| + 1);
      forall k :: 0 <= k < |zs| ==> r[k] == Unpadded(zs[k])
  {
    var z := ZoneBigEndian(last);
    assert (a + z)[..|a|] == a;
    assert (a + z)[|a|..] == z;
    ZoneBigEndianRoundTrip(last);
  }

  /**
    What a receiver finds in a big-endian frame: the markers, the resolution,
    the zone count most significant byte first and every sent zone without its
    padding. The frame is never as long as a packet.
   */
  lemma BigEndianFrameDecodes(resolution: byte, r: Result)
    requires Value(r.numberOfZones) <= MaxNbZones
    ensures var frame, n := BigEndianFrame(resolution, r), Value(r.numberOfZones);
      && |frame| == 8 + 17 * n && |frame| < PacketSize
      && frame[0] == StartByte && frame[1] == resolution && frame[3] == EndByte
      && Reversed(frame[4..8]) == r.numberOfZones
      && forall k :: 0 <= k < n ==> ParseZonesBigEndian(frame[8..], n)[k] == Unpadded(r.zoneResult[k])
  {
    FrameHeaderDecodes(resolution, r);
    FrameZonesDecode(resolution, r);
  }

  lemma FrameHeaderDecodes(resolution: byte, r: Result)
    requires Value(r.numberOfZones) <= MaxNbZones
    ensures var frame, n := BigEndianFrame(resolution, r), Value(r.numberOfZones);
      && |frame| == 8 + 17 * n && |frame| < PacketSize
      && frame[0] == StartByte && frame[1] == resolution && frame[3] == EndByte
      && Reversed(frame[4..8]) == r.numberOfZones
  {
    var n := Value(r.numberOfZones);
    var x, y := Reversed(r.numberOfZones), ZonesBigEndian(r.zoneResult[..n]);
    FrameParts([StartByte, resolution, CheckSum.Xor(Image(r)), EndByte], x, y);
    assert Reversed(x) == r.numberOfZones;
  }

  lemma FrameZonesDecode(resolution: byte, r: Result)
    requires Value(r.numberOfZones) <= MaxNbZones
    ensures var frame, n := BigEndianFrame(resolution, r), Value(r.numberOfZones);
      forall k :: 0 <= k < n ==> ParseZonesBigEndian(frame[8..], n)[k] == Unpadded(r.zoneResult[k])
  {
    var n := Value(r.numberOfZones);
    var sent := r.zoneResult[..n];
    var y := ZonesBigEndian(sent);
    assert BigEndianFrame(resolution, r)[8..] == y by {
      FrameParts([StartByte, resolution, CheckSum.Xor(Image(r)), EndByte], Reversed(r.numberOfZones), y);
    }
    var parsed := ParseZonesBigEndian(y, n);
    ZonesBigEndianRoundTrip(sent);
    forall k | 0 <= k < n
      ensures parsed[k] == Unpadded(r.zoneResult[k])
    {
      assert sent[k] == r.zoneResult[k];
    }
  }

  /** Where the header, the zone count and the zones lie in a frame. */
  lemma FrameParts(h: seq<byte>, x: seq<byte>, y: seq<byte>)
    requires |h| == 4 && |x| == 4
    ensures var f := h + x + y;
      f[..4] == h && f[4..8] == x && f[8..] == y
  {
    assert (h + x + y)[8..] == y;
  }

  /** The padding bytes of the zones, back to back. */
  function Paddings(zs: seq<ZoneResult>): (b: seq<byte>)
    ensures |b| == 3 * |zs|
  {
    if zs == [] then [] else Paddings(zs[..|zs| - 1]) + zs[|zs| - 1].padding
  }

  lemma XorReversed(w: Word)
    ensures CheckSum.Xor(Reversed(w)) == CheckSum.Xor(w)
  {
    CheckSum.XorOfFour(w);
    CheckSum.XorOfFour(Reversed(w));
  }

  lemma XorTargetWords(ws: TargetWords)
    ensures CheckSum.Xor(WordsBigEndian(ws)) == CheckSum.Xor(WordsImage(ws))
  {
    WordsBigEndianOne(ws);
    WordsImageOne(ws);
    XorReversed(ws[0]);
  }

  /** The big-endian bytes of a zone and its padding XOR to the same as its memory image. */
  lemma XorZone(z: ZoneResult)
    ensures CheckSum.Xor(ZoneBigEndian(z)) ^ CheckSum.Xor(z.padding) == CheckSum.Xor(ZoneImage(z))
  {
    var d, s, a, g := WordsImage(z.distance), WordsImage(z.status), WordsImage(z.ambient), WordsImage(z.signal);
    var d', s', a', g' := WordsBigEndian(z.distance), WordsBigEndian(z.status), WordsBigEndian(z.ambient), WordsBigEndian(z.signal);
    var t := [z.numberOfTargets];
    CheckSum.XorConcat(t + z.padding + d + s + a, g);
    CheckSum.XorConcat(t + z.padding + d + s, a);
    CheckSum.XorConcat(t + z.padding + d, s);
    CheckSum.XorConcat(t + z.padding, d);
    CheckSum.XorConcat(t, z.padding);
    CheckSum.XorConcat(t + d' + s' + a', g');
    CheckSum.XorConcat(t + d' + s', a');
    CheckSum.XorConcat(t + d', s');
    CheckSum.XorConcat(t, d');
    XorTargetWords(z.distance);
    XorTargetWords(z.status);
    XorTargetWords(z.ambient);
    XorTargetWords(z.signal);
  }

  lemma {:induction false} XorZones(zs: seq<ZoneResult>)
    ensures CheckSum.Xor(ZonesBigEndian(zs)) ^ CheckSum.Xor(Paddings(zs)) == CheckSum.Xor(ZonesImage(zs))
  {
    if zs != [] {
      var init, last := zs[..|zs| - 1], zs[|zs| - 1];
      XorZones(init);
      XorZone(last);
      CheckSum.XorConcat(ZonesBigEndian(init), ZoneBigEndian(last));
      CheckSum.XorConcat(Paddings(init), last.padding);
      CheckSum.XorConcat(ZonesImage(init), ZoneImage(last));
    }
  }

  /** The sent bytes of some zones followed by their padding XOR to the same as their images. */
  lemma XorSentZones(zs: seq<ZoneResult>)
    ensures CheckSum.Xor(ZonesBigEndian(zs) + Paddings(zs)) == CheckSum.Xor(ZonesImage(zs))
  {
    XorZones(zs);
    CheckSum.XorConcat(ZonesBigEndian(zs), Paddings(zs));
  }

  lemma {:induction false} ZonesImageAppend(a: seq<ZoneResult>, b: seq<ZoneResult>)
    ensures ZonesImage(a + b) == ZonesImage(a) + ZonesImage(b)
  {
    if b == [] {
      assert a + b == a;
    } else {
      var init, last := b[..|b| - 1], b[|b| - 1];
      LastOfAppend(a, b);
      ZonesImageAppend(a, init);
      ConcatAssoc(ZonesImage(a), ZonesImage(init), ZoneImage(last));
    }
  }

  lemma LastOfAppend<T>(a: seq<T>, b: seq<T>)
    requires b != []
    ensures (a + b)[..|a + b| - 1] == a + b[..|b| - 1] && (a + b)[|a + b| - 1] == b[|b| - 1]
  {
  }

  lemma ConcatAssoc(x: seq<byte>, y: seq<byte>, z: seq<byte>)
    ensures (x + y) + z == x + (y + z)
  {
  }

  /** Where the parts of a frame lie. */
  lemma FrameLayout(resolution: byte, r: Result, n: nat)
    requires n <= MaxNbZones
    ensures var frame := FrameWith(resolution, r, n);
      frame[2] == CheckSum.Xor(Image(r)) && frame[4..] == Reversed(r.numberOfZones) + ZonesBigEndian(r.zoneResult[..n])
  {
    var h := [StartByte, resolution, CheckSum.Xor(Image(r)), EndByte];
    var x, y := Reversed(r.numberOfZones), ZonesBigEndian(r.zoneResult[..n]);
    assert (h + x + y)[4..] == x + y;
  }

  /** The memory image of a result, rearranged into the frame payload, the sent padding and the unsent zones. */
  lemma ImageAsFrameParts(r: Result, n: nat)
    requires n <= MaxNbZones
    ensures var sent, unsent := r.zoneResult[..n], r.zoneResult[n..];
      CheckSum.Xor(Image(r))
        == CheckSum.Xor(Reversed(r.numberOfZones) + ZonesBigEndian(sent) + (Paddings(sent) + ZonesImage(unsent)))
  {
    var sent, unsent := r.zoneResult[..n], r.zoneResult[n..];
    var nz, rnz := r.numberOfZones, Reversed(r.numberOfZones);
    var be, pads, si, ui := ZonesBigEndian(sent), Paddings(sent), ZonesImage(sent), ZonesImage(unsent);
    ImageSplit(r, n);
    XorReversed(nz);
    XorSentZones(sent);
    CheckSum.XorCongruence(nz, rnz, si, be + pads);
    CheckSum.XorCongruence(nz + si, rnz + (be + pads), ui, ui);
    Reassociate(rnz, be, pads, ui);
  }

  lemma ImageSplit(r: Result, n: nat)
    requires n <= MaxNbZones
    ensures Image(r) == r.numberOfZones + ZonesImage(r.zoneResult[..n]) + ZonesImage(r.zoneResult[n..])
  {
    assert r.zoneResult == r.zoneResult[..n] + r.zoneResult[n..];
    ZonesImageAppend(r.zoneResult[..n], r.zoneResult[n..]);
  }

  lemma Reassociate(a: seq<byte>, b: seq<byte>, c: seq<byte>, d: seq<byte>)
    ensures a + (b + c) + d == a + b + (c + d)
  {
  }

  /**
    The checksum SendData puts in the frame is taken over the structure in
    memory, not over the bytes sent: it equals the XOR of the sent payload
    together with the padding of the sent zones and the image of the zones not
    sent. So the frame checks out against its own payload exactly when those
    extra bytes XOR to zero.
   */
  lemma BigEndianChecksumGap(resolution: byte, r: Result)
    requires Value(r.numberOfZones) <= MaxNbZones
    ensures var frame, n := BigEndianFrame(resolution, r), Value(r.numberOfZones);
      frame[2] == CheckSum.Xor(frame[4..] + (Paddings(r.zoneResult[..n]) + ZonesImage(r.zoneResult[n..])))
    ensures var frame, n := BigEndianFrame(resolution, r), Value(r.numberOfZones);
      (CheckSum.Xor(frame[4..]) == frame[2])
        <==> (CheckSum.Xor(Paddings(r.zoneResult[..n]) + ZonesImage(r.zoneResult[n..])) == 0)
  {
    var n := Value(r.numberOfZones);
    var frame := FrameWith(resolution, r, n);
    var rest := Paddings(r.zoneResult[..n]) + ZonesImage(r.zoneResult[n..]);
    FrameLayout(resolution, r, n);
    ImageAsFrameParts(r, n);
    CheckSum.XorPrefixMatches(frame[4..], rest);
  }

  /** Writing zone k right after the first k zones extends the written run by one zone. */
  lemma NextZone(s: seq<byte>, at: nat, zs: seq<ZoneResult>, k: nat)
    requires k < |zs| && at + 17 * (k + 1) <= |s|
    ensures Overwrite(Overwrite(s, at, ZonesBigEndian(zs[..k])), at + 17 * k, ZoneBigEndian(zs[k]))
      == Overwrite(s, at, ZonesBigEndian(zs[..k + 1]))
  {
    ZonesBigEndianStep(zs, k);
    OverwriteTwice(s, at, ZonesBigEndian(zs[..k]), ZoneBigEndian(zs[k]));
  }

  lemma ZonesBigEndianStep(zs: seq<ZoneResult>, k: nat)
    requires k < |zs|
    ensures ZonesBigEndian(zs[..k + 1]) == ZonesBigEndian(zs[..k]) + ZoneBigEndian(zs[k])
  {
    assert zs[..k + 1][..k] == zs[..k];
  }

  /** The header written with a stale slot, its slot then filled with the checksum, starts the frame. */
  lemma SlotFilledFrame(resolution: byte, r: Result, n: nat, stale: byte)
    requires n <= MaxNbZones
    ensures ([StartByte, resolution, stale, EndByte] + Reversed(r.numberOfZones))[2 := CheckSum.Xor(Image(r))]
              + ZonesBigEndian(r.zoneResult[..n])
            == FrameWith(resolution, r, n)
  {
    var c := CheckSum.Xor(Image(r));
    assert ([StartByte, resolution, stale, EndByte] + Reversed(r.numberOfZones))[2 := c]
        == [StartByte, resolution, c, EndByte] + Reversed(r.numberOfZones);
  }

  lemma WholeImageVisited(r: Result)
    ensures CheckSum.Visited(Image(r), ResultSize) == Image(r)
  {
  }

  /** Filling the checksum slot of the written frame yields the frame itself. */
  lemma FillSlot(s: seq<byte>, head: seq<byte>, zones: seq<byte>, c: byte)
    requires |head| == 8 && |head| + |zones| <= |s|
    ensures Overwrite(s, 0, head + zones)[2 := c] == Overwrite(s, 0, head[2 := c] + zones)
    ensures Overwrite(s, 0, head[2 := c] + zones)[..|head| + |zones|] == head[2 := c] + zones
  {
  }

  class SlaveDevice {
    /** The UART handle, an opaque reference to the peripheral. */
    var huart: nat
    /** The transmit buffer of PingPongBufferSize bytes. */
    const buffer: array<byte>
    /** The file-static packet that SendDataLe fills and transmits. */
    var packet: Packet

    ghost predicate Valid()
    {
      buffer.Length == PingPongBufferSize
    }

    /** The device structure and the static packet before initialisation: contents unspecified. */
    constructor ()
      ensures Valid() && fresh(buffer)
    {
      buffer := new byte[PingPongBufferSize];
      packet := ZeroPacket;
    }

    /** Tofis_Slave_USART_Init: remembers the UART handle and zeroes the whole buffer. */
    method Init(h: nat)
      requires Valid()
      modifies this, buffer
      ensures Valid() && huart == h && packet == old(packet)
      ensures forall k :: 0 <= k < buffer.Length ==> buffer[k] == 0
    {
      huart := h;
      forall k | 0 <= k < buffer.Length {
        buffer[k] := 0;
      }
    }

    /** Writes a uint32 by shifting out its bytes, most significant first. */
    method PutUint32(index: nat, v: nat) returns (next: nat)
      requires Valid() && index + 4 <= buffer.Length && v < 0x1_0000_0000
      modifies buffer
      ensures next == index + 4
      ensures buffer[..] == Overwrite(old(buffer[..]), index, Be32(v))
    {
      buffer[index] := Low(v / 0x100_0000);
      buffer[index + 1] := Low(v / 0x1_0000);
      buffer[index + 2] := Low(v / 0x100);
      buffer[index + 3] := Low(v);
      next := index + 4;
    }

    /** Writes the memory bytes of a float from the last to the first. */
    method PutFloat(index: nat, w: Word) returns (next: nat)
      requires Valid() && index + 4 <= buffer.Length
      modifies buffer
      ensures next == index + 4
      ensures buffer[..] == Overwrite(old(buffer[..]), index, Reversed(w))
    {
      buffer[index] := w[3];
      buffer[index + 1] := w[2];
      buffer[index + 2] := w[1];
      buffer[index + 3] := w[0];
      next := index + 4;
    }

    /** The loop over one uint32 array of a zone. */
    method PutUint32Array(index: nat, ws: TargetWords) returns (next: nat)
      requires Valid() && index + 4 * NbTargetPerZone <= buffer.Length
      modifies buffer
      ensures next == index + 4 * NbTargetPerZone
      ensures buffer[..] == Overwrite(old(buffer[..]), index, WordsBigEndian(ws))
    {
      next := index;
      for i := 0 to NbTargetPerZone
        invariant next == index + 4 * i
        invariant buffer[..] == Overwrite(old(buffer[..]), index, WordsBigEndian(ws[..i]))
      {
        ghost var before := buffer[..];
        Be32OfValue(ws[i]);
        next := PutUint32(next, Value(ws[i]));
        assert ws[..i + 1] == ws[..i] + [ws[i]];
        OverwriteTwice(old(buffer[..]), index, WordsBigEndian(ws[..i]), Reversed(ws[i]));
      }
      assert ws[..NbTargetPerZone] == ws;
    }

    /** The loop over one float array of a zone. */
    method PutFloatArray(index: nat, ws: TargetWords) returns (next: nat)
      requires Valid() && index + 4 * NbTargetPerZone <= buffer.Length
      modifies buffer
      ensures next == index + 4 * NbTargetPerZone
      ensures buffer[..] == Overwrite(old(buffer[..]), index, WordsBigEndian(ws))
    {
      next := index;
      for i := 0 to NbTargetPerZone
        invariant next == index + 4 * i
        invariant buffer[..] == Overwrite(old(buffer[..]), index, WordsBigEndian(ws[..i]))
      {
        next := PutFloat(next, ws[i]);
        assert ws[..i + 1] == ws[..i] + [ws[i]];
        OverwriteTwice(old(buffer[..]), index, WordsBigEndian(ws[..i]), Reversed(ws[i]));
      }
      assert ws[..NbTargetPerZone] == ws;
    }

    /** One zone of the zone loop: the target count, then the four arrays. */
    method PutZone(index: nat, z: ZoneResult) returns (next: nat)
      requires Valid() && index + 17 <= buffer.Length
      modifies buffer
      ensures next == index + 17
      ensures buffer[..] == Overwrite(old(buffer[..]), index, ZoneBigEndian(z))
    {
      ghost var s0 := buffer[..];
      var t := [z.numberOfTargets];
      buffer[index] := z.numberOfTargets;
      assert buffer[..] == Overwrite(s0, index, t);
      next := PutUint32Array(index + 1, z.distance);
      OverwriteTwice(s0, index, t, WordsBigEndian(z.distance));
      next := PutUint32Array(next, z.status);
      OverwriteTwice(s0, index, t + WordsBigEndian(z.distance), WordsBigEndian(z.status));
      next := PutFloatArray(next, z.ambient);
      OverwriteTwice(s0, index, t + WordsBigEndian(z.distance) + WordsBigEndian(z.status), WordsBigEndian(z.ambient));
      next := PutFloatArray(next, z.signal);
      OverwriteTwice(s0, index, t + WordsBigEndian(z.distance) + WordsBigEndian(z.status) + WordsBigEndian(z.ambient),
                     WordsBigEndian(z.signal));
    }

    /**
      Tofis_Slave_USART_SendData: builds the big-endian frame at the start of
      the buffer and returns the bytes it hands to the UART. The checksum slot
      is filled last, with the checksum of the structure's memory image. The
      rest of the buffer is left as it was.
     */
    method SendData(resolution: byte, result: Result) returns (sent: seq<byte>)
      requires Valid() && Value(result.numberOfZones) <= MaxNbZones
      modifies buffer
      ensures sent == BigEndianFrame(resolution, result)
      ensures buffer[..] == Overwrite(old(buffer[..]), 0, sent)
    {
      var index, checksumPosition := PutHeader(resolution, result.numberOfZones);
      ghost var head := [StartByte, resolution, old(buffer[2]), EndByte] + Reversed(result.numberOfZones);
      var n := Value(result.numberOfZones);
      index := PutZones(index, result.zoneResult, n);
      OverwriteTwice(old(buffer[..]), 0, head, ZonesBigEndian(result.zoneResult[..n]));
      var checksum := CheckSum.CalculateChecksum(Image(result), ResultSize);
      WholeImageVisited(result);
      FillSlot(old(buffer[..]), head, ZonesBigEndian(result.zoneResult[..n]), checksum);
      SlotFilledFrame(resolution, result, n, old(buffer[2]));
      buffer[checksumPosition] := checksum;
      sent := buffer[..index];
    }

    /** The zone loop: zones 0 to n - 1, each right after the previous one. */
    method PutZones(index: nat, zones: seq<ZoneResult>, n: nat) returns (next: nat)
      requires Valid() && n <= |zones| && index + 17 * n <= buffer.Length
      modifies buffer
      ensures next == index + 17 * n
      ensures buffer[..] == Overwrite(old(buffer[..]), index, ZonesBigEndian(zones[..n]))
    {
      next := index;
      var zone: nat := 0;
      while zone < n
        invariant zone <= n && next == index + 17 * zone
        invariant buffer[..] == Overwrite(old(buffer[..]), index, ZonesBigEndian(zones[..zone]))
      {
        next := PutZone(next, zones[zone]);
        NextZone(old(buffer[..]), index, zones, zone);
        zone := zone + 1;
      }
    }

    /** The four header bytes, the checksum slot skipped, then the zone count. */
    method PutHeader(resolution: byte, numberOfZones: Word) returns (index: nat, checksumPosition: nat)
      requires Valid()
      modifies buffer
      ensures index == 8 && checksumPosition == 2
      ensures buffer[..] == Overwrite(old(buffer[..]), 0, [StartByte, resolution, old(buffer[2]), EndByte] + Reversed(numberOfZones))
    {
      index := 0;
      buffer[index] := StartByte;
      index := index + 1;
      buffer[index] := resolution;
      index := index + 1;
      checksumPosition := index;
      index := index + 1;
      buffer[index] := EndByte;
      index := index + 1;
      ghost var markers := [StartByte, resolution, old(buffer[2]), EndByte];
      assert buffer[..] == Overwrite(old(buffer[..]), 0, markers);
      Be32OfValue(numberOfZones);
      index := PutUint32(index, Value(numberOfZones));
      OverwriteTwice(old(buffer[..]), 0, markers, Reversed(numberOfZones));
    }

    /**
      Tofis_Slave_USART_SendData_Le: fills the static packet with the markers,
      the resolution, a copy of the result and the checksum of the result's
      memory image, and returns the packet's memory image, which is what goes
      to the UART.
     */
    method SendDataLe(resolution: byte, result: Result) returns (sent: seq<byte>)
      modifies this
      ensures packet == Packet(StartByte, resolution, CheckSum.Xor(Image(result)), EndByte, result)
      ensures sent == PacketImage(packet)
      ensures huart == old(huart)
    {
      packet := packet.(startByte := StartByte, resolution := resolution, endByte := EndByte);
      packet := packet.(data := result);
      var checksum := CheckSum.CalculateChecksum(Image(result), ResultSize);
      assert CheckSum.Visited(Image(result), ResultSize) == Image(result);
      packet := packet.(checksum := checksum);
      sent := PacketImage(packet);
    }
  }
}
