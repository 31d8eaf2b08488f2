/**
  The in-memory byte image of the result and packet structures, as `memcpy`
  and a `(uint8_t *)` cast see them, and the reinterpretation of such an
  image as a structure. The two are inverse to each other, which is what
  makes a raw struct copy a lossless codec.
 */
module StructImage {
  import opened TofisData

  /** The image of an array of 4-byte fields: the words back to back. */
  function WordsImage(ws: seq<Word>): (b: seq<byte>)
    ensures |b| == 4 * |ws|
  {
    if ws == [] then [] else WordsImage(ws[..|ws| - 1]) + ws[|ws| - 1]
  }

  /** The n words that 4 * n bytes hold. */
  function ParseWords(b: seq<byte>, n: nat): (ws: seq<Word>)
    requires |b| == 4 * n
    ensures |ws| == n
  {
    if n == 0 then [] else ParseWords(b[..|b| - 4], n - 1) + [b[|b| - 4..]]
  }

  lemma {:induction false} WordsRoundTrip(ws: seq<Word>)
    ensures ParseWords(WordsImage(ws), |ws|) == ws
  {
    if ws != [] {
      var b := WordsImage(ws);
      var init := ws[..|ws| - 1];
      assert b[..|b| - 4] == WordsImage(init);
      assert b[|b| - 4..] == ws[|ws| - 1];
      WordsRoundTrip(init);
      assert ws == init + [ws[|ws| - 1]];
    }
  }

  lemma {:induction false} ParseWordsRoundTrip(b: seq<byte>, n: nat)
    requires |b| == 4 * n
    ensures WordsImage(ParseWords(b, n)) == b
  {
    if n != 0 {
      var ws := ParseWords(b, n);
      ParseWordsRoundTrip(b[..|b| - 4], n - 1);
      assert ws[..n - 1] == ParseWords(b[..|b| - 4], n - 1);
      assert b == b[..|b| - 4] + b[|b| - 4..];
    }
  }

  // Offsets inside one zone image
  const DistanceAt: nat := 4
  const StatusAt: nat := 8
  const AmbientAt: nat := 12
  const SignalAt: nat := 16

  /** The ZoneResultSize-byte image of one zone, padding included. */
  function ZoneImage(z: ZoneResult): (b: seq<byte>)
    ensures |b| == ZoneResultSize
  {
    [z.numberOfTargets] + z.padding + WordsImage(z.distance) + WordsImage(z.status)
      + WordsImage(z.ambient) + WordsImage(z.signal)
  }

  function ParseZone(b: seq<byte>): ZoneResult
    requires |b| == ZoneResultSize
  {
    ZoneResult(b[0], b[1..DistanceAt],
               ParseWords(b[DistanceAt..StatusAt], NbTargetPerZone), ParseWords(b[StatusAt..AmbientAt], NbTargetPerZone),
               ParseWords(b[AmbientAt..SignalAt], NbTargetPerZone), ParseWords(b[SignalAt..], NbTargetPerZone))
  }

  lemma ZoneRoundTrip(z: ZoneResult)
    ensures ParseZone(ZoneImage(z)) == z
  {
    var b := ZoneImage(z);
    assert b[1..DistanceAt] == z.padding;
    assert b[DistanceAt..StatusAt] == WordsImage(z.distance);
    assert b[StatusAt..AmbientAt] == WordsImage(z.status);
    assert b[AmbientAt..SignalAt] == WordsImage(z.ambient);
    assert b[SignalAt..] == WordsImage(z.signal);
    WordsRoundTrip(z.distance);
    WordsRoundTrip(z.status);
    WordsRoundTrip(z.ambient);
    WordsRoundTrip(z.signal);
  }

  lemma ParseZoneRoundTrip(b: seq<byte>)
    requires |b| == ZoneResultSize
    ensures ZoneImage(ParseZone(b)) == b
  {
    ParseWordsRoundTrip(b[DistanceAt..StatusAt], NbTargetPerZone);
    ParseWordsRoundTrip(b[StatusAt..AmbientAt], NbTargetPerZone);
    ParseWordsRoundTrip(b[AmbientAt..SignalAt], NbTargetPerZone);
    ParseWordsRoundTrip(b[SignalAt..], NbTargetPerZone);
    assert b == [b[0]] + b[1..DistanceAt] + b[DistanceAt..StatusAt] + b[StatusAt..AmbientAt]
                + b[AmbientAt..SignalAt] + b[SignalAt..];
  }

  /** The image of a zone array: the zone images back to back. */
  function ZonesImage(zs: seq<ZoneResult>): (b: seq<byte>)
    ensures |b| == 20 * |zs|  // ZoneResultSize, written out to keep the arithmetic linear
  {
    if zs == [] then [] else ZonesImage(zs[..|zs| - 1]) + ZoneImage(zs[|zs| - 1])
  }

  /** The n zones that 20 * n bytes hold. */
  function ParseZones(b: seq<byte>, n: nat): (zs: seq<ZoneResult>)
    requires |b| == 20 * n
    ensures |zs| == n
  {
    if n == 0 then [] else ParseZones(b[..|b| - 20], n - 1) + [ParseZone(b[|b| - 20..])]
  }

  lemma {:induction false} ZonesRoundTrip(zs: seq<ZoneResult>)
    ensures ParseZones(ZonesImage(zs), |zs|) == zs
  {
    if zs != [] {
      var init, last := zs[..|zs| - 1], zs[|zs| - 1];
      LastSplit(zs);
      ZonesRoundTrip(init);
      ParseZonesStep(ZonesImage(init), init, last);
    }
  }

  lemma LastSplit<T>(s: seq<T>)
    requires s != []
    ensures s == s[..|s| - 1] + [s[|s| - 1]]
  {
  }

  /** Parsing one more zone image behind parsed ones appends its zone. */
  lemma ParseZonesStep(a: seq<byte>, init: seq<ZoneResult>, last: ZoneResult)
    requires |a| == 20 * |init| && ParseZones(a, |init|) == init
    ensures ParseZones(a + ZoneImage(last), |init| + 1) == init + [last]
  {
    var z := ZoneImage(last);
    assert (a + z)[..|a|] == a;
    assert (a + z)[|a|..] == z;
    ZoneRoundTrip(last);
  }

  lemma {:induction false} ParseZonesRoundTrip(b: seq<byte>, n: nat)
    requires |b| == 20 * n
    ensures ZonesImage(ParseZones(b, n)) == b
  {
    if n != 0 {
      var cut := |b| - 20;
      assert b == b[..cut] + b[cut..];
      var zs := ParseZones(b, n);
      assert zs[..n - 1] == ParseZones(b[..cut], n - 1);
      ParseZonesRoundTrip(b[..cut], n - 1);
      ParseZoneRoundTrip(b[cut..]);
    }
  }

  /** The ResultSize-byte image of a result: the zone count, then all 64 zones. */
  function Image(r: Result): (b: seq<byte>)
    ensures |b| == ResultSize
  {
    r.numberOfZones + ZonesImage(r.zoneResult)
  }

  /** Reinterprets ResultSize bytes as a result, as `memcpy` into the structure does. */
  function FromImage(b: seq<byte>): Result
    requires |b| == ResultSize
  {
    Result(b[..4], ParseZones(b[4..], MaxNbZones))
  }

  /** Copying a result out to bytes and back loses nothing. */
  lemma ImageRoundTrip(r: Result)
    ensures FromImage(Image(r)) == r
  {
    var b := Image(r);
    assert b[..4] == r.numberOfZones;
    assert b[4..] == ZonesImage(r.zoneResult);
    ZonesRoundTrip(r.zoneResult);
  }

  /** Every ResultSize-byte image is the image of exactly the result it decodes to. */
  lemma FromImageRoundTrip(b: seq<byte>)
    requires |b| == ResultSize
    ensures Image(FromImage(b)) == b
  {
    ParseZonesRoundTrip(b[4..], MaxNbZones);
    assert b == b[..4] + b[4..];
  }

  /** The PacketSize-byte image of a packet: the four header bytes, then the result. */
  function PacketImage(p: Packet): (b: seq<byte>)
    ensures |b| == PacketSize
  {
    [p.startByte, p.resolution, p.checksum, p.endByte] + Image(p.data)
  }
}
