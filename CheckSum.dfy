/**
  The device's XOR checksum: an 8-bit accumulator folded over a byte buffer.
  `Xor` is the fold itself; the lemmas below state what such a checksum can
  and cannot detect.
 */
module CheckSum {
  import opened TofisData

  /** Left fold of XOR over `s`, starting from 0. */
  function Xor(s: seq<byte>): byte
  {
    if s == [] then 0 else Xor(s[..|s| - 1]) ^ s[|s| - 1]
  }

  /** The bytes `buffer[0..length)` that a C loop `for (i = 0; i < length; i++)` visits. */
  function Visited(buffer: seq<byte>, length: int): seq<byte>
    requires length <= |buffer|
  {
    if length <= 0 then [] else buffer[..length]
  }

  /** calculate_checksum: XOR of the first `length` bytes; 0 when `length` is 0 or negative. */
  method CalculateChecksum(buffer: seq<byte>, length: int) returns (checksum: byte)
    requires length <= |buffer|
    ensures checksum == Xor(Visited(buffer, length))
    ensures length <= 0 ==> checksum == 0
  {
    checksum := 0;
    var i := 0;
    while i < length
      invariant 0 <= i <= |buffer|
      invariant i <= if length > 0 then length else 0
      invariant checksum == Xor(buffer[..i])
    {
      assert buffer[..i + 1][..i] == buffer[..i];
      checksum := checksum ^ buffer[i];
      i := i + 1;
    }
    if length <= 0 {
      assert buffer[..i] == [];
    }
  }

  /** Extending the buffer by one byte XORs that byte into the checksum. */
  lemma XorAppend(s: seq<byte>, b: byte)
    ensures Xor(s + [b]) == Xor(s) ^ b
  {
    assert (s + [b])[..|s|] == s;
  }

  lemma {:induction false} XorConcat(a: seq<byte>, b: seq<byte>)
    ensures Xor(a + b) == Xor(a) ^ Xor(b)
  {
    if b != [] {
      var init := b[..|b| - 1];
      assert a + b == (a + init) + [b[|b| - 1]];
      XorAppend(a + init, b[|b| - 1]);
      XorConcat(a, init);
    } else {
      assert a + b == a;
    }
  }

  /** Replacing byte i by x changes the checksum by exactly s[i] ^ x. */
  lemma XorUpdate(s: seq<byte>, i: nat, x: byte)
    requires i < |s|
    ensures Xor(s[i := x]) == Xor(s) ^ s[i] ^ x
  {
    assert s == s[..i] + [s[i]] + s[i + 1..];
    assert s[i := x] == s[..i] + [x] + s[i + 1..];
    XorConcat(s[..i] + [s[i]], s[i + 1..]);
    XorConcat(s[..i] + [x], s[i + 1..]);
    XorAppend(s[..i], s[i]);
    XorAppend(s[..i], x);
  }

  /** Changing exactly one byte always changes the checksum. */
  lemma SingleByteChangeDetected(s: seq<byte>, i: nat, x: byte)
    requires i < |s| && x != s[i]
    ensures Xor(s[i := x]) != Xor(s)
  {
    XorUpdate(s, i, x);
  }

  /** The blind spot: two bytes changed by the same XOR delta leave the checksum unchanged. */
  lemma PairedDeltaCancels(s: seq<byte>, i: nat, j: nat, delta: byte)
    requires i < |s| && j < |s| && i != j
    ensures Xor(s[i := s[i] ^ delta][j := s[j] ^ delta]) == Xor(s)
  {
    var t := s[i := s[i] ^ delta];
    XorUpdate(s, i, s[i] ^ delta);
    XorUpdate(t, j, s[j] ^ delta);
  }

  /** Taking byte j out of the buffer takes it out of the checksum. */
  lemma XorRemove(t: seq<byte>, j: nat)
    requires j < |t|
    ensures Xor(t) == Xor(t[..j] + t[j + 1..]) ^ t[j]
  {
    var a, b := t[..j], t[j + 1..];
    assert t == (a + [t[j]]) + b;
    XorWithout(a, t[j], b);
  }

  /** Taking one byte out from between two runs changes the XOR by that byte. */
  lemma XorWithout(a: seq<byte>, x: byte, b: seq<byte>)
    ensures Xor((a + [x]) + b) == Xor(a + b) ^ x
  {
    XorConcat(a + [x], b);
    XorAppend(a, x);
    XorConcat(a, b);
    XorSwap(Xor(a), x, Xor(b));
  }

  lemma XorSwap(x: byte, y: byte, z: byte)
    ensures (x ^ y) ^ z == (x ^ z) ^ y
  {
  }

  lemma MultisetRemove(t: seq<byte>, j: nat)
    requires j < |t|
    ensures multiset(t[..j] + t[j + 1..]) == multiset(t) - multiset{t[j]}
  {
    assert t == t[..j] + [t[j]] + t[j + 1..];
  }

  /** The checksum ignores byte order: any permutation of the bytes has the same checksum. */
  lemma {:induction false} PermutationInvariant(s: seq<byte>, t: seq<byte>)
    requires multiset(s) == multiset(t)
    ensures Xor(s) == Xor(t)
  {
    if s == [] {
      assert |t| == |multiset(t)| == 0;
    } else {
      var init, x := s[..|s| - 1], s[|s| - 1];
      assert s == init + [x];
      assert multiset(init) == multiset(s) - multiset{x};
      assert x in multiset(t);
      var j :| 0 <= j < |t| && t[j] == x;
      MultisetRemove(t, j);
      PermutationInvariant(init, t[..j] + t[j + 1..]);
      XorRemove(t, j);
      XorAppend(init, x);
    }
  }

  /** One more step of the fold over a prefix. */
  lemma XorStep(s: seq<byte>, i: nat)
    requires i < |s|
    ensures Xor(s[..i + 1]) == Xor(s[..i]) ^ s[i]
  {
    assert s[..i + 1][..i] == s[..i];
  }

  /** The checksum of a 4-byte field is the XOR of its four bytes. */
  lemma XorOfFour(w: seq<byte>)
    requires |w| == 4
    ensures Xor(w) == w[0] ^ w[1] ^ w[2] ^ w[3]
  {
    assert w[..0] == [] && w[..4] == w;
    XorStep(w, 0);
    XorStep(w, 1);
    XorStep(w, 2);
    XorStep(w, 3);
  }

  /** Parts with equal checksums make wholes with equal checksums. */
  lemma XorCongruence(a: seq<byte>, a': seq<byte>, b: seq<byte>, b': seq<byte>)
    requires Xor(a) == Xor(a') && Xor(b) == Xor(b')
    ensures Xor(a + b) == Xor(a' + b')
  {
    XorConcat(a, b);
    XorConcat(a', b');
  }

  /** A prefix alone matches the checksum of the whole exactly when the rest XORs to zero. */
  lemma XorPrefixMatches(f: seq<byte>, rest: seq<byte>)
    ensures Xor(f) == Xor(f + rest) <==> Xor(rest) == 0
  {
    XorConcat(f, rest);
  }

  /** Appending the checksum to the data yields a buffer whose checksum is 0. */
  lemma SelfCheck(s: seq<byte>)
    ensures Xor(s + [Xor(s)]) == 0
  {
    XorAppend(s, Xor(s));
  }
}
