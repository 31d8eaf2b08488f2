/**
  The host's command-line copier: the typed line, a NUL-terminated C string,
  is copied byte by byte into the command buffer that is then written to
  the serial port, `strlen(buffer)` bytes of it.
 */
module TofisInputParser {
  import opened TofisData

  /** TOFIS_USER_INPUT_BUF_SIZE: the line buffer and the command buffer. */
  const CmdBufSize: nat := 256

  /** `strlen`: the position of the first NUL. */
  function StrLen(s: seq<byte>): (n: nat)
    requires 0 in s
    ensures n < |s| && s[n] == 0
    ensures forall k :: 0 <= k < n ==> s[k] != 0
  {
    if s[0] == 0 then 0
    else
      assert 0 in s[1..] by {
        var k :| 0 <= k < |s| && s[k] == 0;
        assert s[1..][k - 1] == 0;
      }
      StrLen(s[1..]) + 1
  }

  /** A NUL at n with none before it is where `strlen` stops. */
  lemma StrLenAt(s: seq<byte>, n: nat)
    requires n < |s| && s[n] == 0
    requires forall k :: 0 <= k < n ==> s[k] != 0
    ensures 0 in s && StrLen(s) == n
  {
    var m := StrLen(s);
  }

  /** How many bytes the copy loop writes: the string, at most CmdBufSize of it. */
  function CopyCount(input: seq<byte>): (n: nat)
    requires 0 in input
    ensures n <= CmdBufSize && n <= StrLen(input)
    ensures n == StrLen(input) || n == CmdBufSize
  {
    if StrLen(input) < CmdBufSize then StrLen(input) else CmdBufSize
  }

  /** The buffer after the copy: the string's bytes in front, the old bytes behind. */
  function CopiedInto(buf: seq<byte>, input: seq<byte>): (r: seq<byte>)
    requires 0 in input && CopyCount(input) <= |buf|
    ensures |r| == |buf|
    ensures forall i :: 0 <= i < CopyCount(input) ==> r[i] == input[i]
    ensures forall i :: CopyCount(input) <= i < |buf| ==> r[i] == buf[i]
  {
    input[..CopyCount(input)] + buf[CopyCount(input)..]
  }

  /**
    `parse_to_cmd_buf`: copies the string's bytes, no more than CmdBufSize of
    them, writes no terminator, and reports the full string length.
   */
  method ParseToCmdBuf(input: seq<byte>, toBuf: array<byte>) returns (bufLen: nat)
    requires 0 in input && CopyCount(input) <= toBuf.Length
    modifies toBuf
    ensures toBuf[..] == CopiedInto(old(toBuf[..]), input)
    ensures bufLen == StrLen(input)
  {
    var len := StrLen(input);
    var i := 0;
    while i < len && i < CmdBufSize
      invariant 0 <= i <= CopyCount(input)
      invariant forall k :: 0 <= k < i ==> toBuf[k] == input[k]
      invariant forall k :: i <= k < toBuf.Length ==> toBuf[k] == old(toBuf[k])
    {
      toBuf[i] := input[i];
      i := i + 1;
    }
    bufLen := len;
  }

  /**
    The caller reads the line with `fgets` into a CmdBufSize-byte buffer, so
    the string is shorter than the copy bound and reaches the command buffer whole.
   */
  lemma FgetsLineCopiedWhole(buf: seq<byte>, line: seq<byte>)
    requires |line| <= CmdBufSize && 0 in line && StrLen(line) <= |buf|
    ensures CopyCount(line) == StrLen(line) < CmdBufSize
    ensures CopiedInto(buf, line)[..StrLen(line)] == line[..StrLen(line)]
  {
  }

  /** What the caller writes to the port: `strlen(to_tofis_buf)` bytes of the buffer. */
  function SentBytes(buf: seq<byte>): (s: seq<byte>)
    requires 0 in buf
    ensures 0 !in s && |s| < |buf| && s == buf[..|s|] && buf[|s|] == 0
  {
    buf[..StrLen(buf)]
  }

  const CmdResolution: byte := 0x72  // 'r'
  const CmdSignalAmbient: byte := 0x73  // 's'
  const CmdTargetOrder: byte := 0x74  // 't'

  /**
    Without a terminator the command sent is whatever the buffer holds up to
    an older NUL: after "rs" was sent from a zeroed buffer, typing "t" sends
    "ts", and the device toggles the signal outputs as well as the target order.
   */
  lemma StaleByteResent()
    ensures var first := CopiedInto(seq(CmdBufSize, _ => 0), [CmdResolution, CmdSignalAmbient, 0]);
            var second := CopiedInto(first, [CmdTargetOrder, 0]);
            0 in second && SentBytes(second) == [CmdTargetOrder, CmdSignalAmbient]
  {
    var zeros: seq<byte> := seq(CmdBufSize, _ => 0);
    var rs: seq<byte> := [CmdResolution, CmdSignalAmbient, 0];
    var t: seq<byte> := [CmdTargetOrder, 0];
    StrLenAt(rs, 2);
    StrLenAt(t, 1);
    var first := CopiedInto(zeros, rs);
    var second := CopiedInto(first, t);
    assert second[0] == CmdTargetOrder && second[1] == CmdSignalAmbient && second[2] == 0;
    StrLenAt(second, 2);
    assert SentBytes(second) == second[..2];
  }

  // ---- A terminating copy ----

  /** How many bytes the terminating copy keeps: the string, at most one short of the buffer. */
  function TerminatedCount(input: seq<byte>): (n: nat)
    requires 0 in input
    ensures n < CmdBufSize && n <= StrLen(input)
    ensures n == StrLen(input) || n == CmdBufSize - 1
  {
    if StrLen(input) < CmdBufSize then StrLen(input) else CmdBufSize - 1
  }

  /** The buffer after the terminating copy: the kept bytes, a NUL, the old bytes behind. */
  function TerminatedInto(buf: seq<byte>, input: seq<byte>): (r: seq<byte>)
    requires 0 in input && TerminatedCount(input) < |buf|
    ensures |r| == |buf| && r[TerminatedCount(input)] == 0
    ensures forall i :: 0 <= i < TerminatedCount(input) ==> r[i] == input[i]
  {
    input[..TerminatedCount(input)] + [0] + buf[TerminatedCount(input) + 1..]
  }

  /** Whatever the buffer held before, the bytes sent are exactly the (bounded) command typed. */
  lemma TerminatedSendsCommand(buf: seq<byte>, input: seq<byte>)
    requires 0 in input && TerminatedCount(input) < |buf|
    ensures 0 in TerminatedInto(buf, input)
    ensures SentBytes(TerminatedInto(buf, input)) == input[..TerminatedCount(input)]
  {
    var r := TerminatedInto(buf, input);
    var n := TerminatedCount(input);
    assert forall k :: 0 <= k < n ==> r[k] != 0 by {
      forall k | 0 <= k < n
        ensures r[k] != 0
      {
        assert r[k] == input[k];
      }
    }
    StrLenAt(r, n);
    assert r[..n] == input[..n];
  }

  /** The copy with the terminator written after the last byte kept. */
  method ParseToCmdBufTerminated(input: seq<byte>, toBuf: array<byte>) returns (bufLen: nat)
    requires 0 in input && TerminatedCount(input) < toBuf.Length
    modifies toBuf
    ensures toBuf[..] == TerminatedInto(old(toBuf[..]), input)
    ensures bufLen == TerminatedCount(input)
  {
    var len := StrLen(input);
    var i := 0;
    while i < len && i < CmdBufSize - 1
      invariant 0 <= i <= TerminatedCount(input)
      invariant forall k :: 0 <= k < i ==> toBuf[k] == input[k]
      invariant forall k :: i <= k < toBuf.Length ==> toBuf[k] == old(toBuf[k])
    {
      toBuf[i] := input[i];
      i := i + 1;
    }
    toBuf[i] := 0;
    bufLen := i;
  }
}
