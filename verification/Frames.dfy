/** The frame on the serial line: SOF, length, two command octets, payload, check octet. */
module Frames {
  import opened Bytes

  const SOF: byte := 0xFE
  const TYPE_MASK: byte := 0xE0
  const SUBSYSTEM_MASK: byte := 0x1F
  const SREQ: byte := 0x20
  const AREQ: byte := 0x40
  const SRSP: byte := 0x60

  const SYS: byte := 1
  const AF: byte := 4
  const ZDO: byte := 5
  const SAPI: byte := 6

  /** The longest payload the frame format allows. */
  const MAX_PAYLOAD := 250

  datatype Frame = Frame(cmd0: byte, cmd1: byte, payload: seq<byte>) {

    predicate Fits() { |payload| <= MAX_PAYLOAD }

    /** The octets the check octet covers. */
    function Covered(): seq<byte>
      requires Fits()
    { [Octet(|payload|), cmd0, cmd1] + payload }

    /** What the receiver puts on the message queue: commands, payload and check octet. */
    function Message(): seq<byte>
      requires Fits()
    { [cmd0, cmd1] + payload + [Xor(Covered())] }

    function Encode(): seq<byte>
      requires Fits()
    { [SOF] + Covered() + [Xor(Covered())] }
  }

  function CommandType(cmd0: byte): byte { cmd0 & TYPE_MASK }
  function Subsystem(cmd0: byte): byte { cmd0 & SUBSYSTEM_MASK }

  /** Each of these subsystems stores the responses to synchronous requests in the same buffer. */
  predicate StoresResponse(cmd0: byte) {
    Subsystem(cmd0) in {SYS, AF, ZDO, SAPI} && CommandType(cmd0) == SRSP
  }

  /** The receiver's test on the octets that follow SOF: all but the last XOR to the last. */
  predicate Checks(body: seq<byte>)
    requires |body| > 0
  {
    XorTo(body, |body| - 1) == body[|body| - 1]
  }

  lemma ChecksIsXorZero(body: seq<byte>)
    requires |body| > 0
    ensures Checks(body) <==> Xor(body) == 0
  {
    var x, y := XorTo(body, |body| - 1), body[|body| - 1];
    assert x ^ y == 0 <==> x == y;
  }

  /**
   * The checksum law: what is received in place of a genuine frame with the same length octet, and so
   * with as many octets, passes the test exactly when the differences cancel out.
   */
  lemma CorruptionDetection(f: Frame, received: seq<byte>)
    requires f.Fits() && |received| == |f.Encode()| - 1 && received[0] == Octet(|f.payload|)
    ensures Checks(received) <==> Xor(Difference(received, f.Encode()[1..])) == 0
  {
    var sent := f.Encode()[1..];
    assert sent == f.Covered() + [Xor(f.Covered())];
    XorToPrefix(sent, f.Covered(), |f.Covered()|);
    GoodAgainst(received, sent);
  }

  lemma GoodAgainst(received: seq<byte>, sent: seq<byte>)
    requires |received| == |sent| > 0 && Checks(sent)
    ensures Checks(received) <==> Xor(Difference(received, sent)) == 0
  {
    ChecksIsXorZero(sent);
    ChecksIsXorZero(received);
    XorDifference(received, sent, |sent|);
    assert Xor(received) ^ 0 == Xor(received);
  }

  /** Two sequences that differ at exactly one place differ by something that does not cancel out. */
  lemma SingleDifference(s: seq<byte>, t: seq<byte>, k: nat)
    requires k < |s| == |t| && s[k] != t[k]
    requires forall i :: 0 <= i < |s| && i != k ==> s[i] == t[i]
    ensures Xor(Difference(s, t)) != 0
  {
    var d := Difference(s, t);
    forall i | 0 <= i < |d| && i != k ensures d[i] == 0 {
      assert s[i] ^ s[i] == 0;
    }
    assert d[k] != 0 by {
      var a, b := s[k], t[k];
      assert a ^ b == 0 ==> a == b;
    }
    XorSingle(d, k, |d|);
  }

  /** So with a genuine length octet, exactly one damaged octet never passes the test. */
  lemma SingleOctetDamageIsDetected(f: Frame, received: seq<byte>, k: nat)
    requires f.Fits() && |received| == |f.Encode()| - 1 && received[0] == Octet(|f.payload|)
    requires k < |received| && received[k] != f.Encode()[1..][k]
    requires forall i :: 0 <= i < |received| && i != k ==> received[i] == f.Encode()[1..][i]
    ensures k > 0 && !Checks(received)
  {
    SingleDifference(received, f.Encode()[1..], k);
    CorruptionDetection(f, received);
  }

  // ---------- In numbers ----------

  /** The upper three bits of the first command octet are the type, the lower five the subsystem. */
  lemma CommandOctet(t: byte, s: byte)
    requires t < 8 && s < 32
    ensures CommandType((t << 5) | s) == t << 5 && Subsystem((t << 5) | s) == s
    ensures SREQ == 1 << 5 && AREQ == 2 << 5 && SRSP == 3 << 5
  {}

  /** These are the responses of SYS, AF, ZDO and SAPI. */
  lemma StoredOctets(cmd0: byte)
    ensures StoresResponse(cmd0) <==> cmd0 in {0x61, 0x64, 0x65, 0x66}
  {}

  /** The frame on the line: 0xFE, the length, two command octets, the payload, and a check octet. */
  lemma FrameOctets(f: Frame)
    requires |f.payload| <= 250
    ensures f.Fits()
    ensures var s, n := f.Encode(), |f.payload|;
            && |s| == n + 5 && s[0] == 0xFE && s[1] as nat == n && s[2] == f.cmd0 && s[3] == f.cmd1
            && s[4..4 + n] == f.payload && Xor(s[1..]) == 0
    ensures f.Message() == f.Encode()[2..]
  {
    var covered, x := f.Covered(), Xor(f.Covered());
    FrameParts(f.Encode(), SOF, Octet(|f.payload|), f.cmd0, f.cmd1, f.payload, x);
    XorCancels(covered, x);
  }

  lemma XorCancels(covered: seq<byte>, x: byte)
    requires x == Xor(covered)
    ensures Xor(covered + [x]) == 0
  {
    XorToPrefix(covered + [x], covered, |covered|);
    ChecksIsXorZero(covered + [x]);
  }

  lemma FrameParts(s: seq<byte>, sof: byte, len: byte, cmd0: byte, cmd1: byte, payload: seq<byte>, x: byte)
    requires s == [sof] + ([len, cmd0, cmd1] + payload) + [x]
    ensures var n := |payload|;
            && |s| == n + 5 && s[0] == sof && s[1] == len && s[2] == cmd0 && s[3] == cmd1 && s[4..4 + n] == payload
    ensures s[1..] == ([len, cmd0, cmd1] + payload) + [x] && s[2..] == [cmd0, cmd1] + payload + [x]
  {}
}
