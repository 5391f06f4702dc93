/**
 * The neighbour table response on the wire, least significant octets first, and the parser that
 * hands it to the callback. The parser's cursor is eight bits wide.
 */
module LqiCodec {
  import opened Bytes
  import opened Messages

  const ENTRY_SIZE := 22
  const FIRST_ENTRY := 8
  /** The buffer a message is copied to before it is parsed, and the list in the response. */
  const MESSAGE_BUFFER := 257
  const LIST_SIZE := 66
  /** The longest list that fits into a frame. */
  const MAX_NEIGHBOURS := 11

  // ---------- Wide numbers ----------

  /** `x` shifted left by eight bits `k` times. */
  function Shifted(x: wide, k: nat): wide {
    if k == 0 then x else Shifted(x, k - 1) << 8
  }

  /** The `n` lowest octets of a wide number, least significant first. */
  function LowOctets(x: wide, n: nat): (s: seq<byte>)
    ensures |s| == n
    decreases n
  {
    if n == 0 then [] else [(x & 0xFF) as byte] + LowOctets(x >> 8, n - 1)
  }

  function WideOctets(x: wide): (s: seq<byte>)
    ensures |s| == 8
  { LowOctets(x, 8) }

  /** The number with these octets, least significant first. */
  function LittleEndian(s: seq<byte>): wide {
    if s == [] then 0 else (s[0] as wide) | (LittleEndian(s[1..]) << 8)
  }

  lemma ShiftJoins(h: wide, a: wide, b: wide)
    ensures h | ((a | b) << 8) == (h | (a << 8)) | (b << 8)
  {}

  lemma LittleEndianOne(b: byte)
    ensures LittleEndian([b]) == 0 | (b as wide)
  {
    assert [b][1..] == [];
    assert (b as wide) | ((0 as wide) << 8) == 0 | (b as wide);
  }

  /** Shifting one octet more into its place and joining it is what the parser does. */
  lemma {:induction false} LittleEndianAppend(s: seq<byte>, b: byte)
    ensures LittleEndian(s + [b]) == LittleEndian(s) | Shifted(b as wide, |s|)
  {
    if s == [] {
      assert [] + [b] == [b];
      LittleEndianOne(b);
    } else {
      assert (s + [b])[1..] == s[1..] + [b];
      LittleEndianAppend(s[1..], b);
      ShiftJoins(s[0] as wide, LittleEndian(s[1..]), Shifted(b as wide, |s| - 1));
    }
  }

  /** `x` has no bits above its `n` lowest octets. */
  predicate Within(x: wide, n: nat)
    decreases n
  {
    if n == 0 then x == 0 else Within(x >> 8, n - 1)
  }

  lemma LowestOctet(x: wide)
    ensures (((x & 0xFF) as byte) as wide) | ((x >> 8) << 8) == x
  {}

  lemma {:induction false} LowOctetsRoundTrip(x: wide, n: nat)
    requires Within(x, n)
    ensures LittleEndian(LowOctets(x, n)) == x
    decreases n
  {
    if n > 0 {
      assert LowOctets(x, n)[1..] == LowOctets(x >> 8, n - 1);
      LowOctetsRoundTrip(x >> 8, n - 1);
      LowestOctet(x);
    }
  }

  lemma ShiftedOut(x: wide)
    ensures x >> 8 >> 8 >> 8 >> 8 >> 8 >> 8 >> 8 >> 8 == 0
  {}

  lemma EightOctets(x: wide)
    ensures Within(x, 8)
  {
    ShiftedOut(x);
    var x1 := x >> 8;
    var x2 := x1 >> 8;
    var x3 := x2 >> 8;
    var x4 := x3 >> 8;
    var x5 := x4 >> 8;
    var x6 := x5 >> 8;
    var x7 := x6 >> 8;
    assert Within(x7, 1);
    assert Within(x6, 2);
    assert Within(x5, 3);
    assert Within(x4, 4);
    assert Within(x3, 5);
    assert Within(x2, 6);
    assert Within(x1, 7);
  }

  /** Joining the octets of a number gives the number back. */
  lemma WideRoundTrip(x: wide)
    ensures LittleEndian(WideOctets(x)) == x
  {
    EightOctets(x);
    LowOctetsRoundTrip(x, 8);
  }

  /** The octets by their weight: the first has bits 0 to 7, the last bits 56 to 63. */
  lemma WideInBits(s: seq<byte>)
    requires |s| == 8
    ensures LittleEndian(s)
         == (s[0] as wide) | ((s[1] as wide) << 8) | ((s[2] as wide) << 16) | ((s[3] as wide) << 24)
            | ((s[4] as wide) << 32) | ((s[5] as wide) << 40) | ((s[6] as wide) << 48) | ((s[7] as wide) << 56)
  {
    assert s[0..] == s;
    WideFrom(s, s[0] as wide, s[1] as wide, s[2] as wide, s[3] as wide,
             s[4] as wide, s[5] as wide, s[6] as wide, s[7] as wide, LittleEndian(s));
  }

  lemma WideFrom(s: seq<byte>, a: wide, b: wide, c: wide, d: wide, e: wide, f: wide, g: wide, h: wide, x: wide)
    requires |s| == 8 && a == s[0] as wide && b == s[1] as wide && c == s[2] as wide && d == s[3] as wide
    requires e == s[4] as wide && f == s[5] as wide && g == s[6] as wide && h == s[7] as wide
    requires x == TailAt(s, 0)
    ensures x == a | (b << 8) | (c << 16) | (d << 24) | (e << 32) | (f << 40) | (g << 48) | (h << 56)
  {
    var t4 := FourOctets(s, 0, a, b, c, d, x);
    var t8 := FourOctets(s, 4, e, f, g, h, t4);
    EightShifts(a, b, c, d, e, f, g, h, x, t4, t8);
  }

  /** Four octets from the tail that starts at `k`, and the tail behind them. */
  lemma FourOctets(s: seq<byte>, k: nat, a: wide, b: wide, c: wide, d: wide, x: wide) returns (tail: wide)
    requires k + 4 <= |s| && x == TailAt(s, k) && a == s[k] as wide && b == s[k + 1] as wide
    requires c == s[k + 2] as wide && d == s[k + 3] as wide
    ensures tail == TailAt(s, k + 4)
    ensures x == FourJoined(a, b, c, d, tail)
  {
    var t1, t2, t3 := TailAt(s, k + 1), TailAt(s, k + 2), TailAt(s, k + 3);
    tail := TailAt(s, k + 4);
    TailJoins(s, k, x, t1);
    TailJoins(s, k + 1, t1, t2);
    TailJoins(s, k + 2, t2, t3);
    TailJoins(s, k + 3, t3, tail);
  }

  function FourJoined(a: wide, b: wide, c: wide, d: wide, tail: wide): wide {
    a | ((b | ((c | ((d | (tail << 8)) << 8)) << 8)) << 8)
  }

  function TailAt(s: seq<byte>, k: nat): (tail: wide)
    requires k <= |s|
    ensures k == |s| ==> tail == 0
    ensures k == 0 ==> tail == LittleEndian(s)
  {
    assert s[0..] == s;
    LittleEndian(s[k..])
  }

  lemma TailJoins(s: seq<byte>, k: nat, x: wide, tail: wide)
    requires k < |s| && x == TailAt(s, k) && tail == TailAt(s, k + 1)
    ensures x == (s[k] as wide) | (tail << 8)
  {
    assert s[k..][1..] == s[k + 1..];
  }

  lemma EightShifts(a: wide, b: wide, c: wide, d: wide, e: wide, f: wide, g: wide, h: wide,
                    x: wide, t: wide, u: wide)
    requires x == FourJoined(a, b, c, d, t) && t == FourJoined(e, f, g, h, u) && u == 0
    ensures x == a | (b << 8) | (c << 16) | (d << 24) | (e << 32) | (f << 40) | (g << 48) | (h << 56)
  {}

  // ---------- The wire format ----------

  function NeighbourOctets(n: Neighbour): (s: seq<byte>)
    ensures |s| == ENTRY_SIZE
  {
    WideOctets(n.extendedPanId) + WideOctets(n.extendedAddress)
    + [Lo(n.networkAddress), Hi(n.networkAddress), n.flags, n.permitJoining, n.depth, n.lqi]
  }

  /** The first `n` of these blocks, one after the other. */
  function Blocks(blocks: seq<seq<byte>>, n: nat): (s: seq<byte>)
    requires n <= |blocks| && forall k :: 0 <= k < |blocks| ==> |blocks[k]| == ENTRY_SIZE
    ensures |s| == 22 * n
  {
    if n == 0 then [] else Blocks(blocks, n - 1) + blocks[n - 1]
  }

  function Entries(list: seq<Neighbour>): (blocks: seq<seq<byte>>)
    ensures |blocks| == |list| && forall k :: 0 <= k < |list| ==> |blocks[k]| == ENTRY_SIZE
  { seq(|list|, k requires 0 <= k < |list| => NeighbourOctets(list[k])) }

  function Header(r: LqiResponse): (s: seq<byte>)
    requires |r.neighbours| < 256
    ensures |s| == 6
  { [Lo(r.srcAddr), Hi(r.srcAddr), r.status, r.tableEntries, r.startIndex, Octet(|r.neighbours|)] }

  /** The payload of a response; the device sends at most as many entries as fit into a frame. */
  function ResponseOctets(r: LqiResponse): (s: seq<byte>)
    requires |r.neighbours| <= MAX_NEIGHBOURS
    ensures |s| == 6 + 22 * |r.neighbours|
  {
    Header(r) + Blocks(Entries(r.neighbours), |r.neighbours|)
  }

  // ---------- What the parser reads ----------

  /** The increment of an eight-bit cursor. */
  function Bump(p: nat): (q: nat)
    requires p < 256
    ensures q < 256
  { if p == 255 then 0 else p + 1 }

  /** The cursor after `n` increments. */
  function Advance(p: nat, n: nat): (q: nat)
    ensures q < 256
  { (p + n) % 256 }

  /** The `n` octets that a cursor passes. */
  function Slice(buf: seq<byte>, p: nat, n: nat): (s: seq<byte>)
    requires |buf| == MESSAGE_BUFFER
    ensures |s| == n
  { seq(n, i requires 0 <= i < n => buf[Advance(p, i)]) }

  lemma AdvanceTwice(p: nat, m: nat, n: nat)
    ensures Advance(Advance(p, m), n) == Advance(p, m + n)
  {}

  lemma NoWrap(p: nat, n: nat)
    requires p + n < 256
    ensures Advance(p, n) == p + n
  {}

  /** A cursor that does not reach the end passes a stretch of the buffer. */
  lemma SliceIsStraight(buf: seq<byte>, p: nat, n: nat)
    requires |buf| == MESSAGE_BUFFER && p + n < 256
    ensures Advance(p, n) == p + n && Slice(buf, p, n) == buf[p..p + n]
  {}

  function NeighbourOf(s: seq<byte>): Neighbour
    requires |s| == ENTRY_SIZE
  {
    Neighbour(LittleEndian(s[..8]), LittleEndian(s[8..16]), BuildWord(s[16], s[17]), s[18], s[19], s[20], s[21])
  }

  /** The cursor in front of entry `k`. */
  function EntryAt(k: nat): (p: nat)
    ensures p < 256
  { if k == 0 then FIRST_ENTRY else Advance(EntryAt(k - 1), ENTRY_SIZE) }

  function ListAt(buf: seq<byte>, n: nat): (list: seq<Neighbour>)
    requires |buf| == MESSAGE_BUFFER
    ensures |list| == n
  { seq(n, k requires 0 <= k < n => NeighbourAt(buf, k)) }

  function NeighbourAt(buf: seq<byte>, k: nat): Neighbour
    requires |buf| == MESSAGE_BUFFER
  { NeighbourFrom(buf, EntryAt(k)) }

  /** The entry from `p` on. Between the octets of the network address the cursor does not wrap. */
  function NeighbourFrom(buf: seq<byte>, p: nat): Neighbour
    requires |buf| == MESSAGE_BUFFER
  {
    var q := Advance(p, 16);
    Neighbour(LittleEndian(Slice(buf, p, 8)), LittleEndian(Slice(buf, Advance(p, 8), 8)), BuildWord(buf[q], buf[q + 1]),
              buf[Advance(q, 2)], buf[Advance(q, 3)], buf[Advance(q, 4)], buf[Advance(q, 5)])
  }

  /** The message in `buf`, after its two command octets. */
  function ResponseOf(buf: seq<byte>): LqiResponse
    requires |buf| == MESSAGE_BUFFER
  {
    LqiResponse(BuildWord(buf[2], buf[3]), buf[4], buf[5], buf[6], ListAt(buf, buf[7] as nat))
  }

  /** What the callback gets: the response, a list that was never written, or a structure overrun. */
  datatype Parsed = Complete(rsp: LqiResponse) | ListUnset | Overrun

  function ParsedAs(buf: seq<byte>, rpcLen: nat): Parsed
    requires |buf| == MESSAGE_BUFFER
  {
    if rpcLen <= 6 && buf[7] != 0 then ListUnset
    else if buf[7] as nat > LIST_SIZE then Overrun
    else Complete(ResponseOf(buf))
  }

  lemma NeighbourRoundTrip(n: Neighbour)
    ensures NeighbourOf(NeighbourOctets(n)) == n
  {
    var s := NeighbourOctets(n);
    assert s[..8] == WideOctets(n.extendedPanId);
    assert s[8..16] == WideOctets(n.extendedAddress);
    WideRoundTrip(n.extendedPanId);
    WideRoundTrip(n.extendedAddress);
    WordRoundTrip(n.networkAddress);
  }

  lemma {:induction false} EntriesAreStraight(k: nat)
    requires k <= MAX_NEIGHBOURS
    ensures EntryAt(k) == FIRST_ENTRY + 22 * k
  {
    if k > 0 {
      EntriesAreStraight(k - 1);
      NoWrap(FIRST_ENTRY + 22 * (k - 1), ENTRY_SIZE);
    }
  }

  /** An entry that ends before index 256 is read as it stands. */
  lemma NeighbourIsStraight(buf: seq<byte>, p: nat)
    requires |buf| == MESSAGE_BUFFER && p + ENTRY_SIZE < 256
    ensures NeighbourFrom(buf, p) == NeighbourOf(buf[p..p + ENTRY_SIZE])
  {
    var s := buf[p..p + ENTRY_SIZE];
    SliceIsStraight(buf, p, 8);
    SliceIsStraight(buf, p + 8, 8);
    assert s[..8] == buf[p..p + 8] && s[8..16] == buf[p + 8..p + 16];
    NoWrap(p, 16);
    NoWrap(p + 16, 2);
    NoWrap(p + 16, 3);
    NoWrap(p + 16, 4);
    NoWrap(p + 16, 5);
  }

  lemma EntryRoundTrip(buf: seq<byte>, k: nat, n: Neighbour)
    requires |buf| == MESSAGE_BUFFER && k < MAX_NEIGHBOURS
    requires buf[FIRST_ENTRY + 22 * k..FIRST_ENTRY + 22 * k + ENTRY_SIZE] == NeighbourOctets(n)
    ensures NeighbourAt(buf, k) == n
  {
    EntriesAreStraight(k);
    NeighbourIsStraight(buf, FIRST_ENTRY + 22 * k);
    NeighbourRoundTrip(n);
  }

  lemma {:induction false} BlockStands(buf: seq<byte>, at: nat, blocks: seq<seq<byte>>, n: nat, k: nat)
    requires k < n <= |blocks| && at + 22 * n <= |buf|
    requires forall k :: 0 <= k < |blocks| ==> |blocks[k]| == ENTRY_SIZE
    requires buf[at..at + 22 * n] == Blocks(blocks, n)
    ensures buf[at + 22 * k..at + 22 * k + ENTRY_SIZE] == blocks[k]
  {
    TwoParts(buf, at, Blocks(blocks, n - 1), blocks[n - 1]);
    if k < n - 1 {
      BlockStands(buf, at, blocks, n - 1, k);
    }
  }

  lemma EntryStands(buf: seq<byte>, blocks: seq<seq<byte>>, k: nat, e: Neighbour)
    requires |buf| == MESSAGE_BUFFER && k < |blocks| <= MAX_NEIGHBOURS
    requires forall k :: 0 <= k < |blocks| ==> |blocks[k]| == ENTRY_SIZE
    requires buf[FIRST_ENTRY..FIRST_ENTRY + 22 * |blocks|] == Blocks(blocks, |blocks|)
    requires blocks[k] == NeighbourOctets(e)
    ensures NeighbourAt(buf, k) == e
  {
    BlockStands(buf, FIRST_ENTRY, blocks, |blocks|, k);
    EntryRoundTrip(buf, k, e);
  }

  lemma ListRoundTrip(buf: seq<byte>, list: seq<Neighbour>, blocks: seq<seq<byte>>)
    requires |buf| == MESSAGE_BUFFER && |list| <= MAX_NEIGHBOURS && blocks == Entries(list)
    requires buf[FIRST_ENTRY..FIRST_ENTRY + 22 * |blocks|] == Blocks(blocks, |blocks|)
    ensures ListAt(buf, |list|) == list
  {
    forall k | 0 <= k < |list| ensures ListAt(buf, |list|)[k] == list[k] {
      EntryStands(buf, blocks, k, list[k]);
    }
  }

  lemma HeaderRoundTrip(buf: seq<byte>, r: LqiResponse)
    requires |buf| == MESSAGE_BUFFER && |r.neighbours| <= MAX_NEIGHBOURS && buf[2..8] == Header(r)
    ensures buf[7] as nat == |r.neighbours|
    ensures ResponseOf(buf) == r.(neighbours := ListAt(buf, |r.neighbours|))
  {
    var s := buf[2..8];
    assert s[0] == buf[2] && s[1] == buf[3] && s[2] == buf[4] && s[3] == buf[5] && s[4] == buf[6] && s[5] == buf[7];
    WordRoundTrip(r.srcAddr);
  }

  /** Whatever stands behind the message in the buffer, the parser gets back the response sent. */
  lemma ResponseRoundTrip(buf: seq<byte>, r: LqiResponse)
    requires |r.neighbours| <= MAX_NEIGHBOURS && |buf| == MESSAGE_BUFFER
    requires buf[2..2 + |ResponseOctets(r)|] == ResponseOctets(r)
    ensures ResponseOf(buf) == r
  {
    var blocks := Entries(r.neighbours);
    TwoParts(buf, 2, Header(r), Blocks(blocks, |blocks|));
    ListRoundTrip(buf, r.neighbours, blocks);
    HeaderRoundTrip(buf, r);
  }

  /** Where each field of the response is read, counted from the first octet of the message. */
  lemma HeaderPositions(buf: seq<byte>)
    requires |buf| == MESSAGE_BUFFER
    ensures var r := ResponseOf(buf);
            && r.srcAddr & 0x00FF == buf[2] as word && r.srcAddr >> 8 == buf[3] as word
            && r.status == buf[4] && r.tableEntries == buf[5] && r.startIndex == buf[6]
            && |r.neighbours| == buf[7] as nat
  {
    WordBits(0, buf[2], buf[3]);
  }

  /** Where each field of an entry is read: entry `k` starts at octet 8 + 22 k and has 22 octets. */
  lemma EntryPositions(buf: seq<byte>, k: nat, p: nat)
    requires |buf| == MESSAGE_BUFFER && k < buf[7] as nat && k < 11 && p == 8 + 22 * k
    ensures ResponseOf(buf).neighbours[k] == NeighbourAt(buf, k)
    ensures var n := NeighbourAt(buf, k);
            && n.extendedPanId == LittleEndian(buf[p..p + 8])
            && n.extendedAddress == LittleEndian(buf[p + 8..p + 16])
            && n.networkAddress & 0x00FF == buf[p + 16] as word && n.networkAddress >> 8 == buf[p + 17] as word
            && n.flags == buf[p + 18] && n.permitJoining == buf[p + 19]
            && n.depth == buf[p + 20] && n.lqi == buf[p + 21]
  {
    EntriesAreStraight(k);
    NeighbourIsStraight(buf, p);
    NeighbourPositions(buf, p);
  }

  lemma NeighbourPositions(buf: seq<byte>, p: nat)
    requires p + 22 <= |buf|
    ensures var n := NeighbourOf(buf[p..p + 22]);
            && n.extendedPanId == LittleEndian(buf[p..p + 8])
            && n.extendedAddress == LittleEndian(buf[p + 8..p + 16])
            && n.networkAddress & 0x00FF == buf[p + 16] as word && n.networkAddress >> 8 == buf[p + 17] as word
            && n.flags == buf[p + 18] && n.permitJoining == buf[p + 19]
            && n.depth == buf[p + 20] && n.lqi == buf[p + 21]
  {
    var s := buf[p..p + 22];
    assert s[..8] == buf[p..p + 8];
    var a, b := s[8..16], buf[p + 8..p + 16];
    assert forall i :: 0 <= i < 8 ==> a[i] == b[i];
    assert a == b;
    WordBits(0, s[16], s[17]);
  }

  // ---------- The parser ----------

  /** The statement of that loop: shift the octet into its place and join it. */
  method JoinOctet(x: wide, b: byte, ind: nat, ghost s: seq<byte>) returns (y: wide)
    requires x == LittleEndian(s) && |s| == ind
    ensures y == LittleEndian(s + [b])
  {
    LittleEndianAppend(s, b);
    y := x | Shifted(b as wide, ind);
  }

  /** The loop that joins eight octets, least significant first. */
  method ParseWide(rpcBuff: seq<byte>, start: nat) returns (x: wide, msgIdx: nat)
    requires |rpcBuff| == MESSAGE_BUFFER && start < 256
    ensures x == LittleEndian(Slice(rpcBuff, start, 8))
    ensures msgIdx == Advance(start, 8)
  {
    x, msgIdx := 0, start;
    ghost var s: seq<byte> := [];
    var ind := 0;
    while ind < 8
      invariant 0 <= ind <= 8
      invariant msgIdx == Advance(start, ind)
      invariant s == Slice(rpcBuff, start, ind) && x == LittleEndian(s)
    {
      x := JoinOctet(x, rpcBuff[msgIdx], ind, s);
      s := s + [rpcBuff[msgIdx]];
      msgIdx := Bump(msgIdx);
      ind := ind + 1;
    }
  }

  method ParseNeighbour(rpcBuff: seq<byte>, start: nat) returns (n: Neighbour, msgIdx: nat)
    requires |rpcBuff| == MESSAGE_BUFFER && start < 256
    ensures n == NeighbourFrom(rpcBuff, start)
    ensures msgIdx == Advance(start, ENTRY_SIZE)
  {
    var panId, extended;
    panId, msgIdx := ParseWide(rpcBuff, start);
    extended, msgIdx := ParseWide(rpcBuff, msgIdx);
    AdvanceTwice(start, 8, 8);
    ghost var q := msgIdx;
    OneStep(q, 2);
    OneStep(q, 3);
    OneStep(q, 4);
    OneStep(q, 5);
    AdvanceTwice(start, 16, 6);
    var networkAddress := BuildWord(rpcBuff[msgIdx], rpcBuff[msgIdx + 1]);
    msgIdx := Advance(msgIdx, 2);
    var flags := rpcBuff[msgIdx];
    msgIdx := Bump(msgIdx);
    var permitJoining := rpcBuff[msgIdx];
    msgIdx := Bump(msgIdx);
    var depth := rpcBuff[msgIdx];
    msgIdx := Bump(msgIdx);
    var lqi := rpcBuff[msgIdx];
    msgIdx := Bump(msgIdx);
    n := Neighbour(panId, extended, networkAddress, flags, permitJoining, depth, lqi);
  }

  lemma OneStep(p: nat, n: nat)
    ensures Bump(Advance(p, n)) == Advance(p, n + 1)
  {}

  lemma NextEntry(buf: seq<byte>, k: nat)
    requires |buf| == MESSAGE_BUFFER
    ensures EntryAt(k + 1) == Advance(EntryAt(k), ENTRY_SIZE)
    ensures ListAt(buf, k + 1) == ListAt(buf, k) + [NeighbourAt(buf, k)]
  {}

  /** The loop over the list. */
  method ParseList(rpcBuff: seq<byte>, count: nat) returns (list: seq<Neighbour>)
    requires |rpcBuff| == MESSAGE_BUFFER && count <= LIST_SIZE
    ensures list == ListAt(rpcBuff, count)
  {
    var msgIdx, i := FIRST_ENTRY, 0;
    list := [];
    while i < count
      invariant 0 <= i <= count
      invariant msgIdx == EntryAt(i)
      invariant list == ListAt(rpcBuff, i)
    {
      var n;
      n, msgIdx := ParseNeighbour(rpcBuff, msgIdx);
      NextEntry(rpcBuff, i);
      list := list + [n];
      i := i + 1;
    }
  }

  /**
   * Parses a response. The list has room for 66 entries and a greater count writes behind it; a
   * message of six octets or fewer leaves the list as it is, whatever it counts.
   */
  method ProcessMgmtLqiRsp(rpcBuff: seq<byte>, rpcLen: nat) returns (p: Parsed)
    requires |rpcBuff| == MESSAGE_BUFFER
    ensures p == ParsedAs(rpcBuff, rpcLen)
    ensures rpcLen <= 6 && rpcBuff[7] != 0 <==> p == ListUnset
    ensures rpcLen > 6 && rpcBuff[7] > 66 <==> p == Overrun
    ensures rpcBuff[7] == 0 || (rpcLen > 6 && rpcBuff[7] <= 66) <==> p == Complete(ResponseOf(rpcBuff))
  {
    var srcAddr := BuildWord(rpcBuff[2], rpcBuff[3]);
    var status, entries, startIndex, count := rpcBuff[4], rpcBuff[5], rpcBuff[6], rpcBuff[7];
    if rpcLen <= 6 && count != 0 {
      return ListUnset;
    }
    if count as nat > LIST_SIZE {
      return Overrun;
    }
    var list := ParseList(rpcBuff, count as nat);
    p := Complete(LqiResponse(srcAddr, status, entries, startIndex, list));
  }
}
