/**
 * The requests whose payload contains lists, as the encoders write them: through a cursor, into a
 * buffer whose length is computed beforehand. Each has a decoder, and the pair loses nothing.
 */
module Requests {
  import opened Bytes
  import opened Frames

  datatype Option<+T> = None | Some(value: T)

  const MAX_CLUSTERS := 16

  // ---------- Lists ----------

  /** The first `n` words of a list, low octet first. */
  function WordsTo(list: seq<word>, n: nat): (s: seq<byte>)
    requires n <= |list|
    ensures |s| == 2 * n
  {
    if n == 0 then [] else WordsTo(list, n - 1) + [Lo(list[n - 1]), Hi(list[n - 1])]
  }

  /** A counted list of words. */
  function Counted(list: seq<word>): (s: seq<byte>)
    requires |list| < 256
    ensures |s| == 1 + 2 * |list|
  { [Octet(|list|)] + WordsTo(list, |list|) }

  function WordsAt(s: seq<byte>, at: nat, n: nat): (list: seq<word>)
    requires at + 2 * n <= |s|
    ensures |list| == n
  {
    if n == 0 then []
    else WordsAt(s, at, n - 1) + [BuildWord(s[at + 2 * n - 2], s[at + 2 * n - 1])]
  }

  /** The counted list at `at`. */
  function CountedAt(s: seq<byte>, at: nat): (r: Option<seq<word>>)
    ensures r.Some? ==> at + 1 + 2 * |r.value| <= |s|
  {
    if at < |s| && at + 1 + 2 * (s[at] as nat) <= |s| then Some(WordsAt(s, at + 1, s[at] as nat)) else None
  }

  lemma {:induction false} WordsRoundTrip(s: seq<byte>, at: nat, list: seq<word>, n: nat)
    requires n <= |list| && at + 2 * n <= |s| && s[at..at + 2 * n] == WordsTo(list, n)
    ensures WordsAt(s, at, n) == list[..n]
  {
    if n > 0 {
      var w := list[n - 1];
      TwoParts(s, at, WordsTo(list, n - 1), [Lo(w), Hi(w)]);
      WordsRoundTrip(s, at, list, n - 1);
      PairAt(s, at + 2 * (n - 1), Lo(w), Hi(w));
      WordRoundTrip(w);
      TakeOneMore(list, n);
    }
  }

  lemma PairAt(s: seq<byte>, at: nat, x: byte, y: byte)
    requires at + 2 <= |s| && s[at..at + 2] == [x, y]
    ensures s[at] == x && s[at + 1] == y
  {
    assert s[at..at + 2][0] == x && s[at..at + 2][1] == y;
  }

  lemma CountedRoundTrip(head: seq<byte>, list: seq<word>, tail: seq<byte>)
    requires |list| < 256
    ensures CountedAt(head + Counted(list) + tail, |head|) == Some(list)
  {
    var s, at, n := head + Counted(list) + tail, |head|, |list|;
    assert s[at] == Octet(n);
    assert s[at + 1..at + 1 + 2 * n] == WordsTo(list, n);
    WordsRoundTrip(s, at + 1, list, n);
    assert list[..n] == list;
  }

  /** Two counted lists from `at` to the end. */
  function TwoListsAt(s: seq<byte>, at: nat): Option<(seq<word>, seq<word>)> {
    var a := CountedAt(s, at);
    if a.None? then None
    else
      var next := at + 1 + 2 * |a.value|;
      var b := CountedAt(s, next);
      if b.Some? && next + 1 + 2 * |b.value| == |s| then Some((a.value, b.value)) else None
  }

  lemma TwoListsRoundTrip(head: seq<byte>, a: seq<word>, b: seq<word>)
    requires |a| < 256 && |b| < 256
    ensures TwoListsAt(head + Counted(a) + Counted(b), |head|) == Some((a, b))
  {
    CountedRoundTrip(head, a, Counted(b));
    CountedRoundTrip(head + Counted(a), b, []);
    assert head + Counted(a) + Counted(b) + [] == head + Counted(a) + Counted(b);
  }

  // ---------- Requests ----------

  /** Registration of an endpoint. */
  datatype Register = Register(endPoint: byte, profile: word, device: word, version: byte, latency: byte,
                               inClusters: seq<word>, outClusters: seq<word>) {
    predicate Fits() { |inClusters| <= MAX_CLUSTERS && |outClusters| <= MAX_CLUSTERS }

    function Head(): (s: seq<byte>)
      ensures |s| == 7
    { [endPoint, Lo(profile), Hi(profile), Lo(device), Hi(device), version, latency] }

    function Octets(): (s: seq<byte>)
      requires Fits()
      ensures |s| == 9 + 2 * |inClusters| + 2 * |outClusters|
    { Head() + Counted(inClusters) + Counted(outClusters) }

    static function Decode(s: seq<byte>): Option<Register> {
      var lists := TwoListsAt(s, 7);
      if |s| < 7 || lists.None? then None
      else Some(Register(s[0], BuildWord(s[1], s[2]), BuildWord(s[3], s[4]), s[5], s[6], lists.value.0, lists.value.1))
    }
  }

  /** Search for endpoints that match clusters. */
  datatype MatchDesc = MatchDesc(dstAddr: word, ofInterest: word, profile: word,
                                 inClusters: seq<word>, outClusters: seq<word>) {
    predicate Fits() { |inClusters| <= MAX_CLUSTERS && |outClusters| <= MAX_CLUSTERS }

    function Head(): (s: seq<byte>)
      ensures |s| == 6
    { [Lo(dstAddr), Hi(dstAddr), Lo(ofInterest), Hi(ofInterest), Lo(profile), Hi(profile)] }

    function Octets(): (s: seq<byte>)
      requires Fits()
      ensures |s| == 8 + 2 * |inClusters| + 2 * |outClusters|
    { Head() + Counted(inClusters) + Counted(outClusters) }

    static function Decode(s: seq<byte>): Option<MatchDesc> {
      var lists := TwoListsAt(s, 6);
      if |s| < 6 || lists.None? then None
      else Some(MatchDesc(BuildWord(s[0], s[1]), BuildWord(s[2], s[3]), BuildWord(s[4], s[5]),
                          lists.value.0, lists.value.1))
    }
  }

  /** Binding of end devices. */
  datatype EndDeviceBind = EndDeviceBind(dstAddr: word, coordinator: word, ieee: seq<byte>, endPoint: byte,
                                         profile: word, inClusters: seq<word>, outClusters: seq<word>) {
    predicate Fits() { |ieee| == 8 && |inClusters| <= MAX_CLUSTERS && |outClusters| <= MAX_CLUSTERS }

    function Head(): (s: seq<byte>)
      requires Fits()
      ensures |s| == 15
    { [Lo(dstAddr), Hi(dstAddr), Lo(coordinator), Hi(coordinator)] + ieee + [endPoint, Lo(profile), Hi(profile)] }

    function Octets(): (s: seq<byte>)
      requires Fits()
      ensures |s| == 17 + 2 * |inClusters| + 2 * |outClusters|
    { Head() + Counted(inClusters) + Counted(outClusters) }

    static function Decode(s: seq<byte>): Option<EndDeviceBind> {
      var lists := TwoListsAt(s, 15);
      if |s| < 15 || lists.None? then None
      else Some(EndDeviceBind(BuildWord(s[0], s[1]), BuildWord(s[2], s[3]), s[4..12], s[12], BuildWord(s[13], s[14]),
                              lists.value.0, lists.value.1))
    }
  }

  const EXTENDED_ADDRESS: byte := 3

  /** Binding; only an extended destination address has eight octets and an endpoint. */
  datatype Bind = Bind(dstAddr: word, srcAddress: seq<byte>, srcEndpoint: byte, cluster: word, mode: byte,
                       dstAddress: seq<byte>, dstEndpoint: byte) {
    predicate Fits() { |srcAddress| == 8 && |dstAddress| == 8 }

    function Head(): (s: seq<byte>)
      requires Fits()
      ensures |s| == 14
    { [Lo(dstAddr), Hi(dstAddr)] + srcAddress + [srcEndpoint, Lo(cluster), Hi(cluster), mode] }

    function Octets(): (s: seq<byte>)
      requires Fits()
      ensures |s| == if mode == EXTENDED_ADDRESS then 23 else 16
    { Head() + if mode == EXTENDED_ADDRESS then dstAddress + [dstEndpoint] else dstAddress[..2] }

    /** The request without what is not sent. */
    function Sent(): Bind
      requires Fits()
    { if mode == EXTENDED_ADDRESS then this else this.(dstAddress := dstAddress[..2], dstEndpoint := 0) }

    static function Decode(s: seq<byte>): Option<Bind> {
      if |s| < 14 || |s| != (if s[13] == EXTENDED_ADDRESS then 23 else 16) then None
      else Some(Bind(BuildWord(s[0], s[1]), s[2..10], s[10], BuildWord(s[11], s[12]), s[13],
                     if s[13] == EXTENDED_ADDRESS then s[14..22] else s[14..16],
                     if s[13] == EXTENDED_ADDRESS then s[22] else 0))
    }
  }

  /** Data along a given route. */
  datatype SourceRouted = SourceRouted(dstAddr: word, dstEndpoint: byte, srcEndpoint: byte, cluster: word,
                                       transId: byte, options: byte, radius: byte,
                                       relays: seq<word>, data: seq<byte>) {
    predicate Fits() { |relays| <= 255 && |data| <= 128 && 11 + 2 * |relays| + |data| <= MAX_PAYLOAD }

    function Head(): (s: seq<byte>)
      ensures |s| == 9
    { [Lo(dstAddr), Hi(dstAddr), dstEndpoint, srcEndpoint, Lo(cluster), Hi(cluster), transId, options, radius] }

    function Octets(): (s: seq<byte>)
      requires Fits()
      ensures |s| == 11 + 2 * |relays| + |data|
    { Head() + Counted(relays) + ([Octet(|data|)] + data) }

    static function Decode(s: seq<byte>): Option<SourceRouted> {
      var relays := CountedAt(s, 9);
      if |s| < 9 || relays.None? then None
      else
        var next := 10 + 2 * |relays.value|;
        if next >= |s| || |s| != next + 1 + s[next] as nat then None
        else Some(SourceRouted(BuildWord(s[0], s[1]), s[2], s[3], BuildWord(s[4], s[5]), s[6], s[7], s[8],
                               relays.value, s[next + 1..]))
    }
  }

  /** Data to an extended address; `len` octets of `data` are sent. */
  datatype Extended = Extended(mode: byte, dstAddr: seq<byte>, dstEndpoint: byte, pan: word, srcEndpoint: byte,
                               cluster: word, transId: byte, options: byte, radius: byte, len: word, data: seq<byte>) {
    predicate Fits() { |dstAddr| == 8 && |data| == 230 && len as nat <= 230 }

    function Head(): (s: seq<byte>)
      requires Fits()
      ensures |s| == 20
    {
      [mode] + dstAddr + [dstEndpoint, Lo(pan), Hi(pan), srcEndpoint, Lo(cluster), Hi(cluster),
                          transId, options, radius, Lo(len), Hi(len)]
    }

    function Octets(): (s: seq<byte>)
      requires Fits()
      ensures |s| == 20 + len as nat
    { Head() + data[..len as nat] }

    function Sent(): Extended
      requires Fits()
    { this.(data := data[..len as nat]) }

    static function Decode(s: seq<byte>): Option<Extended> {
      if |s| < 20 || |s| != 20 + BuildWord(s[18], s[19]) as nat then None
      else Some(Extended(s[0], s[1..9], s[9], BuildWord(s[10], s[11]), s[12], BuildWord(s[13], s[14]),
                         s[15], s[16], s[17], BuildWord(s[18], s[19]), s[20..]))
    }
  }

  // ---------- Round trips ----------

  lemma RegisterRoundTrip(r: Register)
    requires r.Fits()
    ensures Register.Decode(r.Octets()) == Some(r)
  {
    TwoListsRoundTrip(r.Head(), r.inClusters, r.outClusters);
    var s, h := r.Octets(), r.Head();
    assert forall k :: 0 <= k < 7 ==> s[k] == h[k];
    WordRoundTrip(r.profile);
    WordRoundTrip(r.device);
  }

  lemma MatchDescRoundTrip(r: MatchDesc)
    requires r.Fits()
    ensures MatchDesc.Decode(r.Octets()) == Some(r)
  {
    TwoListsRoundTrip(r.Head(), r.inClusters, r.outClusters);
    var s, h := r.Octets(), r.Head();
    assert forall k :: 0 <= k < 6 ==> s[k] == h[k];
    WordRoundTrip(r.dstAddr);
    WordRoundTrip(r.ofInterest);
    WordRoundTrip(r.profile);
  }

  lemma EndDeviceBindRoundTrip(r: EndDeviceBind)
    requires r.Fits()
    ensures EndDeviceBind.Decode(r.Octets()) == Some(r)
  {
    TwoListsRoundTrip(r.Head(), r.inClusters, r.outClusters);
    var s, h := r.Octets(), r.Head();
    assert forall k :: 0 <= k < 15 ==> s[k] == h[k];
    assert s[4..12] == h[4..12] == r.ieee;
    WordRoundTrip(r.dstAddr);
    WordRoundTrip(r.coordinator);
    WordRoundTrip(r.profile);
  }

  lemma BindRoundTrip(r: Bind)
    requires r.Fits()
    ensures Bind.Decode(r.Octets()) == Some(r.Sent())
  {
    var s, h := r.Octets(), r.Head();
    assert forall k :: 0 <= k < 14 ==> s[k] == h[k];
    assert s[2..10] == h[2..10] == r.srcAddress;
    if r.mode == EXTENDED_ADDRESS {
      assert s[14..22] == r.dstAddress;
    } else {
      assert s[14..16] == r.dstAddress[..2];
    }
    WordRoundTrip(r.dstAddr);
    WordRoundTrip(r.cluster);
  }

  lemma SourceRoutedParts(r: SourceRouted)
    requires r.Fits()
    ensures var s, next := r.Octets(), 10 + 2 * |r.relays|;
            && s[..9] == r.Head()
            && CountedAt(s, 9) == Some(r.relays)
            && s[next] == Octet(|r.data|) && s[next + 1..] == r.data
  {
    CountedRoundTrip(r.Head(), r.relays, [Octet(|r.data|)] + r.data);
  }

  lemma SourceRoutedRoundTrip(r: SourceRouted)
    requires r.Fits()
    ensures SourceRouted.Decode(r.Octets()) == Some(r)
  {
    SourceRoutedParts(r);
    var s, h := r.Octets()[..9], r.Head();
    assert s[0] == h[0] && s[1] == h[1] && s[2] == h[2] && s[3] == h[3] && s[4] == h[4];
    assert s[5] == h[5] && s[6] == h[6] && s[7] == h[7] && s[8] == h[8];
    WordRoundTrip(r.dstAddr);
    WordRoundTrip(r.cluster);
  }

  lemma ExtendedRoundTrip(r: Extended)
    requires r.Fits()
    ensures Extended.Decode(r.Octets()) == Some(r.Sent())
  {
    var s, h := r.Octets(), r.Head();
    assert forall k :: 0 <= k < 20 ==> s[k] == h[k];
    assert s[1..9] == h[1..9] == r.dstAddr;
    assert s[20..] == r.data[..r.len as nat];
    WordRoundTrip(r.pan);
    WordRoundTrip(r.cluster);
    WordRoundTrip(r.len);
  }

  // ---------- Octet by octet ----------

  /** A word at `i`: its bits 0 to 7 first, its bits 8 to 15 behind. */
  predicate HasWord(s: seq<byte>, i: nat, w: word) {
    i + 2 <= |s| && s[i] as word == w & 0x00FF && s[i + 1] as word == w >> 8
  }

  /** A list at `at`: an octet with the count, then the words. */
  predicate HasList(s: seq<byte>, at: nat, list: seq<word>) {
    && at + 1 + 2 * |list| <= |s|
    && s[at] as nat == |list|
    && forall k :: 0 <= k < |list| ==> HasWord(s, at + 1 + 2 * k, list[k])
  }

  lemma PairIsWord(s: seq<byte>, i: nat, w: word)
    requires i + 2 <= |s| && s[i] == Lo(w) && s[i + 1] == Hi(w)
    ensures HasWord(s, i, w)
  {
    WordBits(w, 0, 0);
  }

  lemma {:induction false} WordIsThere(s: seq<byte>, at: nat, list: seq<word>, n: nat, k: nat)
    requires k < n <= |list| && at + 2 * n <= |s| && s[at..at + 2 * n] == WordsTo(list, n)
    ensures HasWord(s, at + 2 * k, list[k])
  {
    var w := list[n - 1];
    TwoParts(s, at, WordsTo(list, n - 1), [Lo(w), Hi(w)]);
    if k == n - 1 {
      PairAt(s, at + 2 * k, Lo(w), Hi(w));
      PairIsWord(s, at + 2 * k, w);
    } else {
      WordIsThere(s, at, list, n - 1, k);
    }
  }

  lemma ListIsThere(head: seq<byte>, list: seq<word>, tail: seq<byte>)
    requires |list| < 256
    ensures HasList(head + Counted(list) + tail, |head|, list)
  {
    var s, at, n := head + Counted(list) + tail, |head|, |list|;
    assert s[at] == Octet(n);
    assert s[at + 1..at + 1 + 2 * n] == WordsTo(list, n);
    forall k | 0 <= k < n ensures HasWord(s, at + 1 + 2 * k, list[k]) {
      WordIsThere(s, at + 1, list, n, k);
    }
  }

  lemma TwoListsAreThere(head: seq<byte>, a: seq<word>, b: seq<word>)
    requires |a| < 256 && |b| < 256
    ensures var s := head + Counted(a) + Counted(b);
            HasList(s, |head|, a) && HasList(s, |head| + 1 + 2 * |a|, b)
  {
    ListIsThere(head, a, Counted(b));
    ListIsThere(head + Counted(a), b, []);
    assert head + Counted(a) + Counted(b) + [] == head + Counted(a) + Counted(b);
  }

  lemma RegisterOctets(r: Register)
    requires r.Fits()
    ensures var s, n := r.Octets(), |r.inClusters|;
            && |s| == 9 + 2 * n + 2 * |r.outClusters|
            && s[0] == r.endPoint && HasWord(s, 1, r.profile) && HasWord(s, 3, r.device)
            && s[5] == r.version && s[6] == r.latency
            && HasList(s, 7, r.inClusters) && HasList(s, 8 + 2 * n, r.outClusters)
  {
    TwoListsAreThere(r.Head(), r.inClusters, r.outClusters);
    var s, h := r.Octets(), r.Head();
    assert forall k :: 0 <= k < 7 ==> s[k] == h[k];
    PairIsWord(s, 1, r.profile);
    PairIsWord(s, 3, r.device);
  }

  lemma MatchDescOctets(r: MatchDesc)
    requires r.Fits()
    ensures var s, n := r.Octets(), |r.inClusters|;
            && |s| == 8 + 2 * n + 2 * |r.outClusters|
            && HasWord(s, 0, r.dstAddr) && HasWord(s, 2, r.ofInterest) && HasWord(s, 4, r.profile)
            && HasList(s, 6, r.inClusters) && HasList(s, 7 + 2 * n, r.outClusters)
  {
    TwoListsAreThere(r.Head(), r.inClusters, r.outClusters);
    var s, h := r.Octets(), r.Head();
    assert forall k :: 0 <= k < 6 ==> s[k] == h[k];
    PairIsWord(s, 0, r.dstAddr);
    PairIsWord(s, 2, r.ofInterest);
    PairIsWord(s, 4, r.profile);
  }

  lemma EndDeviceBindOctets(r: EndDeviceBind)
    requires r.Fits()
    ensures var s, n := r.Octets(), |r.inClusters|;
            && |s| == 17 + 2 * n + 2 * |r.outClusters|
            && HasWord(s, 0, r.dstAddr) && HasWord(s, 2, r.coordinator) && s[4..12] == r.ieee
            && s[12] == r.endPoint && HasWord(s, 13, r.profile)
            && HasList(s, 15, r.inClusters) && HasList(s, 16 + 2 * n, r.outClusters)
  {
    TwoListsAreThere(r.Head(), r.inClusters, r.outClusters);
    var s, h := r.Octets(), r.Head();
    assert forall k :: 0 <= k < 15 ==> s[k] == h[k];
    assert s[4..12] == h[4..12] == r.ieee;
    PairIsWord(s, 0, r.dstAddr);
    PairIsWord(s, 2, r.coordinator);
    PairIsWord(s, 13, r.profile);
  }

  /** In address mode 3 the target is an extended address and an endpoint, else a short address. */
  lemma BindOctets(r: Bind)
    requires r.Fits()
    ensures var s := r.Octets();
            && |s| == (if r.mode == 3 then 23 else 16)
            && HasWord(s, 0, r.dstAddr) && s[2..10] == r.srcAddress && s[10] == r.srcEndpoint
            && HasWord(s, 11, r.cluster) && s[13] == r.mode
            && if r.mode == 3 then s[14..22] == r.dstAddress && s[22] == r.dstEndpoint
               else s[14..16] == r.dstAddress[..2]
  {
    var s, h := r.Octets(), r.Head();
    assert forall k :: 0 <= k < 14 ==> s[k] == h[k];
    assert s[2..10] == h[2..10] == r.srcAddress;
    if r.mode == 3 {
      assert s[14..22] == r.dstAddress;
    } else {
      assert s[14..16] == r.dstAddress[..2];
    }
    PairIsWord(s, 0, r.dstAddr);
    PairIsWord(s, 11, r.cluster);
  }

  lemma SourceRoutedOctets(r: SourceRouted)
    requires r.Fits()
    ensures var s, next := r.Octets(), 10 + 2 * |r.relays|;
            && |s| == next + 1 + |r.data|
            && HasWord(s, 0, r.dstAddr) && s[2] == r.dstEndpoint && s[3] == r.srcEndpoint
            && HasWord(s, 4, r.cluster) && s[6] == r.transId && s[7] == r.options && s[8] == r.radius
            && HasList(s, 9, r.relays) && s[next] as nat == |r.data| && s[next + 1..] == r.data
  {
    SourceRoutedParts(r);
    ListIsThere(r.Head(), r.relays, [Octet(|r.data|)] + r.data);
    SourceRoutedFront(r.Octets(), r);
  }

  lemma SourceRoutedFront(s: seq<byte>, r: SourceRouted)
    requires |s| >= 9 && s[..9] == r.Head()
    ensures HasWord(s, 0, r.dstAddr) && s[2] == r.dstEndpoint && s[3] == r.srcEndpoint
    ensures HasWord(s, 4, r.cluster) && s[6] == r.transId && s[7] == r.options && s[8] == r.radius
  {
    var h := r.Head();
    assert forall k :: 0 <= k < 9 ==> s[..9][k] == s[k];
    assert s[0] == h[0] && s[1] == h[1] && s[2] == h[2] && s[3] == h[3] && s[4] == h[4];
    assert s[5] == h[5] && s[6] == h[6] && s[7] == h[7] && s[8] == h[8];
    PairIsWord(s, 0, r.dstAddr);
    PairIsWord(s, 4, r.cluster);
  }

  lemma ExtendedOctets(r: Extended)
    requires r.Fits()
    ensures var s := r.Octets();
            && |s| == 20 + r.len as nat
            && s[0] == r.mode && s[1..9] == r.dstAddr && s[9] == r.dstEndpoint && HasWord(s, 10, r.pan)
            && s[12] == r.srcEndpoint && HasWord(s, 13, r.cluster) && s[15] == r.transId && s[16] == r.options
            && s[17] == r.radius && HasWord(s, 18, r.len) && s[20..] == r.data[..r.len as nat]
  {
    var s, h := r.Octets(), r.Head();
    assert forall k :: 0 <= k < 20 ==> s[k] == h[k];
    assert s[1..9] == h[1..9] == r.dstAddr;
    PairIsWord(s, 10, r.pan);
    PairIsWord(s, 13, r.cluster);
    PairIsWord(s, 18, r.len);
  }

  // ---------- The encoders ----------

  /** A command buffer and the eight-bit cursor through which it is filled. */
  class Command {
    const cmd: array<byte>
    var cmInd: nat
    ghost var written: seq<byte>

    /** What has been written so far is in front of the cursor. */
    ghost predicate Valid()
      reads this, cmd
    { cmInd == |written| <= cmd.Length <= MAX_PAYLOAD && cmd[..cmInd] == written }

    constructor (cmdLen: nat)
      requires cmdLen <= MAX_PAYLOAD
      ensures Valid() && cmd.Length == cmdLen && written == [] && fresh(cmd)
    {
      cmd := new byte[cmdLen];
      cmInd, written := 0, [];
    }

    method Put(b: byte)
      requires Valid() && cmInd < cmd.Length
      modifies this, cmd
      ensures Valid() && written == old(written) + [b]
    {
      cmd[cmInd] := b;
      cmInd := (cmInd + 1) % 256;
      written := written + [b];
    }

    method PutWord(w: word)
      requires Valid() && cmInd + 2 <= cmd.Length
      modifies this, cmd
      ensures Valid() && written == old(written) + [Lo(w), Hi(w)]
    {
      Put(Lo(w));
      Put(Hi(w));
    }

    /** Two octets in a row. */
    method PutPair(x: byte, y: byte)
      requires Valid() && cmInd + 2 <= cmd.Length
      modifies this, cmd
      ensures Valid() && written == old(written) + [x, y]
    {
      Put(x);
      Put(y);
    }

    method PutOctets(s: seq<byte>)
      requires Valid() && cmInd + |s| <= cmd.Length
      modifies this, cmd
      ensures Valid() && written == old(written) + s
    {
      var from := cmInd;
      forall i | from <= i < from + |s| { cmd[i] := s[i - from]; }
      cmInd := (cmInd + |s|) % 256;
      written := written + s;
    }

    /** The count, then the loop over the list. */
    method PutList(list: seq<word>)
      requires Valid() && |list| < 256 && cmInd + 1 + 2 * |list| <= cmd.Length
      modifies this, cmd
      ensures Valid() && written == old(written) + Counted(list)
    {
      Put(Octet(|list|));
      ghost var counted := written;
      var idx := 0;
      while idx < |list|
        invariant 0 <= idx <= |list|
        invariant Valid() && written == counted + WordsTo(list, idx)
      {
        PutWord(list[idx]);
        idx := idx + 1;
      }
    }

    method PutTwoLists(a: seq<word>, b: seq<word>)
      requires Valid() && |a| < 256 && |b| < 256 && cmInd + 2 + 2 * |a| + 2 * |b| == cmd.Length
      modifies this, cmd
      ensures Valid() && cmd[..] == written == old(written) + Counted(a) + Counted(b)
    {
      PutList(a);
      PutList(b);
      assert cmd[..] == written;
    }

    /** The loop over the data. */
    method PutData(data: seq<byte>, len: nat)
      requires Valid() && len <= |data| && cmInd + len <= cmd.Length
      modifies this, cmd
      ensures Valid() && written == old(written) + data[..len]
    {
      ghost var start := written;
      var idx := 0;
      while idx < len
        invariant 0 <= idx <= len
        invariant Valid() && written == start + data[..idx]
      {
        Put(data[idx]);
        idx := idx + 1;
      }
    }
  }

  method AfRegister(r: Register) returns (cmd: array<byte>)
    requires r.Fits()
    ensures cmd[..] == r.Octets()
  {
    var c := new Command(9 + 2 * |r.inClusters| + 2 * |r.outClusters|);
    c.Put(r.endPoint);
    c.PutWord(r.profile);
    c.PutWord(r.device);
    c.PutPair(r.version, r.latency);
    assert c.written == r.Head();
    c.PutTwoLists(r.inClusters, r.outClusters);
    cmd := c.cmd;
  }

  method ZdoMatchDescReq(r: MatchDesc) returns (cmd: array<byte>)
    requires r.Fits()
    ensures cmd[..] == r.Octets()
  {
    var c := new Command(8 + 2 * |r.inClusters| + 2 * |r.outClusters|);
    c.PutWord(r.dstAddr);
    c.PutWord(r.ofInterest);
    c.PutWord(r.profile);
    assert c.written == r.Head();
    c.PutTwoLists(r.inClusters, r.outClusters);
    cmd := c.cmd;
  }

  method ZdoEndDeviceBindReq(r: EndDeviceBind) returns (cmd: array<byte>)
    requires r.Fits()
    ensures cmd[..] == r.Octets()
  {
    var c := new Command(17 + 2 * |r.inClusters| + 2 * |r.outClusters|);
    EndDeviceBindHead(c, r);
    c.PutTwoLists(r.inClusters, r.outClusters);
    cmd := c.cmd;
  }

  method EndDeviceBindHead(c: Command, r: EndDeviceBind)
    requires r.Fits() && c.Valid() && c.written == [] && c.cmd.Length >= 15
    modifies c, c.cmd
    ensures c.Valid() && c.written == r.Head()
  {
    c.PutWord(r.dstAddr);
    c.PutWord(r.coordinator);
    c.PutOctets(r.ieee);
    c.Put(r.endPoint);
    c.PutWord(r.profile);
    assert c.written == r.Head();
  }

  method ZdoBindReq(r: Bind) returns (cmd: array<byte>)
    requires r.Fits()
    ensures cmd[..] == r.Octets()
  {
    var addrmd := if r.mode == EXTENDED_ADDRESS then 8 else 2;
    var endP := if r.mode == EXTENDED_ADDRESS then 1 else 0;
    var c := new Command(14 + addrmd + endP);
    BindHead(c, r);
    BindTarget(c, r, addrmd, endP);
    cmd := c.cmd;
    assert cmd[..] == c.written;
  }

  method BindHead(c: Command, r: Bind)
    requires r.Fits() && c.Valid() && c.written == [] && c.cmd.Length >= 14
    modifies c, c.cmd
    ensures c.Valid() && c.written == r.Head()
  {
    c.PutWord(r.dstAddr);
    c.PutOctets(r.srcAddress);
    c.Put(r.srcEndpoint);
    c.PutWord(r.cluster);
    c.Put(r.mode);
    assert c.written == r.Head();
  }

  method BindTarget(c: Command, r: Bind, addrmd: nat, endP: nat)
    requires r.Fits() && addrmd <= 8 && endP <= 1 && c.Valid() && c.cmInd + addrmd + endP <= c.cmd.Length
    modifies c, c.cmd
    ensures c.Valid()
    ensures c.written == old(c.written) + (r.dstAddress[..addrmd] + if endP != 0 then [r.dstEndpoint] else [])
  {
    ghost var before := c.written;
    c.PutOctets(r.dstAddress[..addrmd]);
    if endP != 0 {
      c.Put(r.dstEndpoint);
      assert c.written == before + (r.dstAddress[..addrmd] + [r.dstEndpoint]);
    } else {
      assert r.dstAddress[..addrmd] + [] == r.dstAddress[..addrmd];
    }
  }

  method AfDataRequestSrcRtg(r: SourceRouted) returns (cmd: array<byte>)
    requires r.Fits()
    ensures cmd[..] == r.Octets()
  {
    var c := new Command(11 + 2 * |r.relays| + |r.data|);
    SourceRoutedHead(c, r);
    c.PutList(r.relays);
    c.Put(Octet(|r.data|));
    c.PutData(r.data, |r.data|);
    cmd := c.cmd;
    assert cmd[..] == c.written;
    assert r.data[..|r.data|] == r.data;
  }

  method SourceRoutedHead(c: Command, r: SourceRouted)
    requires c.Valid() && c.written == [] && c.cmd.Length >= 9
    modifies c, c.cmd
    ensures c.Valid() && c.written == r.Head()
  {
    c.PutWord(r.dstAddr);
    c.PutPair(r.dstEndpoint, r.srcEndpoint);
    c.PutWord(r.cluster);
    c.PutPair(r.transId, r.options);
    c.Put(r.radius);
  }

  method AfDataRequestExt(r: Extended) returns (cmd: array<byte>)
    requires r.Fits()
    ensures cmd[..] == r.Octets()
  {
    var c := new Command(20 + r.len as nat);
    ExtendedHead(c, r);
    c.PutData(r.data, r.len as nat);
    cmd := c.cmd;
    assert cmd[..] == c.written;
  }

  method ExtendedHead(c: Command, r: Extended)
    requires r.Fits() && c.Valid() && c.written == [] && c.cmd.Length >= 20
    modifies c, c.cmd
    ensures c.Valid() && c.written == r.Head()
  {
    ExtendedAddresses(c, r);
    ghost var first := c.written;
    ExtendedOptions(c, r);
    assert c.written == first + [Lo(r.cluster), Hi(r.cluster), r.transId, r.options, r.radius, Lo(r.len), Hi(r.len)];
  }

  method ExtendedAddresses(c: Command, r: Extended)
    requires r.Fits() && c.Valid() && c.written == [] && c.cmd.Length >= 13
    modifies c, c.cmd
    ensures c.Valid() && c.written == [r.mode] + r.dstAddr + [r.dstEndpoint, Lo(r.pan), Hi(r.pan), r.srcEndpoint]
  {
    c.Put(r.mode);
    c.PutOctets(r.dstAddr);
    ghost var first := c.written;
    c.Put(r.dstEndpoint);
    c.PutWord(r.pan);
    c.Put(r.srcEndpoint);
    assert c.written == first + [r.dstEndpoint, Lo(r.pan), Hi(r.pan), r.srcEndpoint];
  }

  method ExtendedOptions(c: Command, r: Extended)
    requires c.Valid() && c.cmInd + 7 <= c.cmd.Length
    modifies c, c.cmd
    ensures c.Valid()
    ensures c.written == old(c.written) + [Lo(r.cluster), Hi(r.cluster), r.transId, r.options, r.radius,
                                               Lo(r.len), Hi(r.len)]
  {
    c.PutWord(r.cluster);
    c.PutPair(r.transId, r.options);
    c.Put(r.radius);
    c.PutWord(r.len);
  }
}
