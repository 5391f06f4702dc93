/** Whole streams: frames and line noise, cut into reads in any way, come out as messages in order. */
module Streams {
  import opened Bytes
  import opened Frames
  import opened Transport
  import opened Receiver
  import Rpc

  /** A plan under which no read fails; how the octets are split stays open. */
  ghost predicate Reliable(plan: Schedule) { forall t: nat :: plan(t).Finds? }

  lemma PastTheHeader(plan: Schedule, feed: Feed, len: byte, behind: seq<byte>, expected: byte)
    requires feed.wire == [SOF, len] + behind && plan(feed.clock).Finds? && plan(feed.clock + 1).Finds?
    ensures Receive(plan, feed, expected) == ReceiveBody(plan, Feed(behind, feed.clock + 2), expected, len)
  {
    assert ReadAt(plan, feed, 1) == Octets(feed.wire[..1]);
    var feed1 := feed.Drop(1);
    assert ReadAt(plan, feed1, 1) == Octets(feed1.wire[..1]);
    assert feed1.Drop(1).wire == behind;
  }

  /**
   * The length octet alone decides how many octets are taken for a frame. With too large a one, or if
   * the first of 255 octets fails to be read, nothing can be said. Otherwise the call fails at the sixth
   * failed read; it waits for octets that are not there; or it accepts the octets that the length octet
   * announces exactly if they and it XOR to 0.
   */
  lemma LengthOctetDecides(plan: Schedule, feed: Feed, len: byte, behind: seq<byte>, expected: byte)
    requires feed.wire == [SOF, len] + behind && plan(feed.clock).Finds? && plan(feed.clock + 1).Finds?
    ensures Decided(Receive(plan, feed, expected), plan, Feed(behind, feed.clock + 2), len, len as nat + 3, expected)
  {
    PastTheHeader(plan, feed, len, behind, expected);
    LengthOctetOfBody(plan, Feed(behind, feed.clock + 2), len, expected);
  }

  /** What a call does that has read SOF and `len`, which announces `n` octets, and has `feed` before it. */
  ghost predicate Decided(call: Call, plan: Schedule, feed: Feed, len: byte, n: nat, expected: byte) {
    var failures := Failures(plan, feed.clock, call.feed.clock);
    if n >= 256 || (n == 255 && plan(feed.clock).Fails?) then call.outcome == Undefined
    else if failures > 5 then failures == 6 && call.outcome == Failed
    else if |feed.wire| < n then call.outcome == Blocked
    else
      && n > 0 && call.feed.wire == feed.wire[n..]
      && call.outcome == if Xor([len] + feed.wire[..n]) == 0 then Route(expected, feed.wire[..n]) else Failed
  }

  lemma LengthOctetOfBody(plan: Schedule, feed: Feed, len: byte, expected: byte)
    ensures Decided(ReceiveBody(plan, feed, expected, len), plan, feed, len, len as nat + 3, expected)
  {
    var n := BodyLength(len);
    if n >= 3 {
      FillDecides(plan, feed, len, n, expected);
    }
  }

  lemma FillDecides(plan: Schedule, feed: Feed, len: byte, n: nat, expected: byte)
    requires 3 <= n < 256
    ensures var f := FillFrom(plan, feed, n, 0);
            (f.Full? ==> |f.data| > 0) && Decided(Finish(expected, len, f), plan, feed, len, n, expected)
  {
    UnreadExactly(plan, feed, n, 0);
    if n < 255 || plan(feed.clock).Finds? {
      FillIsExact(plan, feed, n, 0);
      if n <= |feed.wire| { ChecksIsXorZero([len] + feed.wire[..n]); }
    }
  }

  /**
   * What is on the line behind a SOF and a length octet is judged by its check octet alone, however
   * it is split, unless six of the reads of this frame fail. The call takes exactly the frame.
   */
  lemma ReceiveWithRetries(plan: Schedule, feed: Feed, len: byte, body: seq<byte>, rest: seq<byte>, expected: byte)
    requires len as nat <= MAX_PAYLOAD && |body| == len as nat + 3
    requires feed.wire == [SOF, len] + body + rest
    requires plan(feed.clock).Finds? && plan(feed.clock + 1).Finds?
    ensures var call := Receive(plan, feed, expected);
            var failures := Failures(plan, feed.clock + 2, call.feed.clock);
            || (failures == 6 && call.outcome == Failed)
            || (failures <= 5 && call.feed.wire == rest
                && call.outcome == if Checks([len] + body) then Route(expected, body) else Failed)
  {
    var behind := body + rest;
    assert feed.wire == [SOF, len] + behind && behind[..|body|] == body && behind[|body|..] == rest;
    LengthOctetDecides(plan, feed, len, behind, expected);
    ChecksIsXorZero([len] + body);
  }

  lemma BodyShape(f: Frame)
    requires f.Fits()
    ensures [Octet(|f.payload|)] + f.Message() == f.Covered() + [Xor(f.Covered())]
  {}

  lemma FrameShape(f: Frame)
    requires f.Fits()
    ensures f.Encode() == [SOF, Octet(|f.payload|)] + f.Message()
    ensures Checks([Octet(|f.payload|)] + f.Message())
  {
    var body := [Octet(|f.payload|)] + f.Message();
    var covered := f.Covered();
    BodyShape(f);
    assert [SOF] + covered + [Xor(covered)] == [SOF] + (covered + [Xor(covered)]);
    XorToPrefix(body, covered, |covered|);
  }

  /**
   * The reader takes every frame the writer builds, and nothing else from the line, unless six of
   * the reads of its body fail.
   */
  lemma ReceiveFrame(plan: Schedule, feed: Feed, f: Frame, rest: seq<byte>, expected: byte)
    requires f.Fits() && feed.wire == f.Encode() + rest
    requires plan(feed.clock).Finds? && plan(feed.clock + 1).Finds?
    ensures var call := Receive(plan, feed, expected);
            var failures := Failures(plan, feed.clock + 2, call.feed.clock);
            || (failures == 6 && call.outcome == Failed)
            || (failures <= 5 && call.outcome == Route(expected, f.Message()) && call.feed.wire == rest)
  {
    FrameShape(f);
    ReceiveWithRetries(plan, feed, Octet(|f.payload|), f.Message(), rest, expected);
  }

  lemma SameFirstOctet(x: byte, s: seq<byte>, t: seq<byte>)
    requires |s| == |t|
    ensures Xor(Difference([x] + s, [x] + t)) == Xor(Difference(s, t))
  {
    var d := Difference(s, t);
    assert x ^ x == 0;
    assert Difference([x] + s, [x] + t) == [0] + d;
    XorConcat([0], d, |d|);
    assert XorTo([0], 1) == XorTo([0], 0) ^ 0;
    assert 0 ^ Xor(d) == Xor(d);
  }

  lemma DamageLaw(f: Frame, body: seq<byte>)
    requires f.Fits() && |body| == |f.Message()|
    ensures Checks([Octet(|f.payload|)] + body) <==> Xor(Difference(body, f.Message())) == 0
  {
    var len := Octet(|f.payload|);
    FrameShape(f);
    assert f.Encode()[1..] == [len] + f.Message();
    SameFirstOctet(len, body, f.Message());
    CorruptionDetection(f, [len] + body);
  }

  /**
   * A frame damaged behind its length octet is accepted exactly if the bit differences cancel out;
   * accepted or not, the reader stands behind it afterwards, unless six of the reads fail.
   */
  lemma ReceiveDamaged(plan: Schedule, feed: Feed, f: Frame, body: seq<byte>, rest: seq<byte>, expected: byte)
    requires f.Fits() && |body| == |f.Message()|
    requires feed.wire == [SOF, Octet(|f.payload|)] + body + rest
    requires plan(feed.clock).Finds? && plan(feed.clock + 1).Finds?
    ensures var call := Receive(plan, feed, expected);
            var failures := Failures(plan, feed.clock + 2, call.feed.clock);
            || (failures == 6 && call.outcome == Failed)
            || (failures <= 5 && call.feed.wire == rest
                && call.outcome == if Xor(Difference(body, f.Message())) == 0 then Route(expected, body) else Failed)
  {
    DamageLaw(f, body);
    ReceiveWithRetries(plan, feed, Octet(|f.payload|), body, rest, expected);
  }

  /** So one damaged octet behind the length octet is always detected, whatever reads fail. */
  lemma SingleOctetDamage(plan: Schedule, feed: Feed, f: Frame, body: seq<byte>, k: nat, rest: seq<byte>,
                          expected: byte)
    requires f.Fits() && |body| == |f.Message()|
    requires k < |body| && body[k] != f.Message()[k]
    requires forall i :: 0 <= i < |body| && i != k ==> body[i] == f.Message()[i]
    requires feed.wire == [SOF, Octet(|f.payload|)] + body + rest
    requires plan(feed.clock).Finds? && plan(feed.clock + 1).Finds?
    ensures Receive(plan, feed, expected).outcome == Failed
  {
    SingleDifference(body, f.Message(), k);
    ReceiveDamaged(plan, feed, f, body, rest, expected);
  }

  predicate Accepted(outcome: Outcome) { outcome.Response? || outcome.Indication? || outcome.Discarded? }

  /**
   * A damaged length octet is another matter: the reader takes other octets for the frame, and
   * accepts them exactly if they are there and XOR to 0 together with that length octet, and at most
   * five reads fail (with the longest body, not the first).
   */
  lemma DamagedLength(plan: Schedule, feed: Feed, f: Frame, len: byte, rest: seq<byte>, expected: byte)
    requires f.Fits() && feed.wire == [SOF, len] + f.Message() + rest
    requires plan(feed.clock).Finds? && plan(feed.clock + 1).Finds?
    ensures var behind, n := f.Message() + rest, len as nat + 3;
            var call := Receive(plan, feed, expected);
            Accepted(call.outcome) <==>
              && n <= |behind| && n < 256 && (n == 255 ==> plan(feed.clock + 2).Finds?)
              && Failures(plan, feed.clock + 2, call.feed.clock) <= 5
              && Xor([len] + behind[..n]) == 0
  {
    var behind := f.Message() + rest;
    assert feed.wire == [SOF, len] + behind;
    LengthOctetDecides(plan, feed, len, behind, expected);
  }

  const SHORT := Frame(0x45, 0x01, [0x44])

  /** It can go unnoticed: here one damaged bit makes a frame of three octets out of four. */
  lemma DamagedLengthIsAccepted(plan: Schedule, feed: Feed, expected: byte)
    requires Reliable(plan) && feed.wire == [SOF, 0x00, 0x45, 0x01, 0x44, 0x01]
    ensures SHORT.Encode() == [SOF, 0x01, 0x45, 0x01, 0x44, 0x01]
    ensures Receive(plan, feed, expected).outcome == Indication([0x45, 0x01, 0x44])
  {
    ShortFrame();
    var behind: seq<byte> := [0x45, 0x01, 0x44, 0x01];
    assert feed.wire == [SOF, 0x00] + behind;
    NoFailures(plan, feed.clock + 2, Receive(plan, feed, expected).feed.clock);
    LengthOctetDecides(plan, feed, 0x00, behind, expected);
    ShortBody(behind);
  }

  lemma ShortBody(behind: seq<byte>)
    requires behind == [0x45, 0x01, 0x44, 0x01]
    ensures behind[..3] == [0x45, 0x01, 0x44] && Xor([0x00] + behind[..3]) == 0
    ensures CommandType(0x45) != SRSP
  {
    SumOfFour([0x00] + behind[..3], 0x00, 0x45, 0x44, 0x00);
  }

  lemma ShortFrame()
    ensures SHORT.Encode() == [SOF, 0x01, 0x45, 0x01, 0x44, 0x01]
  {
    SumOfFour([0x01, 0x45, 0x01, 0x44], 0x01, 0x44, 0x45, 0x01);
    assert SHORT.Covered() == [0x01, 0x45, 0x01, 0x44];
  }

  lemma SumOfFour(s: seq<byte>, a: byte, b: byte, c: byte, d: byte)
    requires |s| == 4 && a == s[0] && b == a ^ s[1] && c == b ^ s[2] && d == c ^ s[3]
    ensures Xor(s) == d
  {
    XorFirst(s);
    XorNext(s, 1);
    XorNext(s, 2);
    XorNext(s, 3);
  }

  lemma XorFirst(s: seq<byte>)
    requires |s| > 0
    ensures XorTo(s, 1) == s[0]
  {
    assert XorTo(s, 1) == 0 ^ s[0];
  }

  lemma XorNext(s: seq<byte>, n: nat)
    requires n < |s|
    ensures XorTo(s, n + 1) == XorTo(s, n) ^ s[n]
  {}

  lemma ReceiveNoise(plan: Schedule, feed: Feed, expected: byte)
    requires plan(feed.clock).Finds? && |feed.wire| > 0 && feed.wire[0] != SOF
    ensures Receive(plan, feed, expected) == Call(Failed, feed.Drop(1))
  {
    assert ReadAt(plan, feed, 1) == Octets(feed.wire[..1]);
  }

  // ---------- Runs of the reader ----------

  datatype Run = Run(outcomes: seq<Outcome>, feed: Feed)

  /** `n` calls in a row. */
  function Calls(plan: Schedule, feed: Feed, expected: byte, n: nat): Run
    decreases n
  {
    if n == 0 then Run([], feed)
    else
      var call := Receive(plan, feed, expected);
      var run := Calls(plan, call.feed, expected, n - 1);
      Run([call.outcome] + run.outcomes, run.feed)
  }

  /** A frame with the noise that precedes it. */
  datatype Item = Item(noise: seq<byte>, frame: Frame)

  predicate Proper(items: seq<Item>) {
    forall i :: 0 <= i < |items| ==> SOF !in items[i].noise && items[i].frame.Fits()
  }

  /** All that is asked of the stream: no 0xFE in the noise, and payloads of at most 250 octets. */
  lemma ProperInNumbers(items: seq<Item>)
    ensures Proper(items) <==>
              forall i :: 0 <= i < |items| ==> 0xFE !in items[i].noise && |items[i].frame.payload| <= 250
  {}

  function Line(items: seq<Item>): seq<byte>
    requires Proper(items)
  {
    if items == [] then []
    else items[0].noise + items[0].frame.Encode() + Line(items[1..])
  }

  /** One failed call for each octet of noise, then the frame. */
  function Results(items: seq<Item>, expected: byte): seq<Outcome>
    requires Proper(items)
  {
    if items == [] then []
    else
      OneFailureEach(items[0].noise)
      + [Route(expected, items[0].frame.Message())]
      + Results(items[1..], expected)
  }

  function OneFailureEach(noise: seq<byte>): seq<Outcome> {
    if noise == [] then [] else [Failed] + OneFailureEach(noise[1..])
  }

  /** The responses that are accepted, the last of them first. */
  function Front(items: seq<Item>, expected: byte): seq<seq<byte>>
    requires Proper(items)
  {
    if items == [] then []
    else
      var f := items[0].frame;
      var accepted := CommandType(f.cmd0) == SRSP && Subsystem(f.cmd0) == expected;
      Front(items[1..], expected) + if accepted then [f.Message()] else []
  }

  /** The indications, in order. */
  function Back(items: seq<Item>): seq<seq<byte>>
    requires Proper(items)
  {
    if items == [] then []
    else
      var f := items[0].frame;
      (if CommandType(f.cmd0) != SRSP then [f.Message()] else []) + Back(items[1..])
  }

  /**
   * The call loses no frame: if it takes a SOF it also reads a length octet, and a body within the
   * failures allowed. (Otherwise the SOF, or part of the body, is gone and the frame with it.)
   */
  ghost predicate Spared(plan: Schedule, feed: Feed, expected: byte) {
    plan(feed.clock).Fails? || feed.wire == [] || feed.wire[0] != SOF ||
    (plan(feed.clock + 1).Finds?
     && Failures(plan, feed.clock + 2, Receive(plan, feed, expected).feed.clock) <= MAX_RETRIES)
  }

  ghost predicate AllSpared(plan: Schedule, feed: Feed, expected: byte, n: nat)
    decreases n
  {
    n == 0 || (Spared(plan, feed, expected) && AllSpared(plan, Receive(plan, feed, expected).feed, expected, n - 1))
  }

  /** The outcomes of those of `n` calls whose first read does not fail. */
  function Kept(plan: Schedule, feed: Feed, expected: byte, n: nat): seq<Outcome>
    decreases n
  {
    if n == 0 then []
    else
      var call := Receive(plan, feed, expected);
      var others := Kept(plan, call.feed, expected, n - 1);
      if plan(feed.clock).Fails? then others else [call.outcome] + others
  }

  /** A call whose first read fails takes nothing. */
  lemma FailedFirstRead(plan: Schedule, feed: Feed, expected: byte)
    requires plan(feed.clock).Fails?
    ensures Receive(plan, feed, expected) == Call(Failed, feed.Tick())
  {}

  /** A call that meets a frame leaves the other items to the other calls. */
  lemma FirstFrame(plan: Schedule, items: seq<Item>, rest: seq<byte>, t: nat, expected: byte) returns (next: Feed)
    requires Proper(items) && items != [] && items[0].noise == [] && plan(t).Finds?
    requires Spared(plan, Feed(Line(items) + rest, t), expected)
    ensures next == Feed(Line(items[1..]) + rest, next.clock)
    ensures Receive(plan, Feed(Line(items) + rest, t), expected)
         == Call(Route(expected, items[0].frame.Message()), next)
  {
    var feed, tail := Feed(Line(items) + rest, t), Line(items[1..]) + rest;
    QuietLine(items, rest);
    assert feed.wire[0] == items[0].frame.Encode()[0] == SOF;
    ReceiveFrame(plan, feed, items[0].frame, tail, expected);
    next := Feed(tail, Receive(plan, feed, expected).feed.clock);
  }

  lemma FirstNoise(plan: Schedule, items: seq<Item>, rest: seq<byte>, t: nat, expected: byte)
    requires Proper(items) && items != [] && items[0].noise != [] && plan(t).Finds?
    ensures Receive(plan, Feed(Line(items) + rest, t), expected)
         == Call(Failed, Feed(Line(Quieter(items)) + rest, t + 1))
  {
    QuieterLine(items, rest);
    var feed := Feed(Line(items) + rest, t);
    ReceiveNoise(plan, feed, expected);
    assert feed.Drop(1).wire == Line(Quieter(items)) + rest;
  }

  /**
   * Fragmentation independence: frames and noise in any number, split into reads in any way, with
   * failed reads of which none costs a frame. A call whose first read fails takes nothing; when as
   * many others have been made as there are octets of noise and frames, they have given exactly the
   * expected results, and what follows on the line is untouched.
   */
  lemma {:induction false} StreamIsDelivered(plan: Schedule, items: seq<Item>, rest: seq<byte>, t: nat, expected: byte,
                                             n: nat)
    requires Proper(items)
    requires AllSpared(plan, Feed(Line(items) + rest, t), expected, n)
    requires |Kept(plan, Feed(Line(items) + rest, t), expected, n)| == |Results(items, expected)|
    ensures Kept(plan, Feed(Line(items) + rest, t), expected, n) == Results(items, expected)
    ensures Calls(plan, Feed(Line(items) + rest, t), expected, n).feed.wire == rest
    decreases n
  {
    var feed := Feed(Line(items) + rest, t);
    if n == 0 {
      assert items == [];
    } else if plan(t).Fails? {
      FailedFirstRead(plan, feed, expected);
      StreamIsDelivered(plan, items, rest, t + 1, expected, n - 1);
    } else if items != [] {
      var outcome, others, next := FirstCall(plan, items, rest, t, expected);
      StreamIsDelivered(plan, others, rest, next.clock, expected, n - 1);
    }
  }

  /** A call that takes something from the line yields the first of the results and leaves the others. */
  lemma FirstCall(plan: Schedule, items: seq<Item>, rest: seq<byte>, t: nat, expected: byte)
    returns (outcome: Outcome, others: seq<Item>, next: Feed)
    requires Proper(items) && items != [] && plan(t).Finds? && Spared(plan, Feed(Line(items) + rest, t), expected)
    ensures Proper(others) && next == Feed(Line(others) + rest, next.clock)
    ensures Receive(plan, Feed(Line(items) + rest, t), expected) == Call(outcome, next)
    ensures Results(items, expected) == [outcome] + Results(others, expected)
  {
    if items[0].noise == [] {
      outcome, others := Route(expected, items[0].frame.Message()), items[1..];
      next := FirstFrame(plan, items, rest, t, expected);
      Quiet(items, expected);
    } else {
      outcome, others, next := Failed, Quieter(items), Feed(Line(Quieter(items)) + rest, t + 1);
      FirstNoise(plan, items, rest, t, expected);
      QuieterResults(items, expected);
    }
  }

  lemma ReliablySpared(plan: Schedule, feed: Feed, expected: byte)
    requires Reliable(plan)
    ensures Spared(plan, feed, expected)
  {
    NoFailures(plan, feed.clock + 2, Receive(plan, feed, expected).feed.clock);
  }

  /** Without failed reads no frame is lost and every call counts. */
  lemma {:induction false} ReliableSpares(plan: Schedule, feed: Feed, expected: byte, n: nat)
    requires Reliable(plan)
    ensures AllSpared(plan, feed, expected, n)
    ensures Kept(plan, feed, expected, n) == Calls(plan, feed, expected, n).outcomes
    ensures |Kept(plan, feed, expected, n)| == n
    decreases n
  {
    if n > 0 {
      var call := Receive(plan, feed, expected);
      ReliablySpared(plan, feed, expected);
      ReliableSpares(plan, call.feed, expected, n - 1);
    }
  }

  lemma QuietLine(items: seq<Item>, rest: seq<byte>)
    requires Proper(items) && items != [] && items[0].noise == []
    ensures Line(items) + rest == items[0].frame.Encode() + (Line(items[1..]) + rest)
  {
    NoNoise(items[0].frame.Encode(), Line(items[1..]), rest);
  }

  lemma NoNoise(code: seq<byte>, others: seq<byte>, rest: seq<byte>)
    ensures [] + code + others + rest == code + (others + rest)
  {}

  lemma Quiet(items: seq<Item>, expected: byte)
    requires Proper(items) && items != [] && items[0].noise == []
    ensures Results(items, expected) == [Route(expected, items[0].frame.Message())] + Results(items[1..], expected)
  {
    var route := [Route(expected, items[0].frame.Message())];
    assert OneFailureEach(items[0].noise) + route + Results(items[1..], expected)
        == route + Results(items[1..], expected);
  }

  /** The same items with the first octet of noise taken off. */
  function Quieter(items: seq<Item>): (shorter: seq<Item>)
    requires Proper(items) && items != [] && items[0].noise != []
    ensures Proper(shorter) && |shorter| == |items|
  { [Item(items[0].noise[1..], items[0].frame)] + items[1..] }

  lemma QuieterLine(items: seq<Item>, rest: seq<byte>)
    requires Proper(items) && items != [] && items[0].noise != []
    ensures Line(items) + rest == [items[0].noise[0]] + (Line(Quieter(items)) + rest)
  {
    var shorter := Quieter(items);
    assert shorter[1..] == items[1..];
    NoiseOff(items[0].noise, items[0].frame.Encode(), Line(items[1..]), rest);
  }

  lemma NoiseOff(noise: seq<byte>, code: seq<byte>, others: seq<byte>, rest: seq<byte>)
    requires noise != []
    ensures noise + code + others + rest == [noise[0]] + (noise[1..] + code + others + rest)
  {
    assert noise == [noise[0]] + noise[1..];
  }

  lemma QuieterResults(items: seq<Item>, expected: byte)
    requires Proper(items) && items != [] && items[0].noise != []
    ensures Results(items, expected) == [Failed] + Results(Quieter(items), expected)
    ensures Front(items, expected) == Front(Quieter(items), expected) && Back(items) == Back(Quieter(items))
  {
    var shorter := Quieter(items);
    assert shorter[1..] == items[1..];
  }

  /** The message queue after a run of calls. */
  function EnqueuedAll(outcomes: seq<Outcome>, queue: seq<seq<byte>>): seq<seq<byte>> {
    if outcomes == [] then queue
    else EnqueuedAll(outcomes[1..], Rpc.Enqueued(outcomes[0], queue))
  }

  /**
   * Whatever the frames are: the accepted responses stand before what was queued, the last of them
   * first, and the indications behind it once each and in the order of the line.
   */
  lemma {:induction false} IndicationsKeepTheirOrder(items: seq<Item>, expected: byte, queue: seq<seq<byte>>)
    requires Proper(items)
    ensures EnqueuedAll(Results(items, expected), queue) == Front(items, expected) + queue + Back(items)
    decreases |items|, if items == [] then 0 else |items[0].noise|
  {
    if items != [] {
      if items[0].noise == [] {
        Quiet(items, expected);
        FrameOnQueue(items, expected, queue);
        IndicationsKeepTheirOrder(items[1..], expected, Rpc.Enqueued(Route(expected, items[0].frame.Message()), queue));
      } else {
        QuieterResults(items, expected);
        IndicationsKeepTheirOrder(Quieter(items), expected, queue);
      }
    }
  }

  /** What the first frame does to the queue fits the places of the others. */
  lemma FrameOnQueue(items: seq<Item>, expected: byte, queue: seq<seq<byte>>)
    requires Proper(items) && items != []
    ensures var others := items[1..];
            Front(others, expected) + Rpc.Enqueued(Route(expected, items[0].frame.Message()), queue) + Back(others)
            == Front(items, expected) + queue + Back(items)
  {
    var m := items[0].frame.Message();
    assert m[0] == items[0].frame.cmd0;
    PlacesFit(Front(items[1..], expected), m, queue, Back(items[1..]));
  }

  lemma PlacesFit(front: seq<seq<byte>>, m: seq<byte>, queue: seq<seq<byte>>, back: seq<seq<byte>>)
    ensures front + ([m] + queue) + back == (front + [m]) + queue + ([] + back)
    ensures front + (queue + [m]) + back == (front + []) + queue + ([m] + back)
    ensures front + queue + back == (front + []) + queue + ([] + back)
  {
    assert front + [] == front && [] + back == back;
    assert front + ([m] + queue) == front + [m] + queue;
    assert front + (queue + [m]) == front + queue + [m];
    assert front + queue + [m] + back == front + queue + ([m] + back);
  }

  /** A failed call changes nothing on the queue. */
  lemma {:induction false} KeptReachesTheQueue(plan: Schedule, feed: Feed, expected: byte, n: nat,
                                               queue: seq<seq<byte>>)
    ensures EnqueuedAll(Calls(plan, feed, expected, n).outcomes, queue)
         == EnqueuedAll(Kept(plan, feed, expected, n), queue)
    decreases n
  {
    if n > 0 {
      var call := Receive(plan, feed, expected);
      KeptReachesTheQueue(plan, call.feed, expected, n - 1, Rpc.Enqueued(call.outcome, queue));
    }
  }

  /** Both together: what a stream leaves on the message queue. */
  lemma StreamReachesTheQueue(plan: Schedule, items: seq<Item>, rest: seq<byte>, t: nat, expected: byte, n: nat,
                              queue: seq<seq<byte>>)
    requires Proper(items)
    requires AllSpared(plan, Feed(Line(items) + rest, t), expected, n)
    requires |Kept(plan, Feed(Line(items) + rest, t), expected, n)| == |Results(items, expected)|
    ensures var run := Calls(plan, Feed(Line(items) + rest, t), expected, n);
            && run.feed.wire == rest
            && EnqueuedAll(run.outcomes, queue) == Front(items, expected) + queue + Back(items)
  {
    StreamIsDelivered(plan, items, rest, t, expected, n);
    KeptReachesTheQueue(plan, Feed(Line(items) + rest, t), expected, n, queue);
    IndicationsKeepTheirOrder(items, expected, queue);
  }
}
