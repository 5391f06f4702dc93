/** The serial port as seen from the host: reads in arbitrary pieces, writes in chunks. */
module Transport {
  import opened Bytes
  import opened Numbers

  /**
   * What one `read` meets: a failure, or so many octets in the driver's buffer. The port is opened
   * with VMIN = 1, so a read that does not fail waits for at least one octet.
   */
  datatype ReadEvent = Fails | Finds(count: nat)

  /** The environment decides what the k-th read of a run meets. */
  type Schedule = nat -> ReadEvent

  /** The input side: octets still to arrive and the number of reads made so far. */
  datatype Feed = Feed(wire: seq<byte>, clock: nat) {
    function Tick(): Feed { Feed(wire, clock + 1) }

    function Drop(n: nat): Feed
      requires n <= |wire|
    { Feed(wire[n..], clock + 1) }
  }

  /** `Stalls`: no octet ever arrives again and the read does not return. */
  datatype ReadResult = Error | Stalls | Octets(data: seq<byte>)

  /** One read of at most `want` octets. */
  function ReadAt(plan: Schedule, feed: Feed, want: nat): (r: ReadResult)
    requires want > 0
    ensures r.Octets? ==> 1 <= |r.data| <= Min(want, |feed.wire|) && r.data == feed.wire[..|r.data|]
    ensures r.Stalls? ==> feed.wire == []
  {
    match plan(feed.clock)
    case Fails => Error
    case Finds(count) =>
      if feed.wire == [] then Stalls
      else Octets(feed.wire[..Min(want, Min(Max(1, count), |feed.wire|))])
  }

  function After(feed: Feed, r: ReadResult): Feed
    requires r.Octets? ==> |r.data| <= |feed.wire|
  {
    if r.Octets? then feed.Drop(|r.data|) else feed.Tick()
  }

  /** How many of the reads numbered `from` up to `to` fail. */
  function Failures(plan: Schedule, from: nat, to: nat): nat
    decreases if from < to then to - from else 0
  {
    if from >= to then 0
    else (if plan(from).Fails? then 1 else 0) + Failures(plan, from + 1, to)
  }

  /** The pieces that were written, put together. */
  function Together(chunks: seq<seq<byte>>): seq<byte> {
    if chunks == [] then [] else Together(chunks[..|chunks| - 1]) + chunks[|chunks| - 1]
  }

  class Port {
    const plan: Schedule
    var feed: Feed
    var written: seq<seq<byte>>

    constructor (plan: Schedule, wire: seq<byte>)
      ensures this.plan == plan && feed == Feed(wire, 0) && written == []
    {
      this.plan := plan;
      feed := Feed(wire, 0);
      written := [];
    }

    /**
     * Reads into `buf` from index `at`. The result is an eight-bit number, so the -1 of a failed
     * read comes back as 255. Callers see only the octets and `result`; the kind of event tells the
     * model whether the call returned at all and whether the buffer holds what was asked for.
     */
    method Read(buf: array<byte>, at: nat, want: nat) returns (result: nat, event: ReadResult)
      requires 0 < want && at + want <= buf.Length
      modifies this`feed, buf
      ensures event == ReadAt(plan, old(feed), want)
      ensures var r := event;
              && feed == After(old(feed), r)
              && (r.Error? ==> result == 255)
              && (r.Octets? ==> result == |r.data|
                                && buf[..] == old(buf[..at]) + r.data + old(buf[at + |r.data|..]))
              && (!r.Octets? ==> buf[..] == old(buf[..]))
    {
      event := ReadAt(plan, feed, want);
      match event {
        case Error => result := 255;
        case Stalls => result := 0;
        case Octets(data) =>
          result := |data|;
          forall i | 0 <= i < |data| { buf[at + i] := data[i]; }
      }
      feed := After(feed, event);
    }

    /** Writes `len` octets of `buf` in chunks of eight; `len` is an eight-bit parameter. */
    method Write(buf: array<byte>, len: nat)
      requires len < 256 && len <= buf.Length
      modifies this`written
      ensures old(written) <= written
      ensures Together(written) == Together(old(written)) + buf[..len]
      ensures forall i :: |old(written)| <= i < |written| ==>
                |written[i]| == 8 || (i == |written| - 1 && 1 <= |written[i]| <= 8)
    {
      var remain: int, offset: int := len, 0;
      while remain > 0
        invariant remain == len - offset
        invariant 0 <= offset && -8 < remain
        invariant old(written) <= written
        invariant Together(written) == Together(old(written)) + buf[..Min(offset, len)]
        invariant forall i :: |old(written)| <= i < |written| ==>
                    |written[i]| == 8 || (remain <= 0 && i == |written| - 1 && 1 <= |written[i]| <= 8)
      {
        var sub := if remain >= 8 then 8 else remain;
        var chunk := buf[offset..offset + sub];
        assert (written + [chunk])[..|written|] == written;
        assert buf[..offset] + chunk == buf[..offset + sub];
        written := written + [chunk];
        remain, offset := remain - 8, offset + 8;
      }
    }
  }
}
