/** Bounded copies of streamed bodies: `read_capped` (rust/crates/thttpd-migrate/src/shadow.rs) and the
    body rebuilt around them, `ChainedBody` (rust/crates/thttpd-migrate/src/forwarder.rs). */
module CappedBody {
  import opened Common

  /** What a poll of a body yields; `Broken` is a stream error. */
  datatype Frame = Data(bytes: seq<Byte>) | Trailers | Broken

  /** The data bytes of a frame sequence. */
  function Bytes(frames: seq<Frame>): seq<Byte> {
    if frames == [] then []
    else (if frames[0].Data? then frames[0].bytes else []) + Bytes(frames[1..])
  }

  lemma {:induction false} BytesAppend(a: seq<Frame>, b: seq<Frame>)
    ensures Bytes(a + b) == Bytes(a) + Bytes(b)
  {
    if a == [] {
      assert a + b == b;
    } else {
      BytesAppend(a[1..], b);
      assert (a + b)[1..] == a[1..] + b;
    }
  }

  lemma BytesExtend(frames: seq<Frame>, i: nat)
    requires i < |frames|
    ensures Bytes(frames[..i + 1]) == Bytes(frames[..i]) + (if frames[i].Data? then frames[i].bytes else [])
  {
    assert frames[..i + 1] == frames[..i] + [frames[i]];
    BytesAppend(frames[..i], [frames[i]]);
    assert [frames[i]][1..] == [];
  }

  lemma BytesSplit(frames: seq<Frame>, i: nat)
    requires i <= |frames|
    ensures Bytes(frames) == Bytes(frames[..i]) + Bytes(frames[i..])
  {
    assert frames == frames[..i] + frames[i..];
    BytesAppend(frames[..i], frames[i..]);
  }

  /** How many frames come before the first stream error. */
  function Intact(frames: seq<Frame>): (n: nat)
    ensures n <= |frames| && (n < |frames| ==> frames[n].Broken?)
    ensures forall i :: 0 <= i < n ==> !frames[i].Broken?
  {
    if frames == [] || frames[0].Broken? then 0 else 1 + Intact(frames[1..])
  }

  /** The bytes that reach a consumer who stops at the first error. */
  function Delivered(frames: seq<Frame>): seq<Byte> {
    Bytes(frames[..Intact(frames)])
  }

  lemma {:induction false} IntactAppends(a: seq<Frame>, b: seq<Frame>)
    requires forall i :: 0 <= i < |a| ==> !a[i].Broken?
    ensures Intact(a + b) == |a| + Intact(b)
  {
    if a == [] {
      assert a + b == b;
    } else {
      IntactAppends(a[1..], b);
      assert (a + b)[1..] == a[1..] + b;
    }
  }

  /** The first error, or the end, is where the unbroken frames stop. */
  lemma IntactUpTo(frames: seq<Frame>, n: nat)
    requires n <= |frames| && (forall i :: 0 <= i < n ==> !frames[i].Broken?) && (n < |frames| ==> frames[n].Broken?)
    ensures Intact(frames) == n
  {
    IntactAppends(frames[..n], frames[n..]);
    assert frames[..n] + frames[n..] == frames;
  }

  /** Unbroken frames in front are delivered first, and then what the rest delivers. */
  lemma DeliveredAppends(a: seq<Frame>, b: seq<Frame>)
    requires forall i :: 0 <= i < |a| ==> !a[i].Broken?
    ensures Delivered(a + b) == Bytes(a) + Delivered(b) && Intact(a + b) == |a| + Intact(b)
  {
    IntactAppends(a, b);
    assert (a + b)[..Intact(a + b)] == a + b[..Intact(b)];
    BytesAppend(a, b[..Intact(b)]);
  }

  /** A stream error comes before the cap is crossed. */
  ghost predicate FailsWithin(frames: seq<Frame>, cap: nat) {
    exists i :: 0 <= i < |frames| && frames[i].Broken? && |Bytes(frames[..i])| <= cap
  }

  datatype Capped = Failed | Read(prefix: seq<Byte>, tail: Option<seq<Byte>>, truncated: bool)

  /** A streaming body: the frames that have not been polled yet. */
  class Stream {
    var frames: seq<Frame>

    constructor (frames: seq<Frame>)
      ensures this.frames == frames
    {
      this.frames := frames;
    }

    method Next() returns (f: Option<Frame>)
      modifies this
      ensures old(frames) == [] ==> f.None? && frames == []
      ensures old(frames) != [] ==> f == Some(old(frames)[0]) && frames == old(frames)[1..]
    {
      if frames == [] {
        return None;
      }
      f := Some(frames[0]);
      frames := frames[1..];
    }
  }

  /** Reads up to `cap` bytes and leaves the rest in the stream. It fails exactly on an error met before the
      cap; otherwise it keeps exactly the first `min(total, cap)` bytes, reports truncation exactly when there
      are more, and nothing is lost between the prefix, the tail and what is still unread. */
  method ReadCapped(body: Stream, cap: nat) returns (r: Capped, ghost polled: nat)
    modifies body
    ensures r.Failed? <==> FailsWithin(old(body.frames), cap)
    ensures r.Read? ==>
      var total := Bytes(old(body.frames));
      && r.prefix == total[..Min(|total|, cap)]
      && (r.truncated <==> |total| > cap)
      && (r.truncated <==> r.tail.Some?)
      && (!r.truncated ==> body.frames == [])
    ensures r.Read? ==>
      && polled <= |old(body.frames)| && body.frames == old(body.frames)[polled..]
      && (forall i :: 0 <= i < polled ==> !old(body.frames)[i].Broken?)
      && r.prefix + (if r.tail.Some? then r.tail.value else []) == Bytes(old(body.frames)[..polled])
  {
    var buf: seq<Byte> := [];
    ghost var all := body.frames;
    polled := 0;
    assert all[0..] == all && all[..0] == [];
    while true
      invariant polled <= |all| && body.frames == all[polled..]
      invariant buf == Bytes(all[..polled]) && |buf| <= cap
      invariant forall i :: 0 <= i < polled ==> !all[i].Broken?
      decreases |all| - polled
    {
      BytesSplit(all, polled);
      var frame := body.Next();
      if frame.None? {
        assert all[..polled] == all;
        return Read(buf, None, false), polled;
      }
      BytesExtend(all, polled);
      BytesSplit(all, polled + 1);
      assert frame.value == all[polled] && body.frames == all[polled + 1..];
      match frame.value {
        case Broken =>
          return Failed, polled;
        case Trailers =>
        case Data(data) =>
          if |buf| + |data| <= cap {
            buf := buf + data;
          } else {
            var remaining := cap - |buf|;
            CrossingIsDecisive(all, polled, cap);
            var whole := buf + data;
            buf := buf + data[..remaining];
            assert (whole + Bytes(all[polled + 1..]))[..cap] == buf;
            assert buf + data[remaining..] == whole;
            return Read(buf, Some(data[remaining..]), true), polled + 1;
          }
      }
      polled := polled + 1;
    }
  }

  /** Once a frame crosses the cap, no later error counts. */
  lemma CrossingIsDecisive(all: seq<Frame>, n: nat, cap: nat)
    requires n < |all| && all[n].Data? && |Bytes(all[..n])| + |all[n].bytes| > cap
    requires forall i :: 0 <= i < n ==> !all[i].Broken?
    ensures !FailsWithin(all, cap)
  {
    BytesExtend(all, n);
    forall i | n < i <= |all| ensures |Bytes(all[..i])| > cap {
      assert all[..i][..n + 1] == all[..n + 1];
      BytesSplit(all[..i], n + 1);
    }
  }

  /** The buffered chunks as the frames they are sent in. */
  function DataFrames(chunks: seq<seq<Byte>>): (frames: seq<Frame>)
    ensures |frames| == |chunks|
    ensures forall i :: 0 <= i < |chunks| ==> frames[i] == Data(chunks[i])
  {
    seq(|chunks|, i requires 0 <= i < |chunks| => Data(chunks[i]))
  }

  function Chunk(bytes: seq<Byte>): seq<seq<Byte>> {
    if bytes == [] then [] else [bytes]
  }

  lemma BytesOfChunks(a: seq<Byte>, b: seq<Byte>)
    ensures Bytes(DataFrames(Chunk(a) + Chunk(b))) == a + b
  {
    BytesOfChunk(a);
    BytesOfChunk(b);
    BytesAppend(DataFrames(Chunk(a)), DataFrames(Chunk(b)));
    assert DataFrames(Chunk(a) + Chunk(b)) == DataFrames(Chunk(a)) + DataFrames(Chunk(b));
  }

  lemma BytesOfChunk(a: seq<Byte>)
    ensures Bytes(DataFrames(Chunk(a))) == a
  {
    var frames := DataFrames(Chunk(a));
    if a != [] {
      assert frames[1..] == [];
    }
  }

  /** A body that yields buffered chunks and then delegates to a stream. */
  class ChainedBody {
    var chunks: seq<seq<Byte>>
    const rest: Option<Stream>

    /** Empty chunks are skipped. */
    constructor (prefix: seq<Byte>, tail: seq<Byte>, rest: Option<Stream>)
      ensures this.rest == rest && Bytes(DataFrames(chunks)) == prefix + tail
    {
      this.rest := rest;
      this.chunks := Chunk(prefix) + Chunk(tail);
      new;
      BytesOfChunks(prefix, tail);
    }

    /** Every frame still to come. */
    ghost function Ahead(): seq<Frame>
      reads this, if rest.Some? then {rest.value} else {}
    {
      DataFrames(chunks) + (if rest.Some? then rest.value.frames else [])
    }

    method PollFrame() returns (f: Option<Frame>)
      modifies this, if rest.Some? then {rest.value} else {}
      ensures f.None? <==> old(Ahead()) == []
      ensures old(Ahead()) == (if f.Some? then [f.value] else []) + Ahead()
    {
      ghost var ahead := Ahead();
      if chunks != [] {
        f := Some(Data(chunks[0]));
        chunks := chunks[1..];
        assert ahead == [f.value] + Ahead();
        return;
      }
      if rest.Some? {
        f := rest.value.Next();
        assert ahead == (if f.Some? then [f.value] else []) + Ahead();
        return;
      }
      return None;
    }

    /** A consumer polls until the end or the first error: it gets every byte before that, in order, and
        learns of the error exactly when there is one. */
    method Drain() returns (out: seq<Byte>, complete: bool)
      modifies this, if rest.Some? then {rest.value} else {}
      ensures out == Delivered(old(Ahead()))
      ensures complete <==> Intact(old(Ahead())) == |old(Ahead())|
    {
      out := [];
      ghost var all := Ahead();
      ghost var n := 0;
      assert all[0..] == all && all[..0] == [];
      while true
        invariant n <= |all| && Ahead() == all[n..] && out == Bytes(all[..n])
        invariant forall i :: 0 <= i < n ==> !all[i].Broken?
        decreases |all| - n
      {
        var f := PollFrame();
        if f.None? || f.value.Broken? {
          IntactUpTo(all, n);
          return out, f.None?;
        }
        BytesExtend(all, n);
        if f.value.Data? {
          out := out + f.value.bytes;
        }
        n := n + 1;
      }
    }
  }

  /** What the user or the primary receives when a body was read up to the cap first: nothing when the read
      failed, and otherwise exactly what the original body would have delivered, errors after the cap included. */
  method Rebuild(body: Stream, cap: nat) returns (out: Option<seq<Byte>>, complete: bool)
    modifies body
    ensures out.None? <==> FailsWithin(old(body.frames), cap)
    ensures out.Some? ==> out.value == Delivered(old(body.frames))
    ensures out.Some? ==> (complete <==> Intact(old(body.frames)) == |old(body.frames)|)
  {
    ghost var all := body.frames;
    ghost var polled;
    var r;
    r, polled := ReadCapped(body, cap);
    if r.Failed? {
      return None, false;
    }
    assert all == all[..polled] + all[polled..];
    DeliveredAppends(all[..polled], all[polled..]);
    if r.truncated {
      var chained := new ChainedBody(r.prefix, r.tail.value, Some(body));
      DeliveredAppends(DataFrames(chained.chunks), body.frames);
      var bytes, ended := chained.Drain();
      return Some(bytes), ended;
    }
    return Some(r.prefix), true;
  }

  /** A body without stream errors is rebuilt byte for byte. */
  lemma WithoutErrorsAllIsDelivered(frames: seq<Frame>)
    requires forall i :: 0 <= i < |frames| ==> !frames[i].Broken?
    ensures Delivered(frames) == Bytes(frames) && !exists cap: nat :: FailsWithin(frames, cap)
  {
    assert frames[..Intact(frames)] == frames;
  }
}
