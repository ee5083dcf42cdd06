/**
 The two users of the scanner: the whole-buffer assertion, and the stream
 transform that re-cuts its input so that every push is one complete frame.
 */
module FrameLimits {
  import opened Buffers
  import opened MessagePackGrammar
  import opened ScannerMachine
  import opened FrameRecognition
  import opened FrameScanner

  /** Counts the frames of `input`; None is the thrown error. */
  method AssertMessagePackFrameLimits(input: Buffer, limits: Limits) returns (r: Option<nat>)
    ensures r.Some? <==> exists frames :: FramingOf(frames, limits, input)
    ensures r.Some? ==> exists frames :: FramingOf(frames, limits, input) && |frames| == r.value
    ensures r.Some? <==> exists frames: seq<Buffer> ::
      && Flatten(frames) == input && |frames| <= limits.maxFrames
      && forall f | f in frames :: IsValue(f) && |f| <= limits.maxFrameBytes
  {
    hide ScanBytes, Inv, Framing, Flatten;
    ExactRecognition(limits, input);
    var scanner := new MessagePackFrameScanner(limits);
    var boundaries := scanner.Scan(input);
    if boundaries.None? { return None; }
    var finished := scanner.Finish();
    if !finished { return None; }
    ghost var frames :| FramingOf(frames, limits, input);
    FramesScan(frames, limits);
    return Some(|boundaries.value|);
  }

  /** The frames up to index k take exactly the bytes up to the k-th end. */
  lemma FramesUpTo(frames: seq<Buffer>, k: nat)
    requires k <= |frames|
    ensures Flatten(frames) == Flatten(frames[..k]) + Flatten(frames[k..])
    ensures Ends(frames)[..k] == Ends(frames[..k])
    ensures k > 0 ==> Ends(frames)[k - 1] == |Flatten(frames[..k])|
    ensures k < |frames| ==> Flatten(frames[..k + 1]) == Flatten(frames[..k]) + frames[k]
  {
    FlattenAppend(frames[..k], frames[k..]);
    assert frames[..k] + frames[k..] == frames;
    EndsPrefix(frames, k);
    if k < |frames| {
      assert frames[..k + 1] == frames[..k] + [frames[k]];
      FlattenSnoc(frames[..k], frames[k]);
    }
    EndsBeforeLast(frames[..k]);
  }

  lemma {:induction false} EndsPrefix(frames: seq<Buffer>, k: nat)
    requires k <= |frames|
    ensures Ends(frames)[..k] == Ends(frames[..k])
    decreases |frames|
  {
    if k < |frames| {
      var front := frames[..|frames| - 1];
      EndsPrefix(front, k);
      assert front[..k] == frames[..k];
      assert Ends(frames)[..k] == Ends(front)[..k];
    } else {
      assert frames[..k] == frames;
    }
  }

  /** Frames found by a longer scan begin with the frames found by the shorter one. */
  lemma FramesExtend(lim: Limits, before: Scanned, after: Scanned, more: Buffer, found: seq<nat>,
                     s: Buffer, frames: seq<Buffer>, partial: Buffer, frames': seq<Buffer>, partial': Buffer)
    requires Explains(s, lim, before, frames, partial)
    requires Explains(s + more, lim, after, frames', partial')
    requires after.boundaries == before.boundaries + Shift(found, |s|)
    ensures |frames'| == |frames| + |found|
    ensures frames'[..|frames|] == frames
  {
    hide Rest, IsValue, IsFrame;
    var n := |frames|;
    FramesUpTo(frames', n);
    assert Ends(frames'[..n]) == Ends(frames);
    EndsBeforeLast(frames);
    EndsBeforeLast(frames'[..n]);
    var size := |Flatten(frames)|;
    assert |Flatten(frames'[..n])| == size;
    assert Flatten(frames'[..n]) == (s + more)[..size] == s[..size] == Flatten(frames);
    EndsDetermineFrames(frames'[..n], frames);
  }

  /** buildFrameLimitTransform: `pushed` is its readable side. */
  class FrameLimitTransform {
    const limits: Limits
    const scanner: MessagePackFrameScanner
    var frameChunks: seq<Buffer>
    var frameBytes: nat
    var pushed: seq<Buffer>
    ghost var received: Buffer

    ghost predicate Valid()
      reads this, scanner
    {
      && scanner.limits == limits
      && scanner.Valid()
      && ScanBytes(Fresh(0), limits, received) == Some(Scanned(scanner.Snapshot(), Ends(pushed)))
      && Explains(received, limits, Scanned(scanner.Snapshot(), Ends(pushed)), pushed, Flatten(frameChunks))
      && frameBytes == |Flatten(frameChunks)|
    }

    /** After every chunk: each push is one legal frame, the pushes and the held bytes are the
        input, and the transform holds as many bytes as the scanner counts, within the limit. */
    lemma HoldsOneFrame()
      requires Valid()
      ensures Framing(pushed, limits)
      ensures Flatten(pushed) + Flatten(frameChunks) == received
      ensures frameBytes == scanner.frameBytes == |Flatten(frameChunks)|
      ensures frameBytes > 0 ==> frameBytes <= limits.maxFrameBytes
    {
    }

    constructor (limits: Limits)
      ensures Valid() && this.limits == limits && fresh(scanner)
      ensures received == [] && pushed == []
    {
      this.limits := limits;
      scanner := new MessagePackFrameScanner(limits);
      frameChunks, frameBytes, pushed, received := [], 0, [], [];
      new;
      NothingOfNextFrame(0);
    }

    method Transform(chunk: Buffer) returns (ok: bool)
      requires Valid()
      modifies this, scanner
      ensures ok == ScanBytes(Fresh(0), limits, old(received) + chunk).Some?
      ensures ok ==> Valid() && received == old(received) + chunk && old(pushed) <= pushed
      ensures ok ==> Framing(pushed, limits) && Flatten(pushed) + Flatten(frameChunks) == received
      ensures ok ==> frameBytes == scanner.frameBytes == |Flatten(frameChunks)|
      ensures ok && frameBytes > 0 ==> frameBytes <= limits.maxFrameBytes
    {
      hide ScanBytes, Inv, Rest, IsValue, IsFrame, Flatten, Ends;
      ghost var total := received + chunk;
      ghost var before := Scanned(scanner.Snapshot(), Ends(pushed));
      ScanConcat(Fresh(0), limits, received, chunk);
      var scanned := scanner.Scan(chunk);
      if scanned.None? { return false; }
      var boundaries := scanned.value;
      ghost var after := ScanBytes(Fresh(0), limits, total).value;
      ghost var frames, partial := ScanExplained(limits, total);
      FramesExtend(limits, before, after, chunk, boundaries, received, pushed, Flatten(frameChunks), frames, partial);
      Cut(chunk, boundaries, frames, partial);
      received := total;
      HoldsOneFrame();
      return true;
    }

    /** Keeps a part of the frame that is not complete yet. */
    method Hold(part: Buffer)
      requires frameBytes == |Flatten(frameChunks)|
      modifies this`frameChunks, this`frameBytes
      ensures Flatten(frameChunks) == old(Flatten(frameChunks)) + part
      ensures frameBytes == |Flatten(frameChunks)|
    {
      FlattenSnoc(frameChunks, part);
      if |part| > 0 {
        frameChunks := frameChunks + [part];
        frameBytes := frameBytes + |part|;
      }
    }

    /** Pushes the held parts as one frame. */
    method Emit()
      requires frameBytes == |Flatten(frameChunks)|
      modifies this`frameChunks, this`frameBytes, this`pushed
      ensures pushed == old(pushed) + [old(Flatten(frameChunks))]
      ensures frameChunks == [] && frameBytes == 0
    {
      ConcatIsFlatten(frameChunks);
      FlattenOne(frameChunks);
      pushed := pushed + [if |frameChunks| == 1 then frameChunks[0] else BufferConcat(frameChunks, frameBytes)];
      frameChunks, frameBytes := [], 0;
    }

    /** The loop over the boundaries found in `input`, and the bytes after the last of them. */
    method Cut(input: Buffer, boundaries: seq<nat>, ghost frames: seq<Buffer>, ghost partial: Buffer)
      requires received == Flatten(pushed) + Flatten(frameChunks) && frameBytes == |Flatten(frameChunks)|
      requires received + input == Flatten(frames) + partial
      requires |frames| == |pushed| + |boundaries| && frames[..|pushed|] == pushed
      requires Ends(frames) == Ends(pushed) + Shift(boundaries, |received|)
      modifies this`frameChunks, this`frameBytes, this`pushed
      ensures pushed == frames && Flatten(frameChunks) == partial && frameBytes == |partial|
    {
      hide Flatten, Ends, Cutting;
      ghost var n, size := |pushed|, |received|;
      var start, i := 0, 0;
      StartCutting(frames, partial, boundaries, n, size, input, pushed, Flatten(frameChunks));
      while i < |boundaries|
        invariant i <= |boundaries| && start <= |input|
        invariant frameBytes == |Flatten(frameChunks)|
        invariant Cutting(frames, partial, boundaries, n, size, input, pushed, Flatten(frameChunks), start, i)
      {
        var boundary := boundaries[i];
        CutOne(frames, partial, boundaries, n, size, input, pushed, Flatten(frameChunks), start, i);
        Hold(input[start..boundary]);
        Emit();
        FlattenNothing();
        start := boundary;
        i := i + 1;
      }
      CutAll(frames, partial, boundaries, n, size, input, pushed, Flatten(frameChunks), start);
      Hold(input[start..]);
    }

    method Flush() returns (ok: bool)
      requires Valid()
      ensures ok == Clean(scanner.Snapshot())
    {
      ok := scanner.Finish();
    }
  }

  lemma FlattenOne(parts: seq<Buffer>)
    ensures |parts| == 1 ==> Flatten(parts) == parts[0]
  {
  }

  lemma {:induction false} EndAt(frames: seq<Buffer>, n: nat, boundaries: seq<nat>, size: nat, i: nat)
    requires i < |boundaries| && |frames| == n + |boundaries|
    requires exists first: seq<nat> :: |first| == n && Ends(frames) == first + Shift(boundaries, size)
    ensures Ends(frames)[n + i] == size + boundaries[i]
  {
    hide Ends;
    var first: seq<nat> :| |first| == n && Ends(frames) == first + Shift(boundaries, size);
  }

  lemma Cancel(done: Buffer, held: Buffer, input: Buffer, others: Buffer)
    requires done + held + input == done + others
    ensures held + input == others
  {
    assert done + held + input == done + (held + input);
    assert (done + (held + input))[|done|..] == held + input;
    assert (done + others)[|done|..] == others;
  }

  lemma NextFrame(frames: seq<Buffer>, k: nat)
    requires k < |frames|
    ensures Flatten(frames[k..]) == frames[k] + Flatten(frames[k + 1..])
    ensures Ends(frames)[k] == |Flatten(frames[..k + 1])| == |Flatten(frames[..k])| + |frames[k]|
    ensures frames[..k + 1] == frames[..k] + [frames[k]]
  {
    hide Ends;
    FramesUpTo(frames, k);
    FramesUpTo(frames, k + 1);
    assert frames[k..][1..] == frames[k + 1..];
  }

  /** The next frame of a stream is the held bytes and the input up to its boundary. */
  lemma NextInPlace(held: Buffer, input: Buffer, start: nat, boundary: nat,
                    frame: Buffer, others: Buffer, partial: Buffer)
    requires start <= |input| && held + input[start..] == frame + others + partial
    requires |frame| == |held| + boundary - start
    requires start == 0 || held == []
    ensures start <= boundary <= |input|
    ensures held + input[start..boundary] == frame
    ensures [] + input[boundary..] == others + partial
  {
    var all := held + input[start..];
    assert all == frame + (others + partial);
    assert all[..|frame|] == frame && all[|frame|..] == others + partial;
    assert all[|frame|..] == input[boundary..];
    assert all[..|frame|] == held + input[start..boundary];
  }

  /** Midway through the boundaries of `input`: `i` of them are behind, the first `start` bytes used. */
  ghost predicate Cutting(frames: seq<Buffer>, partial: Buffer, boundaries: seq<nat>, n: nat, size: nat,
                          input: Buffer, pushed: seq<Buffer>, held: Buffer, start: nat, i: nat)
  {
    && i <= |boundaries| && |frames| == n + |boundaries|
    && (exists first: seq<nat> :: |first| == n && Ends(frames) == first + Shift(boundaries, size))
    && pushed == frames[..n + i]
    && start <= |input| && (start == 0 || held == [])
    && |Flatten(frames[..n + i])| + |held| == size + start
    && held + input[start..] == Flatten(frames[n + i..]) + partial
  }

  lemma {:induction false} StartCutting(frames: seq<Buffer>, partial: Buffer, boundaries: seq<nat>, n: nat, size: nat,
                     input: Buffer, pushed: seq<Buffer>, held: Buffer)
    requires |frames| == n + |boundaries| && pushed == frames[..n]
    requires Ends(frames) == Ends(pushed) + Shift(boundaries, size)
    requires Flatten(pushed) + held + input == Flatten(frames) + partial
    requires size == |Flatten(pushed) + held|
    ensures Cutting(frames, partial, boundaries, n, size, input, pushed, held, 0, 0)
  {
    hide Ends, Flatten;
    FramesUpTo(frames, n);
    assert Flatten(frames) + partial == Flatten(pushed) + (Flatten(frames[n..]) + partial);
    Cancel(Flatten(pushed), held, input, Flatten(frames[n..]) + partial);
    assert input[0..] == input;
  }

  lemma CutOne(frames: seq<Buffer>, partial: Buffer, boundaries: seq<nat>, n: nat, size: nat,
               input: Buffer, pushed: seq<Buffer>, held: Buffer, start: nat, i: nat)
    requires Cutting(frames, partial, boundaries, n, size, input, pushed, held, start, i)
    requires i < |boundaries|
    ensures start <= boundaries[i] <= |input|
    ensures Cutting(frames, partial, boundaries, n, size, input,
                    pushed + [held + input[start..boundaries[i]]], [], boundaries[i], i + 1)
  {
    hide Ends, Flatten;
    var k, boundary := n + i, boundaries[i];
    NextFrame(frames, k);
    EndAt(frames, n, boundaries, size, i);
    NextInPlace(held, input, start, boundary, frames[k], Flatten(frames[k + 1..]), partial);
  }

  lemma CutAll(frames: seq<Buffer>, partial: Buffer, boundaries: seq<nat>, n: nat, size: nat,
               input: Buffer, pushed: seq<Buffer>, held: Buffer, start: nat)
    requires Cutting(frames, partial, boundaries, n, size, input, pushed, held, start, |boundaries|)
    ensures pushed == frames && held + input[start..] == partial
  {
    assert frames[|frames|..] == [];
    assert [] + partial == partial;
  }

  /** A stream of chunks through the transform, then flush. */
  method RunFrameLimit(chunks: seq<Buffer>, limits: Limits) returns (r: Option<seq<Buffer>>)
    ensures r.Some? ==> FramingOf(r.value, limits, Flatten(chunks))
    ensures r.Some? ==>
      && Flatten(r.value) == Flatten(chunks) && |r.value| <= limits.maxFrames
      && forall f | f in r.value :: IsValue(f) && |f| <= limits.maxFrameBytes
    ensures r.None? ==> !exists frames :: FramingOf(frames, limits, Flatten(chunks))
  {
    hide ScanBytes, Inv, Rest, IsValue, IsFrame, Ends, Flatten;
    FlattenNothing();
    var t := new FrameLimitTransform(limits);
    var i := 0;
    while i < |chunks|
      invariant i <= |chunks| && t.limits == limits && t.Valid() && fresh(t) && fresh(t.scanner)
      invariant t.received == Flatten(chunks[..i])
    {
      var ok := t.Transform(chunks[i]);
      assert chunks[..i + 1] == chunks[..i] + [chunks[i]];
      FlattenSnoc(chunks[..i], chunks[i]);
      i := i + 1;
      if !ok {
        assert chunks[..i] + chunks[i..] == chunks;
        FlattenAppend(chunks[..i], chunks[i..]);
        RejectionIsFinal(limits, Flatten(chunks[..i]), Flatten(chunks[i..]));
        return None;
      }
    }
    assert chunks[..i] == chunks;
    ExactRecognition(limits, Flatten(chunks));
    var ok := t.Flush();
    if !ok { return None; }
    FramesAre(t.pushed, limits);
    return Some(t.pushed);
  }

  lemma FramesAre(frames: seq<Buffer>, limits: Limits)
    ensures Framing(frames, limits) <==>
      |frames| <= limits.maxFrames && forall f | f in frames :: IsValue(f) && |f| <= limits.maxFrameBytes
  {
    hide IsValue;
    if Framing(frames, limits) {
      forall f | f in frames ensures IsValue(f) && |f| <= limits.maxFrameBytes { assert IsFrame(f, limits); }
    }
    if forall f | f in frames :: IsValue(f) && |f| <= limits.maxFrameBytes {
      forall f | f in frames ensures IsFrame(f, limits) { }
    }
  }
}
