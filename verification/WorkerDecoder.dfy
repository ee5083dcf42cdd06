/** The decoding side of createStream: PXWK wire bytes back to task outputs. */
module WorkerDecoder {
  import opened Buffers
  import opened ResourceLimits
  import opened WorkerFormat

  /** Wire bytes in which nothing is refused yet. */
  predicate WirePrefix(st: Stream, wire: Buffer) {
    && |wire| <= PluginInputLimit(st.limits)
    && (|wire| < |MAGIC| || RecordsPrefix(st, wire))
  }

  predicate RecordsPrefix(st: Stream, wire: Buffer)
    requires |wire| >= |MAGIC|
  {
    wire[..|MAGIC|] == MAGIC && !Walk(st, START, wire[|MAGIC|..]).refused
  }

  lemma RefusedStaysRefused(st: Stream, a: Buffer, b: Buffer)
    requires !WirePrefix(st, a)
    ensures !WirePrefix(st, a + b) && Decoded(st, a + b).None?
  {
    hide Walk;
    if |a| >= |MAGIC| {
      assert (a + b)[..|MAGIC|] == a[..|MAGIC|];
      assert (a + b)[|MAGIC|..] == a[|MAGIC|..] + b;
      WalkConcat(st, START, a[|MAGIC|..], b);
    }
  }

  lemma PrefixWithin(st: Stream, a: Buffer, b: Buffer)
    requires |a| >= |MAGIC| && !RecordsPrefix(st, a)
    ensures !RecordsPrefix(st, a + b)
  {
    hide Walk;
    assert (a + b)[..|MAGIC|] == a[..|MAGIC|];
    assert (a + b)[|MAGIC|..] == a[|MAGIC|..] + b;
    WalkConcat(st, START, a[|MAGIC|..], b);
  }

  /** More bytes, as a walk from the record under way. */
  lemma HeldOn(st: Stream, received: Buffer, more: Buffer, p: Progress, outputs: seq<Buffer>, held: Buffer)
    requires |received| >= |MAGIC|
    requires Walk(st, START, received[|MAGIC|..]) == Walked(p, outputs, held, false)
    ensures (received + more)[..|MAGIC|] == received[..|MAGIC|]
    ensures Walk(st, START, (received + more)[|MAGIC|..]) == Prepend(outputs, Walk(st, p, held + more))
  {
    hide Walk, Prepend;
    WalkConcat(st, START, received[|MAGIC|..], more);
    assert (received + more)[|MAGIC|..] == received[|MAGIC|..] + more;
  }

  /** A walk over at most one item. */
  lemma {:induction false} WalkHeld(st: Stream, p: Progress, held: Buffer)
    ensures p.ended && held != [] ==> Walk(st, p, held).refused
    ensures !p.ended && |held| < 4 ==> Walk(st, p, held) == Walked(p, [], held, false)
    ensures !p.ended && |held| >= 4 ==>
      var length := BigEndian(held[..4]);
      && (length == END_MARK && |held| == 4 ==> Walk(st, p, held) == Walked(p.(ended := true), [], [], false))
      && (length != END_MARK && length > MaxFrame(st.limits) ==> Walk(st, p, held).refused)
      && (length <= MaxFrame(st.limits) && |held| < 4 + length ==> Walk(st, p, held) == Walked(p, [], held, false))
      && (length <= MaxFrame(st.limits) && |held| == 4 + length ==>
            var item := Ran(st, p, held[4..]);
            if item.RecordItem? then Walk(st, p, held) == Walked(AfterRecord(p, item.output), [item.output], [], false)
            else Walk(st, p, held).refused)
  {
    hide Ran, BigEndian;
    if !p.ended && |held| >= 4 {
      var length := BigEndian(held[..4]);
      if length <= MaxFrame(st.limits) && |held| == 4 + length {
        assert held[4..4 + length] == held[4..];
        RanSize(st, p, held[4..]);
        assert held[|held|..] == [];
        if Ran(st, p, held[4..]).RecordItem? {
          var output := Ran(st, p, held[4..]).output;
          assert [output] + [] == [output];
        }
      }
    }
  }

  /** A walk over no more than a length. */
  lemma WalkLength(st: Stream, p: Progress, held: Buffer)
    requires !p.ended && |held| <= 4
    ensures |held| < 4 ==> Walk(st, p, held) == Walked(p, [], held, false)
    ensures |held| == 4 ==>
      && (BigEndian(held) == END_MARK ==> Walk(st, p, held) == Walked(p.(ended := true), [], [], false))
      && (BigEndian(held) != END_MARK && BigEndian(held) > MaxFrame(st.limits) ==> Walk(st, p, held).refused)
  {
    WalkHeld(st, p, held);
    hide Walk, BigEndian, Ran;
    if |held| == 4 { assert held[..4] == held; }
  }

  /** A walk over part of a record. */
  lemma WalkPayload(st: Stream, p: Progress, held: Buffer)
    requires !p.ended && |held| >= 4 && BigEndian(held[..4]) <= MaxFrame(st.limits)
    requires |held| < 4 + BigEndian(held[..4])
    ensures Walk(st, p, held) == Walked(p, [], held, false)
  {
    hide Walk, BigEndian, Ran;
    WalkHeld(st, p, held);
  }

  lemma PrependNothing(outputs: seq<Buffer>, p: Progress, held: Buffer)
    ensures Prepend(outputs, Walked(p, [], held, false)) == Walked(p, outputs, held, false)
  {
    assert outputs + [] == outputs;
  }

  lemma RanSize(st: Stream, p: Progress, payload: Buffer)
    ensures var item := Ran(st, p, payload); item.Refused? || (item.RecordItem? && item.size == 4 + |payload|)
  {
  }

  class DecodeTransform {
    const st: Stream
    var header: array<byte>
    var headerBytes: nat
    var payload: array?<byte>
    var payloadBytes: nat
    var started: bool
    var ended: bool
    var inputBytes: nat
    var outputBytes: nat
    var frames: nat
    var pushed: seq<Buffer>
    ghost var received: Buffer

    ghost predicate Shape()
      reads this, header, payload
    {
      && header.Length == (if started then 4 else |MAGIC|)
      && payload != header
      && (payload == null ==> headerBytes < header.Length)
      && (payload != null ==>
            && started && headerBytes == 0 && payloadBytes <= payload.Length
            && BigEndian(header[..]) == payload.Length <= MaxFrame(st.limits))
    }

    /** The bytes of the record under way. */
    ghost function Held(): Buffer
      requires Shape()
      reads this, header, payload
    {
      if payload == null then header[..headerBytes] else header[..] + payload[..payloadBytes]
    }

    ghost function Reached(): Progress
      reads this
    {
      Progress(frames, outputBytes, ended)
    }

    /** The state after the wire bytes `received`. */
    ghost predicate InRecords()
      reads this, header, payload
    {
      && Shape()
      && (payload != null ==> payloadBytes < payload.Length)
      && (ended ==> payload == null && headerBytes == 0)
      && outputBytes == |Flatten(pushed)|
      && if !started then
           && headerBytes == |received| < |MAGIC| && header[..headerBytes] == received
           && Reached() == START && pushed == []
         else
           && |received| >= |MAGIC| && received[..|MAGIC|] == MAGIC
           && Walk(st, START, received[|MAGIC|..]) == Walked(Reached(), pushed, Held(), false)
    }

    ghost predicate Valid()
      reads this, header, payload
    {
      InRecords() && inputBytes == |received| <= PluginInputLimit(st.limits)
    }

    constructor (st: Stream)
      ensures Valid() && this.st == st && received == [] && pushed == []
      ensures fresh(header) && payload == null
    {
      this.st := st;
      header := new byte[|MAGIC|](_ => 0);
      headerBytes, payload, payloadBytes, started, ended := 0, null, 0, false, false;
      inputBytes, outputBytes, frames, pushed, received := 0, 0, 0, [], [];
    }

    /** A payload is under way, and the wire bytes up to it, `seen` the last of them, lead to what is held. */
    ghost predicate Carried(seen: Buffer)
      reads this, header, payload
    {
      && Shape() && started && !ended && payload != null
      && outputBytes == |Flatten(pushed)|
      && |received| >= |MAGIC| && received[..|MAGIC|] == MAGIC
      && Walk(st, START, (received + seen)[|MAGIC|..]) == Prepend(pushed, Walk(st, Reached(), Held()))
      && (payloadBytes < payload.Length ==> Walk(st, Reached(), Held()) == Walked(Reached(), [], Held(), false))
    }

    lemma StartedReceived()
      requires InRecords() && started
      ensures |received| >= |MAGIC|
    {
      hide Walk, Held;
    }

    lemma CarriedOver()
      requires InRecords() && payload != null
      ensures Carried([]) && payloadBytes < payload.Length
    {
      hide Walk, BigEndian, Flatten, Prepend;
      HeldDigits();
      WalkPayload(st, Reached(), Held());
      assert received + [] == received;
      PrependNothing(pushed, Reached(), Held());
    }

    /** Bytes of the magic word. */
    method TakeMagic(input: Buffer, offset: nat) returns (ok: bool, count: nat)
      requires InRecords() && !started && offset < |input|
      modifies this`header, this`headerBytes, this`started, this`received, header
      ensures 0 < count && offset + count <= |input|
      ensures ok ==> InRecords() && received == old(received) + input[offset..offset + count]
      ensures header == old(header) || fresh(header)
      ensures !ok ==> var all := old(received) + input[offset..offset + count];
        |all| >= |MAGIC| && !RecordsPrefix(st, all)
    {
      hide Walk, BigEndian;
      count := Min(header.Length - headerBytes, |input| - offset);
      ghost var all := received + input[offset..offset + count];
      CopyInto(header, headerBytes, input, offset, count);
      headerBytes := headerBytes + count;
      assert header[..headerBytes] == all;
      if headerBytes == header.Length {
        assert header[..] == all == all[..|MAGIC|];
        if header[..] != MAGIC { return false, count; }
        started := true;
        header := new byte[4](_ => 0);
        headerBytes := 0;
        assert all[|MAGIC|..] == [];
        WalkHeld(st, START, []);
        assert header[..0] == [];
      }
      received := all;
      return true, count;
    }

    /** Bytes of a length; `sized` when it is whole and announces a payload. */
    method TakeLength(input: Buffer, offset: nat) returns (ok: bool, count: nat, sized: bool)
      requires InRecords() && started && !ended && payload == null && offset < |input|
      modifies this`headerBytes, this`payload, this`payloadBytes, this`ended, this`received, header
      ensures 0 < count && offset + count <= |input|
      ensures ok && !sized ==> InRecords() && received == old(received) + input[offset..offset + count]
      ensures sized ==> ok && payload != null && fresh(payload) && Shape()
      ensures sized ==> payloadBytes == 0 && !ended && received == old(received)
      ensures sized ==> Carried(input[offset..offset + count])
      ensures payload == null || fresh(payload)
      ensures !ok ==> !RecordsPrefix(st, old(received) + input[offset..offset + count])
    {
      hide Walk, BigEndian, Flatten;
      ghost var more := input[offset..Min(offset + (header.Length - headerBytes), |input|)];
      ghost var held := Held() + more;
      count := Min(header.Length - headerBytes, |input| - offset);
      HeldOn(st, received, more, Reached(), pushed, Held());
      WalkLength(st, Reached(), held);
      CopyInto(header, headerBytes, input, offset, count);
      headerBytes := headerBytes + count;
      assert header[..headerBytes] == held;
      sized := false;
      if headerBytes == header.Length {
        assert header[..] == held == held[..4];
        var length := BigEndian(header[..]);
        headerBytes := 0;
        if length == END_MARK {
          ended := true;
          assert header[..0] == [];
          assert pushed + [] == pushed;
        } else {
          if length > MaxFrame(st.limits) { return false, count, false; }
          payload := new byte[length](_ => 0);
          payloadBytes := 0;
          assert payload[..0] == [] && header[..] + [] == held;
          HeldDigits();
          if payload.Length > 0 { WalkPayload(st, Reached(), Held()); }
          return true, count, true;
        }
      } else {
        assert pushed + [] == pushed;
      }
      received := received + more;
      return true, count, false;
    }

    lemma HeldDigits()
      requires Shape() && payload != null
      ensures Held()[..4] == header[..] && |Held()| == 4 + payloadBytes && Held()[4..] == payload[..payloadBytes]
    {
    }

    /** Copies bytes of the input behind those of the payload. */
    method FillPayload(input: Buffer, offset: nat, count: nat)
      requires Shape() && payload != null && payloadBytes + count <= payload.Length && offset + count <= |input|
      modifies this`payloadBytes, payload
      ensures Shape() && payloadBytes == old(payloadBytes) + count
      ensures Held() == old(Held()) + input[offset..offset + count] && Held()[4..] == payload[..payloadBytes]
    {
      hide BigEndian;
      CopyInto(payload, payloadBytes, input, offset, count);
      payloadBytes := payloadBytes + count;
      HeldDigits();
    }

    /** Bytes of a payload, and its task once it is whole; `seen` are the length bytes just read. */
    method TakePayload(input: Buffer, offset: nat, ghost seen: Buffer) returns (ok: bool, count: nat)
      requires Carried(seen) && offset <= |input|
      modifies this`payload, this`payloadBytes, this`outputBytes, this`frames, this`pushed, this`received, payload
      ensures offset + count <= |input|
      ensures old(payloadBytes < payload.Length) && offset < |input| ==> count > 0
      ensures ok ==> InRecords() && received == old(received) + seen + input[offset..offset + count]
      ensures payload == null || payload == old(payload)
      ensures old(pushed) <= pushed
      ensures !ok ==> !RecordsPrefix(st, old(received) + seen + input[offset..offset + count])
    {
      hide Walk, BigEndian, Flatten, Ran, Prepend, AfterRecord, RecordsPrefix;
      count := Min(payload.Length - payloadBytes, |input| - offset);
      ghost var more := input[offset..offset + count];
      ghost var all := received + seen + more;
      HeldDigits();
      RecordOn(st, received + seen, more, Reached(), pushed, Held());
      FillPayload(input, offset, count);
      assert all[..|MAGIC|] == MAGIC;
      if payloadBytes == payload.Length {
        ok := RunPayload(payload[..payloadBytes]);
        if !ok {
          RefusedPrefix(st, all);
          return;
        }
        payload, payloadBytes := null, 0;
        assert header[..headerBytes] == [];
      }
      received := all;
      return true, count;
    }

    /** Runs a worker task on a whole payload and emits its output. */
    method RunPayload(data: Buffer) returns (ok: bool)
      requires outputBytes == |Flatten(pushed)|
      modifies this`outputBytes, this`frames, this`pushed
      ensures ok == old(Ran(st, Reached(), data)).RecordItem?
      ensures ok ==> pushed == old(pushed) + [old(Ran(st, Reached(), data)).output]
      ensures ok ==> Reached() == AfterRecord(old(Reached()), old(Ran(st, Reached(), data)).output)
      ensures ok ==> outputBytes == |Flatten(pushed)|
      ensures old(pushed) <= pushed
    {
      hide RunTask, Flatten;
      var output := RunTask(st, frames, data);
      frames := frames + 1;
      if output.None? { return false; }
      if |output.value| > st.limits.maxOutputBytes - outputBytes { return false; }
      FlattenSnoc(pushed, output.value);
      outputBytes := outputBytes + |output.value|;
      pushed := pushed + [output.value];
      return true;
    }

    /** One turn of the loop over a chunk. */
    method DecodeSome(input: Buffer, offset: nat) returns (ok: bool, count: nat)
      requires InRecords() && offset < |input|
      modifies this, header, payload
      ensures offset + count <= |input| && (ok ==> 0 < count)
      ensures ok ==> InRecords() && received == old(received) + input[offset..offset + count]
      ensures header == old(header) || fresh(header)
      ensures payload == null || payload == old(payload) || fresh(payload)
      ensures !ok ==> var all := old(received) + input[offset..offset + count];
        |all| >= |MAGIC| && !RecordsPrefix(st, all)
      ensures inputBytes == old(inputBytes)
    {
      hide Walk, BigEndian, Flatten;
      if ended {
        count := |input| - offset;
        HeldOn(st, received, input[offset..offset + count], Reached(), pushed, Held());
        WalkHeld(st, Reached(), Held() + input[offset..offset + count]);
        return false, count;
      }
      if !started {
        ok, count := TakeMagic(input, offset);
        return;
      }
      ok, count := DecodeRecord(input, offset);
    }

    /** Bytes of a length and, in the same turn, of the payload it announces. */
    method DecodeRecord(input: Buffer, offset: nat) returns (ok: bool, count: nat)
      requires InRecords() && started && !ended && offset < |input|
      modifies this, header, payload
      ensures offset + count <= |input| && (ok ==> 0 < count)
      ensures ok ==> InRecords() && received == old(received) + input[offset..offset + count]
      ensures header == old(header) || fresh(header)
      ensures payload == null || payload == old(payload) || fresh(payload)
      ensures !ok ==> var all := old(received) + input[offset..offset + count];
        |all| >= |MAGIC| && !RecordsPrefix(st, all)
      ensures inputBytes == old(inputBytes)
    {
      hide InRecords, Carried, RecordsPrefix;
      StartedReceived();
      ghost var before := received;
      var first := 0;
      ghost var seen: Buffer := [];
      if payload == null {
        var sized;
        ok, first, sized := TakeLength(input, offset);
        if !ok || !sized { return ok, first; }
        seen := input[offset..offset + first];
      } else {
        CarriedOver();
      }
      ok, count := TakePayload(input, offset + first, seen);
      assert before + seen + input[offset + first..offset + first + count]
          == before + input[offset..offset + first + count];
      count := first + count;
    }

    method Decode(input: Buffer) returns (ok: bool)
      requires InRecords()
      modifies this, header, payload
      ensures ok == (var all := old(received) + input; |all| < |MAGIC| || RecordsPrefix(st, all))
      ensures ok ==> InRecords() && received == old(received) + input
      ensures header == old(header) || fresh(header)
      ensures payload == null || payload == old(payload) || fresh(payload)
      ensures inputBytes == old(inputBytes)
    {
      hide Walk, InRecords, RecordsPrefix;
      ghost var before, whole := received, received + input;
      var offset := 0;
      assert input[..0] == [] && before + [] == before;
      while offset < |input|
        invariant offset <= |input| && InRecords() && received == before + input[..offset]
        invariant header == old(header) || fresh(header)
        invariant payload == null || payload == old(payload) || fresh(payload)
        invariant inputBytes == old(inputBytes)
      {
        ghost var start := offset;
        var count;
        ok, count := DecodeSome(input, offset);
        offset := offset + count;
        assert input[..start] + input[start..offset] == input[..offset];
        assert before + input[..start] + input[start..offset] == before + input[..offset];
        if !ok {
          PrefixWithin(st, before + input[..offset], input[offset..]);
          assert before + input[..offset] + input[offset..] == whole;
          return false;
        }
      }
      assert input[..offset] == input;
      NothingRefused();
      return true;
    }

    lemma NothingRefused()
      requires InRecords()
      ensures |received| < |MAGIC| || RecordsPrefix(st, received)
    {
      hide Walk, BigEndian;
    }

    method Transform(chunk: Buffer) returns (ok: bool)
      requires Valid()
      modifies this, header, payload
      ensures ok == WirePrefix(st, old(received) + chunk)
      ensures ok ==> Valid() && received == old(received) + chunk
      ensures header == old(header) || fresh(header)
      ensures payload == null || payload == old(payload) || fresh(payload)
    {
      hide Walk, RecordsPrefix;
      if |chunk| > PluginInputLimit(st.limits) - inputBytes { return false; }
      inputBytes := inputBytes + |chunk|;
      ok := Decode(chunk);
    }

    method Flush() returns (ok: bool)
      requires Valid()
      ensures ok == Decoded(st, received).Some?
      ensures ok ==> Some(Flatten(pushed)) == Decoded(st, received)
    {
      hide Walk, BigEndian, Flatten;
      ok := !(!ended || payload != null || headerBytes != 0);
      assert headerBytes > 0 && payload == null ==> |Held()| > 0;
    }
  }

  lemma PayloadOn(st: Stream, received: Buffer, more: Buffer, p: Progress, outputs: seq<Buffer>, held: Buffer)
    requires |received| >= |MAGIC|
    requires Walk(st, START, received[|MAGIC|..]) == Prepend(outputs, Walk(st, p, held))
    requires Walk(st, p, held) == Walked(p, [], held, false) || more == []
    ensures Walk(st, START, (received + more)[|MAGIC|..]) == Prepend(outputs, Walk(st, p, held + more))
  {
    hide Walk;
    if more == [] {
      assert received + more == received && held + more == held;
    } else {
      assert outputs + [] == outputs;
      HeldOn(st, received, more, p, outputs, held);
    }
  }

  lemma RefusedPrefix(st: Stream, wire: Buffer)
    requires |wire| >= |MAGIC| && Walk(st, START, wire[|MAGIC|..]).refused
    ensures !RecordsPrefix(st, wire)
  {
    hide Walk;
  }

  /** More bytes of a payload, seen from the start of the wire. */
  lemma RecordOn(st: Stream, received: Buffer, more: Buffer, p: Progress, outputs: seq<Buffer>, held: Buffer)
    requires |received| >= |MAGIC| && !p.ended && |held| >= 4 && BigEndian(held[..4]) <= MaxFrame(st.limits)
    requires |held + more| <= 4 + BigEndian(held[..4])
    requires Walk(st, START, received[|MAGIC|..]) == Prepend(outputs, Walk(st, p, held))
    requires Walk(st, p, held) == Walked(p, [], held, false) || more == []
    ensures var w, now := Walk(st, START, (received + more)[|MAGIC|..]), held + more;
      if |now| < 4 + BigEndian(held[..4]) then w == Walked(p, outputs, now, false)
      else
        var item := Ran(st, p, now[4..]);
        if item.RecordItem? then w == Walked(AfterRecord(p, item.output), outputs + [item.output], [], false)
        else w.refused
  {
    hide Walk, BigEndian, Ran, AfterRecord;
    PayloadOn(st, received, more, p, outputs, held);
    WalkHeld(st, p, held + more);
    assert (held + more)[..4] == held[..4];
    assert outputs + [] == outputs;
  }

  /** A stream of chunks through the decoder, then flush. */
  method RunDecode(st: Stream, chunks: seq<Buffer>) returns (r: Option<seq<Buffer>>)
    ensures r.Some? <==> Decoded(st, Flatten(chunks)).Some?
    ensures r.Some? ==> Some(Flatten(r.value)) == Decoded(st, Flatten(chunks))
  {
    hide Flatten, Decoded, WirePrefix, DecodeTransform.InRecords;
    var t := new DecodeTransform(st);
    var i := 0;
    FlattenNothing();
    while i < |chunks|
      invariant i <= |chunks| && fresh(t) && t.Valid() && t.st == st
      invariant fresh(t.header) && (t.payload == null || fresh(t.payload))
      invariant t.received == Flatten(chunks[..i])
    {
      assert chunks[..i + 1] == chunks[..i] + [chunks[i]];
      FlattenSnoc(chunks[..i], chunks[i]);
      var ok := t.Transform(chunks[i]);
      i := i + 1;
      if !ok {
        assert chunks[..i] + chunks[i..] == chunks;
        FlattenAppend(chunks[..i], chunks[i..]);
        RefusedStaysRefused(st, Flatten(chunks[..i]), Flatten(chunks[i..]));
        return None;
      }
    }
    assert chunks[..i] == chunks;
    var ok := t.Flush();
    return if ok then Some(t.pushed) else None;
  }

  /** Encode in one chunking, cut the wire anywhere, decode in another: the input comes back. */
  method Transport(enc: Stream, dec: Stream, chunks: seq<Buffer>, wire: seq<Buffer>) returns (out: Option<seq<Buffer>>)
    requires StreamOk(enc) && enc.limits == dec.limits && Inverse(enc.task, dec.task)
    requires Encoded(enc, chunks) == Some(Flatten(wire))
    ensures out.Some? <==> |Flatten(chunks)| <= enc.limits.maxOutputBytes
    ensures out.Some? ==> Flatten(out.value) == Flatten(chunks)
  {
    hide Decoded, Encoded, Flatten, Inverse;
    RoundTrip(enc, dec, chunks);
    out := RunDecode(dec, wire);
  }
}
