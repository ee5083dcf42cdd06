/**
 MessagePackFrameScanner with its mutable fields and its scan loop. A refused
 byte is a thrown error in the source, after which the scanner is not used
 again; here the methods return false or None and leave the fields as they are.
 */
module FrameScanner {
  import opened Buffers
  import opened MessagePackGrammar
  import opened ScannerMachine

  /** Payload bytes taken in bulk leave the state that taking them one by one leaves. */
  lemma {:induction false} PayloadRun(st: State, lim: Limits, p: Buffer)
    requires Inv(st, lim) && st.payloadBytes > 0 && !st.extensionTypePending
    requires |p| < st.payloadBytes
    ensures ScanBytes(st, lim, p) == Some(Scanned(
      st.(frameBytes := st.frameBytes + |p|, payloadBytes := st.payloadBytes - |p|), []))
    decreases |p|
  {
    hide OnToken, OnLength;
    if p != [] {
      var n := |p| - 1;
      PayloadRun(st, lim, p[..n]);
      var last := st.(frameBytes := st.frameBytes + n, payloadBytes := st.payloadBytes - n);
      var none: seq<nat> := [];
      assert none + none == none;
      assert ScanBytes(st, lim, p) == Append(Scanned(last, none), lim, p[n], n);
    }
  }

  /** A bulk step over payload bytes, when it takes the last of them and when it does not. */
  lemma PayloadScan(st: State, lim: Limits, p: Buffer, offset: nat, found: seq<nat>)
    requires Inv(st, lim) && !st.extensionTypePending && 0 < |p| <= st.payloadBytes
    ensures var after := st.(frameBytes := st.frameBytes + |p|, payloadBytes := st.payloadBytes - |p|);
      Continue(Scanned(st, found), offset, ScanBytes(st, lim, p)) ==
        if !Ready(after) then Some(Scanned(after, found))
        else if st.frames + 1 > lim.maxFrames then None
        else Some(Scanned(Fresh(st.frames + 1), found + [offset + |p|]))
  {
    hide OnToken, OnLength;
    var n := |p| - 1;
    PayloadRun(st, lim, p[..n]);
    var last := st.(frameBytes := st.frameBytes + n, payloadBytes := st.payloadBytes - n);
    assert ScanBytes(st, lim, p) == Append(Scanned(last, []), lim, p[n], n);
    assert found + Shift([], offset) == found;
    assert Shift([|p|], offset) == [offset + |p|];
    assert [] + [|p|] == [|p|];
  }

  /** The reservation covers every payload byte, and leaves room for what follows part of a payload. */
  lemma PayloadReserved(st: State, lim: Limits, n: nat)
    requires Inv(st, lim) && 0 < n <= st.payloadBytes
    ensures st.frameBytes + n <= lim.maxFrameBytes && st.pending.None?
    ensures n < st.payloadBytes ==> st.frameBytes + n < lim.maxFrameBytes
  {
  }

  class MessagePackFrameScanner {
    const limits: Limits
    var frameBytes: nat
    var remainingValues: nat
    var payloadBytes: nat
    var extensionTypePending: bool
    var pending: Option<PendingLength>
    var frames: nat

    function Snapshot(): State
      reads this
    {
      State(frameBytes, remainingValues, payloadBytes, extensionTypePending, pending, frames)
    }

    ghost predicate Valid()
      reads this
    {
      Inv(Snapshot(), limits)
    }

    constructor (limits: Limits)
      ensures this.limits == limits && Snapshot() == Fresh(0) && Valid()
    {
      this.limits := limits;
      frameBytes, remainingValues, payloadBytes := 0, 1, 0;
      extensionTypePending, pending, frames := false, None, 0;
    }

    method ConsumeBytes(count: nat) returns (ok: bool)
      modifies this`frameBytes
      ensures ok == (old(frameBytes) + count <= limits.maxFrameBytes)
      ensures frameBytes == if ok then old(frameBytes) + count else old(frameBytes)
    {
      ok := count <= limits.maxFrameBytes - frameBytes;
      if ok { frameBytes := frameBytes + count; }
    }

    method EnsureMinimumRemaining(additionalBytes: nat) returns (ok: bool)
      ensures ok == (frameBytes + additionalBytes + remainingValues <= limits.maxFrameBytes)
    {
      var capacity := limits.maxFrameBytes - frameBytes;
      ok := additionalBytes <= capacity && remainingValues <= capacity - additionalBytes;
    }

    method AddChildren(count: nat) returns (ok: bool)
      modifies this`remainingValues
      ensures ok == (frameBytes + old(remainingValues) + count <= limits.maxFrameBytes)
      ensures ok ==> remainingValues == old(remainingValues) + count
    {
      if count > MAX_SAFE_INTEGER || count > MAX_SAFE_INTEGER - remainingValues { return false; }
      remainingValues := remainingValues + count;
      ok := EnsureMinimumRemaining(0);
    }

    method SetPayload(length: nat) returns (ok: bool)
      modifies this`payloadBytes
      ensures ok == (frameBytes + length + remainingValues <= limits.maxFrameBytes)
      ensures ok ==> payloadBytes == length
    {
      if length > MAX_SAFE_INTEGER { return false; }
      ok := EnsureMinimumRemaining(length);
      if ok { payloadBytes := length; }
    }

    method SetExtensionPayload(length: nat) returns (ok: bool)
      modifies this`payloadBytes, this`extensionTypePending
      ensures ok == (frameBytes + length + 1 + remainingValues <= limits.maxFrameBytes)
      ensures ok ==> payloadBytes == length + 1 && extensionTypePending
    {
      ok := SetPayload(length + 1);
      extensionTypePending := true;
    }

    method ReadLength(kind: Kind, bytes: nat)
      modifies this`pending
      ensures pending == Some(PendingLength(kind, bytes, 0, 0))
    {
      pending := Some(PendingLength(kind, bytes, 0, 0));
    }

    method ApplyLength(kind: Kind, value: nat) returns (ok: bool)
      requires pending.None? && payloadBytes == 0 && !extensionTypePending
      modifies this`remainingValues, this`payloadBytes, this`extensionTypePending
      ensures ok == WithinBudget(old(Loaded(Snapshot(), kind, value)), limits)
      ensures ok ==> Snapshot() == old(Loaded(Snapshot(), kind, value))
    {
      if kind == ArrayKind {
        ok := AddChildren(value);
      } else if kind == MapKind {
        ok := AddChildren(value * 2);
      } else {
        ok := SetPayload(value + if kind == ExtensionKind then 1 else 0);
        extensionTypePending := kind == ExtensionKind;
      }
    }

    /** The token's own byte is already counted, and its value taken off the values owed. */
    method ReadToken(token: byte) returns (ok: bool)
      requires pending.None? && payloadBytes == 0 && !extensionTypePending
      requires frameBytes + remainingValues <= limits.maxFrameBytes
      modifies this`remainingValues, this`payloadBytes, this`extensionTypePending, this`pending
      ensures var after := Announces(old(Snapshot()), token);
        ok == (after.Some? && (after.value.pending.Some? || WithinBudget(after.value, limits)))
      ensures ok ==> Some(Snapshot()) == Announces(old(Snapshot()), token)
    {
      ok := true;
      if token <= 0x7f || token >= 0xe0 || 0xc0 <= token <= 0xc3 {
        if token == 0xc1 { return false; }
        return true;
      }
      if 0x80 <= token <= 0x8f { ok := AddChildren((token % 16) * 2); return; }
      if 0x90 <= token <= 0x9f { ok := AddChildren(token % 16); return; }
      if 0xa0 <= token <= 0xbf { ok := SetPayload(token % 32); return; }
      ok := ReadWideToken(token);
    }

    /** The tokens 0xc4 to 0xdf: those the source's switch lists as lengths, and those of a fixed size. */
    method ReadWideToken(token: byte) returns (ok: bool)
      requires pending.None? && payloadBytes == 0 && !extensionTypePending
      requires 0xc4 <= token <= 0xdf
      modifies this`remainingValues, this`payloadBytes, this`extensionTypePending, this`pending
      ensures var after := Announces(old(Snapshot()), token);
        ok == (after.Some? && (after.value.pending.Some? || WithinBudget(after.value, limits)))
      ensures ok ==> Some(Snapshot()) == Announces(old(Snapshot()), token)
    {
      if token <= 0xc9 || token >= 0xd9 {
        ok := true;
        ReadSizedToken(token);
      } else {
        ok := ReadFixedToken(token);
      }
    }

    method ReadSizedToken(token: byte)
      requires pending.None? && payloadBytes == 0 && !extensionTypePending
      requires 0xc4 <= token <= 0xc9 || 0xd9 <= token <= 0xdf
      modifies this`pending
      ensures pending.Some? && Some(Snapshot()) == Announces(old(Snapshot()), token)
    {
      match token
      case 0xc4 => ReadLength(PayloadKind, 1);
      case 0xc5 => ReadLength(PayloadKind, 2);
      case 0xc6 => ReadLength(PayloadKind, 4);
      case 0xc7 => ReadLength(ExtensionKind, 1);
      case 0xc8 => ReadLength(ExtensionKind, 2);
      case 0xc9 => ReadLength(ExtensionKind, 4);
      case 0xd9 => ReadLength(PayloadKind, 1);
      case 0xda => ReadLength(PayloadKind, 2);
      case 0xdb => ReadLength(PayloadKind, 4);
      case 0xdc => ReadLength(ArrayKind, 2);
      case 0xdd => ReadLength(ArrayKind, 4);
      case 0xde => ReadLength(MapKind, 2);
      case _ => ReadLength(MapKind, 4);
    }

    method ReadFixedToken(token: byte) returns (ok: bool)
      requires pending.None? && payloadBytes == 0 && !extensionTypePending
      requires 0xca <= token <= 0xd8
      modifies this`payloadBytes, this`extensionTypePending
      ensures Announces(old(Snapshot()), token).Some? && Announces(old(Snapshot()), token).value.pending.None?
      ensures ok == WithinBudget(Announces(old(Snapshot()), token).value, limits)
      ensures ok ==> Some(Snapshot()) == Announces(old(Snapshot()), token)
    {
      match token
      case 0xca => ok := SetPayload(4);
      case 0xcb => ok := SetPayload(8);
      case 0xcc => ok := SetPayload(1);
      case 0xd0 => ok := SetPayload(1);
      case 0xcd => ok := SetPayload(2);
      case 0xd1 => ok := SetPayload(2);
      case 0xce => ok := SetPayload(4);
      case 0xd2 => ok := SetPayload(4);
      case 0xcf => ok := SetPayload(8);
      case 0xd3 => ok := SetPayload(8);
      case 0xd4 => ok := SetExtensionPayload(1);
      case 0xd5 => ok := SetExtensionPayload(2);
      case 0xd6 => ok := SetExtensionPayload(4);
      case 0xd7 => ok := SetExtensionPayload(8);
      case _ => ok := SetExtensionPayload(16);
    }

    method CompleteIfReady(offset: nat, boundaries: seq<nat>) returns (ok: bool, ends: seq<nat>)
      requires extensionTypePending ==> payloadBytes > 0
      modifies this
      ensures ok == (Ready(old(Snapshot())) ==> old(frames) + 1 <= limits.maxFrames)
      ensures ok && !Ready(old(Snapshot())) ==> Snapshot() == old(Snapshot()) && ends == boundaries
      ensures ok && Ready(old(Snapshot())) ==> Snapshot() == Fresh(old(frames) + 1) && ends == boundaries + [offset]
    {
      ok, ends := true, boundaries;
      if pending.Some? || payloadBytes > 0 || remainingValues != 0 { return; }
      frames := frames + 1;
      if frames > limits.maxFrames { return false, ends; }
      ends := boundaries + [offset];
      frameBytes, remainingValues, extensionTypePending := 0, 1, false;
    }

    /** The extension type byte at the front of an extension payload. */
    method TypeByte(b: byte, offset: nat, boundaries: seq<nat>) returns (ok: bool, ends: seq<nat>)
      requires Valid() && payloadBytes > 0 && extensionTypePending
      modifies this
      ensures TakesByte(old(Snapshot()), b, offset, boundaries, ok, ends)
    {
      hide OnToken, OnLength;
      ends := boundaries;
      ok := ConsumeBytes(1);
      if !ok { return; }
      payloadBytes := payloadBytes - 1;
      extensionTypePending := false;
      if b == 0x65 || b == 0x73 || b == 0x78 {
        ok := AddChildren(1);
        if !ok { return; }
        ok := EnsureMinimumRemaining(payloadBytes);
        if !ok { return; }
      } else if b != 0x00 && b != 0x42 && b != 0x74 && b != 0xff {
        return false, ends;
      }
      if payloadBytes == 0 { ok, ends := CompleteIfReady(offset + 1, boundaries); }
    }

    method LengthByte(b: byte, offset: nat, boundaries: seq<nat>) returns (ok: bool, ends: seq<nat>)
      requires Valid() && payloadBytes == 0 && pending.Some?
      modifies this
      ensures TakesByte(old(Snapshot()), b, offset, boundaries, ok, ends)
    {
      ends := boundaries;
      ok := ConsumeBytes(1);
      if !ok { return; }
      var p := pending.value;
      p := p.(value := p.value * 256 + b, read := p.read + 1);
      pending := Some(p);
      if p.read == p.bytes {
        pending := None;
        ok := ApplyLength(p.kind, p.value);
        if !ok { return; }
        ok, ends := CompleteIfReady(offset + 1, boundaries);
      }
    }

    method TokenByte(token: byte, offset: nat, boundaries: seq<nat>) returns (ok: bool, ends: seq<nat>)
      requires Valid() && payloadBytes == 0 && pending.None?
      modifies this
      ensures TakesByte(old(Snapshot()), token, offset, boundaries, ok, ends)
    {
      ends := boundaries;
      ok := ConsumeBytes(1);
      if !ok { return; }
      remainingValues := remainingValues - 1;
      ok := ReadToken(token);
      if !ok { return; }
      ok, ends := CompleteIfReady(offset + 1, boundaries);
    }

    /** What one byte does to the state and to the boundaries found so far. */
    ghost predicate TakesByte(before: State, b: byte, offset: nat, boundaries: seq<nat>, ok: bool, ends: seq<nat>)
      reads this
    {
      && ok == Step(before, limits, b).Some?
      && (ok ==> Step(before, limits, b) == Some(Snapshot()))
      && (ok ==> ends == if Closes(before, limits, b) then boundaries + [offset + 1] else boundaries)
    }

    /** Payload bytes are consumed in bulk, up to the end of the chunk. */
    method PayloadBytes(chunk: Buffer, offset: nat, boundaries: seq<nat>)
      returns (ok: bool, consumed: nat, ends: seq<nat>)
      requires Valid() && payloadBytes > 0 && !extensionTypePending && offset < |chunk|
      modifies this
      ensures 0 < consumed <= |chunk| - offset
      ensures TakesBytes(old(Snapshot()), chunk[offset..offset + consumed], offset, boundaries, ok, ends)
    {
      hide ScanBytes, Continue, Inv;
      ends := boundaries;
      consumed := Min(payloadBytes, |chunk| - offset);
      PayloadScan(Snapshot(), limits, chunk[offset..offset + consumed], offset, boundaries);
      PayloadReserved(Snapshot(), limits, consumed);
      ok := ConsumeBytes(consumed);
      payloadBytes := payloadBytes - consumed;
      // The two ways to refuse payload bytes are excluded by the reservation invariant.
      assert ok && !(payloadBytes > 0 && frameBytes == limits.maxFrameBytes);
      if payloadBytes == 0 { ok, ends := CompleteIfReady(offset + consumed, boundaries); }
    }

    /** What a run of bytes does to the state and to the boundaries found so far. */
    ghost predicate TakesBytes(before: State, run: Buffer, offset: nat, boundaries: seq<nat>, ok: bool, ends: seq<nat>)
      reads this
    {
      var after := Continue(Scanned(before, boundaries), offset, ScanBytes(before, limits, run));
      if ok then after == Some(Scanned(Snapshot(), ends)) else after.None?
    }

    /** One turn of the scan loop. */
    method ScanSome(chunk: Buffer, offset: nat, boundaries: seq<nat>)
      returns (ok: bool, consumed: nat, ends: seq<nat>)
      requires Valid() && offset < |chunk|
      modifies this
      ensures 0 < consumed <= |chunk| - offset
      ensures TakesBytes(old(Snapshot()), chunk[offset..offset + consumed], offset, boundaries, ok, ends)
      ensures ok ==> Valid()
    {
      hide ScanBytes, Step, Closes;
      ghost var before := Snapshot();
      if payloadBytes > 0 && !extensionTypePending {
        ok, consumed, ends := PayloadBytes(chunk, offset, boundaries);
      } else {
        consumed := 1;
        if payloadBytes > 0 {
          ok, ends := TypeByte(chunk[offset], offset, boundaries);
        } else if pending.Some? {
          ok, ends := LengthByte(chunk[offset], offset, boundaries);
        } else {
          ok, ends := TokenByte(chunk[offset], offset, boundaries);
        }
        OneByte(before, limits, boundaries, chunk, offset);
        assert boundaries + [] == boundaries;
      }
      if ok { ScanKeepsInv(before, limits, chunk[offset..offset + consumed]); }
    }

    method Scan(chunk: Buffer) returns (r: Option<seq<nat>>)
      requires Valid()
      modifies this
      ensures r.None? ==> ScanBytes(old(Snapshot()), limits, chunk).None?
      ensures r.Some? ==> Valid() && ScanBytes(old(Snapshot()), limits, chunk) == Some(Scanned(Snapshot(), r.value))
    {
      ghost var before := Snapshot();
      var boundaries: seq<nat> := [];
      var offset := 0;
      hide ScanBytes, Inv, Continue;
      NothingScanned(before, limits, chunk);
      while offset < |chunk|
        invariant offset <= |chunk| && Valid()
        invariant ScanBytes(before, limits, chunk[..offset]) == Some(Scanned(Snapshot(), boundaries))
      {
        ghost var start := offset;
        var ok, consumed;
        ok, consumed, boundaries := ScanSome(chunk, offset, boundaries);
        offset := offset + consumed;
        ScanFurther(before, limits, chunk, start, offset);
        if !ok {
          RefusedEarlier(before, limits, chunk, offset);
          return None;
        }
      }
      assert chunk[..offset] == chunk;
      return Some(boundaries);
    }

    method Finish() returns (ok: bool)
      ensures ok == Clean(Snapshot())
    {
      ok := !(frameBytes != 0 || pending.Some? || payloadBytes != 0);
    }
  }

  lemma NothingScanned(st: State, lim: Limits, chunk: Buffer)
    ensures ScanBytes(st, lim, chunk[..0]) == Some(Scanned(st, []))
  {
    assert chunk[..0] == [];
  }

  /** A refused front refuses the whole chunk. */
  lemma RefusedEarlier(st: State, lim: Limits, chunk: Buffer, end: nat)
    requires end <= |chunk| && ScanBytes(st, lim, chunk[..end]).None?
    ensures ScanBytes(st, lim, chunk).None?
  {
    hide ScanBytes;
    ScanFurther(st, lim, chunk, end, |chunk|);
    assert chunk[..|chunk|] == chunk;
  }

  lemma ScanFurther(st: State, lim: Limits, chunk: Buffer, start: nat, end: nat)
    requires start <= end <= |chunk|
    ensures ScanBytes(st, lim, chunk[..end]) ==
      match ScanBytes(st, lim, chunk[..start])
      case None => None
      case Some(first) => Continue(first, start, ScanBytes(first.state, lim, chunk[start..end]))
  {
    hide ScanBytes, Continue;
    ScanConcat(st, lim, chunk[..start], chunk[start..end]);
    assert chunk[..start] + chunk[start..end] == chunk[..end];
  }

  /** What a token's first byte announces, once the byte itself is counted. */
  function Announces(st: State, token: byte): Option<State> {
    OnToken(st.(remainingValues := st.remainingValues + 1), token)
  }

  lemma OneByte(st: State, lim: Limits, found: seq<nat>, chunk: Buffer, offset: nat)
    requires offset < |chunk|
    ensures Append(Scanned(st, found), lim, chunk[offset], offset)
         == Continue(Scanned(st, found), offset, ScanBytes(st, lim, chunk[offset..offset + 1]))
  {
    hide Step, Closes;
    var b := chunk[offset];
    assert chunk[offset..offset + 1] == [b] && [b][..0] == [];
    AppendContinued(Scanned(st, found), offset, Scanned(st, []), lim, b, 0);
    assert found + Shift([], offset) == found;
  }
}
