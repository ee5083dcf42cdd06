/**
 Byte buffers as the formats of this project use them: concatenation with a
 declared total length, and big-endian unsigned integers.
 */
module Buffers {
  type byte = x: int | 0 <= x < 256
  type Buffer = seq<byte>

  /** The largest integer a JavaScript number represents exactly with all its predecessors. */
  const MAX_SAFE_INTEGER: int := 9007199254740991
  const TWO_TO_THE_32: nat := 0x1_0000_0000
  const TWO_TO_THE_64: nat := 0x1_0000_0000_0000_0000

  datatype Option<+T> = None | Some(value: T)

  function Min(a: int, b: int): int { if a <= b then a else b }
  function Max(a: int, b: int): int { if a >= b then a else b }

  function Zeros(n: nat): (z: Buffer) { seq(n, _ => 0) }

  // Concatenation

  function Flatten(parts: seq<Buffer>): Buffer {
    if parts == [] then [] else parts[0] + Flatten(parts[1..])
  }

  lemma {:induction false} FlattenAppend(a: seq<Buffer>, b: seq<Buffer>)
    ensures Flatten(a + b) == Flatten(a) + Flatten(b)
  {
    if a == [] {
      assert a + b == b;
    } else {
      FlattenAppend(a[1..], b);
      assert a + b == [a[0]] + (a[1..] + b);
      FlattenCons(a[0], a[1..] + b);
      assert a[0] + (Flatten(a[1..]) + Flatten(b)) == a[0] + Flatten(a[1..]) + Flatten(b);
    }
  }

  lemma FlattenCons(x: Buffer, a: seq<Buffer>)
    ensures Flatten([x] + a) == x + Flatten(a)
  {
    assert ([x] + a)[1..] == a;
  }

  lemma FlattenNothing()
    ensures Flatten([]) == []
  {
  }

  lemma FlattenSnoc(a: seq<Buffer>, x: Buffer)
    ensures Flatten(a + [x]) == Flatten(a) + x
  {
    FlattenAppend(a, [x]);
    assert Flatten([x]) == x;
  }

  /** Buffer.concat(parts, total): cut to the declared length, or filled up to it with zeros. */
  function BufferConcat(parts: seq<Buffer>, total: nat): (all: Buffer)
    ensures |all| == total
  {
    var joined := Flatten(parts);
    if total <= |joined| then joined[..total] else joined + Zeros(total - |joined|)
  }

  // Big-endian integers

  /** Reads further big-endian digits into a number already read up to `value`. */
  function Accumulate(value: nat, s: Buffer): nat
    decreases |s|
  {
    if s == [] then value else Accumulate(value * 256 + s[0], s[1..])
  }

  function BigEndian(s: Buffer): nat { Accumulate(0, s) }

  function ToBigEndian(n: nat, width: nat): (s: Buffer)
    ensures |s| == width
  {
    if width == 0 then [] else ToBigEndian(n / 256, width - 1) + [n % 256]
  }

  function Pow256(width: nat): (p: nat)
    ensures p > 0
  {
    if width == 0 then 1 else 256 * Pow256(width - 1)
  }

  lemma Widths()
    ensures Pow256(2) == 0x1_0000 && Pow256(4) == TWO_TO_THE_32 && Pow256(8) == TWO_TO_THE_64
  {
    assert Pow256(1) == 256;
    assert Pow256(2) == 0x1_0000;
    assert Pow256(3) == 0x100_0000;
    assert Pow256(4) == TWO_TO_THE_32;
    assert Pow256(5) == 0x100_0000_0000;
    assert Pow256(6) == 0x1_0000_0000_0000;
    assert Pow256(7) == 0x100_0000_0000_0000;
  }

  lemma {:induction false} AccumulateSnoc(value: nat, s: Buffer, b: byte)
    ensures Accumulate(value, s + [b]) == Accumulate(value, s) * 256 + b
    decreases |s|
  {
    if s == [] {
      assert [b][1..] == [];
    } else {
      assert (s + [b])[1..] == s[1..] + [b];
      AccumulateSnoc(value * 256 + s[0], s[1..], b);
    }
  }

  /** Writing a number that fits and reading it back is the identity. */
  lemma {:induction false} ReadWritten(n: nat, width: nat)
    requires n < Pow256(width)
    ensures BigEndian(ToBigEndian(n, width)) == n
  {
    if width > 0 {
      ReadWritten(n / 256, width - 1);
      AccumulateSnoc(0, ToBigEndian(n / 256, width - 1), n % 256);
    }
  }

  /** Reading digits and writing them back is the identity. */
  lemma {:induction false} WriteRead(s: Buffer)
    ensures BigEndian(s) < Pow256(|s|)
    ensures ToBigEndian(BigEndian(s), |s|) == s
  {
    if s != [] {
      var front, last := s[..|s| - 1], s[|s| - 1];
      assert s == front + [last];
      AccumulateSnoc(0, front, last);
      WriteRead(front);
    }
  }

  // Cutting into pieces

  /** The pieces of `size` bytes a buffer is cut into, the last one possibly shorter. */
  function Chunks(data: Buffer, size: nat): seq<Buffer>
    requires size > 0
    decreases |data|
  {
    if data == [] then []
    else if |data| <= size then [data]
    else [data[..size]] + Chunks(data[size..], size)
  }

  lemma {:induction false} ChunksFlatten(data: Buffer, size: nat)
    requires size > 0
    ensures Flatten(Chunks(data, size)) == data
    ensures forall c | c in Chunks(data, size) :: 0 < |c| <= size
    decreases |data|
  {
    hide Flatten;
    FlattenNothing();
    if data != [] && |data| <= size {
      FlattenSnoc([], data);
      assert [] + [data] == [data] && [] + data == data;
    } else if |data| > size {
      ChunksFlatten(data[size..], size);
      FlattenCons(data[..size], Chunks(data[size..], size));
      assert data[..size] + data[size..] == data;
    }
  }

  lemma SliceAfter(data: Buffer, at: nat, from: nat, to: nat)
    requires from <= to && at + to <= |data|
    ensures data[at..][from..to] == data[from + at..to + at]
  {
  }

  /** The i-th piece of a buffer starts after i full ones. */
  lemma {:induction false} ChunkAt(data: Buffer, size: nat, i: nat)
    requires size > 0 && i < |Chunks(data, size)|
    ensures i * size < |data| && Chunks(data, size)[i] == data[i * size..Min(|data|, i * size + size)]
    decreases i
  {
    if i == 0 {
    } else {
      ChunkAt(data[size..], size, i - 1);
      var from, to := (i - 1) * size, Min(|data| - size, i * size);
      assert from + size == i * size && to + size == Min(|data|, i * size + size);
      SliceAfter(data, size, from, to);
    }
  }

  /** Every piece but the last is full, and the last is not empty. */
  lemma PieceSizes(data: Buffer, size: nat)
    requires size > 0
    ensures forall i | 0 <= i < |Chunks(data, size)| ::
      if i < |Chunks(data, size)| - 1 then |Chunks(data, size)[i]| == size else 0 < |Chunks(data, size)[i]| <= size
  {
    hide Chunks;
    ChunksFlatten(data, size);
    forall i | 0 <= i < |Chunks(data, size)| - 1 ensures |Chunks(data, size)[i]| == size {
      ChunkAt(data, size, i);
      ChunkAt(data, size, i + 1);
      assert (i + 1) * size == i * size + size;
    }
  }

  /** The pieces from `offset` on. */
  function ChunksFrom(data: Buffer, offset: nat, size: nat): seq<Buffer>
    requires size > 0
  {
    if offset <= |data| then Chunks(data[offset..], size) else []
  }

  lemma ChunksFromEnds(data: Buffer, size: nat)
    requires size > 0
    ensures [] + ChunksFrom(data, 0, size) == Chunks(data, size)
  {
    assert data[0..] == data;
  }

  lemma NoMoreChunks(data: Buffer, offset: nat, size: nat)
    requires size > 0 && offset >= |data|
    ensures ChunksFrom(data, offset, size) == []
  {
  }

  lemma NextChunk(data: Buffer, offset: nat, size: nat)
    requires size > 0 && offset < |data|
    ensures ChunksFrom(data, offset, size)
         == [data[offset..Min(|data|, offset + size)]] + ChunksFrom(data, offset + size, size)
  {
    var rest := data[offset..];
    if |rest| <= size {
      assert rest == data[offset..Min(|data|, offset + size)];
      NoMoreChunks(data, offset + size, size);
      assert [rest] + [] == [rest];
    } else {
      assert rest[..size] == data[offset..offset + size] && rest[size..] == data[offset + size..];
    }
  }

  lemma AppendHead(a: seq<Buffer>, x: Buffer, b: seq<Buffer>)
    ensures a + ([x] + b) == (a + [x]) + b
  {
  }

  /** Buffer.concat with the exact total neither cuts nor fills. */
  lemma ConcatIsFlatten(parts: seq<Buffer>)
    ensures BufferConcat(parts, |Flatten(parts)|) == Flatten(parts)
  {
  }

  /** buffer.copy: `count` bytes of `source` from `offset` into `target` at `at`. */
  method CopyInto(target: array<byte>, at: nat, source: Buffer, offset: nat, count: nat)
    requires at + count <= target.Length && offset + count <= |source|
    modifies target
    ensures target[..at + count] == old(target[..at]) + source[offset..offset + count]
  {
    forall i | 0 <= i < count {
      target[at + i] := source[offset + i];
    }
  }
}
