/**
 The recursive grammar of one MessagePack value (section "Formats" of the
 MessagePack specification), restricted to the extension types that PipeX
 accepts, and its equivalence with a flat reading that only counts the values
 still owed.
 */
module MessagePackGrammar {
  import opened Buffers

  datatype Kind = ArrayKind | MapKind | PayloadKind | ExtensionKind

  /** What the first byte of a value announces. */
  datatype Format =
    | Reserved
    | Scalar
    | Children(count: nat)
    | Fixed(bytes: nat)
    | FixedExtension(bytes: nat)
    | Sized(kind: Kind, width: nat)

  function FormatOf(b: byte): (f: Format)
    ensures f.Sized? ==> f.width in {1, 2, 4}
  {
    if b <= 0x7f || b >= 0xe0 then Scalar                         // fixints
    else if b <= 0x8f then Children(2 * (b - 0x80))               // fixmap
    else if b <= 0x9f then Children(b - 0x90)                     // fixarray
    else if b <= 0xbf then Fixed(b - 0xa0)                        // fixstr
    else if b == 0xc1 then Reserved
    else if b <= 0xc3 then Scalar                                 // nil, false, true
    else if b <= 0xc6 then Sized(PayloadKind, WidthOf(b - 0xc4))  // bin
    else if b <= 0xc9 then Sized(ExtensionKind, WidthOf(b - 0xc7))// ext
    else if b <= 0xcb then Fixed(if b == 0xca then 4 else 8)      // floats
    else if b <= 0xcf then Fixed(IntegerBytes(b - 0xcc))          // unsigned integers
    else if b <= 0xd3 then Fixed(IntegerBytes(b - 0xd0))          // signed integers
    else if b <= 0xd8 then FixedExtension(ExtensionBytes(b - 0xd4))
    else if b <= 0xdb then Sized(PayloadKind, WidthOf(b - 0xd9))  // str
    else if b <= 0xdd then Sized(ArrayKind, WidthOf(b - 0xdb))
    else Sized(MapKind, WidthOf(b - 0xdd))
  }

  function WidthOf(i: nat): nat { if i == 0 then 1 else if i == 1 then 2 else 4 }
  function IntegerBytes(i: nat): nat { if i < 3 then WidthOf(i) else 8 }
  function ExtensionBytes(i: nat): nat { if i < 4 then IntegerBytes(i) else 16 }

  /** The values an accepted extension type wraps after its payload; None for a refused type. */
  function ExtensionChildren(t: byte): Option<nat> {
    if t in {0x65, 0x73, 0x78} then Some(1)
    else if t in {0x00, 0x42, 0x74, 0xff} then Some(0)
    else None
  }

  /** The bytes of a value before its nested values, and how many nested values follow. */
  datatype Head = Head(size: nat, children: nat)

  function HeadOf(s: Buffer): (h: Option<Head>)
    ensures h.Some? ==> 0 < h.value.size <= |s|
  {
    if s == [] then None else
    match FormatOf(s[0])
    case Reserved => None
    case Scalar => Some(Head(1, 0))
    case Children(n) => Some(Head(1, n))
    case Fixed(n) => PayloadHead(s, 1, n)
    case FixedExtension(n) => ExtensionHead(s, 1, n)
    case Sized(kind, width) =>
      if |s| < 1 + width then None else
      var n := BigEndian(s[1..1 + width]);
      match kind
      case ArrayKind => Some(Head(1 + width, n))
      case MapKind => Some(Head(1 + width, 2 * n))
      case PayloadKind => PayloadHead(s, 1 + width, n)
      case ExtensionKind => ExtensionHead(s, 1 + width, n)
  }

  function PayloadHead(s: Buffer, at: nat, n: nat): Option<Head> {
    if |s| < at + n then None else Some(Head(at + n, 0))
  }

  function ExtensionHead(s: Buffer, at: nat, n: nat): Option<Head> {
    if |s| < at + 1 + n then None else
    match ExtensionChildren(s[at])
    case None => None
    case Some(c) => Some(Head(at + 1 + n, c))
  }

  /** `s` is exactly one value. */
  ghost predicate IsValue(s: Buffer)
    decreases |s|, 0
  {
    HeadOf(s).Some? && IsValues(HeadOf(s).value.children, s[HeadOf(s).value.size..])
  }

  /** `s` is exactly `n` values, one after the other. */
  ghost predicate IsValues(n: nat, s: Buffer)
    decreases |s|, 1
  {
    if n == 0 then s == []
    else exists k | 0 < k <= |s| :: IsValue(s[..k]) && IsValues(n - 1, s[k..])
  }

  /** The same language read without a stack: every head adds its nested values to those owed. */
  predicate Flat(owed: nat, s: Buffer)
    decreases |s|
  {
    if owed == 0 then s == []
    else HeadOf(s).Some? && Flat(owed - 1 + HeadOf(s).value.children, s[HeadOf(s).value.size..])
  }

  lemma HeadStable(a: Buffer, b: Buffer)
    ensures HeadOf(a).Some? ==> HeadOf(a + b) == HeadOf(a)
    ensures HeadOf(a + b).Some? && HeadOf(a + b).value.size <= |a| ==> HeadOf(a) == HeadOf(a + b)
  {
    if a != [] {
      assert (a + b)[0] == a[0];
      var f := FormatOf(a[0]);
      if f.Sized? && |a| >= 1 + f.width {
        assert (a + b)[1..1 + f.width] == a[1..1 + f.width];
      }
    }
  }

  lemma {:induction false} FlatLength(owed: nat, s: Buffer)
    requires Flat(owed, s)
    ensures |s| >= owed
    decreases |s|
  {
    hide HeadOf;
    if owed > 0 {
      var h := HeadOf(s).value;
      FlatLength(owed - 1 + h.children, s[h.size..]);
    }
  }

  lemma {:induction false} FlatJoin(m: nat, n: nat, a: Buffer, b: Buffer)
    requires Flat(m, a) && Flat(n, b)
    ensures Flat(m + n, a + b)
    decreases |a|
  {
    hide HeadOf;
    if m == 0 {
      assert a + b == b;
    } else {
      var h := HeadOf(a).value;
      HeadStable(a, b);
      FlatJoin(m - 1 + h.children, n, a[h.size..], b);
      assert (a + b)[h.size..] == a[h.size..] + b;
    }
  }

  lemma {:induction false} FlatCut(m: nat, n: nat, s: Buffer) returns (k: nat)
    requires Flat(m + n, s)
    ensures k <= |s| && Flat(m, s[..k]) && Flat(n, s[k..])
    decreases |s|
  {
    hide HeadOf;
    if m == 0 {
      k := 0;
      assert s[0..] == s;
    } else {
      var h := HeadOf(s).value;
      var j := FlatCut(m - 1 + h.children, n, s[h.size..]);
      k := h.size + j;
      assert s == s[..k] + s[k..];
      HeadStable(s[..k], s[k..]);
      assert s[..k][h.size..] == s[h.size..][..j];
      assert s[k..] == s[h.size..][j..];
    }
  }

  /** Cutting a buffer after the nested values of its first head. */
  lemma CutAfterHead(s: Buffer, size: nat, j: nat)
    requires size + j <= |s|
    ensures s[..size + j][size..] == s[size..][..j]
    ensures s[size + j..] == s[size..][j..]
    ensures s[size..] == s[..size + j][size..] + s[size + j..]
    ensures HeadOf(s).Some? && HeadOf(s).value.size == size ==> HeadOf(s[..size + j]) == HeadOf(s)
    ensures HeadOf(s[..size + j]).Some? ==> HeadOf(s) == HeadOf(s[..size + j])
  {
    hide HeadOf;
    assert s == s[..size + j] + s[size + j..];
    HeadStable(s[..size + j], s[size + j..]);
  }

  lemma FirstOfValues(n: nat, s: Buffer) returns (k: nat)
    requires n > 0 && IsValues(n, s)
    ensures 0 < k <= |s| && HeadOf(s[..k]).Some?
    ensures var h := HeadOf(s[..k]).value; IsValues(h.children, s[..k][h.size..])
    ensures IsValues(n - 1, s[k..])
  {
    hide HeadOf;
    k :| 0 < k <= |s| && IsValue(s[..k]) && IsValues(n - 1, s[k..]);
  }

  /** Putting a head, its nested values and the values after it back together. */
  lemma FlatFromParts(n: nat, s: Buffer, k: nat)
    requires k <= |s| && HeadOf(s[..k]).Some?
    requires var h := HeadOf(s[..k]).value; Flat(h.children, s[..k][h.size..])
    requires Flat(n, s[k..])
    ensures Flat(n + 1, s)
  {
    hide HeadOf;
    var h := HeadOf(s[..k]).value;
    CutAfterHead(s, h.size, k - h.size);
    var nested, others := s[..k][h.size..], s[k..];
    FlatJoin(h.children, n, nested, others);
    assert s[h.size..] == nested + others;
  }

  lemma {:induction false} TreeIsFlat(n: nat, s: Buffer)
    requires IsValues(n, s)
    ensures Flat(n, s)
    decreases |s|
  {
    hide HeadOf;
    if n > 0 {
      var k := FirstOfValues(n, s);
      hide IsValues, Flat;
      var h := HeadOf(s[..k]).value;
      TreeIsFlat(h.children, s[..k][h.size..]);
      TreeIsFlat(n - 1, s[k..]);
      FlatFromParts(n - 1, s, k);
    }
  }

  /** The flat reading, cut after the first value's head and nested values. */
  lemma FirstOfFlat(n: nat, s: Buffer) returns (k: nat)
    requires n > 0 && Flat(n, s)
    ensures 0 < k <= |s| && HeadOf(s[..k]).Some?
    ensures var h := HeadOf(s[..k]).value; h.size <= k && Flat(h.children, s[..k][h.size..])
    ensures Flat(n - 1, s[k..])
  {
    hide HeadOf;
    var h := HeadOf(s).value;
    var rest := s[h.size..];
    assert Flat(h.children + (n - 1), rest);
    hide Flat;
    var j := FlatCut(h.children, n - 1, rest);
    CutAfterHead(s, h.size, j);
    k := h.size + j;
  }

  /** A first value and the values after it are values. */
  lemma ValuesFromParts(n: nat, s: Buffer, k: nat)
    requires n > 0 && 0 < k <= |s| && HeadOf(s[..k]).Some?
    requires var h := HeadOf(s[..k]).value; IsValues(h.children, s[..k][h.size..])
    requires IsValues(n - 1, s[k..])
    ensures IsValues(n, s)
  {
    hide HeadOf;
    assert IsValue(s[..k]);
  }

  lemma {:induction false} FlatIsTree(n: nat, s: Buffer)
    requires Flat(n, s)
    ensures IsValues(n, s)
    decreases |s|
  {
    if n == 0 {
    } else {
      hide HeadOf, Flat, IsValues;
      var k := FirstOfFlat(n, s);
      var h := HeadOf(s[..k]).value;
      FlatIsTree(h.children, s[..k][h.size..]);
      FlatIsTree(n - 1, s[k..]);
      ValuesFromParts(n, s, k);
    }
  }

  /** The nested grammar and the flat count describe the same byte strings. */
  lemma GrammarIsFlat(n: nat, s: Buffer)
    ensures IsValues(n, s) <==> Flat(n, s)
  {
    if IsValues(n, s) { TreeIsFlat(n, s); }
    if Flat(n, s) { FlatIsTree(n, s); }
  }

  lemma OneValueIsFlat(s: Buffer)
    ensures IsValue(s) <==> Flat(1, s)
  {
    if HeadOf(s).Some? {
      GrammarIsFlat(HeadOf(s).value.children, s[HeadOf(s).value.size..]);
    }
  }
}
