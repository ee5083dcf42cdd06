/**
 The grammar of MessagePackGrammar, format by format, as the section "Formats" of the
 MessagePack specification lists them: for every first byte, what must follow it. These
 statements and the one on sequences of values determine the language.
 */
module MessagePackFormats {
  import opened Buffers
  import opened MessagePackGrammar

  /** One, two and four bytes, most significant first. */
  lemma Digits(a: byte, b: byte, c: byte, d: byte)
    ensures BigEndian([a]) == a
    ensures BigEndian([a, b]) == a as int * 0x100 + b
    ensures BigEndian([a, b, c, d]) == a as int * 0x100_0000 + b as int * 0x1_0000 + c as int * 0x100 + d
  {
    AccumulateSnoc(0, [], a);
    AccumulateSnoc(0, [a], b);
    AccumulateSnoc(0, [a, b], c);
    AccumulateSnoc(0, [a, b, c], d);
    assert [] + [a] == [a] && [a] + [b] == [a, b] && [a, b] + [c] == [a, b, c] && [a, b, c] + [d] == [a, b, c, d];
  }

  /** What a first byte leaves to the bytes after it. */
  lemma AfterToken(t: byte, x: Buffer)
    ensures ([t] + x)[0] == t && ([t] + x)[1..] == x
    ensures forall n: nat | n <= |x| :: ([t] + x)[1..1 + n] == x[..n] && ([t] + x)[1 + n..] == x[n..]
  {
  }

  lemma NoneLeft(s: Buffer)
    ensures IsValues(0, s) <==> s == []
  {
  }

  // ------------------------------------------------------------------- sequences of values

  lemma NothingIsNoValue()
    ensures !IsValue([])
  {
  }

  /** n + 1 values are one value and n values after it. */
  lemma ValuesInOrder(n: nat, s: Buffer)
    ensures IsValues(0, s) <==> s == []
    ensures IsValues(n + 1, s) <==> exists k :: 0 <= k <= |s| && IsValue(s[..k]) && IsValues(n, s[k..])
  {
    NothingIsNoValue();
    hide IsValue;
    if k :| 0 <= k <= |s| && IsValue(s[..k]) && IsValues(n, s[k..]) {
      assert IsValue(s[..k]) && IsValues(n + 1 - 1, s[k..]);
    }
  }

  // ----------------------------------------------------------------------- values by head

  /** A value by its head: the nested values stand where the head ends. */
  lemma ValueByHead(t: byte, x: Buffer, size: nat, children: nat)
    requires HeadOf([t] + x) == Some(Head(1 + size, children)) && size <= |x|
    ensures IsValue([t] + x) <==> IsValues(children, x[size..])
  {
    hide HeadOf, IsValues;
    assert ([t] + x)[1 + size..] == x[size..];
  }

  lemma NoHead(t: byte, x: Buffer)
    requires HeadOf([t] + x) == None
    ensures !IsValue([t] + x)
  {
  }

  lemma SizedHead(t: byte, kind: Kind, width: nat, x: Buffer)
    requires FormatOf(t) == Sized(kind, width)
    ensures |x| < width ==> HeadOf([t] + x) == None
    ensures |x| >= width ==>
      var n := BigEndian(x[..width]);
      HeadOf([t] + x) ==
        match kind
        case ArrayKind => Some(Head(1 + width, n))
        case MapKind => Some(Head(1 + width, 2 * n))
        case PayloadKind => PayloadHead([t] + x, 1 + width, n)
        case ExtensionKind => ExtensionHead([t] + x, 1 + width, n)
  {
    AfterToken(t, x);
    hide FormatOf, BigEndian, PayloadHead, ExtensionHead;
  }

  // --------------------------------------------------------------------- formats by family

  /** A format of `n` more bytes that are not values. */
  lemma PlainValue(t: byte, n: nat, x: Buffer)
    requires FormatOf(t) == Fixed(n) || (FormatOf(t) == Scalar && n == 0)
    ensures IsValue([t] + x) <==> |x| == n
  {
    AfterToken(t, x);
    if |x| >= n {
      assert ([t] + x)[1 + n..] == x[n..];
      NoneLeft(x[n..]);
    }
  }

  /** nil, false, true and the fixints are one byte; 0xc1 is never used. */
  lemma OneByteValues(t: byte, x: Buffer)
    ensures t <= 0x7f || t >= 0xe0 || t == 0xc0 || t == 0xc2 || t == 0xc3 ==> (IsValue([t] + x) <==> x == [])
    ensures !IsValue([0xc1] + x)
  {
    if t <= 0x7f || t >= 0xe0 || t == 0xc0 || t == 0xc2 || t == 0xc3 { PlainValue(t, 0, x); }
    AfterToken(0xc1, x);
  }

  /** Floats of 32 and 64 bits, unsigned and signed integers of 8, 16, 32 and 64 bits. */
  lemma NumberValues(x: Buffer)
    ensures IsValue([0xca] + x) <==> |x| == 4
    ensures IsValue([0xcb] + x) <==> |x| == 8
    ensures IsValue([0xcc] + x) <==> |x| == 1
    ensures IsValue([0xcd] + x) <==> |x| == 2
    ensures IsValue([0xce] + x) <==> |x| == 4
    ensures IsValue([0xcf] + x) <==> |x| == 8
    ensures IsValue([0xd0] + x) <==> |x| == 1
    ensures IsValue([0xd1] + x) <==> |x| == 2
    ensures IsValue([0xd2] + x) <==> |x| == 4
    ensures IsValue([0xd3] + x) <==> |x| == 8
  {
    hide IsValue;
    PlainValue(0xca, 4, x);
    PlainValue(0xcb, 8, x);
    PlainValue(0xcc, 1, x);
    PlainValue(0xcd, 2, x);
    PlainValue(0xce, 4, x);
    PlainValue(0xcf, 8, x);
    PlainValue(0xd0, 1, x);
    PlainValue(0xd1, 2, x);
    PlainValue(0xd2, 4, x);
    PlainValue(0xd3, 8, x);
  }

  /** The number a length of `width` bytes announces at the front of x. */
  lemma LengthIs(x: Buffer)
    ensures |x| >= 1 ==> BigEndian(x[..1]) == x[0]
    ensures |x| >= 2 ==> BigEndian(x[..2]) == x[0] as int * 0x100 + x[1]
    ensures |x| >= 4 ==>
      BigEndian(x[..4]) == x[0] as int * 0x100_0000 + x[1] as int * 0x1_0000 + x[2] as int * 0x100 + x[3]
  {
    if |x| >= 1 {
      Digits(x[0], 0, 0, 0);
      assert x[..1] == [x[0]];
    }
    if |x| >= 2 {
      Digits(x[0], x[1], 0, 0);
      assert x[..2] == [x[0], x[1]];
    }
    if |x| >= 4 {
      Digits(x[0], x[1], x[2], x[3]);
      assert x[..4] == [x[0], x[1], x[2], x[3]];
    }
  }

  lemma SizedPayload(t: byte, width: nat, x: Buffer)
    requires FormatOf(t) == Sized(PayloadKind, width)
    ensures IsValue([t] + x) <==> |x| >= width && |x| == width + BigEndian(x[..width])
  {
    hide FormatOf, HeadOf, BigEndian, IsValue, IsValues;
    SizedHead(t, PayloadKind, width, x);
    if |x| < width || |x| < width + BigEndian(x[..width]) {
      NoHead(t, x);
    } else {
      var n := BigEndian(x[..width]);
      ValueByHead(t, x, width + n, 0);
      NoneLeft(x[width + n..]);
    }
  }

  /** Strings of at most 31 bytes, and strings and byte strings with a length of 1, 2 or 4 bytes. */
  lemma StringValues(t: byte, x: Buffer)
    ensures 0xa0 <= t <= 0xbf ==> (IsValue([t] + x) <==> |x| == t - 0xa0)
    ensures t == 0xc4 || t == 0xd9 ==> (IsValue([t] + x) <==> |x| >= 1 && |x| == 1 + x[0] as int)
    ensures t == 0xc5 || t == 0xda ==> (IsValue([t] + x) <==> |x| >= 2 && |x| == 2 + x[0] as int * 0x100 + x[1])
    ensures t == 0xc6 || t == 0xdb ==>
      (IsValue([t] + x) <==>
        |x| >= 4 && |x| == 4 + x[0] as int * 0x100_0000 + x[1] as int * 0x1_0000 + x[2] as int * 0x100 + x[3])
  {
    hide IsValue, BigEndian;
    LengthIs(x);
    if 0xa0 <= t <= 0xbf {
      PlainValue(t, t - 0xa0, x);
    } else if t == 0xc4 || t == 0xd9 {
      SizedPayload(t, 1, x);
    } else if t == 0xc5 || t == 0xda {
      SizedPayload(t, 2, x);
    } else if t == 0xc6 || t == 0xdb {
      SizedPayload(t, 4, x);
    }
  }

  lemma SizedArray(t: byte, width: nat, x: Buffer)
    requires FormatOf(t) == Sized(ArrayKind, width)
    ensures IsValue([t] + x) <==> |x| >= width && IsValues(BigEndian(x[..width]), x[width..])
  {
    hide FormatOf, HeadOf, BigEndian, IsValue, IsValues;
    SizedHead(t, ArrayKind, width, x);
    if |x| >= width { ValueByHead(t, x, width, BigEndian(x[..width])); } else { NoHead(t, x); }
  }

  lemma SizedMap(t: byte, width: nat, x: Buffer)
    requires FormatOf(t) == Sized(MapKind, width)
    ensures IsValue([t] + x) <==> |x| >= width && IsValues(2 * BigEndian(x[..width]), x[width..])
  {
    hide FormatOf, HeadOf, BigEndian, IsValue, IsValues;
    SizedHead(t, MapKind, width, x);
    if |x| >= width { ValueByHead(t, x, width, 2 * BigEndian(x[..width])); } else { NoHead(t, x); }
  }

  lemma ShortChildren(t: byte, n: nat, x: Buffer)
    requires FormatOf(t) == Children(n)
    ensures IsValue([t] + x) <==> IsValues(n, x)
  {
    AfterToken(t, x);
    hide FormatOf, IsValues;
  }

  /** Arrays: as many values as announced. */
  lemma ArrayValues(t: byte, x: Buffer)
    ensures 0x90 <= t <= 0x9f ==> (IsValue([t] + x) <==> IsValues(t - 0x90, x))
    ensures IsValue([0xdc] + x) <==> |x| >= 2 && IsValues(x[0] as int * 0x100 + x[1], x[2..])
    ensures IsValue([0xdd] + x) <==>
      |x| >= 4 && IsValues(x[0] as int * 0x100_0000 + x[1] as int * 0x1_0000 + x[2] as int * 0x100 + x[3], x[4..])
  {
    hide IsValue, IsValues, BigEndian;
    if 0x90 <= t <= 0x9f { ShortChildren(t, t - 0x90, x); }
    LengthIs(x);
    SizedArray(0xdc, 2, x);
    SizedArray(0xdd, 4, x);
  }

  /** Maps: a key and a value for every entry announced. */
  lemma MapValues(t: byte, x: Buffer)
    ensures 0x80 <= t <= 0x8f ==> (IsValue([t] + x) <==> IsValues((t - 0x80) as int * 2, x))
    ensures IsValue([0xde] + x) <==> |x| >= 2 && IsValues(2 * (x[0] as int * 0x100 + x[1]), x[2..])
    ensures IsValue([0xdf] + x) <==>
      |x| >= 4 && IsValues(2 * (x[0] as int * 0x100_0000 + x[1] as int * 0x1_0000 + x[2] as int * 0x100 + x[3]), x[4..])
  {
    hide IsValue, IsValues, BigEndian;
    if 0x80 <= t <= 0x8f { ShortChildren(t, (t - 0x80) as int * 2, x); }
    LengthIs(x);
    SizedMap(0xde, 2, x);
    SizedMap(0xdf, 4, x);
  }

  // ------------------------------------------------------------------------------ extensions

  /** The bytes after the type and payload of an extension. */
  ghost predicate Wraps(extension: byte, rest: Buffer) {
    match ExtensionChildren(extension)
    case None => false
    case Some(n) => IsValues(n, rest)
  }

  lemma WrapsIs(extension: byte, rest: Buffer)
    ensures Wraps(extension, rest) <==>
      ((extension == 0x65 || extension == 0x73 || extension == 0x78) && IsValue(rest))
      || ((extension == 0x00 || extension == 0x42 || extension == 0x74 || extension == 0xff) && rest == [])
  {
    ValuesInOrder(0, rest);
    hide IsValue;
    assert rest[..|rest|] == rest && rest[|rest|..] == [];
  }

  lemma ExtensionHeadIs(t: byte, width: nat, n: nat, x: Buffer)
    requires width <= |x|
    ensures ExtensionHead([t] + x, 1 + width, n) ==
      if |x| < width + 1 + n || ExtensionChildren(x[width]).None? then None
      else Some(Head(1 + width + 1 + n, ExtensionChildren(x[width]).value))
  {
    hide ExtensionChildren;
    if |x| > width { assert ([t] + x)[1 + width] == x[width]; }
  }

  lemma ExtensionWith(t: byte, width: nat, n: nat, x: Buffer)
    requires width <= |x|
    requires HeadOf([t] + x) == ExtensionHead([t] + x, 1 + width, n)
    ensures IsValue([t] + x) <==> |x| >= width + 1 + n && Wraps(x[width], x[width + 1 + n..])
  {
    hide HeadOf, IsValue, IsValues, ExtensionChildren, ExtensionHead;
    ExtensionHeadIs(t, width, n, x);
    if |x| < width + 1 + n {
      NoHead(t, x);
    } else {
      var children := ExtensionChildren(x[width]);
      if children.None? { NoHead(t, x); } else { ValueByHead(t, x, width + 1 + n, children.value); }
    }
  }

  /** Extensions of 1, 2, 4, 8 and 16 bytes: their type, their payload, and the value some types wrap. */
  lemma FixedExtensionValues(x: Buffer)
    ensures IsValue([0xd4] + x) <==> |x| >= 2 && Wraps(x[0], x[2..])
    ensures IsValue([0xd5] + x) <==> |x| >= 3 && Wraps(x[0], x[3..])
    ensures IsValue([0xd6] + x) <==> |x| >= 5 && Wraps(x[0], x[5..])
    ensures IsValue([0xd7] + x) <==> |x| >= 9 && Wraps(x[0], x[9..])
    ensures IsValue([0xd8] + x) <==> |x| >= 17 && Wraps(x[0], x[17..])
  {
    hide IsValue, Wraps, ExtensionHead;
    FixedHead(0xd4, 1, x);
    FixedHead(0xd5, 2, x);
    FixedHead(0xd6, 4, x);
    FixedHead(0xd7, 8, x);
    FixedHead(0xd8, 16, x);
    hide FormatOf, HeadOf;
    ExtensionWith(0xd4, 0, 1, x);
    ExtensionWith(0xd5, 0, 2, x);
    ExtensionWith(0xd6, 0, 4, x);
    ExtensionWith(0xd7, 0, 8, x);
    ExtensionWith(0xd8, 0, 16, x);
  }

  lemma FixedHead(t: byte, n: nat, x: Buffer)
    requires FormatOf(t) == FixedExtension(n)
    ensures HeadOf([t] + x) == ExtensionHead([t] + x, 1, n)
  {
    hide FormatOf, ExtensionHead;
  }

  lemma SizedExtension(t: byte, width: nat, x: Buffer)
    requires FormatOf(t) == Sized(ExtensionKind, width)
    ensures IsValue([t] + x) <==>
      && |x| >= width
      && |x| >= width + 1 + BigEndian(x[..width])
      && Wraps(x[width], x[width + 1 + BigEndian(x[..width])..])
  {
    hide FormatOf, HeadOf, IsValue, Wraps, ExtensionHead, BigEndian;
    SizedHead(t, ExtensionKind, width, x);
    if |x| >= width { ExtensionWith(t, width, BigEndian(x[..width]), x); } else { NoHead(t, x); }
  }

  /** Extensions with a length of 1, 2 or 4 bytes. */
  lemma SizedExtensionValues(x: Buffer)
    ensures IsValue([0xc7] + x) <==> |x| >= 1 && |x| >= 2 + x[0] as int && Wraps(x[1], x[2 + x[0] as int..])
    ensures IsValue([0xc8] + x) <==>
      |x| >= 2 && var n := x[0] as int * 0x100 + x[1]; |x| >= 3 + n && Wraps(x[2], x[3 + n..])
    ensures IsValue([0xc9] + x) <==>
      && |x| >= 4
      && var n := x[0] as int * 0x100_0000 + x[1] as int * 0x1_0000 + x[2] as int * 0x100 + x[3];
      && |x| >= 5 + n && Wraps(x[4], x[5 + n..])
  {
    hide IsValue, Wraps, BigEndian;
    LengthIs(x);
    SizedExtension(0xc7, 1, x);
    SizedExtension(0xc8, 2, x);
    SizedExtension(0xc9, 4, x);
  }
}
