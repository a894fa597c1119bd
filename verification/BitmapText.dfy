/** Printing and parsing of bitmaps held in words: bitmap_scnprintf and __bitmap_parse of lib/bitmap.c. */
module BitmapText {
  import opened Bits
  import opened BitWords
  import opened BitmapShift
  import opened BitmapRemap
  import opened BitmapHex
  import opened Ctype
  import opened NumberDigits
  import opened NumberText

  // ---------------------------------------------------------------- bitmaps as numbers

  /** The first `n` bits of a bitmap, as a number. */
  ghost function ValueOf(a: Words, n: nat): nat
    requires n <= BITS_PER_LONG * |a|
  {
    if n == 0 then 0 else ValueOf(a, n - 1) + if IsSet(a, n - 1) then Pow2(n - 1) else 0
  }

  lemma TopBit(v: nat, n: nat, x: nat)
    requires v < Pow2(n)
    ensures TestBit(v + Pow2(n), x) == (x == n || TestBit(v, x)) && v + Pow2(n) < Pow2(n + 1)
  {
    if x < n {
      ShrLow(v, n);
      ShrUnique(v + Pow2(n), n, 1, v);
      TestLow(v + Pow2(n), n, x);
    } else {
      TestBeyond(v, n, x);
      ShrUnique(v + Pow2(n), n, 1, v);
      TestShr(v + Pow2(n), n, x - n);
      TestOne(x - n);
    }
  }

  /** The number has exactly the bits of the bitmap. */
  lemma {:induction false} ValueBits(a: Words, n: nat, x: nat)
    requires n <= BITS_PER_LONG * |a|
    ensures TestBit(ValueOf(a, n), x) == (x < n && IsSet(a, x)) && ValueOf(a, n) < Pow2(n)
    decreases n
  {
    if n == 0 {
      TestZero(x);
    } else {
      ValueBits(a, n - 1, x);
      TopBit(ValueOf(a, n - 1), n - 1, x);
    }
  }

  // ---------------------------------------------------------------- printing

  lemma SameWord(i: nat, x: nat)
    requires i % 32 == 0 && x < 32
    ensures (i + x) / BITS_PER_LONG == i / BITS_PER_LONG && (i + x) % BITS_PER_LONG == i % BITS_PER_LONG + x
  {
  }

  lemma GroupBit(a: Words, n: nat, i: nat, size: nat, x: nat)
    requires n <= BITS_PER_LONG * |a| && i % 32 == 0 && size <= 32 && i + size <= n && size > 0
    ensures TestBit(Low(Shr(a[i / BITS_PER_LONG], i % BITS_PER_LONG), size), x)
      == TestBit(Low(Shr(ValueOf(a, n), i), size), x)
  {
    var w, b, v := a[i / BITS_PER_LONG], i % BITS_PER_LONG, ValueOf(a, n);
    TestLow(Shr(w, b), size, x);
    TestLow(Shr(v, i), size, x);
    TestShr(w, b, x);
    TestShr(v, i, x);
    ValueBits(a, n, i + x);
    if x < size { SameWord(i, x); }
  }

  /** The group at position `i` of the number is found in one word of the bitmap. */
  lemma GroupInWord(a: Words, n: nat, i: nat, size: nat)
    requires n <= BITS_PER_LONG * |a| && i % 32 == 0 && size <= 32 && i + size <= n && size > 0
    ensures Low(Shr(a[i / BITS_PER_LONG], i % BITS_PER_LONG), size) == Low(Shr(ValueOf(a, n), i), size)
  {
    var w, b, v := a[i / BITS_PER_LONG], i % BITS_PER_LONG, ValueOf(a, n);
    forall x: nat ensures TestBit(Low(Shr(w, b), size), x) == TestBit(Low(Shr(v, i), size), x) {
      GroupBit(a, n, i, size, x);
    }
    SameBits(Low(Shr(w, b), size), Low(Shr(v, i), size));
  }

  lemma StepDown(i: int, chunk: nat)
    requires i % 32 == 0 && chunk % 32 == 0
    ensures (i - chunk) % 32 == 0
  {
    assert i - chunk == 32 * (i / 32 - chunk / 32);
  }

  /** Lines 305-308: the group at position `i`. */
  method GroupValue(a: Words, ghost n: nat, i: nat, size: nat) returns (val: nat)
    requires n <= BITS_PER_LONG * |a| && i % 32 == 0 && size <= 32 && i + size <= n && size > 0
    ensures val == Low(Shr(ValueOf(a, n), i), size)
  {
    var word, bit := i / BITS_PER_LONG, i % BITS_PER_LONG;
    val := Low(Shr(a[word], bit), size);
    GroupInWord(a, n, i, size);
  }

  /** One group more, and what is left to print. */
  lemma PrintStep(v: nat, chunk: nat, i: nat, size: nat, s: string, sep: string, val: nat)
    requires chunk > 0 && val == Low(Shr(v, i), size)
    ensures s + sep + PrintFrom(v, chunk, i, size) ==
      if i < chunk then s + sep + Hex(val, (size + 3) / 4)
        else s + sep + Hex(val, (size + 3) / 4) + "," + PrintFrom(v, chunk, i - chunk, chunk)
  {
    var t, h := s + sep, Hex(val, (size + 3) / 4);
    if i < chunk {
      assert t + (h + "") == t + h;
    } else {
      var rest := PrintFrom(v, chunk, i - chunk, chunk);
      assert t + (h + ("," + rest)) == t + h + "," + rest;
    }
  }

  /** Lines 309-310: a group, as `%0*lx` prints it. */
  method GroupText(val: nat, size: nat) returns (s: string)
    requires 0 < size <= 32 && val < Pow2(size)
    ensures s == Hex(val, (size + 3) / 4)
  {
    var width := (size + 3) / 4;
    Pow2Mono(size, 4 * width);
    GroupBelow(val, size, 32);
    HexIsNumber(val, width);
    s := Text(val, HexSpec(width));
  }

  lemma GroupBelow(val: nat, size: nat, w: nat)
    requires size <= w == 32 && val < Pow2(size)
    ensures val < NumberText.U64
  {
    Pow2Mono(size, w);
    Pow2Of32(w);
  }

  /** Lines 304-313: the groups of `chunk` bits from position `i0` down. */
  method PrintGroups(a: Words, n: nat, chunk: nat, i0: nat, size0: nat) returns (s: string)
    requires n <= BITS_PER_LONG * |a| && i0 % 32 == 0 && 0 < size0 <= chunk <= 32 && i0 + size0 <= n && chunk % 32 == 0
    ensures s == PrintFrom(ValueOf(a, n), chunk, i0, size0)
  {
    var i: int, size, sep := i0, size0, "";
    s := "";
    ghost var v := ValueOf(a, n);
    while i >= 0
      invariant i % 32 == 0 && 0 < size <= 32 && (i >= 0 ==> i + size <= n)
      invariant PrintFrom(v, chunk, i0, size0) == if i < 0 then s else s + sep + PrintFrom(v, chunk, i, size)
    {
      var val := GroupValue(a, n, i, size);
      PrintStep(v, chunk, i, size, s, sep, val);
      ShrLow(Shr(v, i), size);
      var text := GroupText(val, size);
      s := s + sep + text;
      size := chunk;
      sep := ",";
      StepDown(i, chunk);
      i := i - chunk;
    }
  }

  /** `bitmap_scnprintf`, lines 290-315, into a buffer that is large enough. */
  method PrintBitmap(a: Words, n: nat) returns (s: string)
    requires Holds(a, n)
    ensures s == if n == 0 then "" else Print(ValueOf(a, n), n)
  {
    var size := n % CHUNKSZ;
    if size == 0 {
      size := CHUNKSZ;
    }
    var i: int := (n + CHUNKSZ - 1) / CHUNKSZ * CHUNKSZ - CHUNKSZ;
    FirstGroup(n);
    if i >= 0 {
      s := PrintGroups(a, n, CHUNKSZ, i, size);
    } else {
      s := "";
    }
  }

  /** The format `%0*lx`. */
  function HexSpec(width: nat): Spec {
    Spec(true, false, false, false, false, true, false, width, 16, -1)
  }

  lemma {:induction false} HexOfZero(width: nat)
    ensures Hex(0, width) == Rep('0', width)
  {
    if width > 0 { HexOfZero(width - 1); }
  }

  /** The digits of `v`, with zeros in front of them up to `width`. */
  function ZeroPadded(v: nat, width: nat): string {
    var d := Reverse(RevDigits(v, 16, true));
    Rep('0', width - |d|) + d
  }

  lemma PaddedDigit(v: nat, width: nat)
    requires width > 0 && v < 16
    ensures ZeroPadded(v, width) == Rep('0', width - 1) + [DigitChar(v, true)]
  {
    ReverseCons(DigitChar(v, true), "");
  }

  lemma PaddedStep(v: nat, width: nat, q: nat, c: char)
    requires v >= 16 && width > 0 && q == v / 16 && c == DigitChar(v % 16, true)
    ensures ZeroPadded(v, width) == ZeroPadded(q, width - 1) + [c]
  {
    var r := RevDigits(q, 16, true);
    ReverseCons(c, r);
    var d, n := Reverse(r), width - 1 - |r|;
    assert Rep('0', n) + (d + [c]) == Rep('0', n) + d + [c];
  }

  lemma {:induction false} HexPadded(v: nat, width: nat)
    requires v < Pow2(4 * width) && width > 0
    ensures Hex(v, width) == ZeroPadded(v, width)
    decreases width
  {
    if v < 16 {
      HexOfZero(width - 1);
      PaddedDigit(v, width);
    } else {
      Pow2Add(4, 4 * (width - 1));
      assert Pow2(4) == 16;
      HexPadded(v / 16, width - 1);
      PaddedStep(v, width, v / 16, DigitChar(v % 16, true));
    }
  }

  /** The groups are what `number` prints for them. */
  lemma HexIsNumber(v: nat, width: nat)
    requires width > 0 && v < Pow2(4 * width) && v < NumberText.U64
    ensures Text(v, HexSpec(width)) == Hex(v, width)
  {
    assert Text(v, HexSpec(width)) == ZeroPadded(v, width) by {
      ZeroFilled(HexSpec(width), Digits(v, HexSpec(width)), PadOf(v, HexSpec(width)));
    }
    HexPadded(v, width);
  }

  // ---------------------------------------------------------------- parsing

  /** The bitmap has exactly the bits of `m`. */
  ghost predicate Reps(a: Words, m: nat) {
    forall x :: 0 <= x < BITS_PER_LONG * |a| ==> IsSet(a, x) == TestBit(m, x)
  }

  /** Lines 360-397 */
  method ReadChunk(buf: string, pos0: nat, last0: char, total0: nat) returns (g: Group)
    requires pos0 <= |buf|
    ensures g == ReadGroup(buf, pos0, last0, 0, 0, total0)
  {
    var chunk: nat, digits: nat, total, pos, last := 0, 0, total0, pos0, last0;
    while pos < |buf|
      invariant pos <= |buf|
      invariant ReadGroup(buf, pos0, last0, 0, 0, total0) == ReadGroup(buf, pos, last, chunk, digits, total)
    {
      var old_c := last;
      last := buf[pos];
      pos := pos + 1;
      if IsSpace(last) {
        continue;
      }
      if total > 0 && last != '\0' && IsSpace(old_c) {
        return Bad(-EINVAL);
      }
      if last == '\0' || last == ',' {
        break;
      }
      if !IsXDigit(last) {
        return Bad(-EINVAL);
      }
      if chunk >= 0x1000_0000 {
        return Bad(-EOVERFLOW);
      }
      chunk := chunk * 16 + Unhex(last);
      digits, total := digits + 1, total + 1;
    }
    g := Group(chunk, digits, total, pos, last);
  }

  lemma OrWord(r: Words, q: Words, v: nat, x: nat)
    requires 0 < |r| == |q| && v < 0x1_0000_0000 && q == r[0 := Or(r[0], v)] && x < BITS_PER_LONG * |r|
    ensures IsSet(q, x) == (IsSet(r, x) || TestBit(v, x))
  {
    if x < BITS_PER_LONG {
      TestOr(r[0], v, x);
    } else {
      Pow2Of32(32);
      TestBeyond(v, 32, x);
    }
  }

  lemma OrFits(r: Words, v: nat, bits: nat)
    requires Holds(r, bits) && |r| > 0 && v < 0x1_0000_0000
    ensures Holds(r[0 := Or(r[0], v)], bits)
  {
    Pow2Of64(BITS_PER_LONG);
    OrBound(r[0], v, BITS_PER_LONG);
  }

  lemma GroupedAt(s: Words, r: Words, q: Words, chunk: nat, bits: nat, v: nat, m: nat, x: nat)
    requires ShiftedBy(s, r, chunk, bits) && |r| > 0 && v < 0x1_0000_0000 && q == r[0 := Or(r[0], v)] && Reps(s, m)
      && x < BITS_PER_LONG * |q|
    ensures IsSet(q, x) == TestBit(Or(Low(Shl(m, chunk), bits), v), x)
  {
    OrWord(r, q, v, x);
    TestOr(Low(Shl(m, chunk), bits), v, x);
    TestLow(Shl(m, chunk), bits, x);
    TestShl(m, chunk, x);
  }

  /** Shifting the words and adding a group does to the bitmap what it does to the number. */
  lemma Grouped(s: Words, r: Words, q: Words, chunk: nat, bits: nat, v: nat, m: nat)
    requires ShiftedBy(s, r, chunk, bits) && |r| > 0 && v < 0x1_0000_0000 && q == r[0 := Or(r[0], v)] && Reps(s, m)
    ensures Reps(q, Or(Low(Shl(m, chunk), bits), v)) && Holds(q, bits)
  {
    OrFits(r, v, bits);
    forall x | 0 <= x < BITS_PER_LONG * |q| ensures IsSet(q, x) == TestBit(Or(Low(Shl(m, chunk), bits), v), x) {
      GroupedAt(s, r, q, chunk, bits, v, m, x);
    }
  }

  /** Lines 403-404: the words are shifted and the group added. */
  method AddGroup(mask: array<nat>, bits: nat, chunk: nat, v: nat, ghost m: nat)
    requires bits > 0 && mask.Length == Longs(bits) && Holds(mask[..], bits) && Reps(mask[..], m) && v < 0x1_0000_0000
      && chunk < BITS_PER_LONG
    modifies mask
    ensures Holds(mask[..], bits) && Reps(mask[..], Or(Low(Shl(m, chunk), bits), v))
  {
    ghost var s := mask[..];
    ShiftLeft(mask, chunk, bits);
    ghost var r := mask[..];
    mask[0] := Or(mask[0], v);
    Grouped(s, r, mask[..], chunk, bits, v, m);
  }

  /** Lines 356-411, with groups of `chunk` bits. */
  method ParseGroups(buf: string, mask: array<nat>, bits: nat, chunk: nat) returns (err: int)
    requires bits > 0 && mask.Length == Longs(bits) && Holds(mask[..], bits) && Reps(mask[..], 0)
      && chunk < BITS_PER_LONG
    modifies mask
    ensures var p := ParseFrom(buf, bits, chunk, 0, '\0', 0, 0, 0, 0);
      if p.Ok? then err == 0 && Holds(mask[..], bits) && Reps(mask[..], p.mask) else err == p.code
  {
    var pos: nat, last, total: nat, groups: nat, nbits: nat := 0, '\0', 0, 0, 0;
    var more := true;
    ghost var m: nat := 0;
    ghost var all := ParseFrom(buf, bits, chunk, 0, '\0', 0, 0, 0, 0);
    while more
      invariant pos <= |buf| && Holds(mask[..], bits) && Reps(mask[..], m)
      invariant all == if more then ParseFrom(buf, bits, chunk, pos, last, total, groups, nbits, m) else Ok(m)
      decreases |buf| - pos, more
    {
      var g := ReadChunk(buf, pos, last, total);
      ReadMoves(buf, pos, last, 0, 0, total);
      if g.Bad? {
        return g.error;
      }
      if g.digits == 0 {
        return -EINVAL;
      }
      if groups != 0 || g.value != 0 {
        AddGroup(mask, bits, chunk, g.value, m);
        m := Or(Low(Shl(m, chunk), bits), g.value);
        groups := groups + 1;
        nbits := nbits + if groups == 1 then Fls(g.value) else chunk;
        if nbits > bits {
          return -EOVERFLOW;
        }
      }
      more := g.pos < |buf| && g.last == ',';
      pos, last, total := g.pos, g.last, g.total;
    }
    err := 0;
  }

  lemma ZeroReps(a: Words)
    requires forall k :: 0 <= k < |a| ==> a[k] == 0
    ensures Reps(a, 0)
  {
    forall x | 0 <= x < BITS_PER_LONG * |a| ensures IsSet(a, x) == TestBit(0, x) {
      TestZero(x);
      TestZero(x % BITS_PER_LONG);
    }
  }

  /** `__bitmap_parse`, lines 345-412, on text in kernel memory. */
  method ParseBitmap(buf: string, mask: array<nat>, bits: nat) returns (err: int)
    requires bits > 0 && mask.Length == Longs(bits)
    modifies mask
    ensures var p := Parse(buf, bits);
      if p.Ok? then err == 0 && Holds(mask[..], bits) && Reps(mask[..], p.mask) else err == p.code
  {
    Zero(mask, bits);
    ZeroReps(mask[..]);
    err := ParseGroups(buf, mask, bits, CHUNKSZ);
  }

  /** A number fits in `m` bits exactly if none of its bits is at `m` or above. */
  lemma FitsIff(v: nat, m: nat)
    ensures v < Pow2(m) <==> forall x: nat :: TestBit(v, x) ==> x < m
  {
    if v < Pow2(m) {
      forall x: nat | TestBit(v, x) ensures x < m {
        if x >= m { TestBeyond(v, m, x); }
      }
    } else if forall x: nat :: TestBit(v, x) ==> x < m {
      forall x: nat ensures TestBit(Low(v, m), x) == TestBit(v, x) { TestLow(v, m, x); }
      SameBits(Low(v, m), v);
      LowBound(v, m);
    }
  }

  /** Printing a bitmap of `bits` bits and parsing the text into one of `m` bits gives the same valid bits,
    * exactly if each set bit is below `m`. */
  method PrintParse(a: Words, bits: nat, mask: array<nat>, m: nat) returns (err: int)
    requires bits > 0 && Holds(a, bits) && m > 0 && mask.Length == Longs(m)
    modifies mask
    ensures err == if forall x: nat :: x < bits && IsSet(a, x) ==> x < m then 0 else -EOVERFLOW
    ensures err == 0 ==> forall x: nat :: x < BITS_PER_LONG * mask.Length ==>
      IsSet(mask[..], x) == (x < bits && IsSet(a, x))
  {
    var text := PrintBitmap(a, bits);
    ghost var n := ValueOf(a, bits);
    ValueBits(a, bits, 0);
    ParsePrint(n, bits, m);
    err := ParseBitmap(text, mask, m);
    forall x: nat ensures TestBit(n, x) == (x < bits && IsSet(a, x)) {
      ValueBits(a, bits, x);
    }
    FitsIff(n, m);
  }
}
