/** Bitmaps as hexadecimal text: groups of eight digits separated by commas, the highest bits first. */
module BitmapHex {
  import opened Bits
  import opened BitWords
  import opened Ctype
  import opened NumberDigits

  const CHUNKSZ: nat := 32
  const EINVAL: int := 22
  const EOVERFLOW: int := 75

  // ---------------------------------------------------------------- digits

  /** The low `width` hexadecimal digits of `v`. */
  function Hex(v: nat, width: nat): (s: string)
    ensures |s| == width
    decreases width
  {
    if width == 0 then "" else Hex(v / 16, width - 1) + [DigitChar(v % 16, true)]
  }

  lemma HexDigitIs(d: nat)
    requires d < 16
    ensures IsXDigit(DigitChar(d, true)) && Unhex(DigitChar(d, true)) == d && !IsSpace(DigitChar(d, true))
      && DigitChar(d, true) != ',' && DigitChar(d, true) != '\0'
  {
  }

  // ---------------------------------------------------------------- parsing, as a function

  /** A group of digits that has been read: its value, how many digits, how many in all, where it ended and on what. */
  datatype Group = Group(value: nat, digits: nat, total: nat, pos: nat, last: char) | Bad(error: int)

  /** Lines 360-397: one group, from `pos` on. */
  function ReadGroup(buf: string, pos: nat, last: char, chunk: nat, digits: nat, total: nat): Group
    requires pos <= |buf|
    decreases |buf| - pos
  {
    if pos == |buf| then Group(chunk, digits, total, pos, last)
    else
      var c := buf[pos];
      if IsSpace(c) then ReadGroup(buf, pos + 1, c, chunk, digits, total)
      else if total > 0 && c != '\0' && IsSpace(last) then Bad(-EINVAL)
      else if c == '\0' || c == ',' then Group(chunk, digits, total, pos + 1, c)
      else if !IsXDigit(c) then Bad(-EINVAL)
      else if chunk >= 0x1000_0000 then Bad(-EOVERFLOW)
      else ReadGroup(buf, pos + 1, c, chunk * 16 + Unhex(c), digits + 1, total + 1)
  }

  lemma {:induction false} ReadMoves(buf: string, pos: nat, last: char, chunk: nat, digits: nat, total: nat)
    requires pos <= |buf| && chunk < 0x1_0000_0000
    ensures var g := ReadGroup(buf, pos, last, chunk, digits, total);
      g.Group? ==> pos <= g.pos <= |buf| && (pos < |buf| ==> pos < g.pos) && g.value < 0x1_0000_0000
    decreases |buf| - pos
  {
    if pos < |buf| {
      var c := buf[pos];
      if IsSpace(c) {
        ReadMoves(buf, pos + 1, c, chunk, digits, total);
      } else if IsXDigit(c) && chunk < 0x1000_0000 {
        ReadMoves(buf, pos + 1, c, chunk * 16 + Unhex(c), digits + 1, total + 1);
      }
    }
  }

  /** `fls(v)`: the number of bits that hold `v`. */
  function Fls(v: nat): nat {
    if v == 0 then 0 else 1 + Fls(v / 2)
  }

  datatype Parsed = Ok(mask: nat) | Error(code: int)

  /** Lines 356-411: groups of `chunk` bits until the text ends; `mask` is the bitmap read so far, as a number. */
  function ParseFrom(buf: string, bits: nat, chunk: nat, pos: nat, last: char, total: nat, groups: nat, nbits: nat,
                     mask: nat): Parsed
    requires pos <= |buf|
    decreases |buf| - pos
  {
    var g := ReadGroup(buf, pos, last, 0, 0, total);
    ReadMoves(buf, pos, last, 0, 0, total);
    if g.Bad? then Error(g.error)
    else if g.digits == 0 then Error(-EINVAL)
    else if groups == 0 && g.value == 0 then
      (if g.pos < |buf| && g.last == ',' && pos < g.pos then
        ParseFrom(buf, bits, chunk, g.pos, g.last, g.total, 0, nbits, mask) else Ok(mask))
    else
      var mask' := Or(Low(Shl(mask, chunk), bits), g.value);
      var nbits' := nbits + if groups == 0 then Fls(g.value) else chunk;
      if nbits' > bits then Error(-EOVERFLOW)
      else
        if g.pos < |buf| && g.last == ',' && pos < g.pos then
        ParseFrom(buf, bits, chunk, g.pos, g.last, g.total, groups + 1, nbits', mask')
      else Ok(mask')
  }

  function Parse(buf: string, bits: nat): Parsed {
    ParseFrom(buf, bits, CHUNKSZ, 0, '\0', 0, 0, 0, 0)
  }

  // ---------------------------------------------------------------- printing, as a function

  /** The groups of `chunk` bits from position `i` down, the first of them of `size` bits. */
  function PrintFrom(n: nat, chunk: nat, i: nat, size: nat): string
    decreases i
  {
    Hex(Low(Shr(n, i), size), (size + 3) / 4) + if chunk == 0 || i < chunk then ""
      else "," + PrintFrom(n, chunk, i - chunk, chunk)
  }

  /** The size of the first group. */
  function FirstSize(bits: nat): nat {
    if bits % CHUNKSZ == 0 then CHUNKSZ else bits % CHUNKSZ
  }

  /** The other groups are whole. */
  lemma FirstGroup(n: nat)
    ensures (n + CHUNKSZ - 1) / CHUNKSZ * CHUNKSZ == if n == 0 then 0 else n - FirstSize(n) + CHUNKSZ
    ensures n > 0 ==> 0 < FirstSize(n) <= n && FirstSize(n) <= CHUNKSZ && (n - FirstSize(n)) % CHUNKSZ == 0
  {
  }

  function Print(n: nat, bits: nat): string
    requires bits > 0
  {
    PrintFrom(n, CHUNKSZ, bits - FirstSize(bits), FirstSize(bits))
  }

  // ---------------------------------------------------------------- reading what was printed

  /** `v` without its last `k` digits. */
  function Top(v: nat, k: nat): nat
    decreases k
  {
    if k == 0 then v else Top(v / 16, k - 1)
  }

  lemma {:induction false} TopStep(v: nat, k: nat)
    ensures Top(v, k) == Top(v, k + 1) * 16 + Top(v, k) % 16 && Top(v, k + 1) <= v / 16
    decreases k
  {
    if k > 0 { TopStep(v / 16, k - 1); }
  }

  lemma {:induction false} HexAt(v: nat, width: nat, d: nat)
    requires d < width
    ensures Hex(v, width)[d] == DigitChar(Top(v, width - 1 - d) % 16, true)
    decreases width
  {
    if d < width - 1 { HexAt(v / 16, width - 1, d); }
  }

  /** All digits of `v` together are `v`. */
  lemma {:induction false} TopZero(v: nat, width: nat)
    requires v < Pow2(4 * width)
    ensures Top(v, width) == 0
    decreases width
  {
    if width > 0 {
      Pow2Add(4, 4 * (width - 1));
      assert Pow2(4) == 16;
      TopZero(v / 16, width - 1);
    }
  }

  /** From digit `d` on, the rest of the digits of `v` completes it. */
  lemma {:induction false} ReadDigits(buf: string, pos: nat, v: nat, width: nat, d: nat, last: char, total: nat)
    requires d <= width && pos + width <= |buf| && buf[pos..pos + width] == Hex(v, width) && v < 0x1_0000_0000
    requires !IsSpace(last) && (pos + width == |buf| || buf[pos + width] == ',')
    ensures var g := ReadGroup(buf, pos + d, last, Top(v, width - d), d, total);
      && g.Group? && g.value == v && g.digits == width && !IsSpace(g.last)
      && if pos + width == |buf| then g.pos == |buf| else g.pos == pos + width + 1 && g.last == ','
    decreases width - d
  {
    if d < width {
      var c := buf[pos + d];
      assert c == buf[pos..pos + width][d];
      HexAt(v, width, d);
      HexDigitIs(Top(v, width - 1 - d) % 16);
      TopStep(v, width - 1 - d);
      ReadDigits(buf, pos, v, width, d + 1, c, total + 1);
    }
  }

  lemma ReadHex(buf: string, pos: nat, v: nat, width: nat, last: char, total: nat)
    requires width > 0 && pos + width <= |buf| && buf[pos..pos + width] == Hex(v, width) && v < 0x1_0000_0000
      && v < Pow2(4 * width)
    requires !IsSpace(last) && (pos + width == |buf| || buf[pos + width] == ',')
    ensures var g := ReadGroup(buf, pos, last, 0, 0, total);
      && g.Group? && g.value == v && g.digits == width && !IsSpace(g.last)
      && if pos + width == |buf| then g.pos == |buf| else g.pos == pos + width + 1 && g.last == ','
  {
    TopZero(v, width);
    ReadDigits(buf, pos, v, width, 0, last, total);
  }

  // ---------------------------------------------------------------- numbers and groups

  /** `Fls(v)` bits hold `v`, and fewer do not. */
  lemma {:induction false} FlsIs(v: nat, m: nat)
    ensures Fls(v) <= m <==> v < Pow2(m)
    decreases m
  {
    if v > 0 && m > 0 { FlsIs(v / 2, m - 1); }
  }

  lemma {:induction false} FlsShr(v: nat, k: nat)
    requires Shr(v, k) != 0
    ensures v != 0 && Fls(v) == Fls(Shr(v, k)) + k
    decreases k
  {
    if k > 0 { FlsShr(v / 2, k - 1); }
  }

  /** Appending the next group to the bits above it. */
  lemma MaskStep(n: nat, bits: nat, i: nat, chunk: nat)
    requires Shr(n, i) < Pow2(bits)
    ensures Or(Low(Shl(Shr(n, i + chunk), chunk), bits), Low(Shr(n, i), chunk)) == Shr(n, i)
  {
    var up, low := Low(Shl(Shr(n, i + chunk), chunk), bits), Low(Shr(n, i), chunk);
    forall x: nat ensures TestBit(Or(up, low), x) == TestBit(Shr(n, i), x) {
      TestOr(up, low, x);
      TestLow(Shl(Shr(n, i + chunk), chunk), bits, x);
      TestShl(Shr(n, i + chunk), chunk, x);
      TestLow(Shr(n, i), chunk, x);
      TestShr(n, i, x);
      if x >= chunk { TestShr(n, i + chunk, x - chunk); }
      if x >= bits { TestBeyond(Shr(n, i), bits, x); }
    }
    SameBits(Or(up, low), Shr(n, i));
  }

  lemma {:induction false} OrZero(v: nat)
    ensures Or(0, v) == v
  {
    if v > 0 { OrZero(v / 2); }
  }

  lemma {:induction false} LowOfZero(n: nat)
    ensures Low(0, n) == 0
  {
    if n > 0 { LowOfZero(n - 1); }
  }

  lemma {:induction false} ShlOfZero(n: nat)
    ensures Shl(0, n) == 0
  {
    if n > 0 { ShlOfZero(n - 1); }
  }

  /** With nothing above a group, the group is all there is. */
  lemma TopGroup(n: nat, i: nat, size: nat)
    requires Shr(n, i + size) == 0
    ensures Shr(n, i) == Low(Shr(n, i), size)
  {
    ShrShr(n, i, size);
    ShrLow(Shr(n, i), size);
  }

  // ---------------------------------------------------------------- printing then parsing

  /** `i` is a multiple of `chunk`. */
  ghost predicate Aligned(i: nat, chunk: nat)
    decreases i
  {
    chunk > 0 && (i == 0 || (i >= chunk && Aligned(i - chunk, chunk)))
  }

  lemma {:induction false} AlignedIs(i: nat)
    requires i % CHUNKSZ == 0
    ensures Aligned(i, CHUNKSZ)
  {
    if i > 0 { AlignedIs(i - CHUNKSZ); }
  }

  /** What is known when the group of `size` bits at position `i` is about to be read into a bitmap of `bits` bits. */
  ghost predicate Ready(n: nat, bits: nat, chunk: nat, i: nat, size: nat, groups: nat, nbits: nat, mask: nat) {
    && Aligned(i, chunk) && 0 < size <= chunk && Pow2(chunk) <= 0x1_0000_0000
    && mask == Shr(n, i + size) && mask < Pow2(bits) && nbits == Fls(mask) && (groups == 0 <==> mask == 0)
    && (groups > 0 ==> size == chunk)
  }

  lemma GroupFits(n: nat, chunk: nat, i: nat, size: nat)
    requires 0 < size <= chunk && Pow2(chunk) <= 0x1_0000_0000
    ensures var v := Low(Shr(n, i), size); v < 0x1_0000_0000 && v < Pow2(4 * ((size + 3) / 4))
  {
    LowBound(Shr(n, i), size);
    Pow2Mono(size, 4 * ((size + 3) / 4));
    Pow2Mono(size, chunk);
  }

  /** One group moves the bits read so far down by one group, and counts the bits that hold them. */
  lemma ReadyNext(n: nat, bits: nat, chunk: nat, i: nat, size: nat, groups: nat, nbits: nat, mask: nat)
    requires Ready(n, bits, chunk, i, size, groups, nbits, mask)
    ensures var v := Low(Shr(n, i), size);
      if groups == 0 && v == 0 then Shr(n, i) == 0 == mask
      else
        && Shr(n, i) != 0 && nbits + (if groups == 0 then Fls(v) else chunk) == Fls(Shr(n, i))
        && (Fls(Shr(n, i)) <= bits ==> Or(Low(Shl(mask, chunk), bits), v) == Shr(n, i))
  {
    if groups == 0 {
      TopGroup(n, i, size);
      ShlOfZero(chunk);
      LowOfZero(bits);
      OrZero(Low(Shr(n, i), size));
    } else {
      ShrShr(n, i, chunk);
      FlsShr(Shr(n, i), chunk);
      if Fls(Shr(n, i)) <= bits {
        FlsIs(Shr(n, i), bits);
        MaskStep(n, bits, i, chunk);
      }
    }
  }

  /** What is left of the text after the group at position `i`. */
  lemma AfterGroup(n: nat, chunk: nat, i: nat, size: nat, buf: string, pos: nat, last: char, total: nat)
    requires 0 < size <= chunk && Pow2(chunk) <= 0x1_0000_0000 && Aligned(i, chunk) && !IsSpace(last)
    requires pos <= |buf| && buf[pos..] == PrintFrom(n, chunk, i, size)
    ensures var g := ReadGroup(buf, pos, last, 0, 0, total);
      && g.Group? && g.value == Low(Shr(n, i), size) && g.digits > 0 && !IsSpace(g.last)
      && pos < g.pos && if i == 0 then g.pos == |buf|
        else g.pos < |buf| && g.last == ',' && buf[g.pos..] == PrintFrom(n, chunk, i - chunk, chunk)
  {
    var v, w := Low(Shr(n, i), size), (size + 3) / 4;
    var s := buf[pos..];
    GroupFits(n, chunk, i, size);
    assert buf[pos..pos + w] == s[..w] == Hex(v, w);
    if i > 0 {
      assert buf[pos + w] == s[w] == ',';
      assert buf[pos + w + 1..] == s[w + 1..] == PrintFrom(n, chunk, i - chunk, chunk);
    }
    ReadHex(buf, pos, v, w, last, total);
  }

  /** Where parsing stands: the position, the last character, the digits, groups and bits so far. */
  datatype At = At(pos: nat, last: char, total: nat, groups: nat, nbits: nat)

  ghost function Rest(buf: string, bits: nat, chunk: nat, a: At, mask: nat): Parsed
    requires a.pos <= |buf|
  {
    ParseFrom(buf, bits, chunk, a.pos, a.last, a.total, a.groups, a.nbits, mask)
  }

  /** One group takes parsing from `a` to `b`, and the bits read from `mask` to `mask'`. */
  ghost predicate Step(buf: string, bits: nat, chunk: nat, a: At, mask: nat, b: At, mask': nat)
    requires a.pos <= |buf|
  {
    var g := ReadGroup(buf, a.pos, a.last, 0, 0, a.total);
    && g.Group? && g.digits > 0 && a.pos < g.pos <= |buf| && (b.pos, b.last, b.total) == (g.pos, g.last, g.total)
    && if a.groups == 0 && g.value == 0 then (b.groups, b.nbits, mask') == (0, a.nbits, mask)
       else
         (b.groups, b.nbits, mask') == (a.groups + 1, a.nbits + (if a.groups == 0 then Fls(g.value) else chunk),
         Or(Low(Shl(mask, chunk), bits), g.value)) && b.nbits <= bits
  }

  lemma StepIs(buf: string, bits: nat, chunk: nat, a: At, mask: nat, b: At, mask': nat)
    requires a.pos <= |buf| && Step(buf, bits, chunk, a, mask, b, mask')
    ensures b.pos <= |buf| && Rest(buf, bits, chunk, a, mask) == if b.pos < |buf| && b.last == ',' then
      Rest(buf, bits, chunk, b, mask') else Ok(mask')
  {
  }

  /** The group of `size` bits at position `i` is next in the text. */
  ghost predicate Next(n: nat, bits: nat, chunk: nat, i: nat, size: nat, buf: string, a: At) {
    && Ready(n, bits, chunk, i, size, a.groups, a.nbits, Shr(n, i + size)) && !IsSpace(a.last)
    && a.pos <= |buf| && buf[a.pos..] == PrintFrom(n, chunk, i, size)
  }

  /** Parsing one group leads to the next, or to the end, as long as the bits read so far fit. */
  lemma OneGroup(n: nat, bits: nat, chunk: nat, i: nat, size: nat, buf: string, a: At) returns (b: At)
    requires Next(n, bits, chunk, i, size, buf, a) && Shr(n, i) < Pow2(bits)
    ensures Step(buf, bits, chunk, a, Shr(n, i + size), b, Shr(n, i))
    ensures i == 0 ==> b.pos == |buf|
    ensures i > 0 ==> chunk <= i && b.pos < |buf| && b.last == ',' && Next(n, bits, chunk, i - chunk, chunk, buf, b)
  {
    var g := ReadGroup(buf, a.pos, a.last, 0, 0, a.total);
    AfterGroup(n, chunk, i, size, buf, a.pos, a.last, a.total);
    ReadyNext(n, bits, chunk, i, size, a.groups, a.nbits, Shr(n, i + size));
    FlsIs(Shr(n, i), bits);
    var skip := a.groups == 0 && g.value == 0;
    b := At(g.pos, g.last, g.total, if skip then 0 else a.groups + 1, if skip then 0
      else a.nbits + if a.groups == 0 then Fls(g.value) else chunk);
  }

  /** A group that takes the bits read so far beyond the bitmap is refused. */
  lemma OverGroup(n: nat, bits: nat, chunk: nat, i: nat, size: nat, buf: string, a: At)
    requires Next(n, bits, chunk, i, size, buf, a) && Shr(n, i) >= Pow2(bits)
    ensures Rest(buf, bits, chunk, a, Shr(n, i + size)) == Error(-EOVERFLOW)
  {
    AfterGroup(n, chunk, i, size, buf, a.pos, a.last, a.total);
    ReadyNext(n, bits, chunk, i, size, a.groups, a.nbits, Shr(n, i + size));
    FlsIs(Shr(n, i), bits);
  }

  /** Parsing what is printed from position `i` on completes the number, exactly if it fits. */
  lemma {:induction false} ParseRest(n: nat, bits: nat, chunk: nat, i: nat, size: nat, buf: string, a: At)
    requires Next(n, bits, chunk, i, size, buf, a)
    ensures Rest(buf, bits, chunk, a, Shr(n, i + size)) == if n < Pow2(bits) then Ok(n) else Error(-EOVERFLOW)
    decreases i
  {
    if Shr(n, i) >= Pow2(bits) {
      OverGroup(n, bits, chunk, i, size, buf, a);
      ShrBelow(n, i);
      return;
    }
    var b := OneGroup(n, bits, chunk, i, size, buf, a);
    StepIs(buf, bits, chunk, a, Shr(n, i + size), b, Shr(n, i));
    if i > 0 {
      assert chunk > 0;
      ParseRest(n, bits, chunk, i - chunk, chunk, buf, b);
    } else {
      assert Shr(n, 0) == n;
    }
  }

  /**
    The hexadecimal text of a bitmap of `bits` bits is read into one of `m` bits as that bitmap, exactly if it
    fits.
   */
  lemma ParsePrint(n: nat, bits: nat, m: nat)
    requires bits > 0 && n < Pow2(bits)
    ensures Parse(Print(n, bits), m) == if n < Pow2(m) then Ok(n) else Error(-EOVERFLOW)
  {
    FirstAligned(bits);
    ParseText(n, bits, m, FirstSize(bits), CHUNKSZ, Print(n, bits));
  }

  lemma ParseText(n: nat, bits: nat, m: nat, size: nat, chunk: nat, buf: string)
    requires chunk == CHUNKSZ && 0 < size <= bits && size <= chunk && Aligned(bits - size, chunk)
    requires n < Pow2(bits) && Pow2(chunk) <= 0x1_0000_0000 && buf == PrintFrom(n, chunk, bits - size, size)
    ensures Parse(buf, m) == if n < Pow2(m) then Ok(n) else Error(-EOVERFLOW)
  {
    ParseWhole(n, bits, m, chunk, bits - size, size, buf);
  }

  lemma FirstAligned(bits: nat)
    requires bits > 0
    ensures 0 < FirstSize(bits) <= bits && FirstSize(bits) <= CHUNKSZ && Aligned(bits - FirstSize(bits), CHUNKSZ)
      && Pow2(CHUNKSZ) <= 0x1_0000_0000
  {
    FirstGroup(bits);
    AlignedIs(bits - FirstSize(bits));
    Pow2Of32(CHUNKSZ);
  }

  lemma ParseWhole(n: nat, bits: nat, m: nat, chunk: nat, i: nat, size: nat, buf: string)
    requires n < Pow2(bits) && Aligned(i, chunk) && i + size == bits && 0 < size <= chunk
      && Pow2(chunk) <= 0x1_0000_0000 && buf == PrintFrom(n, chunk, i, size)
    ensures ParseFrom(buf, m, chunk, 0, '\0', 0, 0, 0, 0) == if n < Pow2(m) then Ok(n) else Error(-EOVERFLOW)
  {
    ShrAll(n, bits);
    assert buf[0..] == buf;
    ParseRest(n, m, chunk, i, size, buf, At(0, '\0', 0, 0, 0));
  }
}
