/**
  The entropy mixer of kernel/random.c: a twisted feedback register over a pool of 32-bit words.
  For every input, mixing it in is a bijection on the contents of the pool.
 */
module Random {
  import opened Common
  import opened RandomWords

  /** `struct poolinfo` */
  datatype PoolInfo = PoolInfo(words: nat, tap1: nat, tap2: nat, tap3: nat, tap4: nat, tap5: nat)

  /** `poolinfo_table`: the two layouts in use. */
  const INPUT_POOL: PoolInfo := PoolInfo(128, 103, 76, 51, 25, 1)
  const OUTPUT_POOL: PoolInfo := PoolInfo(32, 26, 20, 14, 7, 1)

  ghost predicate Known(info: PoolInfo) {
    info == INPUT_POOL || info == OUTPUT_POOL
  }

  /** What mixing needs of a layout: every tap is another word of the pool. */
  predicate Proper(info: PoolInfo) {
    && 0 < info.tap1 < info.words && 0 < info.tap2 < info.words && 0 < info.tap3 < info.words
    && 0 < info.tap4 < info.words && 0 < info.tap5 < info.words
  }

  ghost predicate IsPool(info: PoolInfo, pool: seq<nat>) {
    |pool| == info.words && forall k :: 0 <= k < |pool| ==> pool[k] < U32
  }

  // ---------------------------------------------------------------- positions

  /** `(i + tap) & wordmask` */
  function Tap(i: nat, tap: nat, words: nat): (k: nat)
    requires i < words && tap < words
    ensures k < words && (tap > 0 ==> k != i)
  {
    if i + tap < words then i + tap else i + tap - words
  }

  /** `(i - 1) & wordmask` */
  function Before(i: nat, words: nat): (k: nat)
    requires i < words
    ensures k < words
  {
    if i == 0 then words - 1 else i - 1
  }

  /** Masking with one less than a power of two leaves the remainder; for the sizes in use this is the tap. */
  lemma MaskIs(i: nat, tap: nat, words: nat)
    requires (words == 32 || words == 128) && i < words && tap < words
    ensures Tap(i, tap, words) == (i + tap) % words && Before(i, words) == (i - 1) % words
  {
  }

  method TapAt(i: nat, tap: nat, words: nat) returns (k: nat)
    requires (words == 32 || words == 128) && i < words && tap < words
    ensures k == Tap(i, tap, words)
  {
    MaskIs(i, tap, words);
    k := (i + tap) % words;
  }

  method StepBack(i: nat, words: nat) returns (k: nat)
    requires (words == 32 || words == 128) && i < words
    ensures k == Before(i, words)
  {
    MaskIs(i, 0, words);
    k := (i - 1) % words;
  }

  // ---------------------------------------------------------------- one byte

  function Taps(info: PoolInfo, pool: seq<nat>, i: nat): seq<nat>
    requires Proper(info) && |pool| == info.words && i < info.words
  {
    var n := info.words;
    [pool[Tap(i, info.tap1, n)], pool[Tap(i, info.tap2, n)], pool[Tap(i, info.tap3, n)], pool[Tap(i, info.tap4, n)],
      pool[Tap(i, info.tap5, n)]]
  }

  function XorAll(w: nat, s: seq<nat>): nat
    decreases |s|
  {
    if s == [] then w else XorAll(Xor(w, s[0]), s[1..])
  }

  function MixWord(info: PoolInfo, pool: seq<nat>, i: nat, w: nat): seq<nat>
    requires Proper(info) && |pool| == info.words && i < info.words
  {
    pool[i := Twist(XorAll(Xor(w, pool[i]), Taps(info, pool, i)))]
  }

  /** The inverse of `MixWord`. */
  function UnmixWord(info: PoolInfo, pool: seq<nat>, i: nat, w: nat): seq<nat>
    requires Proper(info) && |pool| == info.words && i < info.words && pool[i] < U32
  {
    pool[i := Xor(Untwist(pool[i]), XorAll(w, Taps(info, pool, i)))]
  }

  lemma {:induction false} XorAllBound(w: nat, s: seq<nat>)
    requires w < U32 && forall k :: 0 <= k < |s| ==> s[k] < U32
    ensures XorAll(w, s) < U32
    decreases |s|
  {
    if s != [] {
      XorWord(w, s[0]);
      XorAllBound(Xor(w, s[0]), s[1..]);
    }
  }

  /** A word may be taken out of the sum. */
  lemma {:induction false} TakeOut(w: nat, p: nat, s: seq<nat>)
    ensures XorAll(Xor(w, p), s) == Xor(p, XorAll(w, s))
    decreases |s|
  {
    if s == [] {
      XorComm(w, p);
    } else {
      XorAssoc(w, p, s[0]);
      XorComm(p, s[0]);
      XorAssoc(w, s[0], p);
      TakeOut(Xor(w, s[0]), p, s[1..]);
    }
  }

  /** Changing the word that is replaced does not change the taps. */
  lemma TapsKept(info: PoolInfo, pool: seq<nat>, i: nat, v: nat)
    requires Proper(info) && |pool| == info.words && i < info.words
    ensures Taps(info, pool[i := v], i) == Taps(info, pool, i)
  {
  }

  lemma UnmixMixWord(info: PoolInfo, pool: seq<nat>, i: nat, w: nat)
    requires Proper(info) && IsPool(info, pool) && i < info.words && w < U32
    ensures IsPool(info, MixWord(info, pool, i, w)) && UnmixWord(info, MixWord(info, pool, i, w), i, w) == pool
  {
    var p, t := pool[i], Taps(info, pool, i);
    var x, r := XorAll(Xor(w, p), t), XorAll(w, t);
    XorWord(w, p);
    XorAllBound(Xor(w, p), t);
    UntwistTwist(x);
    TapsKept(info, pool, i, Twist(x));
    TakeOut(w, p, t);
    XorTwice(p, r);
    assert pool[i := Twist(x)][i := p] == pool;
  }

  lemma MixUnmixWord(info: PoolInfo, pool: seq<nat>, i: nat, w: nat)
    requires Proper(info) && IsPool(info, pool) && i < info.words && w < U32
    ensures IsPool(info, UnmixWord(info, pool, i, w)) && MixWord(info, UnmixWord(info, pool, i, w), i, w) == pool
  {
    var y, t := Untwist(pool[i]), Taps(info, pool, i);
    var r := XorAll(w, t);
    var p := Xor(y, r);
    TwistUntwist(pool[i]);
    XorAllBound(w, t);
    XorWord(y, r);
    TapsKept(info, pool, i, p);
    TakeOut(w, p, t);
    XorTwice(y, r);
    assert pool[i := p][i := pool[i]] == pool;
  }

  // ---------------------------------------------------------------- many bytes

  /** The rotation after the word at `i` has been replaced. */
  function Rotated(rotate: nat, i: nat): nat {
    rotate + if i == 0 then 14 else 7
  }

  /** The pool after the bytes have been mixed in, starting behind position `i`. */
  function Mix(info: PoolInfo, pool: seq<nat>, i: nat, rotate: nat, bytes: seq<byte>): (r: seq<nat>)
    requires Proper(info) && |pool| == info.words && i < info.words
    ensures |r| == info.words
    decreases |bytes|
  {
    if bytes == [] then pool
    else
      var k := Before(i, info.words);
      Mix(info, MixWord(info, pool, k, InputWord(bytes[0], rotate)), k, Rotated(rotate, k), bytes[1..])
  }

  /** Where mixing leaves the position and the rotation. */
  function EndOf(info: PoolInfo, i: nat, rotate: nat, n: nat): (e: (nat, nat))
    requires i < info.words
    ensures e.0 < info.words
    decreases n
  {
    if n == 0 then (i, rotate) else var k := Before(i, info.words); EndOf(info, k, Rotated(rotate, k), n - 1)
  }

  /** The position `n` words before `i`, all around. */
  function Back(words: nat, i: nat, n: nat): nat
    requires words > 0
  {
    (i - n) % words
  }

  /** How often the position is 0 on the way of `n` steps back from `i`. */
  function Wraps(words: nat, i: nat, n: nat): nat
    requires i < words
  {
    (n + words - (if i == 0 then words else i)) / words
  }

  lemma WrapsStep(words: nat, i: nat, n: nat)
    requires (words == 32 || words == 128) && i < words && n > 0
    ensures Wraps(words, i, n) == Wraps(words, Before(i, words), n - 1) + if Before(i, words) == 0 then 1 else 0
  {
    if words == 32 {
      assert Wraps(32, i, n) == Wraps(32, Before(i, 32), n - 1) + if Before(i, 32) == 0 then 1 else 0;
    }
  }

  /** Each byte moves one word back, and turns the input by 7 bits, or by 14 at the first word of the pool. */
  lemma {:induction false} EndIs(info: PoolInfo, i: nat, rotate: nat, n: nat)
    requires Known(info) && i < info.words
    ensures EndOf(info, i, rotate, n) == (Back(info.words, i, n), rotate + 7 * (n + Wraps(info.words, i, n)))
    decreases n
  {
    if n > 0 {
      var k := Before(i, info.words);
      EndIs(info, k, Rotated(rotate, k), n - 1);
      WrapsStep(info.words, i, n);
      StepsBack(i, n, info.words);
    } else {
      WrapsNone(info.words, i);
    }
  }

  lemma WrapsNone(words: nat, i: nat)
    requires (words == 32 || words == 128) && i < words
    ensures Wraps(words, i, 0) == 0 && Back(words, i, 0) == i
  {
  }

  lemma StepsBack(i: nat, n: nat, words: nat)
    requires (words == 32 || words == 128) && i < words && n > 0
    ensures Back(words, Before(i, words), n - 1) == Back(words, i, n)
  {
  }

  /** The sum of the words at the given distances from `i`. */
  function SumAt(pool: seq<nat>, i: nat, w: nat, at: seq<nat>): nat
    requires |pool| > 0
    decreases |at|
  {
    if at == [] then w else SumAt(pool, i, Xor(w, pool[(i + at[0]) % |pool|]), at[1..])
  }

  /** The feedback of the input pool is x^128 + x^103 + x^76 + x^51 + x^25 + x + 1. */
  lemma InputFeedback(pool: seq<nat>, i: nat, w: nat)
    requires |pool| == 128 && i < 128
    ensures Proper(INPUT_POOL)
    ensures MixWord(INPUT_POOL, pool, i, w) == pool[i := Twist(SumAt(pool, i, w, [0, 103, 76, 51, 25, 1]))]
  {
    FeedbackIs(INPUT_POOL, pool, i, w, [103, 76, 51, 25, 1]);
    assert [0] + [103, 76, 51, 25, 1] == [0, 103, 76, 51, 25, 1];
  }

  /** That of the output pools is x^32 + x^26 + x^20 + x^14 + x^7 + x + 1. */
  lemma OutputFeedback(pool: seq<nat>, i: nat, w: nat)
    requires |pool| == 32 && i < 32
    ensures Proper(OUTPUT_POOL)
    ensures MixWord(OUTPUT_POOL, pool, i, w) == pool[i := Twist(SumAt(pool, i, w, [0, 26, 20, 14, 7, 1]))]
  {
    FeedbackIs(OUTPUT_POOL, pool, i, w, [26, 20, 14, 7, 1]);
    assert [0] + [26, 20, 14, 7, 1] == [0, 26, 20, 14, 7, 1];
  }

  lemma SumCons(pool: seq<nat>, i: nat, w: nat, k: nat, at: seq<nat>)
    requires |pool| > 0
    ensures SumAt(pool, i, w, [k] + at) == SumAt(pool, i, Xor(w, pool[(i + k) % |pool|]), at)
  {
    assert ([k] + at)[1..] == at;
  }

  lemma FeedbackIs(info: PoolInfo, pool: seq<nat>, i: nat, w: nat, taps: seq<nat>)
    requires Proper(info) && (info.words == 32 || info.words == 128) && |pool| == info.words && i < info.words
    requires taps == [info.tap1, info.tap2, info.tap3, info.tap4, info.tap5]
    ensures MixWord(info, pool, i, w) == pool[i := Twist(SumAt(pool, i, w, [0] + taps))]
  {
    var w1 := Xor(w, pool[i]);
    assert SumAt(pool, i, w1, taps) == XorAll(w1, Taps(info, pool, i)) by {
      TapsAre(info, pool, i);
      TapSum(pool, i, w1, info.tap1, info.tap2, info.tap3, info.tap4, info.tap5);
    }
    Here(i, info.words);
    SumCons(pool, i, w, 0, taps);
  }

  lemma Here(i: nat, words: nat)
    requires (words == 32 || words == 128) && i < words
    ensures (i + 0) % words == i
  {
  }

  lemma TapsAre(info: PoolInfo, pool: seq<nat>, i: nat)
    requires Proper(info) && (info.words == 32 || info.words == 128) && |pool| == info.words && i < info.words
    ensures Taps(info, pool, i) == [pool[(i + info.tap1) % |pool|], pool[(i + info.tap2) % |pool|],
      pool[(i + info.tap3) % |pool|], pool[(i + info.tap4) % |pool|], pool[(i + info.tap5) % |pool|]]
  {
    MaskIs(i, info.tap1, info.words);
    MaskIs(i, info.tap2, info.words);
    MaskIs(i, info.tap3, info.words);
    MaskIs(i, info.tap4, info.words);
    MaskIs(i, info.tap5, info.words);
  }

  lemma TapSum(pool: seq<nat>, i: nat, w: nat, a: nat, b: nat, c: nat, d: nat, e: nat)
    requires |pool| > 0
    ensures SumAt(pool, i, w, [a, b, c, d, e]) == XorAll(w, [pool[(i + a) % |pool|], pool[(i + b) % |pool|],
      pool[(i + c) % |pool|], pool[(i + d) % |pool|], pool[(i + e) % |pool|]])
  {
    var n := |pool|;
    var p, q, r, s, t := pool[(i + a) % n], pool[(i + b) % n], pool[(i + c) % n], pool[(i + d) % n], pool[(i + e) % n];
    var w1, w2, w3, w4 := Xor(w, p), Xor(Xor(w, p), q), Xor(Xor(Xor(w, p), q), r), Xor(Xor(Xor(Xor(w, p), q), r), s);
    assert [a, b, c, d, e] == [a] + [b, c, d, e] && [b, c, d, e] == [b] + [c, d, e] && [c, d, e] == [c] + [d, e]
      && [d, e] == [d] + [e] && [e] == [e] + [];
    SumCons(pool, i, w, a, [b, c, d, e]);
    SumCons(pool, i, w1, b, [c, d, e]);
    SumCons(pool, i, w2, c, [d, e]);
    SumCons(pool, i, w3, d, [e]);
    SumCons(pool, i, w4, e, []);
    XorFive(w, p, q, r, s, t);
  }

  /** The inverse of `Mix`: the last byte is taken out first. */
  function Unmix(info: PoolInfo, pool: seq<nat>, i: nat, rotate: nat, bytes: seq<byte>): (r: seq<nat>)
    requires Proper(info) && IsPool(info, pool) && i < info.words
    ensures IsPool(info, r)
    decreases |bytes|
  {
    if bytes == [] then pool
    else
      var k, w := Before(i, info.words), InputWord(bytes[0], rotate);
      var q := Unmix(info, pool, k, Rotated(rotate, k), bytes[1..]);
      InputWordBound(bytes[0], rotate);
      MixUnmixWord(info, q, k, w);
      UnmixWord(info, q, k, w)
  }

  /** The pool before can be found from the pool after and the input. */
  lemma {:induction false} UnmixMix(info: PoolInfo, pool: seq<nat>, i: nat, rotate: nat, bytes: seq<byte>)
    requires Proper(info) && IsPool(info, pool) && i < info.words
    ensures IsPool(info, Mix(info, pool, i, rotate, bytes))
      && Unmix(info, Mix(info, pool, i, rotate, bytes), i, rotate, bytes) == pool
    decreases |bytes|
  {
    if bytes != [] {
      var k, w := Before(i, info.words), InputWord(bytes[0], rotate);
      InputWordBound(bytes[0], rotate);
      UnmixMixWord(info, pool, k, w);
      UnmixMix(info, MixWord(info, pool, k, w), k, Rotated(rotate, k), bytes[1..]);
    }
  }

  /** Every pool is reached, from the pool that `Unmix` gives. */
  lemma {:induction false} MixUnmix(info: PoolInfo, pool: seq<nat>, i: nat, rotate: nat, bytes: seq<byte>)
    requires Proper(info) && IsPool(info, pool) && i < info.words
    ensures Mix(info, Unmix(info, pool, i, rotate, bytes), i, rotate, bytes) == pool
    decreases |bytes|
  {
    if bytes != [] {
      var k, w := Before(i, info.words), InputWord(bytes[0], rotate);
      var q := Unmix(info, pool, k, Rotated(rotate, k), bytes[1..]);
      InputWordBound(bytes[0], rotate);
      MixUnmixWord(info, q, k, w);
      MixUnmix(info, pool, k, Rotated(rotate, k), bytes[1..]);
    }
  }

  /** For both layouts and every input, mixing is a bijection on pools. */
  lemma MixBijective(info: PoolInfo, i: nat, rotate: nat, bytes: seq<byte>)
    requires Known(info) && i < info.words
    ensures Proper(info)
    ensures forall p, q ::
      IsPool(info, p) && IsPool(info, q) && Mix(info, p, i, rotate, bytes) == Mix(info, q, i, rotate, bytes) ==> p == q
    ensures forall r :: IsPool(info, r) ==> exists p :: IsPool(info, p) && Mix(info, p, i, rotate, bytes) == r
  {
    forall p, q | IsPool(info, p) && IsPool(info, q) && Mix(info, p, i, rotate, bytes) == Mix(info, q, i, rotate, bytes)
      ensures p == q
    {
      UnmixMix(info, p, i, rotate, bytes);
      UnmixMix(info, q, i, rotate, bytes);
    }
    forall r | IsPool(info, r) ensures exists p :: IsPool(info, p) && Mix(info, p, i, rotate, bytes) == r {
      MixUnmix(info, r, i, rotate, bytes);
      assert IsPool(info, Unmix(info, r, i, rotate, bytes));
    }
  }

  // ---------------------------------------------------------------- the store

  /** `struct entropy_store` */
  class EntropyStore {
    const info: PoolInfo
    const pool: array<nat>
    var addPtr: nat
    var inputRotate: nat

    ghost predicate Valid()
      reads this, pool
    {
      Known(info) && IsPool(info, pool[..]) && addPtr < info.words
    }

    constructor (layout: PoolInfo)
      requires Known(layout)
      ensures Valid() && info == layout && fresh(pool)
    {
      info := layout;
      pool := new nat[layout.words](_ => 0);
      addPtr, inputRotate := 0, 0;
    }

    /** Lines 450-459: the input word and the taps. */
    method Feed(w0: nat, i: nat) returns (w: nat)
      requires Valid() && i < info.words
      ensures w == XorAll(Xor(w0, pool[..][i]), Taps(info, pool[..], i))
    {
      var n := info.words;
      w := Xor(w0, pool[i]);
      ghost var w1 := w;
      var k1 := TapAt(i, info.tap1, n);
      var k2 := TapAt(i, info.tap2, n);
      var k3 := TapAt(i, info.tap3, n);
      var k4 := TapAt(i, info.tap4, n);
      var k5 := TapAt(i, info.tap5, n);
      w := Xor(w, pool[k1]);
      w := Xor(w, pool[k2]);
      w := Xor(w, pool[k3]);
      w := Xor(w, pool[k4]);
      w := Xor(w, pool[k5]);
      XorFive(w1, pool[k1], pool[k2], pool[k3], pool[k4], pool[k5]);
    }

    /** Lines 450-470: one byte into the word at `i`. */
    method MixOne(b: byte, rotate: nat, i: nat)
      requires Valid() && i < info.words
      modifies pool
      ensures Valid() && pool[..] == MixWord(info, old(pool[..]), i, InputWord(b, rotate))
    {
      var w := InputWord(b, rotate);
      InputWordBound(b, rotate);
      ghost var now := pool[..];
      UnmixMixWord(info, now, i, w);
      w := Feed(w, i);
      pool[i] := Twist(w);
      assert pool[..] == now[i := Twist(w)];
    }

    /** Lines 476-478: sixteen words, from the last one mixed backwards. */
    method Extract() returns (out: seq<nat>)
      requires Valid()
      ensures |out| == 16 && forall j :: 0 <= j < 16 ==> out[j] == pool[(addPtr - j) % info.words]
    {
      out := [];
      while |out| < 16
        invariant |out| <= 16 && forall j :: 0 <= j < |out| ==> out[j] == pool[(addPtr - j) % info.words]
        decreases 16 - |out|
      {
        out := out + [pool[(addPtr - |out|) % info.words]];
      }
    }

    /** Lines 450-470: the next byte, into the word before `i0`. */
    method MixNext(b: byte, i0: nat, rotate0: nat) returns (i: nat, rotate: nat)
      requires Valid() && i0 < info.words
      modifies pool
      ensures Valid() && i == Before(i0, info.words) && rotate == Rotated(rotate0, i)
      ensures pool[..] == MixWord(info, old(pool[..]), i, InputWord(b, rotate0))
    {
      i := StepBack(i0, info.words);
      MixOne(b, rotate0, i);
      rotate := Rotated(rotate0, i);
    }

    /** Lines 449-474: the bytes, one at a time. */
    method MixAll(bytes: seq<byte>)
      requires Valid()
      modifies this, pool
      ensures Valid()
      ensures pool[..] == Mix(info, old(pool[..]), old(addPtr), old(inputRotate), bytes)
      ensures (addPtr, inputRotate) == EndOf(info, old(addPtr), old(inputRotate), |bytes|)
    {
      ghost var all := Mix(info, pool[..], addPtr, inputRotate, bytes);
      ghost var end := EndOf(info, addPtr, inputRotate, |bytes|);
      var i: nat, rotate: nat, rest := addPtr, inputRotate, bytes;
      while rest != []
        invariant i < info.words && Valid()
        invariant Remains(info, pool[..], i, rotate, rest, all, end)
        modifies pool
        decreases |rest|
      {
        ghost var before, i0, rotate0 := pool[..], i, rotate;
        i, rotate := MixNext(rest[0], i, rotate);
        RemainsLess(info, before, i0, rotate0, rest, all, end, pool[..], i, rotate);
        rest := rest[1..];
      }
      inputRotate := rotate;
      addPtr := i;
    }

    /** `mix_pool_bytes_extract`, lines 424-481 */
    method MixPoolBytes(bytes: seq<byte>, extract: bool) returns (out: seq<nat>)
      requires Valid()
      modifies this, pool
      ensures Valid()
      ensures pool[..] == Mix(info, old(pool[..]), old(addPtr), old(inputRotate), bytes)
      ensures (addPtr, inputRotate) == EndOf(info, old(addPtr), old(inputRotate), |bytes|)
      ensures addPtr == Back(info.words, old(addPtr), |bytes|)
        && inputRotate == old(inputRotate) + 7 * (|bytes| + Wraps(info.words, old(addPtr), |bytes|))
      ensures Unmix(info, pool[..], old(addPtr), old(inputRotate), bytes) == old(pool[..])
      ensures if extract then |out| == 16 && forall j :: 0 <= j < 16 ==>
        out[j] == pool[(addPtr - j) % info.words] else out == []
    {
      UnmixMix(info, pool[..], addPtr, inputRotate, bytes);
      EndIs(info, addPtr, inputRotate, |bytes|);
      MixAll(bytes);
      out := [];
      if extract {
        out := Extract();
      }
    }
  }

  /** Mixing in the rest leads to the pool `all` and the state `end`. */
  ghost predicate Remains(info: PoolInfo, pool: seq<nat>, i: nat, rotate: nat, rest: seq<byte>, all: seq<nat>,
                          end: (nat, nat))
  {
    && Proper(info) && |pool| == info.words && i < info.words
    && all == Mix(info, pool, i, rotate, rest) && end == EndOf(info, i, rotate, |rest|)
  }

  lemma RemainsLess(info: PoolInfo, pool: seq<nat>, i: nat, rotate: nat, rest: seq<byte>, all: seq<nat>,
                    end: (nat, nat), pool': seq<nat>, i': nat, rotate': nat)
    requires rest != [] && Remains(info, pool, i, rotate, rest, all, end)
    requires i' == Before(i, info.words) && rotate' == Rotated(rotate, i')
    requires pool' == MixWord(info, pool, i', InputWord(rest[0], rotate))
    ensures Remains(info, pool', i', rotate', rest[1..], all, end)
  {
  }

  lemma XorCons(w: nat, a: nat, s: seq<nat>)
    ensures XorAll(w, [a] + s) == XorAll(Xor(w, a), s)
  {
    assert ([a] + s)[1..] == s;
  }

  lemma XorFive(w: nat, a: nat, b: nat, c: nat, d: nat, e: nat)
    ensures XorAll(w, [a, b, c, d, e]) == Xor(Xor(Xor(Xor(Xor(w, a), b), c), d), e)
  {
    var w1, w2, w3, w4 := Xor(w, a), Xor(Xor(w, a), b), Xor(Xor(Xor(w, a), b), c), Xor(Xor(Xor(Xor(w, a), b), c), d);
    assert [a, b, c, d, e] == [a] + [b, c, d, e] && [b, c, d, e] == [b] + [c, d, e] && [c, d, e] == [c] + [d, e]
      && [d, e] == [d] + [e] && [e] == [e] + [];
    XorCons(w, a, [b, c, d, e]);
    XorCons(w1, b, [c, d, e]);
    XorCons(w2, c, [d, e]);
    XorCons(w3, d, [e]);
    XorCons(w4, e, []);
  }
}
