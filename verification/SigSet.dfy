/** Sets of signals as words: lib/sigset.c for 64 signals. */
module SigSet {
  import opened Bits
  import opened BitWords
  import opened BitmapRemap

  const NUM_SIGNALS: nat := 64

  /** Signal `s` is in the set: `sigset_test`. */
  predicate Has(w: nat, s: nat)
    requires s > 0
  {
    TestBit(w, s - 1)
  }

  /** The set is a word. */
  predicate IsSet64(w: nat) {
    w < WORD_LIMIT
  }

  // ---------------------------------------------------------------- words

  /** `a & b` */
  function And(a: nat, b: nat): nat
    decreases a
  {
    if a == 0 then 0 else (if a % 2 == 1 && b % 2 == 1 then 1 else 0) + 2 * And(a / 2, b / 2)
  }

  /** `a & ~b` */
  function AndNot(a: nat, b: nat): nat
    decreases a
  {
    if a == 0 then 0 else (if a % 2 == 1 && b % 2 == 0 then 1 else 0) + 2 * AndNot(a / 2, b / 2)
  }

  lemma {:induction false} TestAnd(a: nat, b: nat, i: nat)
    ensures TestBit(And(a, b), i) == (TestBit(a, i) && TestBit(b, i))
    decreases i
  {
    if a == 0 {
      TestZero(i);
    } else if i > 0 {
      assert And(a, b) / 2 == And(a / 2, b / 2);
      TestHalf(And(a, b), i - 1);
      TestHalf(a, i - 1);
      TestHalf(b, i - 1);
      TestAnd(a / 2, b / 2, i - 1);
    }
  }

  lemma {:induction false} TestAndNot(a: nat, b: nat, i: nat)
    ensures TestBit(AndNot(a, b), i) == (TestBit(a, i) && !TestBit(b, i))
    decreases i
  {
    if a == 0 {
      TestZero(i);
    } else if i > 0 {
      assert AndNot(a, b) / 2 == AndNot(a / 2, b / 2);
      TestHalf(AndNot(a, b), i - 1);
      TestHalf(a, i - 1);
      TestHalf(b, i - 1);
      TestAndNot(a / 2, b / 2, i - 1);
    }
  }

  lemma {:induction false} AndNotBound(a: nat, b: nat)
    ensures AndNot(a, b) <= a
  {
    if a > 0 { AndNotBound(a / 2, b / 2); }
  }

  /** A word with no bits is zero. */
  lemma {:induction false} NoBits(a: nat)
    requires forall i: nat :: !TestBit(a, i)
    ensures a == 0
  {
    forall i: nat ensures TestBit(a, i) == TestBit(0, i) { TestZero(i); }
    SameBits(a, 0);
  }

  // ---------------------------------------------------------------- sets

  /** `sigset_add` */
  function Add(w: nat, s: nat): nat
    requires s > 0
  {
    Or(w, Shl(1, s - 1))
  }

  /** `sigset_del` */
  function Del(w: nat, s: nat): nat
    requires s > 0
  {
    AndNot(w, Shl(1, s - 1))
  }

  lemma HasAdd(w: nat, s: nat, t: nat)
    requires IsSet64(w) && 0 < s <= NUM_SIGNALS && t > 0
    ensures IsSet64(Add(w, s)) && Has(Add(w, s), t) == (t == s || Has(w, t))
  {
    SetWord(w, s - 1, t - 1);
  }

  lemma HasDel(w: nat, s: nat, t: nat)
    requires IsSet64(w) && 0 < s <= NUM_SIGNALS && t > 0
    ensures IsSet64(Del(w, s)) && Has(Del(w, s), t) == (t != s && Has(w, t))
  {
    TestAndNot(w, Shl(1, s - 1), t - 1);
    AndNotBound(w, Shl(1, s - 1));
    TestShl(1, s - 1, t - 1);
    if t >= s { TestOne(t - s); }
  }

  lemma HasMinus(w: nat, set': nat, t: nat)
    requires IsSet64(w) && t > 0
    ensures IsSet64(AndNot(w, set')) && Has(AndNot(w, set'), t) == (Has(w, t) && !Has(set', t))
  {
    TestAndNot(w, set', t - 1);
    AndNotBound(w, set');
  }

  lemma HasBound(w: nat, s: nat)
    requires IsSet64(w) && s > 0 && Has(w, s)
    ensures s <= NUM_SIGNALS
  {
    Pow2Of64(BITS_PER_LONG);
    if s > NUM_SIGNALS { TestBeyond(w, BITS_PER_LONG, s - 1); }
  }

  /** `sigset_getnext`, lines 193-227, in one word: `ffz(~x)` is the lowest bit of `x`. */
  function GetNext(w: nat, blocked: nat): nat {
    var x := AndNot(w, blocked);
    if x == 0 then 0 else LowestBit(x) + 1
  }

  /** The least signal that is in the set and not blocked, or 0 if there is none. */
  lemma GetNextIs(w: nat, blocked: nat)
    ensures var s := GetNext(w, blocked);
      && (s > 0 ==> Has(w, s) && !Has(blocked, s))
      && forall t :: 0 < t && (s == 0 || t < s) ==> !Has(w, t) || Has(blocked, t)
  {
    var x := AndNot(w, blocked);
    if x == 0 {
      forall t | 0 < t ensures !Has(w, t) || Has(blocked, t) {
        TestAndNot(w, blocked, t - 1);
        TestZero(t - 1);
      }
    } else {
      LowestIs(x);
      TestAndNot(w, blocked, LowestBit(x));
      forall t | 0 < t <= LowestBit(x) ensures !Has(w, t) || Has(blocked, t) {
        TestAndNot(w, blocked, t - 1);
      }
    }
  }

  /** A set without signals is zero. */
  lemma EmptyIs(w: nat)
    ensures w == 0 <==> forall t: nat :: t > 0 ==> !Has(w, t)
  {
    if w == 0 {
      forall t: nat | t > 0 ensures !Has(w, t) { TestZero(t - 1); }
    } else if forall t: nat :: t > 0 ==> !Has(w, t) {
      forall i: nat ensures !TestBit(w, i) { assert !Has(w, i + 1); }
      NoBits(w);
    }
  }

  /** Something is left after `sigset_and` with the complement exactly if a signal is in the one set only. */
  lemma SomeLeft(w: nat, blocked: nat)
    ensures AndNot(w, blocked) != 0 <==> exists t: nat :: t > 0 && Has(w, t) && !Has(blocked, t)
  {
    EmptyIs(AndNot(w, blocked));
    forall t: nat | t > 0 ensures Has(AndNot(w, blocked), t) == (Has(w, t) && !Has(blocked, t)) {
      TestAndNot(w, blocked, t - 1);
    }
  }

  /** `sigset_isempty` after `sigset_and`: nothing in common. */
  lemma NothingInCommon(a: nat, b: nat)
    ensures And(a, b) == 0 <==> forall t: nat :: t > 0 ==> !(Has(a, t) && Has(b, t))
  {
    if And(a, b) == 0 {
      forall t: nat | t > 0 ensures !(Has(a, t) && Has(b, t)) {
        TestAnd(a, b, t - 1);
        TestZero(t - 1);
      }
    } else if forall t: nat :: t > 0 ==> !(Has(a, t) && Has(b, t)) {
      forall i: nat ensures !TestBit(And(a, b), i) {
        TestAnd(a, b, i);
        assert !(Has(a, i + 1) && Has(b, i + 1));
      }
      NoBits(And(a, b));
    }
  }
}
