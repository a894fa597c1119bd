/** Types and lists that several models share. */
module Common {

  type byte = x: int | 0 <= x < 256

  datatype Option<T> = None | Some(value: T)
}

/** Lists of waiting threads, as mutexes and semaphores keep them. */
module WaitList {

  /** The list without its entry `t`. */
  function Without(list: seq<nat>, t: nat): seq<nat> {
    if |list| == 0 then [] else if list[0] == t then list[1..] else [list[0]] + Without(list[1..], t)
  }

  ghost predicate Distinct(list: seq<nat>) {
    forall i, j :: 0 <= i < j < |list| ==> list[i] != list[j]
  }

  lemma {:induction false} WithoutIs(list: seq<nat>, t: nat)
    requires t in list && Distinct(list)
    ensures forall u :: u in Without(list, t) <==> u in list && u != t
    ensures Distinct(Without(list, t))
  {
    var rest := list[1..];
    assert list == [list[0]] + rest;
    if list[0] != t {
      WithoutIs(rest, t);
      var r := Without(rest, t);
      assert Without(list, t) == [list[0]] + r;
      forall i, j | 0 <= i < j < |r| + 1 ensures ([list[0]] + r)[i] != ([list[0]] + r)[j] {
        if i == 0 { assert r[j - 1] in r; }
      }
    }
  }

  /** What is left keeps its order. */
  lemma {:induction false} WithoutOrder(list: seq<nat>, t: nat, a: nat, b: nat) returns (a': nat, b': nat)
    requires a < b < |Without(list, t)|
    ensures a' < b' < |list| && list[a'] == Without(list, t)[a] && list[b'] == Without(list, t)[b]
  {
    if list[0] == t {
      a', b' := a + 1, b + 1;
    } else if a == 0 {
      a' := 0;
      b' := WithoutAt(list, t, b);
    } else {
      a', b' := WithoutOrder(list[1..], t, a - 1, b - 1);
      a', b' := a' + 1, b' + 1;
    }
  }

  lemma {:induction false} WithoutAt(list: seq<nat>, t: nat, b: nat) returns (b': nat)
    requires b < |Without(list, t)|
    ensures b <= b' < |list| && list[b'] == Without(list, t)[b]
  {
    if list[0] == t {
      b' := b + 1;
    } else if b == 0 {
      b' := 0;
    } else {
      b' := WithoutAt(list[1..], t, b - 1);
      b' := b' + 1;
    }
  }
}
