/** Sequences with missing slots and the two buffers a loop can build from
    them: one that keeps every slot and fills the missing ones with a zero
    value, and one that drops them. The plotting loops of main.go build the
    first; the training loop the second. */
module Masks {
  import opened Wrappers

  /** The present values, in order. */
  function Somes<T>(s: seq<Option<T>>): (r: seq<T>)
    ensures |r| <= |s|
  {
    if s == [] then []
    else Somes(s[..|s| - 1]) + (if s[|s| - 1].Some? then [s[|s| - 1].value] else [])
  }

  /** The positions of the present values, in order. */
  function SomeIndices<T>(s: seq<Option<T>>): (r: seq<int>)
    ensures |r| <= |s|
    ensures forall j :: 0 <= j < |r| ==> 0 <= r[j] < |s|
  {
    if s == [] then []
    else SomeIndices(s[..|s| - 1]) + (if s[|s| - 1].Some? then [|s| - 1] else [])
  }

  /** The number of missing slots. */
  function CountNone<T>(s: seq<Option<T>>): (k: nat)
    ensures k <= |s|
  {
    if s == [] then 0
    else CountNone(s[..|s| - 1]) + (if s[|s| - 1].None? then 1 else 0)
  }

  /** A buffer of the same length: a present slot keeps its value, a missing
      one holds `zero`. */
  function Filled<T>(s: seq<Option<T>>, zero: T): (r: seq<T>)
  {
    seq(|s|, i requires 0 <= i < |s| => if s[i].Some? then s[i].value else zero)
  }

  function Repeat<T>(x: T, k: nat): (r: seq<T>)
  {
    seq(k, _ => x)
  }

  /** Dropping distributes over concatenation. */
  lemma {:induction false} SomesAppend<T>(a: seq<Option<T>>, b: seq<Option<T>>)
    ensures Somes(a + b) == Somes(a) + Somes(b)
    decreases |b|
  {
    if b == [] {
      assert a + b == a;
    } else {
      var b', last := b[..|b| - 1], b[|b| - 1];
      SomesAppend(a, b');
      assert (a + b)[..|a + b| - 1] == a + b';
      assert (a + b)[|a + b| - 1] == last;
      var tail := if last.Some? then [last.value] else [];
      assert Somes(b) == Somes(b') + tail;
      assert Somes(a + b) == Somes(a + b') + tail;
    }
  }

  /** Every slot is either counted as missing or kept. */
  lemma {:induction false} CountNonePlusSomes<T>(s: seq<Option<T>>)
    ensures CountNone(s) + |Somes(s)| == |s|
  {
    if s != [] {
      CountNonePlusSomes(s[..|s| - 1]);
    }
  }

  /** The zero-filled buffer holds exactly the present values plus one `zero`
      for each missing slot. */
  lemma {:induction false} FilledIsSomesPlusZeros<T>(s: seq<Option<T>>, zero: T)
    ensures multiset(Filled(s, zero)) == multiset(Somes(s)) + multiset(Repeat(zero, CountNone(s)))
  {
    if s != [] {
      var init := s[..|s| - 1];
      FilledIsSomesPlusZeros(init, zero);
      if s[|s| - 1].Some? {
        SnocPresent(s, zero);
      } else {
        SnocMissing(s, zero);
      }
    }
  }

  /** A present last slot adds its value to the buffer and to the kept values. */
  lemma SnocPresent<T>(s: seq<Option<T>>, zero: T)
    requires s != [] && s[|s| - 1].Some?
    ensures multiset(Filled(s, zero)) == multiset(Filled(s[..|s| - 1], zero)) + multiset{s[|s| - 1].value}
    ensures multiset(Somes(s)) == multiset(Somes(s[..|s| - 1])) + multiset{s[|s| - 1].value}
    ensures CountNone(s) == CountNone(s[..|s| - 1])
  {
    var init, v := s[..|s| - 1], s[|s| - 1].value;
    FilledSnoc(s, zero);
    assert Filled(s, zero) == Filled(init, zero) + [v];
    assert Somes(s) == Somes(init) + [v];
  }

  /** A missing last slot adds one `zero` to the buffer and to the zeros. */
  lemma SnocMissing<T>(s: seq<Option<T>>, zero: T)
    requires s != [] && s[|s| - 1].None?
    ensures multiset(Filled(s, zero)) == multiset(Filled(s[..|s| - 1], zero)) + multiset{zero}
    ensures Somes(s) == Somes(s[..|s| - 1])
    ensures multiset(Repeat(zero, CountNone(s))) == multiset(Repeat(zero, CountNone(s[..|s| - 1]))) + multiset{zero}
  {
    FilledSnoc(s, zero);
    assert Filled(s, zero) == Filled(s[..|s| - 1], zero) + [zero];
    var k := CountNone(s[..|s| - 1]);
    assert CountNone(s) == k + 1;
    RepeatSnoc(zero, k);
  }

  /** The buffer of a sequence is the buffer of all but its last slot, then
      the entry for that slot. */
  lemma FilledSnoc<T>(s: seq<Option<T>>, zero: T)
    requires s != []
    ensures Filled(s, zero) == Filled(s[..|s| - 1], zero) + [if s[|s| - 1].Some? then s[|s| - 1].value else zero]
  {
  }

  lemma RepeatSnoc<T>(x: T, k: nat)
    ensures Repeat(x, k + 1) == Repeat(x, k) + [x]
  {
  }

  /** Removing a missing slot does not change what is kept. */
  lemma {:induction false} SomesSkipNone<T>(s: seq<Option<T>>, j: int)
    requires 0 <= j < |s| && s[j].None?
    ensures Somes(s[..j] + s[j + 1..]) == Somes(s)
  {
    assert s == (s[..j] + [s[j]]) + s[j + 1..];
    SomesAppend(s[..j] + [s[j]], s[j + 1..]);
    SomesAppend(s[..j], [s[j]]);
    SomesAppend(s[..j], s[j + 1..]);
    assert [s[j]][..0] == [];
  }

  /** Nothing is kept exactly when every slot is missing. */
  lemma {:induction false} SomesEmptyIffAllNone<T>(s: seq<Option<T>>)
    ensures Somes(s) == [] <==> forall i :: 0 <= i < |s| ==> s[i].None?
  {
    if s != [] {
      var init := s[..|s| - 1];
      SomesEmptyIffAllNone(init);
      assert forall i :: 0 <= i < |init| ==> init[i] == s[i];
    }
  }

  /** What is kept is the present values at strictly increasing positions,
      and every present position is among them. */
  lemma SomesInOrder<T>(s: seq<Option<T>>)
    ensures |SomeIndices(s)| == |Somes(s)|
    ensures forall j :: 0 <= j < |SomeIndices(s)| ==> s[SomeIndices(s)[j]] == Some(Somes(s)[j])
    ensures forall j, j' :: 0 <= j < j' < |SomeIndices(s)| ==> SomeIndices(s)[j] < SomeIndices(s)[j']
    ensures forall i :: 0 <= i < |s| ==> (s[i].Some? <==> i in SomeIndices(s))
  {
    SomeIndicesPickSomes(s);
    SomeIndicesAscendAndCover(s);
  }

  lemma {:induction false} SomeIndicesPickSomes<T>(s: seq<Option<T>>)
    ensures |SomeIndices(s)| == |Somes(s)|
    ensures forall j :: 0 <= j < |SomeIndices(s)| ==> s[SomeIndices(s)[j]] == Some(Somes(s)[j])
  {
    if s != [] {
      var init, last := s[..|s| - 1], s[|s| - 1];
      SomeIndicesPickSomes(init);
      var ix, vs := SomeIndices(init), Somes(init);
      if last.Some? {
        assert SomeIndices(s) == ix + [|s| - 1];
        assert Somes(s) == vs + [last.value];
        forall j | 0 <= j < |ix| + 1
          ensures s[SomeIndices(s)[j]] == Some(Somes(s)[j])
        {
          if j < |ix| {
            assert init[ix[j]] == s[ix[j]];
          }
        }
      } else {
        assert SomeIndices(s) == ix;
        assert Somes(s) == vs;
        forall j | 0 <= j < |ix|
          ensures s[ix[j]] == Some(vs[j])
        {
          assert init[ix[j]] == s[ix[j]];
        }
      }
    }
  }

  lemma {:induction false} SomeIndicesAscendAndCover<T>(s: seq<Option<T>>)
    ensures forall j, j' :: 0 <= j < j' < |SomeIndices(s)| ==> SomeIndices(s)[j] < SomeIndices(s)[j']
    ensures forall i :: 0 <= i < |s| ==> (s[i].Some? <==> i in SomeIndices(s))
  {
    if s != [] {
      var init, last := s[..|s| - 1], s[|s| - 1];
      SomeIndicesAscendAndCover(init);
      assert forall i :: 0 <= i < |init| ==> init[i] == s[i];
      assert SomeIndices(s) == SomeIndices(init) + (if last.Some? then [|s| - 1] else []);
    }
  }
}
