/** Lexicographic comparison of integer keys that continue with zeros for ever. */
module PaddedOrder {

  /** The i-th entry of a key, zero beyond its end. */
  function At(key: seq<int>, i: nat): int {
    if i < |key| then key[i] else 0
  }

  ghost predicate AgreeBelow(k: seq<int>, m: seq<int>, i: nat) {
    forall j: nat | j < i :: At(k, j) == At(m, j)
  }

  /** `k` is smaller than `m` at the first index where the padded keys differ. */
  ghost predicate Before(k: seq<int>, m: seq<int>) {
    exists i: nat :: AgreeBelow(k, m, i) && At(k, i) < At(m, i)
  }

  ghost predicate SamePadded(k: seq<int>, m: seq<int>) {
    forall i: nat :: At(k, i) == At(m, i)
  }

  function Tail(key: seq<int>): seq<int> {
    if key == [] then [] else key[1..]
  }

  function Compare(k: seq<int>, m: seq<int>): int
    decreases |k| + |m|
  {
    if k == [] && m == [] then 0
    else if At(k, 0) < At(m, 0) then -1
    else if At(k, 0) > At(m, 0) then 1
    else Compare(Tail(k), Tail(m))
  }

  lemma BeforeTail(k: seq<int>, m: seq<int>)
    requires At(k, 0) == At(m, 0)
    ensures Before(k, m) <==> Before(Tail(k), Tail(m))
  {
    if Before(k, m) {
      var i: nat :| AgreeBelow(k, m, i) && At(k, i) < At(m, i);
      forall j: nat | j < i - 1
        ensures At(Tail(k), j) == At(Tail(m), j)
      {
        assert At(k, j + 1) == At(m, j + 1);
      }
      assert AgreeBelow(Tail(k), Tail(m), i - 1);
      assert At(Tail(k), i - 1) < At(Tail(m), i - 1);
    }
    if Before(Tail(k), Tail(m)) {
      var i: nat :| AgreeBelow(Tail(k), Tail(m), i) && At(Tail(k), i) < At(Tail(m), i);
      forall j: nat | j < i + 1
        ensures At(k, j) == At(m, j)
      {
        if j > 0 {
          assert At(Tail(k), j - 1) == At(Tail(m), j - 1);
        }
      }
      assert AgreeBelow(k, m, i + 1);
      assert At(k, i + 1) < At(m, i + 1);
    }
  }

  /** The recursive comparison is exactly the order on infinitely padded keys. */
  lemma {:induction false} CompareMeaning(k: seq<int>, m: seq<int>)
    ensures Compare(k, m) < 0 <==> Before(k, m)
    ensures Compare(k, m) > 0 <==> Before(m, k)
    ensures Compare(k, m) == 0 <==> SamePadded(k, m)
    decreases |k| + |m|
  {
    if k == [] && m == [] {
    } else if At(k, 0) != At(m, 0) {
      assert AgreeBelow(k, m, 0) && AgreeBelow(m, k, 0);
    } else {
      CompareMeaning(Tail(k), Tail(m));
      BeforeTail(k, m);
      BeforeTail(m, k);
      if SamePadded(Tail(k), Tail(m)) {
        forall i: nat ensures At(k, i) == At(m, i) {
          if i > 0 { assert At(Tail(k), i - 1) == At(Tail(m), i - 1); }
        }
      }
      if SamePadded(k, m) {
        forall i: nat ensures At(Tail(k), i) == At(Tail(m), i) {
          assert At(k, i + 1) == At(m, i + 1);
        }
      }
    }
  }

  lemma {:induction false} CompareAntisymmetric(k: seq<int>, m: seq<int>)
    ensures Compare(k, m) == -Compare(m, k)
    ensures -1 <= Compare(k, m) <= 1
    decreases |k| + |m|
  {
    if (k != [] || m != []) && At(k, 0) == At(m, 0) {
      CompareAntisymmetric(Tail(k), Tail(m));
    }
  }

  lemma {:induction false} CompareTransitive(k: seq<int>, m: seq<int>, n: seq<int>)
    requires Compare(k, m) <= 0 && Compare(m, n) <= 0
    ensures Compare(k, n) <= 0
    ensures Compare(k, n) == 0 <==> Compare(k, m) == 0 && Compare(m, n) == 0
    decreases |k| + |m| + |n|
  {
    if k == [] && m == [] && n == [] {
    } else if At(k, 0) == At(m, 0) == At(n, 0) {
      CompareTransitive(Tail(k), Tail(m), Tail(n));
    }
  }

  /** A shared first entry does not matter. */
  lemma CompareStep(x: int, y: int, k: seq<int>, m: seq<int>)
    ensures Compare([x] + k, [y] + m) == if x < y then -1 else if x > y then 1 else Compare(k, m)
  {
  }

  /** Trailing zeros do not matter. */
  lemma CompareSamePadded(k: seq<int>, k': seq<int>, m: seq<int>, m': seq<int>)
    requires SamePadded(k, k') && SamePadded(m, m')
    ensures Compare(k, m) == Compare(k', m')
  {
    CompareMeaning(k, k');
    CompareMeaning(m, m');
    CompareAntisymmetric(k, k');
    CompareAntisymmetric(m, m');
    CompareAntisymmetric(k', m');
    Sandwich(k, k', m, m');
    Sandwich(k', k, m', m);
    Sandwich(m, m', k, k');
    Sandwich(m', m, k', k);
    CompareAntisymmetric(k, m);
  }

  lemma Sandwich(k: seq<int>, k': seq<int>, m: seq<int>, m': seq<int>)
    requires Compare(k, k') == 0 && Compare(m, m') == 0
    ensures Compare(k, m) <= 0 ==> Compare(k', m') <= 0
  {
    CompareAntisymmetric(k, k');
    if Compare(k, m) <= 0 {
      CompareTransitive(k', k, m);
      CompareTransitive(k', m, m');
    }
  }
}
