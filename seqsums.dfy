// Sequence facts the partition bookkeeping rests on: sums of per-community
// reals, the concatenation of the communities' node lists, and the
// swap-with-last removal the slot array uses.

module SeqSums {

  function Total(xs: seq<real>): real
  {
    if xs == [] then 0.0 else xs[0] + Total(xs[1..])
  }

  lemma {:induction false} TotalConcat(a: seq<real>, b: seq<real>)
    ensures Total(a + b) == Total(a) + Total(b)
  {
    if a == [] {
      assert a + b == b;
    } else {
      assert (a + b)[1..] == a[1..] + b;
      TotalConcat(a[1..], b);
    }
  }

  /** Replacing one entry changes the sum by the difference. */
  lemma TotalUpdate(xs: seq<real>, j: nat, x: real)
    requires j < |xs|
    ensures Total(xs[j := x]) == Total(xs) - xs[j] + x
  {
    assert xs == xs[..j] + [xs[j]] + xs[j + 1..];
    assert xs[j := x] == xs[..j] + [x] + xs[j + 1..];
    TotalConcat(xs[..j] + [xs[j]], xs[j + 1..]);
    TotalConcat(xs[..j], [xs[j]]);
    TotalConcat(xs[..j] + [x], xs[j + 1..]);
    TotalConcat(xs[..j], [x]);
  }

  /** Remove slot j by moving the last entry into it and dropping the last slot. */
  function RemoveSwap<T>(s: seq<T>, j: nat): (r: seq<T>)
    requires j < |s|
    ensures |r| == |s| - 1
    ensures forall k :: 0 <= k < |r| && k != j ==> r[k] == s[k]
    ensures j < |r| ==> r[j] == s[|s| - 1]
  {
    s[j := s[|s| - 1]][..|s| - 1]
  }

  /** What slot j held before it is dropped does not matter. */
  lemma RemoveSwapUpdate<T>(s: seq<T>, j: nat, x: T)
    requires j < |s|
    ensures RemoveSwap(s[j := x], j) == RemoveSwap(s, j)
  {
  }

  lemma TotalDropLast(xs: seq<real>, n: nat, init: seq<real>)
    requires n + 1 == |xs| && init == xs[..n]
    ensures Total(xs) == Total(init) + xs[n]
  {
    var last := xs[n];
    assert xs == init + [last];
    TotalConcat(init, [last]);
  }

  lemma TotalRemoveSwap(xs: seq<real>, j: nat)
    requires j < |xs|
    ensures Total(RemoveSwap(xs, j)) == Total(xs) - xs[j]
  {
    var last := xs[|xs| - 1];
    var u := xs[j := last];
    TotalUpdate(xs, j, last);
    TotalDropLast(u, |xs| - 1, RemoveSwap(xs, j));
  }

  function Flatten<T>(ss: seq<seq<T>>): seq<T>
  {
    if ss == [] then [] else ss[0] + Flatten(ss[1..])
  }

  lemma {:induction false} FlattenConcat<T>(a: seq<seq<T>>, b: seq<seq<T>>)
    ensures Flatten(a + b) == Flatten(a) + Flatten(b)
  {
    if a == [] {
      assert a + b == b;
    } else {
      assert (a + b)[1..] == a[1..] + b;
      FlattenConcat(a[1..], b);
    }
  }

  /** Replacing one list swaps its elements for the new ones, as multisets. */
  lemma FlattenUpdate<T>(ss: seq<seq<T>>, j: nat, x: seq<T>)
    requires j < |ss|
    ensures multiset(Flatten(ss[j := x])) + multiset(ss[j]) == multiset(Flatten(ss)) + multiset(x)
  {
    assert ss == ss[..j] + [ss[j]] + ss[j + 1..];
    assert ss[j := x] == ss[..j] + [x] + ss[j + 1..];
    FlattenConcat(ss[..j] + [ss[j]], ss[j + 1..]);
    FlattenConcat(ss[..j], [ss[j]]);
    FlattenConcat(ss[..j] + [x], ss[j + 1..]);
    FlattenConcat(ss[..j], [x]);
    assert Flatten([ss[j]]) == ss[j];
    assert Flatten([x]) == x;
  }

  lemma FlattenDropLast<T>(ss: seq<seq<T>>, n: nat, init: seq<seq<T>>)
    requires n + 1 == |ss| && init == ss[..n]
    ensures multiset(Flatten(ss)) == multiset(Flatten(init)) + multiset(ss[n])
  {
    var last := ss[n];
    assert ss == init + [last];
    FlattenConcat(init, [last]);
    assert Flatten([last]) == last;
  }

  lemma FlattenRemoveSwap<T>(ss: seq<seq<T>>, j: nat)
    requires j < |ss|
    ensures multiset(Flatten(RemoveSwap(ss, j))) + multiset(ss[j]) == multiset(Flatten(ss))
  {
    var last := ss[|ss| - 1];
    var u := ss[j := last];
    var r := RemoveSwap(ss, j);
    FlattenUpdate(ss, j, last);
    FlattenDropLast(u, |ss| - 1, r);
    MultisetCancelOne(multiset(Flatten(r)) + multiset(ss[j]), multiset(Flatten(ss)), multiset(last));
  }

  lemma MultisetCancelOne<T>(a: multiset<T>, b: multiset<T>, c: multiset<T>)
    requires a + c == b + c
    ensures a == b
  {
    forall x ensures a[x] == b[x] {
      assert (a + c)[x] == (b + c)[x];
    }
  }

  /** Every list's elements occur in the concatenation. */
  lemma FlattenIncludes<T>(ss: seq<seq<T>>, j: nat)
    requires j < |ss|
    ensures multiset(ss[j]) <= multiset(Flatten(ss))
  {
    var none: seq<T> := [];
    FlattenUpdate(ss, j, none);
    assert multiset(none) == multiset{};
    var others := multiset(Flatten(ss[j := none]));
    assert multiset(Flatten(ss)) == others + multiset(ss[j]);
  }

  /** Non-empty lists: the concatenation has at least one element per list. */
  lemma {:induction false} FlattenLength<T>(ss: seq<seq<T>>)
    requires forall k :: 0 <= k < |ss| ==> |ss[k]| > 0
    ensures |Flatten(ss)| >= |ss|
  {
    if ss != [] {
      FlattenLength(ss[1..]);
    }
  }

  /** When the concatenation holds each element at most once (it equals a
      set), two different lists share no element. */
  lemma FlattenDisjoint<T>(ss: seq<seq<T>>, s: set<T>, i: nat, j: nat, x: T)
    requires multiset(Flatten(ss)) == multiset(s)
    requires i < |ss| && j < |ss| && i != j
    ensures !(x in ss[i] && x in ss[j])
  {
    var none: seq<T> := [];
    FlattenUpdate(ss, i, none);
    assert multiset(none) == multiset{};
    FlattenIncludes(ss[i := none], j);
    var others := multiset(Flatten(ss[i := none]));
    assert multiset(Flatten(ss)) == others + multiset(ss[i]);
    assert ss[i := none][j] == ss[j];
    assert multiset(Flatten(ss))[x] >= multiset(ss[j])[x] + multiset(ss[i])[x];
  }

  lemma MultisetCancel<T>(rest: multiset<T>, mi: multiset<T>, mj: multiset<T>, joined: multiset<T>, whole: multiset<T>)
    requires joined + mi == whole + mi + mj
    requires rest + mj == joined
    ensures rest == whole
  {
    forall x ensures rest[x] == whole[x] {
      assert (rest + mj)[x] == joined[x];
      assert (joined + mi)[x] == (whole + mi + mj)[x];
    }
  }

  /** Appending list j to list i and then removing slot j keeps the elements. */
  lemma FlattenJoin<T>(ss: seq<seq<T>>, i: nat, j: nat)
    requires i < |ss| && j < |ss| && i != j
    ensures multiset(Flatten(RemoveSwap(ss[i := ss[i] + ss[j]], j))) == multiset(Flatten(ss))
  {
    var up := ss[i := ss[i] + ss[j]];
    FlattenUpdate(ss, i, ss[i] + ss[j]);
    FlattenRemoveSwap(up, j);
    assert up[j] == ss[j];
    assert multiset(ss[i] + ss[j]) == multiset(ss[i]) + multiset(ss[j]);
    var rest := multiset(Flatten(RemoveSwap(up, j)));
    assert rest + multiset(ss[j]) == multiset(Flatten(up));
    var whole, mi, mj := multiset(Flatten(ss)), multiset(ss[i]), multiset(ss[j]);
    MultisetCancel(rest, mi, mj, multiset(Flatten(up)), whole);
  }
}
