// What writeRes prints. It walks the live communities in slot order and
// prints each node id not printed before, one line per community; then it
// prints, on an unterminated last line, every graph node still not printed.

module Output {
  import opened Text
  import opened SeqSums
  import opened Merging

  predicate NoDup(s: seq<nat>)
  {
    forall p, q :: 0 <= p < q < |s| ==> s[p] != s[q]
  }

  /** The ids of one community that writeRes prints: those not printed
      before (not in printed, and not earlier in the same list). */
  function Unprinted(ids: seq<nat>, printed: set<nat>): seq<nat>
  {
    if ids == [] then []
    else
      var init := ids[..|ids| - 1];
      var x := ids[|ids| - 1];
      if x in printed || x in init then Unprinted(init, printed) else Unprinted(init, printed) + [x]
  }

  /** The printed lines of the communities, each line's ids in order. */
  function Firsts(lists: seq<seq<nat>>): (r: seq<seq<nat>>)
    ensures |r| == |lists|
  {
    if lists == [] then []
    else
      var init := lists[..|lists| - 1];
      Firsts(init) + [Unprinted(lists[|lists| - 1], Elems(Flatten(init)))]
  }

  lemma {:induction false} FormatIdsSnoc(ids: seq<nat>, x: nat)
    ensures FormatIds(ids + [x]) == FormatIds(ids) + Decimal(x) + " "
  {
    if ids == [] {
      assert ids + [x] == [x];
    } else {
      assert (ids + [x])[1..] == ids[1..] + [x];
      FormatIdsSnoc(ids[1..], x);
    }
  }

  lemma {:induction false} FormatLinesSnoc(lines: seq<seq<nat>>, line: seq<nat>)
    ensures FormatLines(lines + [line]) == FormatLines(lines) + FormatIds(line) + "\n"
  {
    if lines == [] {
      assert lines + [line] == [line];
    } else {
      assert (lines + [line])[1..] == lines[1..] + [line];
      FormatLinesSnoc(lines[1..], line);
    }
  }

  lemma NoDupSnoc(s: seq<nat>, x: nat)
    ensures NoDup(s + [x]) <==> NoDup(s) && x !in s
  {
    var t := s + [x];
    if NoDup(t) {
      forall p | 0 <= p < |s| ensures s[p] != x { assert t[p] == s[p] && t[|s|] == x; }
      forall p, q | 0 <= p < q < |s| ensures s[p] != s[q] { assert t[p] == s[p] && t[q] == s[q]; }
    }
    if NoDup(s) && x !in s {
      forall p, q | 0 <= p < q < |t| ensures t[p] != t[q] {
        if q == |s| { assert t[p] == s[p]; } else { assert t[p] == s[p] && t[q] == s[q]; }
      }
    }
  }

  lemma NoDupConcat(a: seq<nat>, b: seq<nat>)
    requires NoDup(a) && NoDup(b) && Elems(a) !! Elems(b)
    ensures NoDup(a + b)
  {
    var t := a + b;
    forall p, q | 0 <= p < q < |t| ensures t[p] != t[q] {
      if q < |a| {
      } else if p >= |a| {
        assert t[p] == b[p - |a|] && t[q] == b[q - |a|];
      } else {
        assert t[p] in Elems(a) && t[q] in Elems(b);
      }
    }
  }

  /** A community's printed ids are distinct and are its ids not printed before. */
  lemma {:induction false} UnprintedFacts(ids: seq<nat>, printed: set<nat>)
    ensures NoDup(Unprinted(ids, printed))
    ensures Elems(Unprinted(ids, printed)) == Elems(ids) - printed
  {
    if ids != [] {
      var init := ids[..|ids| - 1];
      var x := ids[|ids| - 1];
      UnprintedFacts(init, printed);
      assert ids == init + [x];
      assert Elems(ids) == Elems(init) + {x};
      var u := Unprinted(init, printed);
      if !(x in printed || x in init) {
        assert x !in Elems(u);
        NoDupSnoc(u, x);
        assert Elems(u + [x]) == Elems(u) + {x};
      }
    }
  }

  /** With no repeated id and nothing already printed, a whole community is printed. */
  lemma {:induction false} UnprintedAll(ids: seq<nat>, printed: set<nat>)
    requires NoDup(ids) && Elems(ids) !! printed
    ensures Unprinted(ids, printed) == ids
  {
    if ids != [] {
      var init := ids[..|ids| - 1];
      var x := ids[|ids| - 1];
      assert ids == init + [x];
      NoDupSnoc(init, x);
      UnprintedAll(init, printed);
    }
  }

  /** Every id of the communities is printed on exactly one line, once. */
  lemma {:induction false} FirstsFacts(lists: seq<seq<nat>>)
    ensures NoDup(Flatten(Firsts(lists)))
    ensures Elems(Flatten(Firsts(lists))) == Elems(Flatten(lists))
  {
    if lists != [] {
      var init := lists[..|lists| - 1];
      var last := lists[|lists| - 1];
      var u := Unprinted(last, Elems(Flatten(init)));
      FirstsFacts(init);
      UnprintedFacts(last, Elems(Flatten(init)));
      assert lists == init + [last];
      FlattenConcat(init, [last]);
      FlattenConcat(Firsts(init), [u]);
      assert Flatten([last]) == last;
      assert Flatten([u]) == u;
      assert Elems(Flatten(init) + last) == Elems(Flatten(init)) + Elems(last);
      assert Elems(Flatten(Firsts(init)) + u) == Elems(Flatten(Firsts(init))) + Elems(u);
      NoDupConcat(Flatten(Firsts(init)), u);
    }
  }

  lemma NoDupPrefix(s: seq<nat>, t: seq<nat>)
    requires NoDup(s + t)
    ensures NoDup(s) && NoDup(t) && Elems(s) !! Elems(t)
  {
    var st := s + t;
    forall p, q | 0 <= p < q < |s| ensures s[p] != s[q] {
      assert st[p] == s[p] && st[q] == s[q];
    }
    forall p, q | 0 <= p < q < |t| ensures t[p] != t[q] {
      assert st[|s| + p] == t[p] && st[|s| + q] == t[q];
    }
    forall x, q | x in s && 0 <= q < |t| ensures t[q] != x {
      var p :| 0 <= p < |s| && s[p] == x;
      assert st[p] == s[p] && st[|s| + q] == t[q];
    }
  }

  /** When no id repeats across the communities, every community is printed whole. */
  lemma {:induction false} FirstsAll(lists: seq<seq<nat>>)
    requires NoDup(Flatten(lists))
    ensures Firsts(lists) == lists
  {
    if lists != [] {
      var init := lists[..|lists| - 1];
      var last := lists[|lists| - 1];
      assert lists == init + [last];
      FlattenConcat(init, [last]);
      assert Flatten([last]) == last;
      NoDupPrefix(Flatten(init), last);
      FirstsAll(init);
      UnprintedAll(last, Elems(Flatten(init)));
    }
  }

  /** A sequence with the multiset of a set repeats nothing and holds that set. */
  lemma NoDupOfSet(s: seq<nat>, ids: set<nat>)
    requires multiset(s) == multiset(ids)
    ensures NoDup(s) && Elems(s) == ids
  {
    forall p, q | 0 <= p < q < |s| ensures s[p] != s[q] {
      assert s == s[..q] + s[q..];
      assert multiset(s) == multiset(s[..q]) + multiset(s[q..]);
      assert s[..q][p] == s[p];
      assert s[q..][0] == s[q];
      assert multiset(s[..q])[s[p]] >= 1;
      assert multiset(s[q..])[s[q]] >= 1;
      assert multiset(s)[s[q]] <= 1;
    }
    forall x ensures x in s <==> x in ids {
      assert x in s <==> x in multiset(s);
    }
  }

  lemma AppendAssoc(a: string, b: string, c: string)
    ensures (a + b) + c == a + (b + c)
  {
  }

  lemma ElemsConcat(a: seq<nat>, b: seq<nat>)
    ensures Elems(a + b) == Elems(a) + Elems(b)
  {
  }

  /** One more id of a community: it is printed exactly when it was not
      printed before, and it joins the printed ids either way. */
  lemma UnprintedStep(ids: seq<nat>, k: nat, printed: set<nat>)
    requires k < |ids|
    ensures var x, u := ids[k], Unprinted(ids[..k], printed);
      && Unprinted(ids[..k + 1], printed) == (if x in printed + Elems(ids[..k]) then u else u + [x])
      && Elems(ids[..k + 1]) == Elems(ids[..k]) + {x}
  {
    assert ids[..k + 1][..k] == ids[..k];
    assert ids[..k + 1] == ids[..k] + [ids[k]];
  }

  /** One more community: its line holds its ids not printed before, and
      they all count as printed afterwards. */
  lemma FirstsStep(lists: seq<seq<nat>>, i: nat)
    requires i < |lists|
    ensures Firsts(lists[..i + 1]) == Firsts(lists[..i]) + [Unprinted(lists[i], Elems(Flatten(lists[..i])))]
    ensures Elems(Flatten(lists[..i + 1])) == Elems(Flatten(lists[..i])) + Elems(lists[i])
  {
    assert lists[..i + 1][..i] == lists[..i];
    assert lists[..i + 1] == lists[..i] + [lists[i]];
    FlattenConcat(lists[..i], [lists[i]]);
    assert Flatten([lists[i]]) == lists[i];
    ElemsConcat(Flatten(lists[..i]), lists[i]);
  }

  /** The whole output: every graph node and every community member is
      printed, and none twice. */
  lemma {:induction false} PrintedOnce(lists: seq<seq<nat>>, tail: seq<nat>, keys: set<nat>)
    requires NoDup(tail) && Elems(tail) == keys - Elems(Flatten(lists))
    ensures NoDup(Flatten(Firsts(lists)) + tail)
    ensures Elems(Flatten(Firsts(lists)) + tail) == keys + Elems(Flatten(lists))
  {
    FirstsFacts(lists);
    NoDupConcat(Flatten(Firsts(lists)), tail);
    ElemsConcat(Flatten(Firsts(lists)), tail);
  }

  lemma InElems(s: seq<nat>, k: nat)
    requires k < |s|
    ensures s[k] in Elems(s)
  {
  }

  lemma NoneLeft(s: seq<nat>)
    requires Elems(s) == {}
    ensures s == []
  {
    if s != [] {
      InElems(s, 0);
    }
  }

  /** When the communities partition the graph's ids: each community is
      printed whole, on its own line, nothing is left for the last line, and
      every printed id fits in 32 bits. */
  lemma PrintedPartition(lists: seq<seq<nat>>, tail: seq<nat>, keys: set<nat>)
    requires multiset(Flatten(lists)) == multiset(keys)
    requires forall x :: x in keys ==> x < U32Limit
    requires Elems(tail) == keys - Elems(Flatten(lists))
    ensures Firsts(lists) == lists && tail == []
    ensures forall k :: 0 <= k < |lists| ==> AllU32(lists[k])
  {
    NoDupOfSet(Flatten(lists), keys);
    FirstsAll(lists);
    NoneLeft(tail);
    forall k | 0 <= k < |lists| ensures AllU32(lists[k]) {
      FlattenIncludes(lists, k);
      forall j | 0 <= j < |lists[k]| ensures lists[k][j] < U32Limit {
        assert lists[k][j] in multiset(lists[k]);
      }
    }
  }

  /** One id of writeRes's inner loop: the text grows by the id exactly
      when it was not printed before. */
  lemma WriteIdStep(ids: seq<nat>, k: nat, printed: set<nat>, done: set<nat>)
    requires k < |ids| && done == printed + Elems(ids[..k])
    ensures FormatIds(Unprinted(ids[..k + 1], printed))
            == FormatIds(Unprinted(ids[..k], printed)) + (if ids[k] in done then "" else Decimal(ids[k]) + " ")
    ensures done + {ids[k]} == printed + Elems(ids[..k + 1])
  {
    UnprintedStep(ids, k, printed);
    FormatIdsSnoc(Unprinted(ids[..k], printed), ids[k]);
  }

  /** One node of writeRes's last loop: it is printed, and joins tail,
      exactly when it was not printed before. */
  lemma WriteRestStep(keys: set<nat>, rest: set<nat>, printed: set<nat>, done: set<nat>, tail: seq<nat>, node: nat)
    requires rest <= keys && node in rest && done == printed + (keys - rest)
    requires NoDup(tail) && Elems(tail) == (keys - rest) - printed
    ensures var t := if node in done then tail else tail + [node];
      && NoDup(t) && Elems(t) == (keys - (rest - {node})) - printed
      && FormatIds(t) == FormatIds(tail) + (if node in done then "" else Decimal(node) + " ")
    ensures done + {node} == printed + (keys - (rest - {node}))
  {
    var now := keys - (rest - {node});
    assert now == (keys - rest) + {node};
    if node !in done {
      FormatIdsSnoc(tail, node);
      NoDupSnoc(tail, node);
      ElemsConcat(tail, [node]);
      assert now - printed == ((keys - rest) - printed) + {node};
    } else {
      assert node in printed;
      assert now - printed == (keys - rest) - printed;
      assert FormatIds(tail) + "" == FormatIds(tail);
    }
  }
}
