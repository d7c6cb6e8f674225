/** The k greatest elements of a set of strings, as a bounded ordered set keeps them. */
module GreatestNonces {
  import opened Text
  import opened Sets

  predicate IsLeast(x: Str, s: set<Str>) {
    x in s && forall y <- s :: AtMost(x, y)
  }

  lemma {:induction false} LeastExists(s: set<Str>)
    requires s != {}
    ensures exists x :: IsLeast(x, s)
    decreases |s|
  {
    var x :| x in s;
    var rest := s - {x};
    if rest == {} {
      assert s == {x};
      assert IsLeast(x, s);
    } else {
      LeastExists(rest);
      var least :| IsLeast(least, rest);
      LessIsTotal(x, least);
      if Less(x, least) {
        forall y <- s ensures AtMost(x, y) {
          if y != x && y != least {
            assert y in rest;
            LessIsTransitive(x, least, y);
          }
        }
        assert IsLeast(x, s);
      } else {
        assert IsLeast(least, s);
      }
    }
  }

  /** `kept` are k greatest elements of `all`, or all of them if there are fewer. */
  predicate Greatest(kept: set<Str>, all: set<Str>, k: nat) {
    && kept <= all
    && |kept| == (if |all| <= k then |all| else k)
    && forall x, y | x in all && x !in kept && y in kept :: Less(x, y)
  }

  /** There is only one such set. */
  lemma GreatestIsUnique(a: set<Str>, b: set<Str>, all: set<Str>, k: nat)
    requires Greatest(a, all, k) && Greatest(b, all, k)
    ensures a == b
  {
    if a <= b {
      SubsetOfSameSize(a, b);
    } else if b <= a {
      SubsetOfSameSize(b, a);
    } else {
      var x :| x in a && x !in b;
      var y :| y in b && y !in a;
      assert Less(x, y) && Less(y, x);
      LessIsAsymmetric(x, y);
    }
  }

  /** Adding one element to a bounded set and dropping the least if it grew too large. */
  lemma InsertKeepsGreatest(kept: set<Str>, all: set<Str>, k: nat, x: Str)
    requires Greatest(kept, all, k) && x !in kept && |kept| < k
    ensures Greatest(kept + {x}, all + {x}, k)
  {
    SubsetOfSameSize(kept, all);
  }

  lemma ReplaceKeepsGreatest(kept: set<Str>, all: set<Str>, k: nat, x: Str, least: Str)
    requires Greatest(kept, all, k) && x !in kept && |kept| == k && IsLeast(least, kept + {x})
    ensures Greatest(kept + {x} - {least}, all + {x}, k)
  {
    var after := kept + {x} - {least};
    assert |kept + {x}| == k + 1;
    assert |after| == k;
    SubsetIsNoLarger(after, all + {x});
    LessIsIrreflexive(least);
    forall u, v | u in all + {x} && u !in after && v in after
      ensures Less(u, v)
    {
      assert v != least && AtMost(least, v);
      if u != least {
        assert u in all && u !in kept;
        if v != x {
          assert Less(u, v);
        } else {
          assert Less(u, least);
          LessIsTransitive(u, least, v);
        }
      }
    }
    if |all + {x}| <= k {
      SubsetIsNoLarger(kept, all);
      SubsetOfSameSize(after, all + {x});
    }
  }

  ghost function Least(s: set<Str>): (x: Str)
    requires s != {}
    ensures IsLeast(x, s)
  {
    LeastExists(s);
    var x :| IsLeast(x, s);
    x
  }

  /** What inserting into a set bounded to k elements leaves in it. */
  ghost function Inserted(kept: set<Str>, x: Str, k: nat): set<Str> {
    var grown := kept + {x};
    if |grown| <= k then grown else grown - {Least(grown)}
  }

  lemma InsertedIsGreatest(kept: set<Str>, all: set<Str>, k: nat, x: Str)
    requires Greatest(kept, all, k) && x !in kept
    ensures Greatest(Inserted(kept, x, k), all + {x}, k)
  {
    if |kept| < k {
      InsertKeepsGreatest(kept, all, k, x);
    } else {
      ReplaceKeepsGreatest(kept, all, k, x, Least(kept + {x}));
    }
  }

  /** Strictly ascending histories. */
  predicate Ascending(h: seq<Str>) {
    forall i, j | 0 <= i < j < |h| :: Less(h[i], h[j])
  }

  function Elements(h: seq<Str>): set<Str> {
    set x | x in h
  }

  lemma LastIsNew(h: seq<Str>)
    requires Ascending(h) && h != []
    ensures h[|h| - 1] !in h[..|h| - 1]
  {
    var n := |h| - 1;
    forall i | 0 <= i < n ensures h[i] != h[n] {
      LessIsAsymmetric(h[i], h[n]);
    }
  }

  lemma ElementsOfAppend(h: seq<Str>, x: Str)
    ensures Elements(h + [x]) == Elements(h) + {x}
  {
  }

  lemma OneMore(s: set<Str>, x: Str)
    requires x !in s
    ensures |s + {x}| == |s| + 1
  {
  }

  lemma {:induction false} AscendingCount(h: seq<Str>)
    requires Ascending(h)
    ensures |Elements(h)| == |h|
  {
    if h == [] {
      assert Elements(h) == {};
    } else {
      var init, last := h[..|h| - 1], h[|h| - 1];
      assert Ascending(init);
      AscendingCount(init);
      LastIsNew(h);
      ElementsOfAppend(init, last);
      OneMore(Elements(init), last);
      assert h == init + [last];
    }
  }

  function LastOnes(h: seq<Str>, k: nat): seq<Str> {
    if |h| <= k then h else h[|h| - k..]
  }

  lemma AfterTheCut(h: seq<Str>, k: nat)
    ensures forall i | |h| - |LastOnes(h, k)| <= i < |h| :: h[i] in LastOnes(h, k)
  {
    var last := LastOnes(h, k);
    assert forall i | |h| - |last| <= i < |h| :: h[i] == last[i - (|h| - |last|)];
  }

  /** Of an ascending history the greatest k elements are the last k. */
  lemma GreatestOfAscending(h: seq<Str>, k: nat)
    requires Ascending(h)
    ensures Greatest(Elements(LastOnes(h, k)), Elements(h), k)
  {
    var last := LastOnes(h, k);
    var cut := |h| - |last|;
    assert forall i | 0 <= i < |last| :: last[i] == h[cut + i];
    AscendingCount(h);
    AscendingCount(last);
    forall x, y | x in Elements(h) && x !in Elements(last) && y in Elements(last)
      ensures Less(x, y)
    {
      var i :| 0 <= i < |h| && h[i] == x;
      var j :| 0 <= j < |last| && last[j] == y;
      AfterTheCut(h, k);
    }
  }
}
