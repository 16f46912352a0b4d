/** Facts about sequences of vertex ids that the graph model relies on. */
module Sequences {

  /** No element occurs twice in `s`. */
  ghost predicate Distinct(s: seq<int>) {
    forall i, j :: 0 <= i < j < |s| ==> s[i] != s[j]
  }

  /** Every element of `s` is a vertex id in `0..n-1`. */
  ghost predicate AllBelow(s: seq<int>, n: int) {
    forall i :: 0 <= i < |s| ==> 0 <= s[i] < n
  }

  /** The concatenation of a list of lists, in order. */
  function Flatten(cs: seq<seq<int>>): (r: seq<int>)
  {
    if cs == [] then [] else Flatten(cs[..|cs| - 1]) + cs[|cs| - 1]
  }

  /** `s` read back to front, as Python's `list.reverse()` leaves it. */
  function Reversed(s: seq<int>): (r: seq<int>)
    ensures |r| == |s|
    ensures forall i :: 0 <= i < |s| ==> r[i] == s[|s| - 1 - i]
  {
    if s == [] then [] else [s[|s| - 1]] + Reversed(s[..|s| - 1])
  }

  lemma ReversedSnoc(s: seq<int>, x: int)
    ensures Reversed(s + [x]) == [x] + Reversed(s)
  {
  }

  lemma FlattenSnoc(cs: seq<seq<int>>, c: seq<int>)
    ensures Flatten(cs + [c]) == Flatten(cs) + c
  {
  }

  /** Membership in the concatenation is membership in one of the parts. */
  lemma {:induction false} FlattenMember(cs: seq<seq<int>>, x: int)
    ensures x in Flatten(cs) <==> exists k :: 0 <= k < |cs| && x in cs[k]
  {
    if cs != [] {
      var init := cs[..|cs| - 1];
      FlattenMember(init, x);
      if x in Flatten(init) {
        var k :| 0 <= k < |init| && x in init[k];
        assert x in cs[k];
      }
      if exists k :: 0 <= k < |cs| && x in cs[k] {
        var k :| 0 <= k < |cs| && x in cs[k];
        if k < |cs| - 1 {
          assert x in init[k];
        }
      }
    }
  }

  /** In a duplicate-free concatenation an element lies in exactly one part, once. */
  lemma {:induction false} FlattenDistinctUnique(cs: seq<seq<int>>, k1: int, k2: int, x: int)
    requires Distinct(Flatten(cs))
    requires 0 <= k1 < |cs| && 0 <= k2 < |cs|
    requires x in cs[k1] && x in cs[k2]
    ensures k1 == k2
  {
    var init := cs[..|cs| - 1];
    var last := cs[|cs| - 1];
    assert Flatten(cs) == Flatten(init) + last;
    if k1 < |cs| - 1 && k2 < |cs| - 1 {
      assert Distinct(Flatten(init)) by {
        forall i, j | 0 <= i < j < |Flatten(init)|
          ensures Flatten(init)[i] != Flatten(init)[j]
        {
          assert Flatten(init)[i] == Flatten(cs)[i] && Flatten(init)[j] == Flatten(cs)[j];
        }
      }
      assert x in init[k1] && x in init[k2];
      FlattenDistinctUnique(init, k1, k2, x);
    } else if k1 != k2 {
      DistinctDisjoint(Flatten(init), last);
      var k := if k1 < k2 then k1 else k2;
      assert x in init[k];
      FlattenMember(init, x);
      assert false;
    }
  }

  /** The two halves of a duplicate-free concatenation share no element. */
  lemma DistinctDisjoint(a: seq<int>, b: seq<int>)
    requires Distinct(a + b)
    ensures forall x :: x in a ==> x !in b
  {
    forall x | x in a ensures x !in b {
      var i :| 0 <= i < |a| && a[i] == x;
      forall j | 0 <= j < |b| ensures b[j] != x {
        assert (a + b)[i] == x && (a + b)[|a| + j] == b[j];
      }
    }
  }

  /** Each part of a duplicate-free concatenation is itself duplicate-free. */
  lemma FlattenDistinctPart(cs: seq<seq<int>>, k: int)
    requires Distinct(Flatten(cs))
    requires 0 <= k < |cs|
    ensures Distinct(cs[k])
  {
    forall i, j | 0 <= i < j < |cs[k]| ensures cs[k][i] != cs[k][j] {
      if cs[k][i] == cs[k][j] {
        DistinctPartAux(cs, k, i, j);
      }
    }
  }

  lemma {:induction false} DistinctPartAux(cs: seq<seq<int>>, k: int, i: int, j: int)
    requires Distinct(Flatten(cs))
    requires 0 <= k < |cs| && 0 <= i < j < |cs[k]|
    ensures cs[k][i] != cs[k][j]
  {
    var init := cs[..|cs| - 1];
    assert Flatten(cs) == Flatten(init) + cs[|cs| - 1];
    var off := |Flatten(init)|;
    if k == |cs| - 1 {
      assert Flatten(cs)[off + i] == cs[k][i] && Flatten(cs)[off + j] == cs[k][j];
    } else {
      assert Distinct(Flatten(init)) by {
        forall a, b | 0 <= a < b < |Flatten(init)|
          ensures Flatten(init)[a] != Flatten(init)[b]
        {
          assert Flatten(init)[a] == Flatten(cs)[a] && Flatten(init)[b] == Flatten(cs)[b];
        }
      }
      assert init[k] == cs[k];
      DistinctPartAux(init, k, i, j);
    }
  }

  lemma {:induction false} DistinctCard(s: seq<int>)
    requires Distinct(s)
    ensures |set x | x in s| == |s|
  {
    if s != [] {
      var init := s[..|s| - 1];
      DistinctCard(init);
      assert s == init + [s[|s| - 1]];
      assert (set x | x in s) == (set x | x in init) + {s[|s| - 1]};
      assert s[|s| - 1] !in init;
    }
  }

  /** The vertex ids `0..n-1` as a set. */
  function Below(n: nat): (r: set<int>)
    ensures forall x :: x in r <==> 0 <= x < n
    ensures |r| == n
  {
    if n == 0 then {} else Below(n - 1) + {n - 1}
  }

  /** A duplicate-free sequence of ids in `0..n-1` has at most `n` elements. */
  lemma DistinctBound(s: seq<int>, n: nat)
    requires Distinct(s) && AllBelow(s, n)
    ensures |s| <= n
  {
    DistinctCard(s);
    var a := set x | x in s;
    var b := Below(n);
    assert a <= b;
    assert |b| == |a| + |b - a| by {
      assert b == a + (b - a);
    }
  }

  /** Moving the front of the queue to the end of the dequeued part, with `added` queued behind. */
  lemma ShiftFront(done: seq<int>, queue: seq<int>, added: seq<int>)
    requires queue != []
    ensures (done + queue) + added == (done + [queue[0]]) + (queue[1..] + added)
  {
  }

  /** A prefix one longer is the prefix followed by the next element. */
  lemma TakeSnoc(s: seq<int>, k: int)
    requires 0 <= k < |s|
    ensures s[..k + 1] == s[..k] + [s[k]]
  {
  }

  /** Appending `x` behind `added` in two lists that share it as a suffix. */
  lemma SnocBoth(a: seq<int>, b: seq<int>, added: seq<int>, x: int)
    ensures (a + added) + [x] == a + (added + [x])
    ensures (b + added) + [x] == b + (added + [x])
  {
  }

  /**
   * The vertices of `ws` not marked in `marked`, each at its first
   * occurrence, in the order of `ws`: what a scan over `ws` that marks and
   * queues every unmarked vertex it meets ends up queueing.
   */
  function NewlyFound(marked: seq<bool>, ws: seq<int>): (r: seq<int>)
    ensures forall x :: x in r <==> x in ws && 0 <= x < |marked| && !marked[x]
    ensures Distinct(r)
  {
    if ws == [] then []
    else
      var r0 := NewlyFound(marked, ws[..|ws| - 1]);
      var x := ws[|ws| - 1];
      assert ws == ws[..|ws| - 1] + [x];
      if 0 <= x < |marked| && !marked[x] && x !in r0 then r0 + [x] else r0
  }

  /** Scanning one more vertex `x` queues it exactly when it is unmarked and not yet queued. */
  lemma NewlyFoundSnoc(marked: seq<bool>, ws: seq<int>, x: int, ws': seq<int>)
    requires ws' == ws + [x]
    ensures NewlyFound(marked, ws') ==
      if 0 <= x < |marked| && !marked[x] && x !in NewlyFound(marked, ws) then NewlyFound(marked, ws) + [x]
      else NewlyFound(marked, ws)
  {
    assert ws'[..|ws'| - 1] == ws;
  }

  /**
   * The scan finds vertices in the order of `ws`: what it finds in the first
   * `k` elements comes first in what it finds in all of them.
   */
  lemma {:induction false} NewlyFoundPrefix(marked: seq<bool>, ws: seq<int>, k: int)
    requires 0 <= k <= |ws|
    ensures NewlyFound(marked, ws[..k]) <= NewlyFound(marked, ws)
    decreases |ws|
  {
    if k < |ws| {
      var ws0 := ws[..|ws| - 1];
      NewlyFoundPrefix(marked, ws0, k);
      assert ws0[..k] == ws[..k];
      NewlyFoundSnoc(marked, ws0, ws[|ws| - 1], ws);
    } else {
      assert ws[..k] == ws;
    }
  }
}
