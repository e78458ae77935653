/** Sums over sequences, what comes into a queue and goes out of it, sequences without repetition,
    and counting the members of a set. */
module Sums {

  function Sum(ws: seq<int>): int {
    if ws == [] then 0 else Sum(ws[..|ws| - 1]) + ws[|ws| - 1]
  }

  lemma {:induction false} SumUpdate(ws: seq<int>, i: nat, v: int)
    requires i < |ws|
    ensures Sum(ws[i := v]) == Sum(ws) - ws[i] + v
  {
    var k := |ws| - 1;
    if i == k {
      assert ws[i := v][..k] == ws[..k];
    } else {
      SumUpdate(ws[..k], i, v);
      assert ws[i := v][..k] == ws[..k][i := v];
    }
  }

  /** Two terms change. */
  lemma {:induction false} SumUpdateTwo(ws: seq<int>, i: nat, v: int, j: nat, w: int)
    requires i < |ws| && j < |ws| && i != j
    ensures Sum(ws[i := v][j := w]) == Sum(ws) - ws[i] + v - ws[j] + w
  {
    SumUpdate(ws, i, v);
    SumUpdate(ws[i := v], j, w);
  }

  lemma {:induction false} SumNonNegative(ws: seq<int>)
    requires forall i :: 0 <= i < |ws| ==> ws[i] >= 0
    ensures Sum(ws) >= 0
  {
    if ws != [] {
      SumNonNegative(ws[..|ws| - 1]);
    }
  }

  lemma {:induction false} SumConstant(ws: seq<int>, c: int)
    requires forall i :: 0 <= i < |ws| ==> ws[i] == c
    ensures Sum(ws) == c * |ws|
  {
    if ws != [] {
      SumConstant(ws[..|ws| - 1], c);
    }
  }

  lemma {:induction false} SumOfSums(ws: seq<int>, us: seq<int>, vs: seq<int>)
    requires |us| == |vs| == |ws| && forall i :: 0 <= i < |ws| ==> ws[i] == us[i] + vs[i]
    ensures Sum(ws) == Sum(us) + Sum(vs)
  {
    if ws != [] {
      var k := |ws| - 1;
      SumOfSums(ws[..k], us[..k], vs[..k]);
    }
  }

  /** What was there and what came is what went and what is left, over one step and then over the rest. */
  lemma {:induction false} Telescope<T>(was: seq<T>, came: seq<T>, went: seq<T>, now: seq<T>,
                                        laterCame: seq<T>, laterWent: seq<T>, end: seq<T>)
    requires was + came == went + now && now + laterCame == laterWent + end
    ensures was + (came + laterCame) == (went + laterWent) + end
  {
    assert was + (came + laterCame) == (was + came) + laterCame;
    assert (went + now) + laterCame == went + (now + laterCame);
    assert went + (laterWent + end) == (went + laterWent) + end;
  }

  ghost predicate NoDuplicates<T>(q: seq<T>) {
    forall i, j :: 0 <= i < j < |q| ==> q[i] != q[j]
  }

  /** Two sets that differ in one element at most. */
  lemma {:induction false} OneChanged(was: set<nat>, now: set<nat>, p: nat)
    requires forall q :: q != p ==> (q in now <==> q in was)
    ensures |now| == |was| + (if p in now then 1 else 0) - (if p in was then 1 else 0)
  {
    assert was - {p} == now - {p};
    assert p in was ==> was == was - {p} + {p};
    assert p in now ==> now == now - {p} + {p};
  }

  lemma {:induction false} AtLeastTwo(hs: set<nat>, p: nat, q: nat)
    requires p in hs && q in hs
    ensures |hs| >= if p == q then 1 else 2
  {
    assert {p} + (hs - {p}) == hs;
    assert q != p ==> q in hs - {p};
  }

  lemma {:induction false} EmptyOrNot(queue: seq<nat>)
    ensures queue == [] || exists p: nat :: p in queue
  {
    if queue != [] {
      assert queue[0] in queue;
    }
  }
}
