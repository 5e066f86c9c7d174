/** Lists seen as sets, shared by the delivery ledger, the sweep and the rate limiter. */
module Listings {

  ghost function Members<T>(list: seq<T>): set<T> {
    set x | x in list
  }

  lemma MembersSnoc<T>(list: seq<T>, x: T)
    ensures Members(list + [x]) == Members(list) + {x}
  {
    assert forall y :: y in list + [x] <==> y in list || y == x;
  }

  lemma {:induction false} MembersCount<T>(list: seq<T>)
    ensures |Members(list)| <= |list|
    ensures |Members(list)| == |list| <==> forall i, j | 0 <= i < j < |list| :: list[i] != list[j]
  {
    if list != [] {
      var front, last := list[..|list| - 1], list[|list| - 1];
      MembersCount(front);
      assert list == front + [last];
      MembersSnoc(front, last);
    }
  }

  lemma SubsetCount<T>(a: set<T>, b: set<T>)
    requires a <= b
    ensures |a| <= |b|
    ensures |a| == |b| ==> a == b
  {
    assert b == a + (b - a);
  }

  // ---- Picking from a list ----

  /** The elements that satisfy P, in their order. */
  ghost function Kept<T>(P: T -> bool, list: seq<T>): seq<T> {
    if list == [] then []
    else
      var front, last := list[..|list| - 1], list[|list| - 1];
      if P(last) then Kept(P, front) + [last] else Kept(P, front)
  }

  ghost predicate Ascending(at: seq<nat>, bound: nat) {
    && (forall i | 0 <= i < |at| :: at[i] < bound)
    && (forall i, j | 0 <= i < j < |at| :: at[i] < at[j])
  }

  /** Which elements those are. */
  ghost predicate PickedAt<T>(P: T -> bool, list: seq<T>, picked: seq<T>, at: seq<nat>) {
    && Ascending(at, |list|) && |picked| == |at|
    && (forall i | 0 <= i < |at| :: picked[i] == list[at[i]])
    && (forall j | 0 <= j < |list| :: P(list[j]) <==> j in at)
  }

  lemma {:induction false} KeptAt<T>(P: T -> bool, list: seq<T>) returns (at: seq<nat>)
    ensures PickedAt(P, list, Kept(P, list), at)
  {
    if list == [] {
      at := [];
    } else {
      var front, last := list[..|list| - 1], list[|list| - 1];
      var before := KeptAt(P, front);
      at := if P(last) then before + [|front|] else before;
      PickedMore(P, front, Kept(P, front), before, list, Kept(P, list), at);
    }
  }

  lemma PickedMore<T>(P: T -> bool, front: seq<T>, picked: seq<T>, before: seq<nat>, list: seq<T>, all: seq<T>, at: seq<nat>)
    requires PickedAt(P, front, picked, before)
    requires |list| == |front| + 1 && list[..|front|] == front
    requires if P(list[|front|]) then all == picked + [list[|front|]] && at == before + [|front|] else all == picked && at == before
    ensures PickedAt(P, list, all, at)
  {
    var last := list[|front|];
    assert list == front + [last];
    assert forall j :: j in at <==> j in before || (P(last) && j == |front|);
  }

  ghost function Those<T>(list: seq<T>, P: T -> bool): set<T> {
    set x | x in list && P(x)
  }

  lemma {:induction false} KeptCount<T>(P: T -> bool, list: seq<T>)
    requires forall i, j | 0 <= i < j < |list| :: list[i] != list[j]
    ensures |Kept(P, list)| == |Those(list, P)|
  {
    if list != [] {
      var front, last := list[..|list| - 1], list[|list| - 1];
      KeptCount(P, front);
      CountSnoc(P, front, last);
      assert list == front + [last];
    }
  }

  lemma CountSnoc<T>(P: T -> bool, front: seq<T>, last: T)
    requires last !in front
    ensures |Those(front + [last], P)| == |Those(front, P)| + if P(last) then 1 else 0
  {
    assert Those(front + [last], P) == if P(last) then Those(front, P) + {last} else Those(front, P);
  }
}
