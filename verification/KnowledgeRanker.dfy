/**
 Choosing the knowledge items that go into the assistant's prompt.

 The lexical score is a parameter: what is modelled is the in-place exchange
 sort, the de-duplication by ID, the cut at the limit and the backfill. The
 whole selection turns out to be "the first `limit` distinct IDs" of one list:
 the scored items in descending order followed by every active item.
 */
module KnowledgeRanker {

  datatype Item = Item(id: string, active: bool, content: string)

  datatype Scored = Scored(item: Item, score: int)

  ghost predicate Descending(s: seq<Scored>) {
    forall i, j | 0 <= i < j < |s| :: s[i].score >= s[j].score
  }

  /** The active items with a positive score, in input order. */
  function ScoredItems(items: seq<Item>, score: Item -> int): seq<Scored> {
    if items == [] then []
    else
      var front, item := items[..|items| - 1], items[|items| - 1];
      if item.active && score(item) > 0 then ScoredItems(front, score) + [Scored(item, score(item))]
      else ScoredItems(front, score)
  }

  function ActiveItems(items: seq<Item>): seq<Item> {
    if items == [] then []
    else if items[0].active then [items[0]] + ActiveItems(items[1..])
    else ActiveItems(items[1..])
  }

  function ItemsOf(s: seq<Scored>): (r: seq<Item>)
    ensures |r| == |s| && forall i | 0 <= i < |s| :: r[i] == s[i].item
  {
    seq(|s|, i requires 0 <= i < |s| => s[i].item)
  }

  function Ids(items: seq<Item>): set<string> {
    set i | 0 <= i < |items| :: items[i].id
  }

  /** The first `room` items of the list whose IDs are new. */
  function FirstDistinct(items: seq<Item>, seen: set<string>, room: nat): seq<Item> {
    if items == [] || room == 0 then []
    else if items[0].id in seen then FirstDistinct(items[1..], seen, room)
    else [items[0]] + FirstDistinct(items[1..], seen + {items[0].id}, room - 1)
  }

  /** Every slot is filled by the largest remaining score, one exchange at a time. */
  method ExchangeSort(a: array<Scored>)
    modifies a
    ensures Descending(a[..])
    ensures multiset(a[..]) == multiset(old(a[..]))
  {
    for i := 0 to a.Length
      invariant Descending(a[..i])
      invariant Above(a, i)
      invariant multiset(a[..]) == multiset(old(a[..]))
    {
      Settle(a, i);
    }
    assert a[..a.Length] == a[..];
  }

  /** Everything before position i scores at least as high as everything from i on. */
  ghost predicate Above(a: array<Scored>, i: nat)
    requires i <= a.Length
    reads a
  {
    forall p, q | 0 <= p < i <= q < a.Length :: a[p].score >= a[q].score
  }

  /** The inner loop: brings the largest remaining score to position i. */
  method Settle(a: array<Scored>, i: nat)
    requires i < a.Length && Above(a, i)
    modifies a
    ensures a[..i] == old(a[..i]) && Above(a, i) && Above(a, i + 1)
    ensures multiset(a[..]) == multiset(old(a[..]))
  {
    for j := i + 1 to a.Length
      invariant a[..i] == old(a[..i]) && Above(a, i)
      invariant forall q | i < q < j :: a[i].score >= a[q].score
      invariant multiset(a[..]) == multiset(old(a[..]))
    {
      if a[j].score > a[i].score {
        Exchange(a, i, j);
      }
    }
  }

  method Exchange(a: array<Scored>, i: nat, j: nat)
    requires i < j < a.Length
    modifies a
    ensures a[i] == old(a[j]) && a[j] == old(a[i])
    ensures forall k | 0 <= k < a.Length && k != i && k != j :: a[k] == old(a[k])
    ensures multiset(a[..]) == multiset(old(a[..]))
  {
    a[i], a[j] := a[j], a[i];
  }

  /** Collects the scored items, sorts them, keeps the first of each ID, then backfills. */
  method Rank(items: seq<Item>, score: Item -> int, limit: int)
    returns (result: seq<Item>, ghost sorted: seq<Scored>)
    ensures limit <= 0 ==> result == []
    ensures limit > 0 ==>
              && Descending(sorted)
              && multiset(sorted) == multiset(ScoredItems(items, score))
              && result == FirstDistinct(ItemsOf(sorted) + ActiveItems(items), {}, limit)
              && TopK(items, score, limit, sorted, result)
  {
    if limit <= 0 {
      return [], [];
    }
    var a := Collect(items, score);
    ExchangeSort(a);
    var order := a[..];
    sorted := order;
    result := Select(ItemsOf(order), items, limit);
    RankIsTopK(items, score, limit, sorted);
  }

  method Select(order: seq<Item>, items: seq<Item>, limit: nat) returns (result: seq<Item>)
    requires limit > 0
    ensures result == FirstDistinct(order + ActiveItems(items), {}, limit)
  {
    var seen: set<string>;
    result, seen := TakeDistinct(order, [], {}, limit);
    FirstDistinctSplits(order, ActiveItems(items), {}, limit);
    if |result| < limit {
      result := Backfill(items, result, seen, limit);
    }
  }

  method Collect(items: seq<Item>, score: Item -> int) returns (a: array<Scored>)
    ensures fresh(a) && a[..] == ScoredItems(items, score)
  {
    var scored: seq<Scored> := [];
    for k := 0 to |items|
      invariant scored == ScoredItems(items[..k], score)
    {
      assert items[..k + 1][..k] == items[..k];
      if items[k].active {
        var s := score(items[k]);
        if s > 0 {
          scored := scored + [Scored(items[k], s)];
        }
      }
    }
    assert items[..|items|] == items;
    a := new Scored[|scored|](i requires 0 <= i < |scored| => scored[i]);
  }

  method TakeDistinct(from: seq<Item>, kept: seq<Item>, seen0: set<string>, limit: nat)
    returns (result: seq<Item>, seen: set<string>)
    requires |kept| < limit
    ensures result == kept + FirstDistinct(from, seen0, limit - |kept|)
    ensures seen == seen0 + Ids(FirstDistinct(from, seen0, limit - |kept|))
  {
    result, seen := kept, seen0;
    var k := 0;
    while k < |from|
      invariant 0 <= k <= |from| && |result| < limit
      invariant result + FirstDistinct(from[k..], seen, limit - |result|)
             == kept + FirstDistinct(from, seen0, limit - |kept|)
      invariant seen + Ids(FirstDistinct(from[k..], seen, limit - |result|))
             == seen0 + Ids(FirstDistinct(from, seen0, limit - |kept|))
    {
      StepDistinct(from, k, seen, limit - |result|);
      if from[k].id !in seen {
        seen := seen + {from[k].id};
        result := result + [from[k]];
        if |result| >= limit {
          return;
        }
      }
      k := k + 1;
    }
  }

  method Backfill(items: seq<Item>, kept: seq<Item>, seen0: set<string>, limit: nat)
    returns (result: seq<Item>)
    requires |kept| < limit
    ensures result == kept + FirstDistinct(ActiveItems(items), seen0, limit - |kept|)
  {
    var seen := seen0;
    result := kept;
    var k := 0;
    while k < |items|
      invariant 0 <= k <= |items| && |result| < limit
      invariant result + FirstDistinct(ActiveItems(items[k..]), seen, limit - |result|)
             == kept + FirstDistinct(ActiveItems(items), seen0, limit - |kept|)
    {
      StepActive(items, k);
      if items[k].active {
        StepDistinct(ActiveItems(items[k..]), 0, seen, limit - |result|);
        if items[k].id !in seen {
          seen := seen + {items[k].id};
          result := result + [items[k]];
          if |result| >= limit {
            return;
          }
        }
      }
      k := k + 1;
    }
  }

  lemma StepActive(items: seq<Item>, k: nat)
    requires k < |items|
    ensures ActiveItems(items[k..])
         == if items[k].active then [items[k]] + ActiveItems(items[k + 1..]) else ActiveItems(items[k + 1..])
  {
    assert items[k..][1..] == items[k + 1..];
  }

  lemma StepDistinct(from: seq<Item>, k: nat, seen: set<string>, room: nat)
    requires k < |from| && room > 0
    ensures var now, x := FirstDistinct(from[k..], seen, room), from[k];
            if x.id in seen then now == FirstDistinct(from[k + 1..], seen, room)
            else
              && now == [x] + FirstDistinct(from[k + 1..], seen + {x.id}, room - 1)
              && Ids(now) == {x.id} + Ids(FirstDistinct(from[k + 1..], seen + {x.id}, room - 1))
  {
    assert from[k..][1..] == from[k + 1..];
    if from[k].id !in seen {
      var rest := FirstDistinct(from[k + 1..], seen + {from[k].id}, room - 1);
      IdsOfCons(from[k], rest);
    }
  }

  lemma IdsOfCons(x: Item, rest: seq<Item>)
    ensures Ids([x] + rest) == {x.id} + Ids(rest)
  {
    forall id | id in Ids(rest) ensures id in Ids([x] + rest) {
      var i :| 0 <= i < |rest| && rest[i].id == id;
      assert ([x] + rest)[i + 1].id == id;
    }
    assert ([x] + rest)[0].id == x.id;
  }

  /** Taking from a list in two parts is taking from the first, then from the second with
      what is left. */
  lemma {:induction false} FirstDistinctSplits(a: seq<Item>, b: seq<Item>, seen: set<string>, room: nat)
    ensures var first := FirstDistinct(a, seen, room);
            && |first| <= room
            && FirstDistinct(a + b, seen, room) == first + FirstDistinct(b, seen + Ids(first), room - |first|)
  {
    if a == [] {
      assert a + b == b;
      assert seen + Ids([]) == seen;
    } else if room > 0 {
      assert (a + b)[1..] == a[1..] + b;
      if a[0].id in seen {
        FirstDistinctSplits(a[1..], b, seen, room);
      } else {
        FirstDistinctSplits(a[1..], b, seen + {a[0].id}, room - 1);
        var rest := FirstDistinct(a[1..], seen + {a[0].id}, room - 1);
        IdsOfCons(a[0], rest);
        assert seen + {a[0].id} + Ids(rest) == seen + Ids([a[0]] + rest);
      }
    }
  }

  /** The selection never repeats an ID, takes only listed items, respects the room, and
      stops short of the room only when every ID in the list has been taken. */
  lemma {:induction false} FirstDistinctIsSound(items: seq<Item>, seen: set<string>, room: nat)
    ensures var r := FirstDistinct(items, seen, room);
            && |r| <= room
            && (forall i | 0 <= i < |r| :: r[i] in items && r[i].id !in seen)
            && (forall i, j | 0 <= i < j < |r| :: r[i].id != r[j].id)
            && (|r| < room ==> forall x | x in items :: x.id in seen + Ids(r))
  {
    if items != [] && room > 0 {
      if items[0].id in seen {
        FirstDistinctIsSound(items[1..], seen, room);
      } else {
        var rest := FirstDistinct(items[1..], seen + {items[0].id}, room - 1);
        FirstDistinctIsSound(items[1..], seen + {items[0].id}, room - 1);
        IdsOfCons(items[0], rest);
      }
    }
  }

  /** An ID left out means the room was used up by items listed before it. */
  lemma LeftOutMeansFull(items: seq<Item>, room: nat, p: nat)
    requires p < |items| && items[p].id !in Ids(FirstDistinct(items, {}, room))
    ensures FirstDistinct(items, {}, room) == FirstDistinct(items[..p], {}, room)
    ensures |FirstDistinct(items, {}, room)| == room
  {
    var first := FirstDistinct(items[..p], {}, room);
    assert items == items[..p] + items[p..];
    FirstDistinctSplits(items[..p], items[p..], {}, room);
    FirstDistinctIsSound(items[..p], {}, room);
    var rest := FirstDistinct(items[p..], {} + Ids(first), room - |first|);
    if |first| < room {
      StepDistinct(items, p, {} + Ids(first), room - |first|);
      IdsOfConcat(first, rest);
      assert false;
    }
    assert rest == [];
  }

  lemma IdsOfConcat(a: seq<Item>, b: seq<Item>)
    ensures Ids(a + b) == Ids(a) + Ids(b)
  {
    forall id | id in Ids(b) ensures id in Ids(a + b) {
      var i :| 0 <= i < |b| && b[i].id == id;
      assert (a + b)[|a| + i].id == id;
    }
    forall id | id in Ids(a) ensures id in Ids(a + b) {
      var i :| 0 <= i < |a| && a[i].id == id;
      assert (a + b)[i].id == id;
    }
  }

  lemma {:induction false} ScoredItemsMembers(items: seq<Item>, score: Item -> int)
    ensures forall s | s in ScoredItems(items, score) ::
              s.item in items && s.item.active && s.score == score(s.item) > 0
    ensures forall x | x in items && x.active && score(x) > 0 :: Scored(x, score(x)) in ScoredItems(items, score)
  {
    if items != [] {
      ScoredItemsMembers(items[..|items| - 1], score);
    }
  }

  lemma ActiveItemsMembers(items: seq<Item>)
    ensures forall x :: x in ActiveItems(items) <==> x in items && x.active
  {
    if items != [] {
      ActiveItemsMembers(items[1..]);
    }
  }

  /** What the prompt builder may rely on, for a limit above zero. */
  ghost predicate TopK(items: seq<Item>, score: Item -> int, limit: nat, sorted: seq<Scored>, result: seq<Item>) {
    var kept := FirstDistinct(ItemsOf(sorted), {}, limit);
    && |result| <= limit
    && kept <= result
    && (forall i | 0 <= i < |result| :: result[i] in items && result[i].active)
    && (forall i, j | 0 <= i < j < |result| :: result[i].id != result[j].id)
    // the scored part is in descending order and shows each ID at its best score
    && (forall i, j | 0 <= i < j < |kept| :: score(kept[i]) >= score(kept[j]) > 0)
    && (forall x, i | x in items && x.active && score(x) > 0 && 0 <= i < |kept| && kept[i].id == x.id ::
          score(x) <= score(kept[i]))
    // a scored ID is left out only for lack of room, behind scores at least as high
    && (forall x | x in items && x.active && score(x) > 0 && x.id !in Ids(result) ::
          result == kept && |kept| == limit && forall i | 0 <= i < |kept| :: score(kept[i]) >= score(x))
    // backfill holds only IDs with no positive score, and falls short only when nothing is left
    && (forall x, i | x in items && x.active && score(x) > 0 && |kept| <= i < |result| :: result[i].id != x.id)
    && (|result| < limit ==> forall x | x in items && x.active :: x.id in Ids(result))
  }

  /** Where two kept items sit in the list: in the same order, each the first of its ID. */
  lemma {:induction false} KeptAt(s: seq<Item>, seen: set<string>, room: nat, i: nat, j: nat) returns (p: nat, q: nat)
    requires i <= j < |FirstDistinct(s, seen, room)|
    ensures p < |s| && s[p] == FirstDistinct(s, seen, room)[i]
    ensures q < |s| && s[q] == FirstDistinct(s, seen, room)[j]
    ensures p <= q
    ensures forall k | 0 <= k < p :: s[k].id != s[p].id
    ensures s[p].id !in seen
  {
    if s[0].id in seen {
      p, q := KeptAt(s[1..], seen, room, i, j);
      p, q := p + 1, q + 1;
    } else if i > 0 {
      p, q := KeptAt(s[1..], seen + {s[0].id}, room - 1, i - 1, j - 1);
      p, q := p + 1, q + 1;
    } else {
      p, q := 0, 0;
      if j > 0 {
        var _, q' := KeptAt(s[1..], seen + {s[0].id}, room - 1, j - 1, j - 1);
        q := q' + 1;
      }
    }
  }

  /** The scored part of the result is in descending order. */
  lemma KeptDescends(items: seq<Item>, score: Item -> int, limit: nat, sorted: seq<Scored>, i: nat, j: nat)
    requires Descending(sorted) && multiset(sorted) == multiset(ScoredItems(items, score))
    requires i <= j < |FirstDistinct(ItemsOf(sorted), {}, limit)|
    ensures var kept := FirstDistinct(ItemsOf(sorted), {}, limit);
            score(kept[i]) >= score(kept[j]) > 0
  {
    SortedMembers(items, score, sorted);
    var p, q := KeptAt(ItemsOf(sorted), {}, limit, i, j);
    assert sorted[p].score >= sorted[q].score;
  }

  /** Of several scored items with one ID, the result shows the best. */
  lemma KeptIsBest(items: seq<Item>, score: Item -> int, limit: nat, sorted: seq<Scored>, i: nat, x: Item)
    requires Descending(sorted) && multiset(sorted) == multiset(ScoredItems(items, score))
    requires i < |FirstDistinct(ItemsOf(sorted), {}, limit)|
    requires x in items && x.active && score(x) > 0
    requires FirstDistinct(ItemsOf(sorted), {}, limit)[i].id == x.id
    ensures score(x) <= score(FirstDistinct(ItemsOf(sorted), {}, limit)[i])
  {
    SortedMembers(items, score, sorted);
    var at, _ := KeptAt(ItemsOf(sorted), {}, limit, i, i);
    var p :| 0 <= p < |sorted| && sorted[p] == Scored(x, score(x));
    assert ItemsOf(sorted)[p].id == x.id;
    assert sorted[at].score >= sorted[p].score;
  }

  lemma SortedMembers(items: seq<Item>, score: Item -> int, sorted: seq<Scored>)
    requires multiset(sorted) == multiset(ScoredItems(items, score))
    ensures forall p | 0 <= p < |sorted| ::
              sorted[p].item in items && sorted[p].item.active && sorted[p].score == score(sorted[p].item) > 0
    ensures forall x | x in items && x.active && score(x) > 0 :: Scored(x, score(x)) in sorted
  {
    ScoredItemsMembers(items, score);
    forall p | 0 <= p < |sorted|
      ensures sorted[p] in ScoredItems(items, score)
    {
      assert sorted[p] in multiset(sorted);
    }
    forall x | x in items && x.active && score(x) > 0
      ensures Scored(x, score(x)) in sorted
    {
      assert Scored(x, score(x)) in multiset(ScoredItems(items, score));
      assert Scored(x, score(x)) in multiset(sorted);
    }
  }

  lemma LeftOutScoresLess(items: seq<Item>, score: Item -> int, limit: nat, sorted: seq<Scored>, x: Item)
    requires Descending(sorted) && multiset(sorted) == multiset(ScoredItems(items, score))
    requires x in items && x.active && score(x) > 0
    requires x.id !in Ids(FirstDistinct(ItemsOf(sorted) + ActiveItems(items), {}, limit))
    ensures var kept := FirstDistinct(ItemsOf(sorted), {}, limit);
            && FirstDistinct(ItemsOf(sorted) + ActiveItems(items), {}, limit) == kept
            && |kept| == limit
            && forall i | 0 <= i < |kept| :: score(kept[i]) >= score(x)
  {
    SortedMembers(items, score, sorted);
    var all := ItemsOf(sorted) + ActiveItems(items);
    var p :| 0 <= p < |sorted| && sorted[p] == Scored(x, score(x));
    assert all[p] == x;
    LeftOutMeansFull(all, limit, p);
    assert all[..p] == ItemsOf(sorted)[..p] == ItemsOf(sorted[..p]);
    KeptBefore(sorted, limit, p);
    forall i | 0 <= i < |FirstDistinct(ItemsOf(sorted), {}, limit)|
      ensures score(FirstDistinct(ItemsOf(sorted), {}, limit)[i]) >= score(x)
    {
      var q := KeptFrom(sorted[..p], limit, i);
      assert sorted[q].score >= sorted[p].score;
    }
  }

  lemma KeptFrom(sorted: seq<Scored>, limit: nat, i: nat) returns (q: nat)
    requires i < |FirstDistinct(ItemsOf(sorted), {}, limit)|
    ensures q < |sorted| && sorted[q].item == FirstDistinct(ItemsOf(sorted), {}, limit)[i]
  {
    var at, _ := KeptAt(ItemsOf(sorted), {}, limit, i, i);
    q := at;
  }

  /** Once the first p entries have used up the room, the rest adds nothing. */
  lemma KeptBefore(sorted: seq<Scored>, limit: nat, p: nat)
    requires p <= |sorted| && |FirstDistinct(ItemsOf(sorted[..p]), {}, limit)| == limit
    ensures FirstDistinct(ItemsOf(sorted), {}, limit) == FirstDistinct(ItemsOf(sorted[..p]), {}, limit)
  {
    assert ItemsOf(sorted) == ItemsOf(sorted[..p]) + ItemsOf(sorted[p..]);
    FirstDistinctSplits(ItemsOf(sorted[..p]), ItemsOf(sorted[p..]), {}, limit);
  }

  /** Whichever descending order the sort produces, the result is a top-k selection. */
  lemma RankIsTopK(items: seq<Item>, score: Item -> int, limit: nat, sorted: seq<Scored>)
    requires Descending(sorted) && multiset(sorted) == multiset(ScoredItems(items, score))
    ensures TopK(items, score, limit, sorted, FirstDistinct(ItemsOf(sorted) + ActiveItems(items), {}, limit))
  {
    var kept := FirstDistinct(ItemsOf(sorted), {}, limit);
    var result := FirstDistinct(ItemsOf(sorted) + ActiveItems(items), {}, limit);
    ResultIsActive(items, score, limit, sorted);
    BackfillUnscored(items, score, limit, sorted);
    forall i, j | 0 <= i < j < |kept|
      ensures score(kept[i]) >= score(kept[j]) > 0
    {
      KeptDescends(items, score, limit, sorted, i, j);
    }
    forall x, i | x in items && x.active && score(x) > 0 && 0 <= i < |kept| && kept[i].id == x.id
      ensures score(x) <= score(kept[i])
    {
      KeptIsBest(items, score, limit, sorted, i, x);
    }
    forall x | x in items && x.active && score(x) > 0 && x.id !in Ids(result)
      ensures result == kept && |kept| == limit && forall i | 0 <= i < |kept| :: score(kept[i]) >= score(x)
    {
      LeftOutScoresLess(items, score, limit, sorted, x);
    }
  }

  /** Only active items, no ID twice, and short of the limit only when all IDs are in. */
  lemma ResultIsActive(items: seq<Item>, score: Item -> int, limit: nat, sorted: seq<Scored>)
    requires multiset(sorted) == multiset(ScoredItems(items, score))
    ensures var result := FirstDistinct(ItemsOf(sorted) + ActiveItems(items), {}, limit);
            && |result| <= limit
            && (forall i | 0 <= i < |result| :: result[i] in items && result[i].active)
            && (forall i, j | 0 <= i < j < |result| :: result[i].id != result[j].id)
            && (|result| < limit ==> forall x | x in items && x.active :: x.id in Ids(result))
  {
    var all := ItemsOf(sorted) + ActiveItems(items);
    var result := FirstDistinct(all, {}, limit);
    FirstDistinctIsSound(all, {}, limit);
    SortedMembers(items, score, sorted);
    ActiveItemsMembers(items);
    forall i | 0 <= i < |result|
      ensures result[i] in items && result[i].active
    {
      assert result[i] in all;
    }
    forall x | x in items && x.active ensures x in all {
      assert x in ActiveItems(items);
    }
  }

  lemma BackfillUnscored(items: seq<Item>, score: Item -> int, limit: nat, sorted: seq<Scored>)
    requires Descending(sorted) && multiset(sorted) == multiset(ScoredItems(items, score))
    ensures var kept := FirstDistinct(ItemsOf(sorted), {}, limit);
            var result := FirstDistinct(ItemsOf(sorted) + ActiveItems(items), {}, limit);
            && kept <= result
            && forall x, i | x in items && x.active && score(x) > 0 && |kept| <= i < |result| :: result[i].id != x.id
  {
    var kept := FirstDistinct(ItemsOf(sorted), {}, limit);
    FirstDistinctSplits(ItemsOf(sorted), ActiveItems(items), {}, limit);
    var fill := Fill(items, sorted, limit);
    FillHasIds(kept, fill);
    forall x | x in items && x.active && score(x) > 0 ensures x.id !in Ids(fill) {
      NotInFill(items, score, limit, sorted, x);
    }
  }

  ghost function Fill(items: seq<Item>, sorted: seq<Scored>, limit: nat): seq<Item> {
    var kept := FirstDistinct(ItemsOf(sorted), {}, limit);
    FirstDistinct(ActiveItems(items), {} + Ids(kept), if |kept| <= limit then limit - |kept| else 0)
  }

  lemma FillHasIds(kept: seq<Item>, fill: seq<Item>)
    ensures forall i | |kept| <= i < |kept + fill| :: (kept + fill)[i].id in Ids(fill)
  {
    forall i | |kept| <= i < |kept + fill| ensures (kept + fill)[i].id in Ids(fill) {
      assert (kept + fill)[i] == fill[i - |kept|] && fill[i - |kept|] in fill;
    }
  }

  /** Backfilling happens only when the room was not used up, and then all scored IDs are kept. */
  lemma NotInFill(items: seq<Item>, score: Item -> int, limit: nat, sorted: seq<Scored>, x: Item)
    requires multiset(sorted) == multiset(ScoredItems(items, score))
    requires x in items && x.active && score(x) > 0
    ensures x.id !in Ids(Fill(items, sorted, limit))
  {
    var kept := FirstDistinct(ItemsOf(sorted), {}, limit);
    FirstDistinctSplits(ItemsOf(sorted), [], {}, limit);
    if |kept| < limit {
      FirstDistinctIsSound(ActiveItems(items), {} + Ids(kept), limit - |kept|);
      ScoredIdTaken(items, score, limit, sorted, x);
    }
  }

  lemma ScoredIdTaken(items: seq<Item>, score: Item -> int, limit: nat, sorted: seq<Scored>, x: Item)
    requires multiset(sorted) == multiset(ScoredItems(items, score))
    requires x in items && x.active && score(x) > 0
    requires |FirstDistinct(ItemsOf(sorted), {}, limit)| < limit
    ensures x.id in Ids(FirstDistinct(ItemsOf(sorted), {}, limit))
  {
    SortedMembers(items, score, sorted);
    var p :| 0 <= p < |sorted| && sorted[p] == Scored(x, score(x));
    assert ItemsOf(sorted)[p] == x;
    FirstDistinctIsSound(ItemsOf(sorted), {}, limit);
  }
}
