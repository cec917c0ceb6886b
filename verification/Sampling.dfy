/** Capping a dataset by hash and splitting it by hash, so that neither the order of the run nor its length decides
    where an episode goes. */
module Sampling {
  import opened Common

  /** An element with its position, as `enumerate` gives it. */
  datatype Placed<T> = Placed(index: nat, item: T)

  // ---- the library's stable sort ---------------------------------------------------------

  /** After everything that does not sort later. */
  function Insert<T>(p: T, sorted: seq<T>, key: T -> nat): seq<T> {
    if sorted == [] || key(sorted[|sorted| - 1]) <= key(p) then sorted + [p]
    else Insert(p, sorted[..|sorted| - 1], key) + [sorted[|sorted| - 1]]
  }

  function StableSort<T>(xs: seq<T>, key: T -> nat): seq<T> {
    if xs == [] then [] else Insert(xs[|xs| - 1], StableSort(xs[..|xs| - 1], key), key)
  }

  // ---- subsampling -----------------------------------------------------------------------

  function Enumerated<T>(episodes: seq<T>): seq<Placed<T>> {
    seq(|episodes|, i requires 0 <= i < |episodes| => Placed(i, episodes[i]))
  }

  /** A slice `[:limit]`; a negative limit counts from the end. */
  function TakeFront<T>(xs: seq<T>, limit: int): seq<T> {
    if limit >= |xs| then xs
    else if limit >= 0 then xs[..limit]
    else if |xs| + limit >= 0 then xs[..|xs| + limit]
    else []
  }

  /** How many such a slice takes of so many. */
  ghost function SliceLength(n: nat, limit: int): (length: nat)
    ensures limit >= 0 ==> length <= limit && length <= n && (length == limit || length == n)
    ensures limit < 0 ==> length == if -limit <= n then n + limit else 0
  {
    if limit >= n then n else if limit >= 0 then limit else if n + limit >= 0 then n + limit else 0
  }

  function ByHash<T>(hash: T -> nat): Placed<T> -> nat {
    (p: Placed<T>) => hash(p.item)
  }

  function ByIndex<T>(): Placed<T> -> nat {
    (p: Placed<T>) => p.index
  }

  function Items<T>(ps: seq<Placed<T>>): seq<T> {
    seq(|ps|, i requires 0 <= i < |ps| => ps[i].item)
  }

  function Kept<T>(episodes: seq<T>, limit: int, hash: T -> nat): seq<Placed<T>> {
    StableSort(TakeFront(StableSort(Enumerated(episodes), ByHash(hash)), limit), ByIndex())
  }

  function Subsample<T>(episodes: seq<T>, limit: Option<int>, hash: T -> nat): seq<T> {
    if limit.None? || |episodes| <= limit.value then episodes else Items(Kept(episodes, limit.value, hash))
  }

  // ---- what sorting leaves behind -----------------------------------------------------------

  /** Earlier by hash, ties by position. */
  predicate Before<T>(a: Placed<T>, b: Placed<T>, key: Placed<T> -> nat) {
    key(a) < key(b) || (key(a) == key(b) && a.index < b.index)
  }

  ghost predicate Ordered<T>(ps: seq<Placed<T>>, key: Placed<T> -> nat) {
    forall i, j :: 0 <= i < j < |ps| ==> Before(ps[i], ps[j], key)
  }

  lemma {:induction false} InsertKeepsOrder<T>(p: Placed<T>, sorted: seq<Placed<T>>, key: Placed<T> -> nat)
    requires Ordered(sorted, key) && forall i :: 0 <= i < |sorted| ==>
               sorted[i].index < p.index || key(sorted[i]) != key(p)
    ensures Ordered(Insert(p, sorted, key), key)
    ensures multiset(Insert(p, sorted, key)) == multiset(sorted) + multiset{p}
  {
    var n := |sorted|;
    if n > 0 && key(sorted[n - 1]) > key(p) {
      var front := sorted[..n - 1];
      InsertKeepsOrder(p, front, key);
      assert sorted == front + [sorted[n - 1]];
      var inserted := Insert(p, front, key);
      forall i | 0 <= i < |inserted| ensures Before(inserted[i], sorted[n - 1], key) {
        assert inserted[i] in multiset(inserted);
        if inserted[i] != p {
          assert inserted[i] in front;
        }
      }
    } else if n > 0 {
      forall i | 0 <= i < n ensures Before(sorted[i], p, key) {
        assert i < n - 1 ==> Before(sorted[i], sorted[n - 1], key);
      }
    }
  }

  ghost predicate DistinctPlaces<T>(ps: seq<Placed<T>>) {
    forall i, j :: 0 <= i < j < |ps| ==> ps[i].index != ps[j].index
  }

  /** Ties keep their order because the list sorted is in order of position. */
  lemma {:induction false} SortOrders<T>(ps: seq<Placed<T>>, key: Placed<T> -> nat)
    requires forall i, j :: 0 <= i < j < |ps| ==> ps[i].index < ps[j].index || key(ps[i]) != key(ps[j])
    ensures Ordered(StableSort(ps, key), key) && multiset(StableSort(ps, key)) == multiset(ps)
  {
    if ps != [] {
      var n := |ps| - 1;
      SortOrders(ps[..n], key);
      var sorted := StableSort(ps[..n], key);
      forall i | 0 <= i < |sorted| ensures sorted[i].index < ps[n].index || key(sorted[i]) != key(ps[n]) {
        assert sorted[i] in multiset(sorted);
        assert sorted[i] in ps[..n];
      }
      InsertKeepsOrder(ps[n], sorted, key);
      assert ps == ps[..n] + [ps[n]];
    }
  }

  // ---- what subsampling keeps -----------------------------------------------------------------

  /** The positions kept, in order: as many as the slice takes, and each before every position dropped, by hash
      and then by position. */
  ghost predicate LowestByHash<T>(picks: seq<nat>, episodes: seq<T>, limit: int, hash: T -> nat) {
    && |picks| == SliceLength(|episodes|, limit)
    && (forall k :: 0 <= k < |picks| ==> picks[k] < |episodes|)
    && (forall k, l :: 0 <= k < l < |picks| ==> picks[k] < picks[l])
    && forall i, j :: i in picks && 0 <= j < |episodes| && j !in picks ==>
         hash(episodes[i]) < hash(episodes[j]) || (hash(episodes[i]) == hash(episodes[j]) && i < j)
  }

  function Places<T>(ps: seq<Placed<T>>): seq<nat> {
    seq(|ps|, i requires 0 <= i < |ps| => ps[i].index)
  }

  lemma PlacedInEnumerated<T>(episodes: seq<T>, p: Placed<T>)
    requires p in Enumerated(episodes)
    ensures p.index < |episodes| && p.item == episodes[p.index]
  {
  }

  lemma {:induction false} SubsampleKeepsLowest<T>(episodes: seq<T>, limit: int, hash: T -> nat)
    requires limit < |episodes|
    ensures var kept := Kept(episodes, limit, hash);
            && LowestByHash(Places(kept), episodes, limit, hash)
            && forall k :: 0 <= k < |kept| ==> kept[k].index < |episodes| && kept[k].item == episodes[kept[k].index]
  {
    hide Ordered, LowestByHash, StableSort, TakeFront, DistinctPlaces;
    var all := Enumerated(episodes);
    var ranked := StableSort(all, ByHash(hash));
    SortByHash(episodes, hash);
    var front := TakeFront(ranked, limit);
    SameElements(ranked, all);
    FrontIsPrefix(ranked, limit);
    FrontSize(ranked, episodes, limit);
    FrontOfOrdered(ranked, episodes, front, hash);
    SortByIndex(front);
    SameElements(StableSort(front, ByIndex()), front);
    KeptAreLowest(episodes, limit, hash, ranked, front, Kept(episodes, limit, hash));
  }

  lemma {:induction false} SortByHash<T>(episodes: seq<T>, hash: T -> nat)
    ensures var ranked := StableSort(Enumerated(episodes), ByHash(hash));
            Ordered(ranked, ByHash(hash)) && multiset(ranked) == multiset(Enumerated(episodes))
  {
    SortOrders(Enumerated(episodes), ByHash(hash));
  }

  lemma {:induction false} SortByIndex<T>(front: seq<Placed<T>>)
    requires DistinctPlaces(front)
    ensures Ordered(StableSort(front, ByIndex()), ByIndex()) &&
            multiset(StableSort(front, ByIndex())) == multiset(front)
  {
    SortOrders(front, ByIndex());
  }

  lemma SameElements<T>(xs: seq<T>, ys: seq<T>)
    requires multiset(xs) == multiset(ys)
    ensures |xs| == |ys| && forall x :: x in xs <==> x in ys
  {
    assert |multiset(xs)| == |xs| && |multiset(ys)| == |ys|;
    forall x ensures x in xs <==> x in ys {
      assert x in xs <==> x in multiset(xs);
      assert x in ys <==> x in multiset(ys);
    }
  }

  lemma FrontOfOrdered<T>(ranked: seq<Placed<T>>, episodes: seq<T>, front: seq<Placed<T>>, hash: T -> nat)
    requires Ordered(ranked, ByHash(hash)) && front <= ranked
    requires forall p :: p in ranked ==> p in Enumerated(episodes)
    ensures DistinctPlaces(front)
  {
    forall i, j | 0 <= i < j < |front| ensures front[i].index != front[j].index {
      assert front[i] == ranked[i] && front[j] == ranked[j];
      assert Before(ranked[i], ranked[j], ByHash(hash));
      PlacedInEnumerated(episodes, ranked[i]);
      PlacedInEnumerated(episodes, ranked[j]);
    }
  }

  lemma KeptAreLowest<T>(episodes: seq<T>, limit: int, hash: T -> nat, ranked: seq<Placed<T>>,
                         front: seq<Placed<T>>, kept: seq<Placed<T>>)
    requires |ranked| == |episodes| && Ordered(ranked, ByHash(hash))
    requires forall p :: p in ranked <==> p in Enumerated(episodes)
    requires front <= ranked && |front| == SliceLength(|episodes|, limit)
    requires Ordered(kept, ByIndex()) && |kept| == |front| && forall p :: p in kept <==> p in front
    ensures LowestByHash(Places(kept), episodes, limit, hash)
    ensures forall k :: 0 <= k < |kept| ==> kept[k].index < |episodes| && kept[k].item == episodes[kept[k].index]
  {
    var picks := Places(kept);
    forall k | 0 <= k < |kept| ensures kept[k].index < |episodes| && kept[k].item == episodes[kept[k].index] {
      assert kept[k] in kept;
      assert kept[k] in front;
      assert kept[k] in ranked;
      PlacedInEnumerated(episodes, kept[k]);
    }
    forall k, l | 0 <= k < l < |picks| ensures picks[k] < picks[l] {
      assert Before(kept[k], kept[l], ByIndex());
    }
    forall i, j | i in picks && 0 <= j < |episodes| && j !in picks
      ensures hash(episodes[i]) < hash(episodes[j]) || (hash(episodes[i]) == hash(episodes[j]) && i < j)
    {
      var k :| 0 <= k < |picks| && picks[k] == i;
      assert forall l :: 0 <= l < |kept| ==> kept[l].index == picks[l] && picks[l] in picks;
      DroppedComesLater(episodes, hash, ranked, front, kept, kept[k], j);
    }
  }

  lemma DroppedComesLater<T>(episodes: seq<T>, hash: T -> nat, ranked: seq<Placed<T>>, front: seq<Placed<T>>,
                             kept: seq<Placed<T>>, p: Placed<T>, j: nat)
    requires Ordered(ranked, ByHash(hash)) && front <= ranked
    requires forall q :: q in Enumerated(episodes) ==> q in ranked
    requires forall q :: q in kept <==> q in front
    requires p in kept && j < |episodes| && forall k :: 0 <= k < |kept| ==> kept[k].index != j
    ensures Before(p, Placed(j, episodes[j]), ByHash(hash))
  {
    var q := Placed(j, episodes[j]);
    assert Enumerated(episodes)[j] == q;
    assert q in ranked && q !in kept && p in front;
    assert forall x :: 0 <= x < |front| ==> ranked[x] == front[x] && front[x] in front;
    var a :| 0 <= a < |front| && front[a] == p;
    var b :| 0 <= b < |ranked| && ranked[b] == q;
    assert Before(ranked[a], ranked[b], ByHash(hash));
  }

  lemma FrontIsPrefix<T>(xs: seq<T>, limit: int)
    ensures TakeFront(xs, limit) <= xs && |TakeFront(xs, limit)| == SliceLength(|xs|, limit)
  {
  }

  lemma FrontSize<T, U>(xs: seq<T>, ys: seq<U>, limit: int)
    requires |xs| == |ys|
    ensures |TakeFront(xs, limit)| == |TakeFront(ys, limit)|
  {
  }

  ghost predicate Increasing(xs: seq<nat>) {
    forall k, l :: 0 <= k < l < |xs| ==> xs[k] < xs[l]
  }

  /** Increasing lists of one length: if the first is contained in the second, they are the same. */
  lemma {:induction false} ContainedIsEqual(a: seq<nat>, b: seq<nat>)
    requires Increasing(a) && Increasing(b) && |a| == |b|
    requires forall k :: 0 <= k < |a| ==> a[k] in b
    ensures a == b
  {
    if a != [] {
      var n := |a| - 1;
      var top :| 0 <= top <= n && b[top] == a[n];
      forall k | 0 <= k < n ensures a[k] in b[..n] {
        var l :| 0 <= l <= n && b[l] == a[k];
        assert l < top;
        assert b[..n][l] == a[k];
      }
      ContainedIsEqual(a[..n], b[..n]);
      forall k | 0 <= k < n ensures b[k] < a[n] {
        assert b[k] == b[..n][k] == a[..n][k] == a[k];
      }
      assert a == a[..n] + [a[n]] && b == b[..n] + [b[n]];
    }
  }

  /** No other positions, in order, are the lowest. */
  lemma LowestIsUnique<T>(a: seq<nat>, b: seq<nat>, episodes: seq<T>, limit: int, hash: T -> nat)
    requires LowestByHash(a, episodes, limit, hash) && LowestByHash(b, episodes, limit, hash)
    ensures a == b
  {
    if forall k :: 0 <= k < |a| ==> a[k] in b {
      ContainedIsEqual(a, b);
    } else {
      var k :| 0 <= k < |a| && a[k] !in b;
      forall l | 0 <= l < |b| ensures b[l] in a {
        assert a[k] in a && b[l] in b;
      }
      ContainedIsEqual(b, a);
    }
  }

  function At<T>(episodes: seq<T>, picks: seq<nat>): seq<T>
    requires forall k :: 0 <= k < |picks| ==> picks[k] < |episodes|
  {
    seq(|picks|, k requires 0 <= k < |picks| => episodes[picks[k]])
  }

  /** So the sample is the run at those positions: a subsequence of it, in its order. */
  lemma SubsampleIsTheLowest<T>(episodes: seq<T>, limit: int, hash: T -> nat, picks: seq<nat>)
    requires limit < |episodes| && LowestByHash(picks, episodes, limit, hash)
    ensures Subsample(episodes, Some(limit), hash) == At(episodes, picks)
  {
    hide Kept;
    SubsampleKeepsLowest(episodes, limit, hash);
    LowestIsUnique(picks, Places(Kept(episodes, limit, hash)), episodes, limit, hash);
  }

  // ---- splitting ----------------------------------------------------------------------------------

  datatype SplitError = BadFraction | EmptySide(train: nat, test: nat)

  /** The episodes on one side, in order. */
  function Side<T>(episodes: seq<T>, bucket: T -> real, fraction: real, training: bool): seq<T> {
    if episodes == [] then []
    else
      var e := episodes[|episodes| - 1];
      Side(episodes[..|episodes| - 1], bucket, fraction, training) +
          (if (bucket(e) < fraction) == training then [e] else [])
  }

  method TrainTestSplit<T>(episodes: seq<T>, fraction: real, bucket: T -> real)
    returns (sides: Result<(seq<T>, seq<T>), SplitError>)
    ensures sides == Err(BadFraction) <==> !(0.0 < fraction < 1.0)
    ensures 0.0 < fraction < 1.0 ==>
              var train, test := Side(episodes, bucket, fraction, true), Side(episodes, bucket, fraction, false);
              sides == if train == [] || test == [] then Err(EmptySide(|train|, |test|)) else Ok((train, test))
  {
    if !(0.0 < fraction < 1.0) {
      return Err(BadFraction);
    }
    var train: seq<T>, test: seq<T> := [], [];
    for i := 0 to |episodes|
      invariant train == Side(episodes[..i], bucket, fraction, true)
      invariant test == Side(episodes[..i], bucket, fraction, false)
    {
      assert episodes[..i + 1][..i] == episodes[..i];
      if bucket(episodes[i]) < fraction {
        train := train + [episodes[i]];
      } else {
        test := test + [episodes[i]];
      }
    }
    assert episodes[..|episodes|] == episodes;
    if |train| == 0 || |test| == 0 {
      return Err(EmptySide(|train|, |test|));
    }
    sides := Ok((train, test));
  }

  /** Which side an element is on is a matter of that element alone, and nothing is lost or repeated. */
  lemma {:induction false} SideCounts<T>(episodes: seq<T>, bucket: T -> real, fraction: real, training: bool, e: T)
    ensures multiset(Side(episodes, bucket, fraction, training))[e] ==
            if (bucket(e) < fraction) == training then multiset(episodes)[e] else 0
  {
    if episodes != [] {
      var front, last := episodes[..|episodes| - 1], episodes[|episodes| - 1];
      SideCounts(front, bucket, fraction, training, e);
      assert episodes == front + [last];
    }
  }

  lemma SplitIsPartition<T(!new)>(episodes: seq<T>, bucket: T -> real, fraction: real)
    ensures var train, test := Side(episodes, bucket, fraction, true), Side(episodes, bucket, fraction, false);
            && multiset(train) + multiset(test) == multiset(episodes)
            && forall e :: !(e in train && e in test)
  {
    hide Side;
    var train, test := Side(episodes, bucket, fraction, true), Side(episodes, bucket, fraction, false);
    forall e: T ensures (multiset(train) + multiset(test))[e] == multiset(episodes)[e] && !(e in train && e in test) {
      SideCounts(episodes, bucket, fraction, true, e);
      SideCounts(episodes, bucket, fraction, false, e);
      assert e in train <==> e in multiset(train);
      assert e in test <==> e in multiset(test);
    }
  }

  /** Reordering the episodes only reorders each side. */
  lemma {:induction false} ReorderingReordersSides<T(!new)>(episodes: seq<T>, others: seq<T>, bucket: T -> real,
                                                            fraction: real, training: bool)
    requires multiset(episodes) == multiset(others)
    ensures multiset(Side(episodes, bucket, fraction, training)) == multiset(Side(others, bucket, fraction, training))
  {
    hide Side;
    var a, b := multiset(Side(episodes, bucket, fraction, training)),
        multiset(Side(others, bucket, fraction, training));
    forall e: T ensures a[e] == b[e] {
      SideCounts(episodes, bucket, fraction, training, e);
      SideCounts(others, bucket, fraction, training, e);
    }
  }

  /** Each side is the run's order restricted to it: splitting a longer run extends the sides of a shorter one. */
  lemma {:induction false} SidesExtend<T>(episodes: seq<T>, more: seq<T>, bucket: T -> real, fraction: real,
                                          training: bool)
    ensures Side(episodes + more, bucket, fraction, training)
         == Side(episodes, bucket, fraction, training) + Side(more, bucket, fraction, training)
  {
    if more == [] {
      assert episodes + more == episodes;
    } else {
      var n := |more| - 1;
      SidesExtend(episodes, more[..n], bucket, fraction, training);
      assert (episodes + more)[..|episodes + more| - 1] == episodes + more[..n];
    }
  }
}
