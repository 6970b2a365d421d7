/**
  The query side of the recommender: a title is looked up in the title
  index, the films sharing the query film's cluster label are collected in
  corpus order, scored against the query, stably sorted by descending
  score, the first-ranked one is dropped and the next `n` are returned as
  corpus indices with their titles.

  Similarities (the cosine similarity of TF-IDF vectors) and cluster labels
  (the k-means assignment) are inputs: `sim(q, j)` is the score of film `j`
  against query film `q`, and `Item.cluster` is a film's label.
 */
module Recommender {
  import opened PySeq
  import opened Ranking

  /** One film of the corpus, at its corpus index: its title and the label
      of the cluster it was assigned to. */
  datatype Item = Item(title: string, cluster: nat)

  /** One recommended film: its corpus index and its title. */
  datatype Recommendation = Recommendation(index: nat, title: string)

  /** The answer to a query: a not-found message, or the ranked films. */
  datatype Answer = NotFound(message: string) | Found(recs: seq<Recommendation>)

  /** The message returned for a title that is not in the corpus. */
  const NotFoundMessage: string := "Film bulunamad\U{0131}."

  /** Some film of the corpus carries title `t`. */
  predicate HasTitle(c: seq<Item>, t: string)
  {
    exists i :: 0 <= i < |c| && c[i].title == t
  }

  /** Film `a` ranks above film `b` for query `q`: it is more similar to the
      query, or equally similar and earlier in the corpus. */
  predicate RanksAbove(sim: (nat, nat) -> real, q: nat, a: nat, b: nat)
  {
    sim(q, a) > sim(q, b) || (sim(q, a) == sim(q, b) && a < b)
  }

  // ---------------------------------------------------------------------
  // Title index

  /** The title index: every title of the corpus mapped to the corpus index
      of its first occurrence. */
  function TitleIndex(c: seq<Item>): (m: map<string, nat>)
    ensures forall t :: t in m <==> HasTitle(c, t)
    ensures forall t | t in m :: m[t] < |c| && c[m[t]].title == t
    ensures forall t | t in m :: forall j :: 0 <= j < m[t] ==> c[j].title != t
  {
    if |c| == 0 then map[]
    else
      var init := c[..|c| - 1];
      var m := TitleIndex(init);
      var last := c[|c| - 1];
      assert forall j :: 0 <= j < |init| ==> init[j] == c[j];
      assert forall t :: HasTitle(c, t) <==> HasTitle(init, t) || last.title == t;
      if last.title in m then m else m[last.title := |c| - 1]
  }

  /** The lookup as the code performs it: every corpus index carrying title
      `t`, in corpus order. */
  function MatchingIndices(c: seq<Item>, t: string): (r: seq<nat>)
    ensures forall k :: 0 <= k < |r| ==> r[k] < |c| && c[r[k]].title == t
    ensures forall i :: 0 <= i < |c| && c[i].title == t ==> i in r
  {
    if |c| == 0 then []
    else
      var init := c[..|c| - 1];
      assert forall j :: 0 <= j < |init| ==> init[j] == c[j];
      MatchingIndices(init, t) + (if c[|c| - 1].title == t then [|c| - 1] else [])
  }

  /** With two films of the same title the code's lookup yields more than
      one index, where a single one is needed to pick the query's cluster. */
  lemma DuplicateTitleIsAmbiguous(c: seq<Item>, i: nat, j: nat)
    requires i < j < |c| && c[i].title == c[j].title
    ensures |MatchingIndices(c, c[i].title)| >= 2
  {
  }

  /** The keep-first index resolves a duplicated title to its first film. */
  lemma TitleIndexKeepsFirst(c: seq<Item>, i: nat, j: nat)
    requires i < j < |c| && c[i].title == c[j].title
    ensures TitleIndex(c)[c[j].title] <= i
    ensures TitleIndex(c)[c[j].title] != j
  {
  }

  // ---------------------------------------------------------------------
  // Cluster restriction

  /** The corpus indices of the films labelled `cid`, in corpus order. */
  function ClusterMembers(c: seq<Item>, cid: nat): (r: seq<nat>)
    ensures forall k :: 0 <= k < |r| ==> r[k] < |c| && c[r[k]].cluster == cid
    ensures forall k, l :: 0 <= k < l < |r| ==> r[k] < r[l]
    ensures forall i :: 0 <= i < |c| && c[i].cluster == cid ==> i in r
  {
    if |c| == 0 then []
    else
      var init := c[..|c| - 1];
      assert forall j :: 0 <= j < |init| ==> init[j] == c[j];
      ClusterMembers(init, cid) + (if c[|c| - 1].cluster == cid then [|c| - 1] else [])
  }

  /** The position of `q` among the cluster members (pandas' `get_loc`). */
  function PositionOf(members: seq<nat>, q: nat): (p: nat)
    requires q in members
    ensures p < |members| && members[p] == q
    ensures q !in members[..p]
  {
    if members[0] == q then 0
    else
      assert members == [members[0]] + members[1..];
      var p := PositionOf(members[1..], q);
      assert members[..p + 1] == [members[0]] + members[1..][..p];
      p + 1
  }

  /** The query film's cluster, as corpus indices in corpus order. */
  function Members(c: seq<Item>, q: nat): (r: seq<nat>)
    requires q < |c|
    ensures q in r
  {
    ClusterMembers(c, c[q].cluster)
  }

  /** The similarity row of the query against its cluster, paired with each
      member's position (`list(enumerate(row))`). */
  function ClusterScores(members: seq<nat>, qpos: nat, sim: (nat, nat) -> real): (s: seq<Scored>)
    requires qpos < |members|
    ensures |s| == |members|
    ensures InPositionOrder(s)
    ensures forall p :: 0 <= p < |s| ==> s[p] == Scored(p, sim(members[qpos], members[p]))
  {
    seq(|members|, p requires 0 <= p < |members| => Scored(p, sim(members[qpos], members[p])))
  }

  /** The whole cluster stably sorted by descending similarity to `q`. */
  function Ordering(c: seq<Item>, sim: (nat, nat) -> real, q: nat): (r: seq<Scored>)
    requires q < |c|
    ensures |r| == |Members(c, q)|
    ensures forall i :: 0 <= i < |r| ==> r[i].pos < |Members(c, q)|
    ensures forall i :: 0 <= i < |r| ==> r[i].score == sim(q, Members(c, q)[r[i].pos])
  {
    var members := Members(c, q);
    var qpos := PositionOf(members, q);
    var r := SortByScoreDesc(ClusterScores(members, qpos, sim));
    assert forall i :: 0 <= i < |r| ==> r[i] in ClusterScores(members, qpos, sim);
    r
  }

  /** The similarity ranker: the cluster ordering with its first entry
      dropped and the next `n` kept (`ordering[1:n + 1]`), mapped back to
      corpus indices. */
  function Rank(c: seq<Item>, sim: (nat, nat) -> real, q: nat, n: int): (r: seq<nat>)
    requires q < |c|
    ensures |r| == |Slice(Ordering(c, sim, q), 1, n + 1)|
    ensures forall k :: 0 <= k < |r| ==> r[k] < |c| && c[r[k]].cluster == c[q].cluster
  {
    var members := Members(c, q);
    var kept := Slice(Ordering(c, sim, q), 1, n + 1);
    assert forall k :: 0 <= k < |kept| ==> kept[k].pos < |members|;
    seq(|kept|, k requires 0 <= k < |kept| => members[kept[k].pos])
  }

  // ---------------------------------------------------------------------
  // Recommendation service

  /** `onerileri_getir(title, n)`: an unknown title yields the not-found
      message; a known one yields the ranked films of its first occurrence,
      each with its title. */
  function Recommend(c: seq<Item>, sim: (nat, nat) -> real, title: string, n: int): (r: Answer)
    ensures r.NotFound? <==> !HasTitle(c, title)
    ensures r.NotFound? ==> r.message == NotFoundMessage
    ensures r.Found? ==> title in TitleIndex(c)
    ensures r.Found? ==> var ranked := Rank(c, sim, TitleIndex(c)[title], n);
                         && |r.recs| == |ranked|
                         && forall k :: 0 <= k < |r.recs| ==>
                              r.recs[k].index == ranked[k] && r.recs[k].index < |c|
                              && r.recs[k].title == c[r.recs[k].index].title
  {
    var index := TitleIndex(c);
    if title !in index then NotFound(NotFoundMessage)
    else
      var q := index[title];
      var ranked := Rank(c, sim, q, n);
      Found(WithTitles(c, ranked))
  }

  /** Corpus indices paired with their titles (`df['title'].iloc[indices]`). */
  function WithTitles(c: seq<Item>, indices: seq<nat>): (r: seq<Recommendation>)
    requires forall k :: 0 <= k < |indices| ==> indices[k] < |c|
    ensures |r| == |indices|
    ensures forall k :: 0 <= k < |r| ==> r[k].index == indices[k] && r[k].title == c[indices[k]].title
  {
    seq(|indices|, k requires 0 <= k < |indices| => Recommendation(indices[k], c[indices[k]].title))
  }

  // ---------------------------------------------------------------------
  // Properties of the ranking

  /** Facts about the cluster ordering the other lemmas build on: it is
      stably ordered, and it lists every cluster member exactly once. */
  lemma OrderingFacts(c: seq<Item>, sim: (nat, nat) -> real, q: nat)
    requires q < |c|
    ensures StablyOrdered(Ordering(c, sim, q))
    ensures forall p :: 0 <= p < |Members(c, q)| ==> Scored(p, sim(q, Members(c, q)[p])) in Ordering(c, sim, q)
  {
  }

  /** Entry `k` of the ranking is the member at rank `k + 1` of the cluster
      ordering, and its similarity is that entry's score. */
  lemma RankEntry(c: seq<Item>, sim: (nat, nat) -> real, q: nat, n: int, k: nat)
    requires q < |c|
    requires k < |Rank(c, sim, q, n)|
    ensures 1 + k < |Ordering(c, sim, q)|
    ensures Rank(c, sim, q, n)[k] == Members(c, q)[Ordering(c, sim, q)[1 + k].pos]
    ensures sim(q, Rank(c, sim, q, n)[k]) == Ordering(c, sim, q)[1 + k].score
  {
  }

  /** Two entries of the ranking compare as their cluster-ordering entries
      do: higher similarity first, ties in corpus order. */
  lemma RankPair(c: seq<Item>, sim: (nat, nat) -> real, q: nat, n: int, k: nat, l: nat)
    requires q < |c|
    requires k < l < |Rank(c, sim, q, n)|
    ensures var r := Rank(c, sim, q, n);
            RanksAbove(sim, q, r[k], r[l])
  {
    OrderingFacts(c, sim, q);
    RankEntry(c, sim, q, n, k);
    RankEntry(c, sim, q, n, l);
    assert Precedes(Ordering(c, sim, q)[1 + k], Ordering(c, sim, q)[1 + l]);
  }

  /** The ranked films are in descending similarity to the query, and films
      of equal similarity appear in corpus order; hence no film appears twice. */
  lemma RankOrdered(c: seq<Item>, sim: (nat, nat) -> real, q: nat, n: int)
    requires q < |c|
    ensures var r := Rank(c, sim, q, n);
            forall k, l :: 0 <= k < l < |r| ==> RanksAbove(sim, q, r[k], r[l])
    ensures var r := Rank(c, sim, q, n);
            forall k, l :: 0 <= k < l < |r| ==> r[k] != r[l]
  {
    var r := Rank(c, sim, q, n);
    forall k, l | 0 <= k < l < |r|
      ensures RanksAbove(sim, q, r[k], r[l]) && r[k] != r[l]
    {
      RankPair(c, sim, q, n, k, l);
    }
  }

  /** The number of films returned: `min(n, size - 1)` for `n >= 0`, where
      `size` counts the query's cluster including the query, so a singleton
      cluster yields none; Python's negative slice bound gives none for
      `n == -1` and `size + n` (if positive) for smaller `n`. */
  lemma RankCount(c: seq<Item>, sim: (nat, nat) -> real, q: nat, n: int)
    requires q < |c|
    ensures var size := |Members(c, q)|;
            size >= 1
            && (n >= 0 ==> |Rank(c, sim, q, n)| == Min(n, size - 1))
            && (n == -1 ==> |Rank(c, sim, q, n)| == 0)
            && (n < -1 ==> |Rank(c, sim, q, n)| == Max(0, size + n))
  {
  }

  /** The earliest cluster member among those most similar to the query: the
      film the ranker drops as rank 0. */
  function Leader(c: seq<Item>, sim: (nat, nat) -> real, q: nat): (d: nat)
    requires q < |c|
    ensures d < |c| && c[d].cluster == c[q].cluster
    ensures forall j :: 0 <= j < |c| && c[j].cluster == c[q].cluster ==>
              j == d || RanksAbove(sim, q, d, j)
  {
    HeadRanksFirst(c, sim, q);
    Members(c, q)[Ordering(c, sim, q)[0].pos]
  }

  /** Every film of the query's cluster has an entry in the cluster ordering. */
  lemma EntryOf(c: seq<Item>, sim: (nat, nat) -> real, q: nat, j: nat) returns (i: nat)
    requires q < |c|
    requires j < |c| && c[j].cluster == c[q].cluster
    ensures i < |Ordering(c, sim, q)| && Members(c, q)[Ordering(c, sim, q)[i].pos] == j
  {
    OrderingFacts(c, sim, q);
    var members := Members(c, q);
    var o := Ordering(c, sim, q);
    assert j in members;
    var p :| 0 <= p < |members| && members[p] == j;
    var e := Scored(p, sim(q, members[p]));
    assert e in o;
    i :| 0 <= i < |o| && o[i] == e;
  }

  /** The film at rank 0 of the cluster ordering ranks above every other
      film of the cluster. */
  lemma HeadRanksFirst(c: seq<Item>, sim: (nat, nat) -> real, q: nat)
    requires q < |c|
    ensures |Ordering(c, sim, q)| >= 1
    ensures var d := Members(c, q)[Ordering(c, sim, q)[0].pos];
            forall j :: 0 <= j < |c| && c[j].cluster == c[q].cluster ==>
              j == d || RanksAbove(sim, q, d, j)
  {
    var members := Members(c, q);
    var o := Ordering(c, sim, q);
    var d := members[o[0].pos];
    forall j | 0 <= j < |c| && c[j].cluster == c[q].cluster
      ensures j == d || RanksAbove(sim, q, d, j)
    {
      var i := EntryOf(c, sim, q, j);
      if i > 0 {
        OrderingFacts(c, sim, q);
        assert Precedes(o[0], o[i]);
      }
    }
  }

  /** The ranked films are exactly the best of the cluster after the leader:
      every cluster member left out (other than the leader) ranks below
      every film returned. */
  lemma RankIsTopOfCluster(c: seq<Item>, sim: (nat, nat) -> real, q: nat, n: int, j: nat)
    requires q < |c|
    requires j < |c| && c[j].cluster == c[q].cluster
    ensures j != Leader(c, sim, q) && j !in Rank(c, sim, q, n) ==>
              forall k :: 0 <= k < |Rank(c, sim, q, n)| ==>
                RanksAbove(sim, q, Rank(c, sim, q, n)[k], j)
  {
    var r := Rank(c, sim, q, n);
    if j != Leader(c, sim, q) && j !in r {
      OrderingFacts(c, sim, q);
      var o := Ordering(c, sim, q);
      var i := EntryOf(c, sim, q, j);
      assert i != 0;
      assert i > |r| by {
        if i <= |r| {
          RankEntry(c, sim, q, n, i - 1);
        }
      }
      forall k | 0 <= k < |r|
        ensures RanksAbove(sim, q, r[k], j)
      {
        RankEntry(c, sim, q, n, k);
        assert Precedes(o[1 + k], o[i]);
      }
    }
  }

  /** The dropped rank-0 film is the leader; when the query is strictly the
      most similar film of its cluster (as self-similarity 1.0 normally
      makes it), the query is the one dropped and never recommended. */
  lemma RankDropsLeader(c: seq<Item>, sim: (nat, nat) -> real, q: nat, n: int)
    requires q < |c|
    ensures Leader(c, sim, q) !in Rank(c, sim, q, n)
    ensures (forall j :: 0 <= j < |c| && j != q && c[j].cluster == c[q].cluster ==> sim(q, q) > sim(q, j))
              ==> q !in Rank(c, sim, q, n)
  {
  }

  /** With a count that keeps the whole cluster after rank 0, the query is
      missing from its own list exactly when it is the leader: the earliest
      of the films most similar to it. */
  lemma QueryDroppedIffLeader(c: seq<Item>, sim: (nat, nat) -> real, q: nat, n: int)
    requires q < |c|
    requires n >= |Members(c, q)| - 1
    ensures q !in Rank(c, sim, q, n) <==> Leader(c, sim, q) == q
  {
    RankDropsLeader(c, sim, q, n);
    if Leader(c, sim, q) != q {
      var i := EntryOf(c, sim, q, q);
      assert i != 0;
      RankCount(c, sim, q, n);
      RankEntry(c, sim, q, n, i - 1);
    }
  }

  // ---------------------------------------------------------------------
  // Properties of the service

  /** An unknown title is answered with the not-found message, which a
      caller can tell apart from an empty list of recommendations. */
  lemma UnknownTitleNotFound(c: seq<Item>, sim: (nat, nat) -> real, title: string, n: int)
    requires !HasTitle(c, title)
    ensures Recommend(c, sim, title, n) == NotFound(NotFoundMessage)
    ensures Recommend(c, sim, title, n) != Found([])
  {
  }

  /** A strictly increasing sequence of naturals spreads at least one unit
      per step from its first to its last element. */
  lemma {:induction false} SpreadOfIncreasing(m: seq<nat>)
    requires |m| >= 1
    requires forall k, l :: 0 <= k < l < |m| ==> m[k] < m[l]
    ensures m[|m| - 1] - m[0] >= |m| - 1
  {
    if |m| > 1 {
      var init := m[..|m| - 1];
      SpreadOfIncreasing(init);
      assert m[|m| - 2] < m[|m| - 1];
    }
  }

  /** A film that is the first with its title and alone in its cluster gets
      an empty list for every count, not the not-found answer. */
  lemma SingletonClusterYieldsEmpty(c: seq<Item>, sim: (nat, nat) -> real, q: nat, n: int)
    requires q < |c|
    requires TitleIndex(c)[c[q].title] == q
    requires forall j :: 0 <= j < |c| && j != q ==> c[j].cluster != c[q].cluster
    ensures Recommend(c, sim, c[q].title, n) == Found([])
  {
    assert HasTitle(c, c[q].title);
    var m := Members(c, q);
    SpreadOfIncreasing(m);
    assert m[0] == q && m[|m| - 1] == q;
    RankCount(c, sim, q, n);
  }

  /** Distinct cluster positions hold distinct films. */
  lemma MembersInjective(c: seq<Item>, q: nat, a: nat, b: nat)
    requires q < |c|
    requires a < |Members(c, q)| && b < |Members(c, q)|
    requires Members(c, q)[a] == Members(c, q)[b]
    ensures a == b
  {
  }

  /** Distinct entries of the cluster ordering carry distinct positions. */
  lemma OrderingPositionsDistinct(c: seq<Item>, sim: (nat, nat) -> real, q: nat, a: nat, b: nat)
    requires q < |c|
    requires a < |Ordering(c, sim, q)| && b < |Ordering(c, sim, q)|
    requires Ordering(c, sim, q)[a].pos == Ordering(c, sim, q)[b].pos
    ensures a == b
  {
    OrderingFacts(c, sim, q);
  }

  /** Under the hypotheses of the tie lemma below, any entry of the cluster
      ordering ahead of the query's own entry is the tied earlier film `j`. */
  lemma AheadOfTiedQuery(c: seq<Item>, sim: (nat, nat) -> real, q: nat, j: nat, i: nat, t: nat)
    requires q < |c| && j < q && c[j].cluster == c[q].cluster
    requires forall m :: 0 <= m < |c| && m != j && m != q && c[m].cluster == c[q].cluster ==> sim(q, m) < sim(q, q)
    requires t < i < |Ordering(c, sim, q)|
    requires Members(c, q)[Ordering(c, sim, q)[i].pos] == q
    ensures Members(c, q)[Ordering(c, sim, q)[t].pos] == j
  {
  }

  /** With a tie at the top, rank 0 is the earlier film, so a film can be
      recommended to itself: when exactly one earlier film of the cluster is
      as similar to the query as the query itself, and every other film is
      less similar, that earlier film is dropped and the query comes first. */
  lemma TiedQueryIsRecommendedToItself(c: seq<Item>, sim: (nat, nat) -> real, q: nat, n: int, j: nat)
    requires q < |c| && j < q && c[j].cluster == c[q].cluster
    requires sim(q, j) == sim(q, q)
    requires forall m :: 0 <= m < |c| && m != j && m != q && c[m].cluster == c[q].cluster ==> sim(q, m) < sim(q, q)
    requires n >= 1
    ensures |Rank(c, sim, q, n)| >= 1 && Rank(c, sim, q, n)[0] == q
  {
    var o := Ordering(c, sim, q);
    var d := Leader(c, sim, q);
    assert d == j;
    var i := EntryOf(c, sim, q, q);
    assert i != 0;
    AheadOfTiedQuery(c, sim, q, j, i, i - 1);
    MembersInjective(c, q, o[0].pos, o[i - 1].pos);
    OrderingPositionsDistinct(c, sim, q, 0, i - 1);
    assert i == 1;
    RankCount(c, sim, q, n);
    RankEntry(c, sim, q, n, 0);
  }
}
