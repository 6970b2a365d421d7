/**
  The ordering step of the recommender: `(position, score)` pairs sorted by
  score, highest first, with a stable sort, so that pairs of equal score
  keep the order they had, which is corpus order.
 */
module Ranking {

  /** A cluster member's position within its cluster and its similarity to
      the query. */
  datatype Scored = Scored(pos: nat, score: real)

  /** Scores never increase along `r`. */
  predicate NonIncreasing(r: seq<Scored>)
  {
    forall i, j :: 0 <= i < j < |r| ==> r[i].score >= r[j].score
  }

  /** `a` comes before `b` in a stable descending order over inputs listed
      by position: higher score first, ties by smaller position. */
  predicate Precedes(a: Scored, b: Scored)
  {
    a.score > b.score || (a.score == b.score && a.pos < b.pos)
  }

  /** Every pair of `r` is in `Precedes` order. */
  predicate StablyOrdered(r: seq<Scored>)
  {
    forall i, j :: 0 <= i < j < |r| ==> Precedes(r[i], r[j])
  }

  /** Positions strictly increase along `xs`, as they do for `enumerate`. */
  predicate InPositionOrder(xs: seq<Scored>)
  {
    forall i, j :: 0 <= i < j < |xs| ==> xs[i].pos < xs[j].pos
  }

  /** Puts `x` in front of the first element whose score it reaches, so that
      it lands after every higher score and before every equal one. */
  function Insert(x: Scored, ys: seq<Scored>): (r: seq<Scored>)
    ensures |r| == |ys| + 1
    ensures multiset(r) == multiset(ys) + multiset{x}
    ensures forall e :: e in r <==> e == x || e in ys
  {
    if |ys| == 0 || x.score >= ys[0].score then [x] + ys
    else
      assert ys == [ys[0]] + ys[1..];
      [ys[0]] + Insert(x, ys[1..])
  }

  /** Inserting into a list sorted by descending score keeps it sorted. */
  lemma {:induction false} InsertNonIncreasing(x: Scored, ys: seq<Scored>)
    requires NonIncreasing(ys)
    ensures NonIncreasing(Insert(x, ys))
  {
    if |ys| > 0 && x.score < ys[0].score {
      InsertNonIncreasing(x, ys[1..]);
      var t := Insert(x, ys[1..]);
      assert forall e | e in t :: e.score <= ys[0].score;
      assert Insert(x, ys) == [ys[0]] + t;
    }
  }

  /** Inserting an element whose position precedes every other keeps a
      stably ordered list stably ordered: it goes after all higher scores
      and, among equal scores, first. */
  lemma {:induction false} InsertStable(x: Scored, ys: seq<Scored>)
    requires StablyOrdered(ys)
    requires forall e | e in ys :: x.pos < e.pos
    ensures StablyOrdered(Insert(x, ys))
  {
    if |ys| > 0 && x.score < ys[0].score {
      assert forall e | e in ys[1..] :: e in ys;
      InsertStable(x, ys[1..]);
      var t := Insert(x, ys[1..]);
      assert forall e | e in t :: Precedes(ys[0], e);
      assert Insert(x, ys) == [ys[0]] + t;
    } else if |ys| > 0 {
      assert forall e | e in ys :: Precedes(x, e);
    }
  }

  /** Python's `sorted(xs, key=score, reverse=True)`: an insertion sort that
      inserts each head in front of its equals, so the sort is stable. */
  function SortByScoreDesc(xs: seq<Scored>): (r: seq<Scored>)
    ensures |r| == |xs|
    ensures multiset(r) == multiset(xs)
    ensures forall e :: e in r <==> e in xs
    ensures NonIncreasing(r)
    ensures InPositionOrder(xs) ==> StablyOrdered(r)
  {
    if |xs| == 0 then []
    else
      var x, tail := xs[0], xs[1..];
      assert xs == [x] + tail;
      var rest := SortByScoreDesc(tail);
      InsertNonIncreasing(x, rest);
      assert InPositionOrder(xs) ==> StablyOrdered(Insert(x, rest)) by {
        if InPositionOrder(xs) {
          assert InPositionOrder(tail);
          assert forall e | e in rest :: x.pos < e.pos;
          InsertStable(x, rest);
        }
      }
      Insert(x, rest)
  }

  /** There is only one stably ordered arrangement of a given multiset of
      pairs, so any two stably ordered permutations of each other coincide. */
  lemma {:induction false} StablyOrderedUnique(a: seq<Scored>, b: seq<Scored>)
    requires multiset(a) == multiset(b)
    requires StablyOrdered(a) && StablyOrdered(b)
    ensures a == b
  {
    if |a| == 0 {
      assert |b| == |multiset(b)| == 0;
    } else {
      assert |b| == |multiset(b)| == |a|;
      assert a[0] in multiset(b);
      assert b[0] in multiset(a);
      assert a[0] == b[0];
      assert a == [a[0]] + a[1..];
      assert b == [b[0]] + b[1..];
      assert multiset(a[1..]) == multiset(a) - multiset{a[0]};
      assert multiset(b[1..]) == multiset(b) - multiset{b[0]};
      StablyOrderedUnique(a[1..], b[1..]);
    }
  }

  /** The sort is the unique stably ordered permutation of an input listed
      by position: any arrangement with those two properties equals it. */
  lemma SortIsTheStableOrder(xs: seq<Scored>, r: seq<Scored>)
    requires InPositionOrder(xs)
    requires multiset(r) == multiset(xs)
    requires StablyOrdered(r)
    ensures r == SortByScoreDesc(xs)
  {
    StablyOrderedUnique(r, SortByScoreDesc(xs));
  }
}
