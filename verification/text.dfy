/**
  The two string operations the document builder depends on: Python's
  `' '.join(xs)` and `s.split(' ')` (an explicit single-space separator, so
  empty pieces are kept). Splitting undoes joining whenever no piece holds a
  space, which is what makes a built document decomposable again.
 */
module Text {

  /** `' '.join(xs)`: the pieces in order with one space between neighbours. */
  function Join(xs: seq<string>): (r: string)
    ensures |xs| == 0 ==> r == ""
    ensures |xs| == 1 ==> r == xs[0]
    ensures |xs| >= 1 && SpaceFree(xs) ==> Spaces(r) == |xs| - 1
  {
    if |xs| == 0 then ""
    else
      assert ' ' !in xs[0] ==> Spaces(xs[0]) == 0 by {
        if ' ' !in xs[0] { SpacesOfSpaceFree(xs[0]); }
      }
      if |xs| == 1 then xs[0]
      else
        var rest := Join(xs[1..]);
        SpacesAppend(xs[0], " ");
        SpacesAppend(xs[0] + " ", rest);
        assert SpaceFree(xs) ==> SpaceFree(xs[1..]);
        xs[0] + " " + rest
  }

  /** Joining two non-empty lists is joining each and putting one space
      between the results. */
  lemma {:induction false} JoinAppend(a: seq<string>, b: seq<string>)
    requires |a| >= 1 && |b| >= 1
    ensures Join(a + b) == Join(a) + " " + Join(b)
  {
    assert (a + b)[0] == a[0];
    if |a| == 1 {
      assert (a + b)[1..] == b;
    } else {
      assert (a + b)[1..] == a[1..] + b;
      JoinAppend(a[1..], b);
    }
  }

  /** `s.split(' ')`: the maximal space-free runs of `s`, one more than the
      number of spaces in `s`, empty runs included. */
  function Split(s: string): (r: seq<string>)
    ensures |r| >= 1
    ensures forall k :: 0 <= k < |r| ==> ' ' !in r[k]
    ensures |r| == Spaces(s) + 1
  {
    if |s| == 0 then [""]
    else if s[0] == ' ' then [""] + Split(s[1..])
    else
      var rest := Split(s[1..]);
      [[s[0]] + rest[0]] + rest[1..]
  }

  /** Number of space characters in `s`. */
  function Spaces(s: string): (r: nat)
    ensures r <= |s|
  {
    if |s| == 0 then 0 else (if s[0] == ' ' then 1 else 0) + Spaces(s[1..])
  }

  /** Counting spaces distributes over concatenation. */
  lemma {:induction false} SpacesAppend(a: string, b: string)
    ensures Spaces(a + b) == Spaces(a) + Spaces(b)
  {
    if |a| == 0 {
      assert a + b == b;
    } else {
      assert (a + b)[0] == a[0];
      assert (a + b)[1..] == a[1..] + b;
      SpacesAppend(a[1..], b);
    }
  }

  /** A space-free string has no spaces to count. */
  lemma {:induction false} SpacesOfSpaceFree(s: string)
    requires ' ' !in s
    ensures Spaces(s) == 0
  {
    if |s| > 0 {
      assert ' ' !in s[1..];
      SpacesOfSpaceFree(s[1..]);
    }
  }

  /** True when no piece of `xs` contains a space. */
  predicate SpaceFree(xs: seq<string>)
  {
    forall k :: 0 <= k < |xs| ==> ' ' !in xs[k]
  }

  /** A string without spaces splits into itself alone. */
  lemma {:induction false} SplitSpaceFree(s: string)
    requires ' ' !in s
    ensures Split(s) == [s]
  {
    if |s| > 0 {
      assert ' ' !in s[1..];
      SplitSpaceFree(s[1..]);
      assert [s[0]] + s[1..] == s;
    }
  }

  /** How Split treats a leading character: a space opens a new empty
      piece, any other character joins the first piece. */
  lemma SplitCons(ch: char, s: string)
    ensures ch == ' ' ==> Split([ch] + s) == [""] + Split(s)
    ensures ch != ' ' ==> Split([ch] + s) == [[ch] + Split(s)[0]] + Split(s)[1..]
  {
  }

  /** Gluing a prefix onto the first piece commutes with appending more
      pieces at the end. */
  lemma GlueFirstAppend(h: string, xs: seq<string>, ys: seq<string>)
    requires |xs| >= 1
    ensures [h + (xs + ys)[0]] + (xs + ys)[1..] == ([h + xs[0]] + xs[1..]) + ys
  {
  }

  /** Splitting distributes over a space: the space is exactly a cut point. */
  lemma {:induction false} SplitAround(a: string, b: string)
    ensures Split(a + " " + b) == Split(a) + Split(b)
  {
    if |a| == 0 {
      assert a + " " + b == [' '] + b;
      SplitCons(' ', b);
    } else {
      var tail := a[1..] + " " + b;
      assert a + " " + b == [a[0]] + tail;
      assert a == [a[0]] + a[1..];
      SplitAround(a[1..], b);
      SplitCons(a[0], tail);
      SplitCons(a[0], a[1..]);
      if a[0] != ' ' {
        GlueFirstAppend([a[0]], Split(a[1..]), Split(b));
      }
    }
  }

  /** Split undoes Join when there is at least one piece and no piece
      contains a space. */
  lemma {:induction false} SplitJoin(xs: seq<string>)
    requires |xs| >= 1
    requires SpaceFree(xs)
    ensures Split(Join(xs)) == xs
  {
    if |xs| == 1 {
      SplitSpaceFree(xs[0]);
    } else {
      SplitAround(xs[0], Join(xs[1..]));
      SplitSpaceFree(xs[0]);
      SplitJoin(xs[1..]);
      assert [xs[0]] + xs[1..] == xs;
    }
  }

  /** Join undoes Split for every string. */
  lemma {:induction false} JoinSplit(s: string)
    ensures Join(Split(s)) == s
  {
    if |s| == 0 {
    } else {
      JoinSplit(s[1..]);
      var rest := Split(s[1..]);
      if s[0] == ' ' {
        assert Split(s) == [""] + rest;
        assert ([""] + rest)[1..] == rest;
        assert s == [' '] + s[1..];
      } else {
        var r := Split(s);
        assert r == [[s[0]] + rest[0]] + rest[1..];
        if |rest| == 1 {
          assert rest == [rest[0]];
          assert s == [s[0]] + s[1..];
        } else {
          assert r[1..] == rest[1..];
          assert Join(rest) == rest[0] + " " + Join(rest[1..]);
          assert s == [s[0]] + s[1..];
        }
      }
    }
  }
}
