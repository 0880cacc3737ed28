/** Aggregates over a list of blog entries (utils/list_helper.js). */
module ListHelper {
  import opened Models

  /** The smoke-test helper: one, whatever the list. */
  function Dummy(blogs: seq<Blog>): (r: int)
    ensures r == 1
  {
    1
  }

  /** The mathematical sum of the `likes` fields, element by element from the front. */
  function SumLikes(blogs: seq<Blog>): (r: int)
  {
    if blogs == [] then 0 else blogs[0].likes + SumLikes(blogs[1..])
  }

  /** `blogs.reduce((sum, blog) => sum + blog.likes, acc)`: a left fold that
      threads the running total through the list. */
  function FoldLikes(acc: int, blogs: seq<Blog>): (r: int)
    ensures r == acc + SumLikes(blogs)
    decreases |blogs|
  {
    if blogs == [] then acc else FoldLikes(acc + blogs[0].likes, blogs[1..])
  }

  /** `totalLikes`: the fold started from 0. */
  function TotalLikes(blogs: seq<Blog>): (r: int)
    ensures r == SumLikes(blogs)
    ensures blogs == [] ==> r == 0
  {
    FoldLikes(0, blogs)
  }

  /** The sum distributes over concatenation. */
  lemma {:induction false} SumLikesConcat(a: seq<Blog>, b: seq<Blog>)
    ensures SumLikes(a + b) == SumLikes(a) + SumLikes(b)
  {
    if a == [] {
      assert a + b == b;
    } else {
      assert (a + b)[1..] == a[1..] + b;
      SumLikesConcat(a[1..], b);
    }
  }

  /** The total of two lists appended is the total of each added up. */
  lemma TotalLikesConcat(a: seq<Blog>, b: seq<Blog>)
    ensures TotalLikes(a + b) == TotalLikes(a) + TotalLikes(b)
  {
    SumLikesConcat(a, b);
  }

  /** With no negative `likes`, the total is non-negative and at least every
      single entry's `likes`. */
  lemma {:induction false} TotalLikesBounds(blogs: seq<Blog>)
    requires forall i :: 0 <= i < |blogs| ==> blogs[i].likes >= 0
    ensures TotalLikes(blogs) >= 0
    ensures forall i :: 0 <= i < |blogs| ==> blogs[i].likes <= TotalLikes(blogs)
  {
    if blogs != [] {
      TotalLikesBounds(blogs[1..]);
      forall i | 1 <= i < |blogs|
        ensures blogs[i].likes <= TotalLikes(blogs)
      {
        assert blogs[i] == blogs[1..][i - 1];
      }
    }
  }

  /** Taking entry `i` out of a list takes its `likes` off the sum. */
  lemma {:induction false} SumLikesRemoveAt(b: seq<Blog>, i: nat)
    requires i < |b|
    ensures SumLikes(b) == b[i].likes + SumLikes(b[..i] + b[i + 1..])
  {
    var front, back := b[..i], b[i + 1..];
    assert b == front + ([b[i]] + back);
    SumLikesConcat(front, [b[i]] + back);
    assert ([b[i]] + back)[1..] == back;
    SumLikesConcat(front, back);
  }

  /** Taking entry `i` out of a list takes one occurrence off its multiset. */
  lemma MultisetRemoveAt(b: seq<Blog>, i: nat)
    requires i < |b|
    ensures multiset(b[..i] + b[i + 1..]) == multiset(b) - multiset{b[i]}
  {
    assert b == b[..i] + [b[i]] + b[i + 1..];
  }

  /** Reordering a list does not change the sum of its `likes`. */
  lemma {:induction false} SumLikesPermutation(a: seq<Blog>, b: seq<Blog>)
    requires multiset(a) == multiset(b)
    ensures SumLikes(a) == SumLikes(b)
    decreases |a|
  {
    if a == [] {
      assert |b| == |multiset(b)| == 0;
    } else {
      var i := IndexOf(b, a[0]);
      var rest := b[..i] + b[i + 1..];
      PermutationTail(a, b, i);
      SumLikesPermutation(a[1..], rest);
      SumLikesRemoveAt(b, i);
    }
  }

  /** Matching the head of `a` with entry `i` of `b` leaves two permutations. */
  lemma PermutationTail(a: seq<Blog>, b: seq<Blog>, i: nat)
    requires multiset(a) == multiset(b) && a != [] && i < |b| && b[i] == a[0]
    ensures multiset(a[1..]) == multiset(b[..i] + b[i + 1..])
  {
    calc {
      multiset(a[1..]);
      { assert a[..0] + a[1..] == a[1..]; MultisetRemoveAt(a, 0); }
      multiset(a) - multiset{a[0]};
      multiset(b) - multiset{b[i]};
      { MultisetRemoveAt(b, i); }
      multiset(b[..i] + b[i + 1..]);
    }
  }

  /** A position at which `x` occurs in `b`. */
  lemma IndexOf(b: seq<Blog>, x: Blog) returns (i: nat)
    requires x in multiset(b)
    ensures i < |b| && b[i] == x
  {
    assert x in b;
    i :| 0 <= i < |b| && b[i] == x;
  }

  /** The total does not depend on the order of the list. */
  lemma TotalLikesPermutation(a: seq<Blog>, b: seq<Blog>)
    requires multiset(a) == multiset(b)
    ensures TotalLikes(a) == TotalLikes(b)
  {
    SumLikesPermutation(a, b);
  }
}
