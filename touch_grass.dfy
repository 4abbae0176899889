/**
 * The Touch Grass Index: a score that falls as a Reddit user comments and
 * posts more, and rises slightly with the number of subreddits they
 * subscribe to, never going below zero.
 */
module TouchGrass {

  /** One entry of a Reddit listing (a comment, a post or a subreddit). */
  datatype Thing = Thing(kind: string, name: string)

  /** A Reddit listing payload, reduced to its `data.children` list. */
  datatype Listing = Listing(children: seq<Thing>)

  /** The score every user starts from before activity is counted. */
  const BASE_INDEX: nat := 100

  /**
   * `max(0, 100 - (commentCount + postCount) + subredditCount)`, specified
   * as the least non-negative number that is at least the unclamped score.
   */
  function ComputeIndex(commentCount: nat, postCount: nat, subredditCount: nat): (index: nat)
    ensures index >= BASE_INDEX - (commentCount + postCount) + subredditCount
    ensures index == 0 || index == BASE_INDEX - (commentCount + postCount) + subredditCount
    ensures index <= BASE_INDEX + subredditCount
  {
    var raw := BASE_INDEX - (commentCount + postCount) + subredditCount;
    if raw < 0 then 0 else raw
  }

  /** The index of a user from the three listings fetched for them. */
  function TouchGrassIndex(comments: Listing, subreddits: Listing, posts: Listing): (index: nat)
    ensures var activity := |comments.children| + |posts.children|;
      && index >= BASE_INDEX - activity + |subreddits.children|
      && (index == 0 || index == BASE_INDEX - activity + |subreddits.children|)
      && index <= BASE_INDEX + |subreddits.children|
  {
    ComputeIndex(|comments.children|, |posts.children|, |subreddits.children|)
  }

  /** Below the threshold the index is the unclamped score exactly. */
  lemma IndexExact(comments: Listing, subreddits: Listing, posts: Listing)
    requires |comments.children| + |posts.children| <= BASE_INDEX + |subreddits.children|
    ensures TouchGrassIndex(comments, subreddits, posts)
      == BASE_INDEX - (|comments.children| + |posts.children|) + |subreddits.children|
  {
  }

  /** Above the threshold the index is clamped to zero rather than going negative. */
  lemma IndexClamped(comments: Listing, subreddits: Listing, posts: Listing)
    requires |comments.children| + |posts.children| > BASE_INDEX + |subreddits.children|
    ensures TouchGrassIndex(comments, subreddits, posts) == 0
  {
  }

  /** The index lies between 0 and 100 plus the subreddit count. */
  lemma IndexBounds(comments: Listing, subreddits: Listing, posts: Listing)
    ensures 0 <= TouchGrassIndex(comments, subreddits, posts) <= BASE_INDEX + |subreddits.children|
  {
  }

  /** With no comments, posts or subreddits the index is 100. */
  lemma IndexOfEmpty()
    ensures TouchGrassIndex(Listing([]), Listing([]), Listing([])) == 100
  {
  }

  /** Only the lengths of the children lists matter, never the entries. */
  lemma IndexIgnoresContents(c1: Listing, s1: Listing, p1: Listing, c2: Listing, s2: Listing, p2: Listing)
    requires |c1.children| == |c2.children|
    requires |s1.children| == |s2.children|
    requires |p1.children| == |p2.children|
    ensures TouchGrassIndex(c1, s1, p1) == TouchGrassIndex(c2, s2, p2)
  {
  }

  /** One more comment never raises the index. */
  lemma MoreCommentsNeverRaise(comments: Listing, subreddits: Listing, posts: Listing, t: Thing)
    ensures TouchGrassIndex(Listing(comments.children + [t]), subreddits, posts)
      <= TouchGrassIndex(comments, subreddits, posts)
  {
  }

  /** One more post never raises the index. */
  lemma MorePostsNeverRaise(comments: Listing, subreddits: Listing, posts: Listing, t: Thing)
    ensures TouchGrassIndex(comments, subreddits, Listing(posts.children + [t]))
      <= TouchGrassIndex(comments, subreddits, posts)
  {
  }

  /** One more subscribed subreddit never lowers the index. */
  lemma MoreSubredditsNeverLower(comments: Listing, subreddits: Listing, posts: Listing, t: Thing)
    ensures TouchGrassIndex(comments, Listing(subreddits.children + [t]), posts)
      >= TouchGrassIndex(comments, subreddits, posts)
  {
  }

  /** Comments and posts weigh the same: swapping the two listings changes nothing. */
  lemma CommentsAndPostsSymmetric(comments: Listing, subreddits: Listing, posts: Listing)
    ensures TouchGrassIndex(comments, subreddits, posts) == TouchGrassIndex(posts, subreddits, comments)
  {
  }

  /** Worked values: (0, 0, 0) gives 100, (150, 0, 0) gives 0, (10, 5, 3) gives 88. */
  lemma IndexExamples()
    ensures ComputeIndex(0, 0, 0) == 100
    ensures ComputeIndex(150, 0, 0) == 0
    ensures ComputeIndex(10, 5, 3) == 88
  {
  }
}
