/** The Celebverse section (app/celebverse/page.tsx): the home page over the celebrity-tagged posts only. */
module CelebversePage {
  import opened Wrappers
  import opened Seqs
  import opened Posts
  import opened Keywords
  import HomePage

  /** The keyword list written out inline at lines 12-16. */
  const PageKeywords: seq<string> := ["hollywood", "celebrity", "celeb", "actor", "actress"]

  /** The inline list is the shared Celebverse table. */
  lemma PageKeywordsAreShared()
    ensures PageKeywords == CelebverseKeywords
  {
  }

  /** `celebversePosts`, filtering by the page's own inline list. */
  function CelebversePosts(sortedPosts: seq<Post>): seq<Post>
  {
    Filter(sortedPosts, Tagged(PageKeywords))
  }

  /**
   * The section keeps exactly the celebrity-tagged posts: an order-preserving
   * subsequence of the sorted list, every kept post tagged, every tagged
   * post kept, and none without tags.
   */
  lemma CelebversePostsAreExactlyTagged(sortedPosts: seq<Post>)
    ensures IsSubsequence(CelebversePosts(sortedPosts), sortedPosts)
    ensures forall p | p in CelebversePosts(sortedPosts) :: Matches(p.tags, CelebverseKeywords)
    ensures forall k | 0 <= k < |sortedPosts| && Matches(sortedPosts[k].tags, CelebverseKeywords) :: sortedPosts[k] in CelebversePosts(sortedPosts)
    ensures forall p | p in CelebversePosts(sortedPosts) :: p.tags.Some? && p.tags.value != []
  {
    PageKeywordsAreShared();
    forall p | p in CelebversePosts(sortedPosts) ensures Matches(p.tags, CelebverseKeywords) {
      assert Tagged(CelebverseKeywords)(p);
    }
  }

  /** Filtering with "celebrity" dropped from the list keeps the same posts. */
  lemma CelebrityKeywordIsRedundant(sortedPosts: seq<Post>)
    ensures CelebversePosts(sortedPosts) == Filter(sortedPosts, Tagged(["hollywood", "celeb", "actor", "actress"]))
  {
    PageKeywordsAreShared();
    forall k | 0 <= k < |sortedPosts|
      ensures Tagged(CelebverseKeywords)(sortedPosts[k]) == Tagged(["hollywood", "celeb", "actor", "actress"])(sortedPosts[k])
    {
      CelebrityRedundant(sortedPosts[k].tags);
    }
    FilterSameSelection(sortedPosts, Tagged(CelebverseKeywords), Tagged(["hollywood", "celeb", "actor", "actress"]));
  }

  /** Every post of the home page's Hollywood column over the same list is kept here, in the same order. */
  lemma HollywoodColumnIsKept(sortedPosts: seq<Post>)
    ensures IsSubsequence(HomePage.HollywoodPosts(sortedPosts), CelebversePosts(sortedPosts))
  {
    PageKeywordsAreShared();
    forall k | 0 <= k < |sortedPosts|
      ensures Tagged(HollywoodKeywords)(sortedPosts[k]) ==> Tagged(CelebverseKeywords)(sortedPosts[k])
    {
      if Matches(sortedPosts[k].tags, HollywoodKeywords) {
        HollywoodIsCelebverse(sortedPosts[k].tags);
      }
    }
    FilterMonotone(sortedPosts, Tagged(HollywoodKeywords), Tagged(CelebverseKeywords));
  }

  /** `<Main posts={celebversePosts} />`. */
  function Page(sortedPosts: seq<Post>): Option<HomePage.HomeView>
  {
    HomePage.Render(CelebversePosts(sortedPosts))
  }
}
