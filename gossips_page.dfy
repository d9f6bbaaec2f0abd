/** The Gossips section (app/gossips/page.tsx): the home page over the gossip-tagged posts only. */
module GossipsPage {
  import opened Wrappers
  import opened Seqs
  import opened Posts
  import opened Keywords
  import HomePage

  /** The keyword list written out inline at lines 15-19. */
  const PageKeywords: seq<string> := ["gossip", "news", "entertainment", "scandal", "buzz"]

  /** The inline list is the shared Gossips table. */
  lemma PageKeywordsAreShared()
    ensures PageKeywords == GossipsKeywords
  {
  }

  /** `gossipsPosts`, filtering by the page's own inline list. */
  function GossipsPosts(sortedPosts: seq<Post>): seq<Post>
  {
    Filter(sortedPosts, Tagged(PageKeywords))
  }

  /**
   * The section keeps exactly the gossip-tagged posts: an order-preserving
   * subsequence of the sorted list, every kept post tagged, every tagged
   * post kept, and none without tags.
   */
  lemma GossipsPostsAreExactlyTagged(sortedPosts: seq<Post>)
    ensures IsSubsequence(GossipsPosts(sortedPosts), sortedPosts)
    ensures forall p | p in GossipsPosts(sortedPosts) :: Matches(p.tags, GossipsKeywords)
    ensures forall k | 0 <= k < |sortedPosts| && Matches(sortedPosts[k].tags, GossipsKeywords) :: sortedPosts[k] in GossipsPosts(sortedPosts)
    ensures forall p | p in GossipsPosts(sortedPosts) :: p.tags.Some? && p.tags.value != []
  {
    PageKeywordsAreShared();
    forall p | p in GossipsPosts(sortedPosts) ensures Matches(p.tags, GossipsKeywords) {
      assert Tagged(GossipsKeywords)(p);
    }
  }

  /** `<Main posts={gossipsPosts} />`. */
  function Page(sortedPosts: seq<Post>): Option<HomePage.HomeView>
  {
    HomePage.Render(GossipsPosts(sortedPosts))
  }
}
