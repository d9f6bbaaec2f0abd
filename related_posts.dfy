/**
 * The "You may have missed" panel (components/RelatedPosts.tsx): one category
 * is picked from the current post's tags by a fixed priority, the other posts
 * of that category are shown, and recent posts stand in when there are none.
 */
module RelatedPosts {
  import opened Wrappers
  import opened Seqs
  import opened Posts
  import opened Keywords

  const MaxRelated: nat := 6
  const FallbackCount: nat := 3

  // The keyword lists as the component writes them out, each a separate copy.
  /** `isCelebverse`, lines 17-21, and the Celebverse branch filter, lines 42-46. */
  const CelebverseTest: seq<string> := ["hollywood", "celebrity", "celeb", "actor", "actress"]
  const CelebverseFilter: seq<string> := ["hollywood", "celebrity", "celeb", "actor", "actress"]
  /** `isGossips`, lines 26-30, and the Gossips branch filter, lines 55-59. */
  const GossipsTest: seq<string> := ["gossip", "news", "entertainment", "scandal", "buzz"]
  const GossipsFilter: seq<string> := ["gossip", "news", "entertainment", "scandal", "buzz"]
  /** The Blog branch's exclusion list, lines 68-77. */
  const BlogExclusion: seq<string> := ["hollywood", "celebrity", "celeb", "actor", "actress", "gossip", "news", "entertainment", "scandal", "buzz"]

  /** Every inline copy is the shared table; the Blog list is the two tables one after the other. */
  lemma InlineListsAreShared()
    ensures CelebverseTest == CelebverseFilter == CelebverseKeywords
    ensures GossipsTest == GossipsFilter == GossipsKeywords
    ensures BlogExclusion == CelebverseKeywords + GossipsKeywords
  {
  }

  datatype Category = Celebverse | Gossips | Blog

  /** The chain of lines 36, 49 and 62 over `isCelebverse` and `isGossips`: first match wins, Blog is what is left. */
  function CategoryOf(tags: Option<seq<string>>): Category
  {
    if Matches(tags, CelebverseTest) then Celebverse
    else if Matches(tags, GossipsTest) then Gossips
    else Blog
  }

  /** The test each branch applies to a post of the pool. */
  predicate InCategory(category: Category, post: Post)
  {
    match category
    case Celebverse => Matches(post.tags, CelebverseFilter)
    case Gossips => Matches(post.tags, GossipsFilter)
    case Blog => post.tags.None? || !Matches(post.tags, BlogExclusion)
  }

  function Belongs(category: Category): Post -> bool
  {
    (post: Post) => InCategory(category, post)
  }

  function OtherThan(slug: string): Post -> bool
  {
    (post: Post) => post.slug != slug
  }

  /** `allPosts.filter((post) => post.slug !== currentPostSlug)`. */
  function Pool(allPosts: seq<Post>, currentPostSlug: string): (pool: seq<Post>)
    ensures forall p | p in pool :: p.slug != currentPostSlug
    ensures pool != [] <==> exists p | p in allPosts :: p.slug != currentPostSlug
  {
    var pool := Filter(allPosts, OtherThan(currentPostSlug));
    assert forall p | p in pool :: OtherThan(currentPostSlug)(p);
    assert forall k | 0 <= k < |allPosts| && allPosts[k].slug != currentPostSlug :: allPosts[k] in pool by {
      forall k | 0 <= k < |allPosts| && allPosts[k].slug != currentPostSlug ensures allPosts[k] in pool {
        assert OtherThan(currentPostSlug)(allPosts[k]);
      }
    }
    pool
  }

  /**
   * `RelatedPosts({ currentPostSlug, tags })` over the sorted `allPosts`.
   * The result leaves out the current post, keeps the input order, has at
   * most six posts, and is empty only when there is no other post. When some
   * post of the pool is in the chosen category, the result is the first six
   * of those; otherwise it is the first three of the pool.
   */
  method Select(currentPostSlug: string, tags: Option<seq<string>>, allPosts: seq<Post>) returns (relatedPosts: seq<Post>)
    ensures forall p | p in relatedPosts :: p.slug != currentPostSlug
    ensures IsSubsequence(relatedPosts, allPosts)
    ensures |relatedPosts| <= MaxRelated
    ensures relatedPosts != [] <==> exists p | p in allPosts :: p.slug != currentPostSlug
    ensures var chosen := Filter(Pool(allPosts, currentPostSlug), Belongs(CategoryOf(tags)));
      chosen != [] ==> relatedPosts == Take(chosen, MaxRelated) && forall p | p in relatedPosts :: InCategory(CategoryOf(tags), p)
    ensures Filter(Pool(allPosts, currentPostSlug), Belongs(CategoryOf(tags))) == [] ==>
      relatedPosts == Take(Pool(allPosts, currentPostSlug), FallbackCount)
  {
    var isCelebverse := Matches(tags, CelebverseTest);
    var isGossips := Matches(tags, GossipsTest);
    ghost var pool := Pool(allPosts, currentPostSlug);

    relatedPosts := Pool(allPosts, currentPostSlug);
    if isCelebverse {
      relatedPosts := Filter(relatedPosts, Belongs(Celebverse));
    } else if isGossips {
      relatedPosts := Filter(relatedPosts, Belongs(Gossips));
    } else {
      relatedPosts := Filter(relatedPosts, Belongs(Blog));
    }
    ghost var chosen := relatedPosts;
    assert chosen == Filter(pool, Belongs(CategoryOf(tags)));
    assert forall p | p in chosen :: InCategory(CategoryOf(tags), p);

    relatedPosts := Take(relatedPosts, MaxRelated);

    if |relatedPosts| == 0 {
      relatedPosts := Take(Pool(allPosts, currentPostSlug), FallbackCount);
      TakeIsSubsequence(pool, FallbackCount);
      SubsequenceTransitive(relatedPosts, pool, allPosts);
    } else {
      TakeIsSubsequence(chosen, MaxRelated);
      SubsequenceTransitive(relatedPosts, chosen, pool);
      SubsequenceTransitive(relatedPosts, pool, allPosts);
      assert chosen[0] in pool;
    }
  }

  /** Celebverse and Gossips filters drop posts without tags; the Blog filter keeps them. */
  lemma AbsentTags(post: Post)
    requires post.tags.None?
    ensures !InCategory(Celebverse, post) && !InCategory(Gossips, post) && InCategory(Blog, post)
  {
  }

  /** The Blog filter keeps a post iff its tags are absent or match neither the Celebverse nor the Gossips table. */
  lemma BlogKeepsTheRest(post: Post)
    ensures InCategory(Blog, post) <==> post.tags.None? || (!Matches(post.tags, CelebverseKeywords) && !Matches(post.tags, GossipsKeywords))
  {
    InlineListsAreShared();
    MatchesUnion(post.tags, CelebverseKeywords, GossipsKeywords);
  }

  /** The priority chain: Celebverse iff a Celebverse keyword matches; Gossips iff only a Gossips one does; Blog otherwise. */
  lemma CategoryPriority(tags: Option<seq<string>>)
    ensures CategoryOf(tags) == Celebverse <==> Matches(tags, CelebverseKeywords)
    ensures CategoryOf(tags) == Gossips <==> !Matches(tags, CelebverseKeywords) && Matches(tags, GossipsKeywords)
    ensures CategoryOf(tags) == Blog <==> !Matches(tags, CelebverseKeywords + GossipsKeywords)
    ensures tags.None? ==> CategoryOf(tags) == Blog
  {
    InlineListsAreShared();
    MatchesUnion(tags, CelebverseKeywords, GossipsKeywords);
  }

  /** "Celebrity News" is a Celebverse post although "news" is also a Gossips keyword. */
  lemma CelebverseTakesPrecedence()
    ensures Matches(Some(["Celebrity News"]), GossipsKeywords)
    ensures CategoryOf(Some(["Celebrity News"])) == Celebverse
  {
    CelebrityNewsIsGossips();
    CelebrityNewsIsCelebverse();
  }

  lemma CelebrityNewsIsGossips()
    ensures Matches(Some(["Celebrity News"]), GossipsKeywords)
  {
    assert LowerRunAt("Celebrity News", "news", 10, 0);
    IncludesFromAt("Celebrity News", "news", 0, 10);
    assert AnyKeyword("Celebrity News", ["gossip", "news", "entertainment", "scandal", "buzz"], 1);
    assert Scan(Some(["Celebrity News"]), ["gossip", "news", "entertainment", "scandal", "buzz"]);
    ScanIsMatches(Some(["Celebrity News"]), GossipsKeywords);
  }

  lemma CelebrityNewsIsCelebverse()
    ensures Matches(Some(["Celebrity News"]), CelebverseKeywords)
  {
    assert LowerRunAt("Celebrity News", "celebrity", 0, 0);
    assert AnyKeyword("Celebrity News", ["hollywood", "celebrity", "celeb", "actor", "actress"], 1);
    assert Scan(Some(["Celebrity News"]), ["hollywood", "celebrity", "celeb", "actor", "actress"]);
    ScanIsMatches(Some(["Celebrity News"]), CelebverseKeywords);
  }

  /** "Travel" matches no Celebverse keyword. */
  lemma TravelIsNotCelebverse()
    ensures !Matches(Some(["Travel"]), CelebverseKeywords)
  {
    assert !AnyKeyword("Travel", ["hollywood", "celebrity", "celeb", "actor", "actress"], 0);
    assert !Scan(Some(["Travel"]), ["hollywood", "celebrity", "celeb", "actor", "actress"]);
    ScanIsMatches(Some(["Travel"]), CelebverseKeywords);
  }

  /**
   * Viewing post "a" (tags "Celebrity News") among "b" (tags "Travel") and "c"
   * (an empty tag list): no other post is Celebverse, so the panel falls back
   * to the first posts of the pool, "b" then "c".
   */
  lemma FallbackScenario(a: Post, b: Post, c: Post)
    requires a == Post("a", "", "", "", Some(["Celebrity News"]), None)
    requires b == Post("b", "", "", "", Some(["Travel"]), None)
    requires c == Post("c", "", "", "", Some([]), None)
    ensures Pool([a, b, c], "a") == [b, c]
    ensures Filter(Pool([a, b, c], "a"), Belongs(CategoryOf(a.tags))) == []
    ensures Take(Pool([a, b, c], "a"), FallbackCount) == [b, c]
  {
    ScenarioPool(a, b, c);
    CelebverseTakesPrecedence();
    ScenarioNoneInCategory(b, c);
  }

  lemma ScenarioPool(a: Post, b: Post, c: Post)
    requires a.slug == "a" && b.slug == "b" && c.slug == "c"
    ensures Pool([a, b, c], "a") == [b, c]
  {
    assert [a, b, c][1..] == [b, c];
    assert [b, c][1..] == [c];
    assert Filter([c], OtherThan("a")) == [c];
    assert Filter([b, c], OtherThan("a")) == [b, c];
  }

  lemma ScenarioNoneInCategory(b: Post, c: Post)
    requires b.tags == Some(["Travel"]) && c.tags == Some([])
    ensures Filter([b, c], Belongs(Celebverse)) == []
  {
    TravelIsNotCelebverse();
    assert !Belongs(Celebverse)(b);
    assert !Belongs(Celebverse)(c);
    assert [b, c][1..] == [c];
    assert Filter([c], Belongs(Celebverse)) == [];
  }
}
