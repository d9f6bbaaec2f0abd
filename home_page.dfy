/**
 * The home page of app/Main.tsx: a carousel of image-bearing posts, three
 * keyword columns, and the latest posts with an "All Posts" link.
 */
module HomePage {
  import opened Wrappers
  import opened Seqs
  import opened Posts
  import opened Keywords
  import opened Carousel
  import CategoryColumn

  /** `MAX_DISPLAY`. */
  const MaxDisplay: nat := 5
  /** The `.slice(0, 5)` of the carousel pipeline. */
  const CarouselLimit: nat := 5
  /** The `tags.slice(0, 3)` of a card. */
  const CardTagLimit: nat := 3

  /** `post.images && post.images.length > 0`. */
  predicate HasImages(post: Post)
  {
    post.images.Some? && |post.images.value| > 0
  }

  /** `{ title, image: images[0], slug }`. */
  function ToItem(post: Post): CarouselItem
    requires HasImages(post)
  {
    CarouselItem(post.title, post.images.value[0], post.slug)
  }

  function ToItems(posts: seq<Post>): (items: seq<CarouselItem>)
    requires forall k | 0 <= k < |posts| :: HasImages(posts[k])
    ensures |items| == |posts|
    ensures forall k | 0 <= k < |posts| :: items[k] == ToItem(posts[k])
  {
    if posts == [] then [] else [ToItem(posts[0])] + ToItems(posts[1..])
  }

  /**
   * `carouselItems`: filter by image, keep the first five, project. Each item
   * is the projection of an input post that has images, and there are items
   * iff some post has images.
   */
  function CarouselItems(posts: seq<Post>): (items: seq<CarouselItem>)
    ensures |items| <= CarouselLimit
    ensures forall k | 0 <= k < |items| :: exists i | 0 <= i < |posts| :: HasImages(posts[i]) && items[k] == ToItem(posts[i])
    ensures items != [] <==> exists i | 0 <= i < |posts| :: HasImages(posts[i])
  {
    var withImages := Filter(posts, HasImages);
    var shown := Take(withImages, CarouselLimit);
    var items := ToItems(shown);
    assert forall k | 0 <= k < |items| :: exists i | 0 <= i < |posts| :: HasImages(posts[i]) && items[k] == ToItem(posts[i]) by {
      forall k | 0 <= k < |items|
        ensures exists i | 0 <= i < |posts| :: HasImages(posts[i]) && items[k] == ToItem(posts[i])
      {
        assert shown[k] in withImages;
        var i :| 0 <= i < |posts| && posts[i] == shown[k];
      }
    }
    assert (exists i | 0 <= i < |posts| :: HasImages(posts[i])) ==> items != [] by {
      if exists i | 0 <= i < |posts| :: HasImages(posts[i]) {
        var i :| 0 <= i < |posts| && HasImages(posts[i]);
        assert posts[i] in withImages;
      }
    }
    items
  }

  /**
   * Reference reading of the carousel: walk the posts in order and stop once
   * `limit` image-bearing posts have been seen.
   */
  function FirstWithImages(posts: seq<Post>, limit: nat): seq<CarouselItem>
  {
    if posts == [] || limit == 0 then []
    else if HasImages(posts[0]) then [ToItem(posts[0])] + FirstWithImages(posts[1..], limit - 1)
    else FirstWithImages(posts[1..], limit)
  }

  lemma {:induction false} FilterTakeIsScan(posts: seq<Post>, limit: nat)
    ensures ToItems(Take(Filter(posts, HasImages), limit)) == FirstWithImages(posts, limit)
  {
    if posts != [] && limit > 0 {
      FilterTakeIsScan(posts[1..], if HasImages(posts[0]) then limit - 1 else limit);
      var rest := Filter(posts[1..], HasImages);
      if HasImages(posts[0]) {
        assert Filter(posts, HasImages) == [posts[0]] + rest;
        assert Take([posts[0]] + rest, limit) == [posts[0]] + Take(rest, limit - 1);
        assert ToItems([posts[0]] + Take(rest, limit - 1))[1..] == ToItems(Take(rest, limit - 1));
      } else {
        assert Filter(posts, HasImages) == rest;
      }
    }
  }

  /** Because the filter runs before the slice, the carousel holds the first five QUALIFYING posts, in order. */
  lemma CarouselIsFirstFiveWithImages(posts: seq<Post>)
    ensures CarouselItems(posts) == FirstWithImages(posts, CarouselLimit)
  {
    FilterTakeIsScan(posts, CarouselLimit);
  }

  /** The three column filters. */
  function HollywoodPosts(posts: seq<Post>): seq<Post> { Filter(posts, Tagged(HollywoodKeywords)) }
  function WorldPosts(posts: seq<Post>): seq<Post> { Filter(posts, Tagged(WorldKeywords)) }
  function ExclusivePosts(posts: seq<Post>): seq<Post> { Filter(posts, Tagged(ExclusiveKeywords)) }

  /**
   * A column filter keeps exactly the posts its table labels: in input order,
   * each labelled post as often as the input holds it, nothing else.
   */
  lemma {:induction false} ColumnIsExactlyTagged(posts: seq<Post>, keywords: seq<string>)
    ensures IsSubsequence(Filter(posts, Tagged(keywords)), posts)
    ensures forall p :: multiset(Filter(posts, Tagged(keywords)))[p] == if Matches(p.tags, keywords) then multiset(posts)[p] else 0
    ensures forall p | p in Filter(posts, Tagged(keywords)) :: p.tags.Some?
  {
    forall p ensures multiset(Filter(posts, Tagged(keywords)))[p] == if Matches(p.tags, keywords) then multiset(posts)[p] else 0 {
      FilterCount(posts, Tagged(keywords), p);
    }
  }

  /** A post can be in all three columns, in exactly one, or in none: the filters are independent. */
  lemma ColumnsAreIndependent()
    ensures Matches(Some(["Hollywood", "Canada Travel", "Exclusive"]), HollywoodKeywords)
    ensures Matches(Some(["Hollywood", "Canada Travel", "Exclusive"]), WorldKeywords)
    ensures Matches(Some(["Hollywood", "Canada Travel", "Exclusive"]), ExclusiveKeywords)
    ensures !Matches(None, HollywoodKeywords) && !Matches(None, WorldKeywords) && !Matches(None, ExclusiveKeywords)
    ensures Matches(Some(["Canada Travel"]), WorldKeywords)
    ensures !Matches(Some(["Canada Travel"]), HollywoodKeywords) && !Matches(Some(["Canada Travel"]), ExclusiveKeywords)
  {
    AllColumnsHollywood();
    AllColumnsWorld();
    AllColumnsExclusive();
    CanadaTravelIsWorld();
    CanadaTravelOnlyWorld();
  }

  lemma AllColumnsHollywood()
    ensures Matches(Some(["Hollywood", "Canada Travel", "Exclusive"]), HollywoodKeywords)
  {
    assert Scan(Some(["Hollywood", "Canada Travel", "Exclusive"]), ["hollywood"]);
    ScanIsMatches(Some(["Hollywood", "Canada Travel", "Exclusive"]), HollywoodKeywords);
  }

  lemma AllColumnsWorld()
    ensures Matches(Some(["Hollywood", "Canada Travel", "Exclusive"]), WorldKeywords)
  {
    assert AnyKeyword("Canada Travel", ["canada", "holiday", "travel"], 0);
    assert Scan(Some(["Hollywood", "Canada Travel", "Exclusive"]), ["canada", "holiday", "travel"]);
    ScanIsMatches(Some(["Hollywood", "Canada Travel", "Exclusive"]), WorldKeywords);
  }

  lemma AllColumnsExclusive()
    ensures Matches(Some(["Hollywood", "Canada Travel", "Exclusive"]), ExclusiveKeywords)
  {
    assert AnyKeyword("Exclusive", ["images", "exclusive", "feature"], 0);
    assert Scan(Some(["Hollywood", "Canada Travel", "Exclusive"]), ["images", "exclusive", "feature"]);
    ScanIsMatches(Some(["Hollywood", "Canada Travel", "Exclusive"]), ExclusiveKeywords);
  }

  /** "Canada Travel" is in the World column only: it contains no Hollywood keyword and no Exclusive keyword. */
  lemma CanadaTravelOnlyWorld()
    ensures !Matches(Some(["Canada Travel"]), HollywoodKeywords)
    ensures !Matches(Some(["Canada Travel"]), ExclusiveKeywords)
  {
    CanadaTravelNotHollywood();
    CanadaTravelNotExclusive();
  }

  lemma CanadaTravelNotHollywood()
    ensures !Matches(Some(["Canada Travel"]), HollywoodKeywords)
  {
    assert !IncludesFrom("Canada Travel", "hollywood", 0);
    assert !Scan(Some(["Canada Travel"]), ["hollywood"]);
    ScanIsMatches(Some(["Canada Travel"]), HollywoodKeywords);
  }

  lemma CanadaTravelNotExclusive()
    ensures !Matches(Some(["Canada Travel"]), ExclusiveKeywords)
  {
    assert !IncludesFrom("Canada Travel", "images", 0);
    assert !IncludesFrom("Canada Travel", "exclusive", 0);
    assert !IncludesFrom("Canada Travel", "feature", 0);
    assert !AnyKeyword("Canada Travel", ["images", "exclusive", "feature"], 0);
    assert !Scan(Some(["Canada Travel"]), ["images", "exclusive", "feature"]);
    ScanIsMatches(Some(["Canada Travel"]), ExclusiveKeywords);
  }

  /** A tag of "Canada Travel" puts a post in the World column. */
  lemma CanadaTravelIsWorld()
    ensures Matches(Some(["Canada Travel"]), WorldKeywords)
  {
    assert Scan(Some(["Canada Travel"]), ["canada", "holiday", "travel"]);
    ScanIsMatches(Some(["Canada Travel"]), WorldKeywords);
  }

  /** A card of the latest list; `tags` holds what the card shows. */
  datatype Card = Card(slug: string, date: string, title: string, summary: string, tags: seq<string>, images: Option<seq<string>>)

  /** `tags.slice(0, 3)`: `None` when `tags` is undefined, where the expression throws. */
  function CardTags(tags: Option<seq<string>>): (shown: Option<seq<string>>)
    ensures shown.None? <==> tags.None?
    ensures shown.Some? ==> |shown.value| == Min(CardTagLimit, |tags.value|)
    ensures shown.Some? ==> shown.value == tags.value[..|shown.value|]
  {
    if tags.None? then None else Some(Take(tags.value, CardTagLimit))
  }

  function Cards(posts: seq<Post>): (cards: Option<seq<Card>>)
    ensures cards.None? <==> exists k | 0 <= k < |posts| :: posts[k].tags.None?
    ensures cards.Some? ==> |cards.value| == |posts|
    ensures cards.Some? ==> forall k | 0 <= k < |posts| ::
      var p := posts[k]; cards.value[k] == Card(p.slug, p.date, p.title, p.summary, CardTags(p.tags).value, p.images)
  {
    if posts == [] then Some([])
    else
      var p := posts[0];
      var rest := Cards(posts[1..]);
      if p.tags.None? || rest.None? then
        assert p.tags.None? ==> posts[0].tags.None?;
        assert rest.None? ==> exists k | 0 <= k < |posts[1..]| :: posts[1..][k].tags.None?;
        None
      else
        assert forall k | 1 <= k < |posts| :: posts[k] == posts[1..][k - 1];
        Some([Card(p.slug, p.date, p.title, p.summary, CardTags(p.tags).value, p.images)] + rest.value)
  }

  /** `{carouselItems.length > 0 && <Carousel items={carouselItems} />}`. */
  function CarouselSection(posts: seq<Post>): (section: Option<seq<CarouselItem>>)
    ensures section.Some? <==> exists i | 0 <= i < |posts| :: HasImages(posts[i])
    ensures section.Some? ==> section.value == FirstWithImages(posts, CarouselLimit)
  {
    var carouselItems := CarouselItems(posts);
    CarouselIsFirstFiveWithImages(posts);
    if |carouselItems| > 0 then Some(carouselItems) else None
  }

  /** The cards of `posts.slice(0, MAX_DISPLAY)`, or `None` when one of them has no `tags`. */
  function LatestCards(posts: seq<Post>): (cards: Option<seq<Card>>)
    ensures cards.None? <==> exists k | 0 <= k < Min(MaxDisplay, |posts|) :: posts[k].tags.None?
    ensures cards.Some? ==> |cards.value| == Min(MaxDisplay, |posts|)
    ensures cards.Some? ==> forall k | 0 <= k < |cards.value| ::
      var p := posts[k]; cards.value[k] == Card(p.slug, p.date, p.title, p.summary, CardTags(p.tags).value, p.images)
  {
    var latest := Take(posts, MaxDisplay);
    assert forall k | 0 <= k < |latest| :: latest[k] == posts[k];
    Cards(latest)
  }

  /** Everything the home page shows. `carousel` is `None` when the carousel section is not rendered. */
  datatype HomeView = HomeView(
    carousel: Option<seq<CarouselItem>>,
    hollywood: Option<CategoryColumn.ColumnView>,
    world: Option<CategoryColumn.ColumnView>,
    exclusive: Option<CategoryColumn.ColumnView>,
    noPostsNotice: bool,
    latest: seq<Card>,
    allPostsLink: bool)

  /**
   * `Home({ posts })`. `None` means the render throws, which happens when one
   * of the latest posts has no `tags` field.
   */
  function Render(posts: seq<Post>): (home: Option<HomeView>)
    ensures home.None? <==> LatestCards(posts).None?
    ensures home.Some? ==> home.value.carousel == CarouselSection(posts)
    ensures home.Some? ==> home.value.hollywood == CategoryColumn.Render("Hollywood", HollywoodPosts(posts))
    ensures home.Some? ==> home.value.world == CategoryColumn.Render("World", WorldPosts(posts))
    ensures home.Some? ==> home.value.exclusive == CategoryColumn.Render("Exclusive", ExclusivePosts(posts))
    ensures home.Some? ==> (home.value.noPostsNotice <==> posts == [])
    ensures home.Some? ==> home.value.latest == LatestCards(posts).value
    ensures home.Some? ==> (home.value.allPostsLink <==> |posts| > MaxDisplay)
  {
    var cards := LatestCards(posts);
    if cards.None? then None
    else
      Some(HomeView(
        CarouselSection(posts),
        CategoryColumn.Render("Hollywood", HollywoodPosts(posts)),
        CategoryColumn.Render("World", WorldPosts(posts)),
        CategoryColumn.Render("Exclusive", ExclusivePosts(posts)),
        |posts| == 0,
        cards.value,
        |posts| > MaxDisplay))
  }

  /** The "All Posts" link is shown exactly when the latest list leaves posts out. */
  lemma AllPostsLinkIffHidden(posts: seq<Post>)
    requires forall k | 0 <= k < |posts| && k < MaxDisplay :: posts[k].tags.Some?
    ensures Render(posts).Some?
    ensures Render(posts).value.allPostsLink <==> |Render(posts).value.latest| < |posts|
  {
  }
}
