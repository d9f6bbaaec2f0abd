# Tag-based content selection of a Next.js news blog

This project models the part of the blog that decides which posts appear where. The site works entirely from the tags in each post's front matter:

- **Classification.** A post carries a label (Hollywood, World, Exclusive, Celebverse, Gossips) when one of its tags, lower-cased, contains one of that label's keywords. The five keyword tables live once in `Keywords`. The section pages and the related-posts panel each keep their own inline copies, filter by those copies, and the copies are proved equal to the shared tables.
- **Home page** (`HomePage`):
  - The carousel holds the first five posts with images.
  - Three independent columns show the posts of one label each.
  - The "latest" cards are the first five posts. An "All Posts" link appears when there are more.
- **Category column** (`CategoryColumn`): shows up to five entries. Each has a thumbnail or a placeholder, and the first tag as a label when the post has tags. A "view more" link appears when some posts do not fit.
- **Carousel** (`Carousel`): a class. Its `currentIndex` is moved by next/previous arrows, dots and a periodic tick.
- **Section pages** (`GossipsPage`, `CelebversePage`): the home page over the posts of one label only.
- **Related posts** (`RelatedPosts`):
  - A priority chain picks Celebverse, else Gossips, else Blog from the current post's tags.
  - The panel shows up to six other posts of that category.
  - When the category has none, it falls back to up to three recent posts.
- **YouTube embed** (`YouTube`): finds a video id by three URL patterns tried in order, then builds the iframe source.
- **Image wrapper** (`Image`): prefixes relative sources with the site's base path.

`Seqs` holds the array operations these share:
- `filter`, as `Filter`;
- `slice(0, n)`, as `Take`;
- the order-preserving-subsequence relation, as `IsSubsequence`.

Post lists are `seq<Post>`. A post's optional `tags` and `images` are `Option` values, with `None` standing for `undefined`.

A render that would throw in JavaScript is modelled as `None`. This happens in one place: the home page's `tags.slice(0, 3)` on a post without tags.

The carousel index is a JavaScript number, so it has an explicit `NaN` value. The timer callback takes `% items.length` even when there are no items. `% 0` does not throw: it gives NaN, and the index stays NaN from then on.

Two things are parameters instead:
- The URL parser that `extractVideoId` falls back to is passed in as a function `parseUrl`.
- The `BASE_PATH` environment value is passed in as `basePath`.

The section pages test each label independently, so a post tagged "Celebrity News" is kept by both section pages (`RelatedPosts.CelebrityNewsIsCelebverse` and `RelatedPosts.CelebrityNewsIsGossips`); only the related-posts chain makes it Celebverse alone (`RelatedPosts.CelebverseTakesPrecedence`).

## Model

| member | source | states |
|---|---|---|
| Keywords.Lower | app/Main.tsx:25 | `toLowerCase` keeps the length and lower-cases each character (ASCII) |
| Keywords.IncludesFromAt | app/Main.tsx:25 | a search for a keyword that starts at or before an occurrence finds it |
| Keywords.RunIsOccurrence | app/Main.tsx:25 | comparing the keyword character by character against the lower-cased tag at one position holds exactly when the keyword occurs there |
| Keywords.IncludesFromIff | app/Main.tsx:25 | the position-by-position `includes` search succeeds iff the keyword occurs at some position from the start on |
| Keywords.AnyKeywordIff | app/Main.tsx:31-36 | the chain of `includes` tests over a keyword list holds iff the tag contains one of the keywords |
| Keywords.AnyTagIff | app/Main.tsx:31-36 | `tags.some(...)` holds iff some tag contains some keyword |
| Keywords.ScanIsMatches | components/RelatedPosts.tsx:39-47 | the step-by-step evaluation of `tags && tags.some(...)` decides exactly `Matches`: present tags, one of which contains a keyword |
| Keywords.NoTagsNoMatch | app/Main.tsx:30 | absent and empty tag lists match no table |
| Keywords.MatchesUnion | components/RelatedPosts.tsx:66-78 | matching the concatenation of two tables is matching one or the other |
| Keywords.CelebrityContainsCeleb | app/celebverse/page.tsx:13-14 | a string containing "celebrity" contains "celeb" |
| Keywords.CelebrityRedundant | app/celebverse/page.tsx:12-16 | the Celebverse table and the same table without "celebrity" match exactly the same tag lists |
| Keywords.HollywoodIsCelebverse | app/celebverse/page.tsx:12 | every tag list that matches the Hollywood table matches the Celebverse table |
| Seqs.Filter | app/Main.tsx:24-26 | `filter` keeps at most as many elements, only accepted elements of the input, every accepted element, and the input order |
| Seqs.Take | app/Main.tsx:16 | `slice(0, n)` keeps the first `min(n, length)` elements |
| Seqs.FilterCount | app/Main.tsx:24-26 | a filter keeps each accepted element exactly as often as the input holds it, and no other element |
| Seqs.FilterMonotone | app/celebverse/page.tsx:10-18 | a filter that accepts everything another accepts keeps the other's result as a subsequence of its own |
| Seqs.FilterSameSelection | app/celebverse/page.tsx:10-18 | two filters that agree on every element give the same result |
| Seqs.SubsequenceOfTail | app/celebverse/page.tsx:10-18 | a subsequence stays one when an element is put in front of the larger sequence |
| Seqs.TakeIsSubsequence | components/RelatedPosts.tsx:83 | a prefix is an order-preserving subsequence |
| Seqs.SubsequenceTransitive | components/RelatedPosts.tsx:83-88 | a subsequence of a subsequence is a subsequence |
| Carousel.JsRem | components/Carousel.tsx:22 | JavaScript `%` agrees with the mathematical remainder on a non-negative dividend and positive divisor |
| Carousel.JsRemIsTruncated | components/Carousel.tsx:22 | the truncated remainder is smaller than the divisor in magnitude and is zero or has the dividend's sign |
| Carousel.JsRemSymmetric | components/Carousel.tsx:22 | the remainder ignores the divisor's sign and negates with the dividend |
| Carousel.ActiveDots | components/Carousel.tsx:100-108 | one dot per item |
| Carousel.AdvanceInRange | components/Carousel.tsx:36-38 | from a slide in range, next is the following slide, and wraps from the last slide to the first |
| Carousel.RetreatInRange | components/Carousel.tsx:32-34 | from a slide in range, previous is the preceding slide, and wraps from the first slide to the last |
| Carousel.RetreatUndoesAdvance | components/Carousel.tsx:32-38 | previous undoes next and next undoes previous |
| Carousel.AdvanceTimesIs | components/Carousel.tsx:21-23 | within one round, `k` ticks from slide `v` reach slide `v + k`, wrapped once |
| Carousel.FullCycle | components/Carousel.tsx:21-23 | as many ticks as there are items bring the index back to where it started |
| Carousel.ExactlyOneActiveDot | components/Carousel.tsx:104-106 | with the index in range, the dot at the index is active and no other is |
| Carousel.CarouselState.constructor | components/Carousel.tsx:18 | the index starts at 0 |
| Carousel.CarouselState.GoToNext | components/Carousel.tsx:36-38 | the index takes one step forward and stays in range |
| Carousel.CarouselState.Tick | components/Carousel.tsx:21-23 | the timer takes the same step as next and keeps the index in range |
| Carousel.CarouselState.GoToPrevious | components/Carousel.tsx:32-34 | the index takes one step back and stays in range |
| Carousel.CarouselState.GoToSlide | components/Carousel.tsx:28-30 | the index becomes exactly the clicked dot, which is always in range |
| Carousel.CarouselState.Dots | components/Carousel.tsx:40-42 | nothing is rendered without items; otherwise dot `k` is active iff `k` is the current index |
| CategoryColumn.ThumbnailOf | components/CategoryColumn.tsx:41-62 | the thumbnail is the first image exactly when images are present and the first URL is non-empty; otherwise it is the placeholder |
| CategoryColumn.TagLabel | components/CategoryColumn.tsx:96-101 | the label is the first tag, shown exactly when tags are present and non-empty |
| CategoryColumn.Entries | components/CategoryColumn.tsx:40-44 | one entry per post, in order |
| CategoryColumn.Render | components/CategoryColumn.tsx:24-137 | nothing for no posts; otherwise the first `min(5, n)` posts in order, and a "view more" link to `/tags/` + the lower-cased title exactly when `n > 5` |
| CategoryColumn.ViewMoreIffHidden | components/CategoryColumn.tsx:131-134 | the "view more" link is shown iff some posts are not shown |
| HomePage.ToItems | app/Main.tsx:17-21 | each carousel item is `{title, images[0], slug}` of the post at the same position |
| HomePage.CarouselItems | app/Main.tsx:14-21 | at most five items, each made from an input post with images; items exist iff some post has images |
| HomePage.FilterTakeIsScan | app/Main.tsx:14-21 | the filter, slice and map pipeline equals walking the posts and stopping after `limit` posts with images |
| HomePage.CarouselIsFirstFiveWithImages | app/Main.tsx:14-16 | the carousel holds the first five posts with images, in input order |
| HomePage.ColumnIsExactlyTagged | app/Main.tsx:24-48 | a column is an order-preserving subsequence of the posts; it holds each labelled post as often as the input does and nothing else; all its posts have tags |
| HomePage.ColumnsAreIndependent | app/Main.tsx:24-48 | the columns do not exclude each other: one post can be in all three columns, a "Canada Travel" post is in the World column only, and a post without tags is in none |
| HomePage.CanadaTravelOnlyWorld | app/Main.tsx:24-48 | a tag of "Canada Travel" matches neither the Hollywood nor the Exclusive keywords |
| HomePage.CanadaTravelNotHollywood | app/Main.tsx:24-26 | a tag of "Canada Travel" does not contain "hollywood" |
| HomePage.CanadaTravelNotExclusive | app/Main.tsx:39-48 | a tag of "Canada Travel" contains none of "images", "exclusive", "feature" |
| HomePage.AllColumnsHollywood | app/Main.tsx:24-26 | the tags "Hollywood", "Canada Travel", "Exclusive" match the Hollywood table |
| HomePage.AllColumnsWorld | app/Main.tsx:28-37 | the same tags match the World table |
| HomePage.AllColumnsExclusive | app/Main.tsx:39-48 | the same tags match the Exclusive table |
| HomePage.CanadaTravelIsWorld | app/Main.tsx:28-37 | a tag of "Canada Travel" puts a post in the World column |
| HomePage.CardTags | app/Main.tsx:177 | a card shows the first `min(3, n)` tags in order, and fails when tags are absent |
| HomePage.Cards | app/Main.tsx:89-90 | one card per post, in order; the render fails iff some post has no tags |
| HomePage.CarouselSection | app/Main.tsx:53-57 | the carousel is rendered iff some post has images, and then holds the first five of them |
| HomePage.LatestCards | app/Main.tsx:89 | the cards of the first `min(5, n)` posts, in order; fails iff one of those posts has no tags |
| HomePage.Render | app/Main.tsx:50-223 | the page: carousel section, the three columns over their filters, the "No posts found." notice iff there are no posts, the latest cards, and the "All Posts" link iff `n > 5` |
| HomePage.AllPostsLinkIffHidden | app/Main.tsx:213 | when each of the first five posts has tags the page renders, and the "All Posts" link is shown iff the latest list leaves posts out |
| GossipsPage.PageKeywordsAreShared | app/gossips/page.tsx:15-19 | the page's inline list is the Gossips table that related posts also use |
| GossipsPage.GossipsPostsAreExactlyTagged | app/gossips/page.tsx:10-21 | an order-preserving subsequence of the sorted posts; every kept post is gossip-tagged; every gossip-tagged post is kept; none without tags is kept |
| CelebversePage.PageKeywordsAreShared | app/celebverse/page.tsx:12-16 | the page's inline list is the Celebverse table that related posts also use |
| CelebversePage.CelebversePostsAreExactlyTagged | app/celebverse/page.tsx:10-18 | an order-preserving subsequence of the sorted posts; every kept post is celebrity-tagged; every celebrity-tagged post is kept; none without tags is kept |
| CelebversePage.CelebrityKeywordIsRedundant | app/celebverse/page.tsx:13-14 | filtering without "celebrity" in the list keeps the same posts |
| CelebversePage.HollywoodColumnIsKept | app/celebverse/page.tsx:12 | every post of the home page's Hollywood column over the same list is kept, in the same order |
| RelatedPosts.InlineListsAreShared | components/RelatedPosts.tsx:15-79 | the two Celebverse copies and the two Gossips copies are the shared tables; the Blog exclusion list is the two tables one after the other |
| RelatedPosts.Pool | components/RelatedPosts.tsx:34 | the pool has no post with the current slug, and is non-empty iff some other post exists |
| RelatedPosts.Select | components/RelatedPosts.tsx:34-89 | the result never holds the current post, keeps the input order and has at most 6 posts; it is non-empty iff another post exists; when the category has posts it is the first 6 of them (all in the category); otherwise it is the first 3 of the pool |
| RelatedPosts.AbsentTags | components/RelatedPosts.tsx:37-65 | a post without tags is dropped by the Celebverse and Gossips filters and kept by the Blog filter |
| RelatedPosts.BlogKeepsTheRest | components/RelatedPosts.tsx:64-79 | the Blog filter keeps a post iff its tags are absent or match neither the Celebverse nor the Gossips table |
| RelatedPosts.CategoryPriority | components/RelatedPosts.tsx:36-62 | Celebverse iff a Celebverse keyword matches; Gossips iff no Celebverse keyword matches but a Gossips one does; Blog otherwise; absent tags give Blog |
| RelatedPosts.CelebverseTakesPrecedence | components/RelatedPosts.tsx:36-49 | "Celebrity News" matches the Gossips table but is Celebverse |
| RelatedPosts.CelebrityNewsIsGossips | components/RelatedPosts.tsx:24-31 | "Celebrity News" contains the Gossips keyword "news" |
| RelatedPosts.CelebrityNewsIsCelebverse | components/RelatedPosts.tsx:15-22 | "Celebrity News" contains the Celebverse keyword "celebrity" |
| RelatedPosts.TravelIsNotCelebverse | components/RelatedPosts.tsx:15-22 | "Travel" matches no Celebverse keyword |
| RelatedPosts.FallbackScenario | components/RelatedPosts.tsx:86-89 | viewing a Celebverse post whose other posts are "Travel" and untagged, no other post is Celebverse, so the panel shows the pool's first posts instead |
| RelatedPosts.ScenarioPool | components/RelatedPosts.tsx:34 | the pool of that scenario is the two other posts, in order |
| RelatedPosts.ScenarioNoneInCategory | components/RelatedPosts.tsx:37-48 | neither of those two posts passes the Celebverse filter |
| YouTube.IdRun | components/YouTube.tsx:14-16 | the captured run is a slice of the URL, made of id characters only, and maximal |
| YouTube.LeftmostFrom | components/YouTube.tsx:20 | the regex search finds the leftmost position where the prefix is followed by an id character, or reports that there is none |
| YouTube.Capture | components/YouTube.tsx:20-22 | a pattern captures iff it matches somewhere; the capture is non-empty, made of id characters, and the maximal run after the leftmost match |
| YouTube.FirstCaptureDecides | components/YouTube.tsx:19-24 | the patterns find nothing iff none matches; otherwise the found id is the capture of the first pattern in order that matches |
| YouTube.PatternIdIsWellFormed | components/YouTube.tsx:13-22 | an id found by the patterns is non-empty and made of `[A-Za-z0-9_-]` only |
| YouTube.ShortLinkCapture | components/YouTube.tsx:14 | `youtu.be/dQw?t=5` captures `dQw` |
| YouTube.BareShortLinkFallsBack | components/YouTube.tsx:19-46 | `https://youtu.be/` matches no pattern, so the URL parser decides |
| YouTube.ExtractVideoId | components/YouTube.tsx:11-47 | the loop returns the first pattern's capture, else the URL parser's answer (`null` when that fails) |
| YouTube.Embed | components/YouTube.tsx:54-71 | a truthy `videoId` is used as given and `url` is ignored; otherwise the id comes from a truthy `url`; a missing or empty id gives the invalid placeholder, any other the iframe `https://www.youtube.com/embed/` + id |
| Image.FinalSrc | components/Image.tsx:7-9 | a source starting with '/' is kept; any other gets the base path (empty when unset) in front; the result always ends with the source |
| Image.NoBasePathKeepsSrc | components/Image.tsx:9 | with no base path, or an empty one, the result is the source |
| Image.FinalSrcIdempotent | components/Image.tsx:7-9 | with no base path, an empty one, or one starting with '/', applying the rule twice equals applying it once |
| Keywords.Contains | app/Main.tsx:25 | definition of `includes`: some position where the keyword occurs; characterised by Keywords.IncludesFromIff |
| Keywords.TagHas | app/Main.tsx:25 | definition of `tag.toLowerCase().includes(keyword)`; characterised by Keywords.AnyKeywordIff |
| Keywords.Matches | app/Main.tsx:30-36 | definition of `tags && tags.some(...)`; properties in Keywords.ScanIsMatches, Keywords.NoTagsNoMatch and Keywords.MatchesUnion |
| Keywords.Tagged | app/Main.tsx:24-26 | definition of the filter callback of one keyword list; properties in HomePage.ColumnIsExactlyTagged |
| Carousel.Advance | components/Carousel.tsx:37 | definition of `(prevIndex + 1) % items.length`; properties in Carousel.AdvanceInRange and Carousel.RetreatUndoesAdvance |
| Carousel.Retreat | components/Carousel.tsx:33 | definition of `(prevIndex - 1 + items.length) % items.length`; properties in Carousel.RetreatInRange and Carousel.RetreatUndoesAdvance |
| Carousel.AdvanceTimes | components/Carousel.tsx:21-23 | definition of repeated ticks; properties in Carousel.AdvanceTimesIs and Carousel.FullCycle |
| CategoryColumn.EntryOf | components/CategoryColumn.tsx:40-106 | definition of one row of the column; its parts are stated by CategoryColumn.ThumbnailOf and CategoryColumn.TagLabel |
| CategoryColumn.ViewMoreTarget | components/CategoryColumn.tsx:134 | definition of the link target; stated by CategoryColumn.Render |
| HomePage.HasImages | app/Main.tsx:15 | definition of `post.images && post.images.length > 0`; used by HomePage.CarouselItems and HomePage.CarouselSection |
| HomePage.ToItem | app/Main.tsx:17-21 | definition of the projection `{title, images[0], slug}`; stated by HomePage.ToItems |
| HomePage.FirstWithImages | app/Main.tsx:14-21 | reference definition: walk the posts and stop after `limit` posts with images; tied to the pipeline by HomePage.FilterTakeIsScan |
| HomePage.HollywoodPosts | app/Main.tsx:24-26 | definition of `hollywoodPosts`; properties in HomePage.ColumnIsExactlyTagged |
| HomePage.WorldPosts | app/Main.tsx:28-37 | definition of `worldPosts`; properties in HomePage.ColumnIsExactlyTagged and HomePage.CanadaTravelIsWorld |
| HomePage.ExclusivePosts | app/Main.tsx:39-48 | definition of `exclusivePosts`; properties in HomePage.ColumnIsExactlyTagged |
| GossipsPage.GossipsPosts | app/gossips/page.tsx:10-21 | definition of `gossipsPosts` over the page's inline list; properties in GossipsPage.GossipsPostsAreExactlyTagged |
| GossipsPage.Page | app/gossips/page.tsx:23 | definition: the home page over `gossipsPosts`; stated by HomePage.Render |
| CelebversePage.CelebversePosts | app/celebverse/page.tsx:10-18 | definition of `celebversePosts` over the page's inline list; properties in CelebversePage.CelebversePostsAreExactlyTagged |
| CelebversePage.Page | app/celebverse/page.tsx:20 | definition: the home page over `celebversePosts`; stated by HomePage.Render |
| RelatedPosts.CategoryOf | components/RelatedPosts.tsx:36-62 | definition of the priority chain over the inline test lists; properties in RelatedPosts.CategoryPriority |
| RelatedPosts.InCategory | components/RelatedPosts.tsx:37-79 | definition of the three branch filters over the inline filter lists; properties in RelatedPosts.AbsentTags and RelatedPosts.BlogKeepsTheRest |
| RelatedPosts.Belongs | components/RelatedPosts.tsx:37-79 | definition of the branch filter as a callback; used by RelatedPosts.Select |
| RelatedPosts.OtherThan | components/RelatedPosts.tsx:34 | definition of `post.slug !== currentPostSlug`; properties in RelatedPosts.Pool |
| YouTube.IsIdChar | components/YouTube.tsx:14 | definition of `[a-zA-Z0-9_-]` |
| YouTube.MatchesAt | components/YouTube.tsx:14-16 | definition of a pattern matching at one position; properties in YouTube.LeftmostFrom and YouTube.Capture |
| YouTube.FirstCapture | components/YouTube.tsx:19-24 | definition of trying the patterns in order; properties in YouTube.FirstCaptureDecides |
| YouTube.ExtractedId | components/YouTube.tsx:19-46 | definition: the patterns' id, else the URL parser's answer; the specification of YouTube.ExtractVideoId |
| YouTube.Truthy | components/YouTube.tsx:54-60 | definition of a truthy string: present and non-empty; used by YouTube.Embed |
| Image.StartsWithSlash | components/Image.tsx:7 | definition of `src.startsWith('/')`; used by Image.FinalSrc |
| Keywords.LowerChar | app/Main.tsx:25 | definition of `toLowerCase` on one character (ASCII letters only); characterised by Keywords.Lower |
| Keywords.OccursAt | app/Main.tsx:25 | definition of an occurrence of the keyword at one position; used by Keywords.Contains and characterised by Keywords.IncludesFromIff |
| Keywords.LowerRunAt | app/Main.tsx:25 | operational definition: the lower-cased tag agrees with the keyword from one position on; characterised by Keywords.RunIsOccurrence |
| Keywords.IncludesFrom | app/Main.tsx:25 | operational definition of `tag.toLowerCase().includes(keyword)` as a left-to-right search; characterised by Keywords.IncludesFromIff |
| Keywords.AnyKeyword | app/Main.tsx:33-35 | operational definition of the chain of `includes` tests joined by `or`; characterised by Keywords.AnyKeywordIff |
| Keywords.AnyTag | app/Main.tsx:31-36 | operational definition of `post.tags.some(...)`; characterised by Keywords.AnyTagIff |
| Keywords.Scan | components/RelatedPosts.tsx:39-47 | operational definition of the whole tag test, including the missing-tags case; equal to Keywords.Matches by Keywords.ScanIsMatches |
| Carousel.CarouselState.Valid | components/Carousel.tsx:28-38 | the class invariant: with items, the index is a number in `0 .. items.length - 1`; kept by the constructor and by every method |

## Left out

- JSX markup, class names, inline styles and SVG icons: they are presentation only.
- `formatDate`, `NewsletterForm`, `next/image`, `Link`, `Tag` and `siteMetadata` (site description, locale, newsletter provider) are library or configuration calls. The date text, the newsletter form and the image component are not modelled.
- `sortPosts`, `allCoreContent` and `allBlogs`: the sorted post list is an input. That it is ordered by date is assumed, not modelled.
- React's `useState`/`useEffect`, `setInterval`/`clearInterval` and the 5-second period: lifecycle and timing. Only the index transitions are modelled. Items that change between renders, which re-create the timer, are not modelled.
- The `new URL(...)` fallback of `extractVideoId` (hostname, pathname and `v` query checks) depends on the WHATWG URL parser. It is the parameter `parseUrl`. A throw or a `null` is `None`.
- The `BASE_PATH` environment lookup is the parameter `basePath` (`None` when unset).
- Image.FinalSrc: models only string sources. A non-string `src` (a static import object, which the `typeof` test lets through to the concatenation) is not modelled.
- Console logging in the carousel's image callbacks.
- Full Unicode `toLowerCase`: only ASCII letters are lower-cased. The keywords are lower-case ASCII.
- The `metadata` exports and the route wiring of the page files.
- The card image layout by image count (one, two, or more with a "+n" overlay) and the `hasImage` padding and line-clamp choices of the cards.
- The YouTube `title` prop and the iframe's `allow` attributes, which do not affect which video is shown.
- Carousel.ActiveDots: its own contract gives only the length; which dot is active is stated by `Carousel.ExactlyOneActiveDot` and `Carousel.CarouselState.Dots`.
