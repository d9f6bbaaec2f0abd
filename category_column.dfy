/**
 * One labelled column of the home page (components/CategoryColumn.tsx): the
 * first five of the posts it is given, a thumbnail and a first-tag label per
 * post, and a "view more" link when some posts do not fit.
 */
module CategoryColumn {
  import opened Wrappers
  import opened Seqs
  import opened Posts
  import opened Keywords

  const ColumnSize: nat := 5

  /** The thumbnail slot: the post's first image, or the grey placeholder icon. */
  datatype Thumbnail = Picture(url: string) | Placeholder

  /** What one row of the column shows of a post. */
  datatype Entry = Entry(slug: string, title: string, date: string, summary: string, thumbnail: Thumbnail, tagLabel: Option<string>)

  /** A rendered column; `viewMore` is the target of the "View more" link when it is shown. */
  datatype ColumnView = ColumnView(title: string, entries: seq<Entry>, viewMore: Option<string>)

  /**
   * `hasImage ? images[0] : null`, then `imageUrl ? <Image> : <placeholder>`:
   * an empty first URL is falsy and also gives the placeholder.
   */
  function ThumbnailOf(images: Option<seq<string>>): (t: Thumbnail)
    ensures t.Picture? <==> images.Some? && |images.value| > 0 && images.value[0] != ""
    ensures t.Picture? ==> t.url == images.value[0]
  {
    var imageUrl := if images.Some? && |images.value| > 0 then Some(images.value[0]) else None;
    if imageUrl.Some? && imageUrl.value != "" then Picture(imageUrl.value) else Placeholder
  }

  /** `tags && tags.length > 0 && tags[0]`. */
  function TagLabel(tags: Option<seq<string>>): (first: Option<string>)
    ensures first.Some? <==> tags.Some? && |tags.value| > 0
    ensures first.Some? ==> first.value == tags.value[0]
  {
    if tags.Some? && |tags.value| > 0 then Some(tags.value[0]) else None
  }

  function EntryOf(post: Post): Entry
  {
    Entry(post.slug, post.title, post.date, post.summary, ThumbnailOf(post.images), TagLabel(post.tags))
  }

  function Entries(posts: seq<Post>): (entries: seq<Entry>)
    ensures |entries| == |posts|
    ensures forall k | 0 <= k < |posts| :: entries[k] == EntryOf(posts[k])
  {
    if posts == [] then [] else [EntryOf(posts[0])] + Entries(posts[1..])
  }

  /** `/tags/${title.toLowerCase()}`. */
  function ViewMoreTarget(title: string): string
  {
    "/tags/" + Lower(title)
  }

  /** The whole component: `None` is the `return null` of an empty post list. */
  function Render(title: string, posts: seq<Post>): (view: Option<ColumnView>)
    ensures view.None? <==> posts == []
    ensures view.Some? ==> view.value.title == title
    ensures view.Some? ==> |view.value.entries| == Min(ColumnSize, |posts|)
    ensures view.Some? ==> forall k | 0 <= k < |view.value.entries| :: view.value.entries[k] == EntryOf(posts[k])
    ensures view.Some? ==> (view.value.viewMore.Some? <==> |posts| > ColumnSize)
    ensures view.Some? && view.value.viewMore.Some? ==> view.value.viewMore.value == "/tags/" + Lower(title)
  {
    if posts == [] then None
    else
      var shown := Take(posts, ColumnSize);
      Some(ColumnView(title, Entries(shown), if |posts| > ColumnSize then Some(ViewMoreTarget(title)) else None))
  }

  /** The "view more" link is there exactly when some of the column's posts are not shown. */
  lemma ViewMoreIffHidden(title: string, posts: seq<Post>)
    requires posts != []
    ensures Render(title, posts).Some?
    ensures Render(title, posts).value.viewMore.Some? <==> |Render(title, posts).value.entries| < |posts|
  {
  }
}
