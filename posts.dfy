/**
 * A blog post as the content store hands it to the components. The list of
 * posts arrives already sorted by date, newest first; nothing here re-sorts it.
 */
module Posts {
  import opened Wrappers

  /** `tags` and `images` are optional fields of the front matter: `None` is `undefined`. */
  datatype Post = Post(
    slug: string,
    date: string,
    title: string,
    summary: string,
    tags: Option<seq<string>>,
    images: Option<seq<string>>)
}
