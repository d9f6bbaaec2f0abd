/** The image wrapper (components/Image.tsx): prefixes a relative `src` with the site's base path. */
module Image {
  import opened Wrappers

  predicate StartsWithSlash(s: string)
  {
    |s| > 0 && s[0] == '/'
  }

  /**
   * `finalSrc`: a `src` starting with '/' is kept, any other gets
   * `basePath || ''` in front. `basePath` is the `BASE_PATH` environment
   * value, `None` when it is not set.
   */
  function FinalSrc(src: string, basePath: Option<string>): (r: string)
    ensures StartsWithSlash(src) ==> r == src
    ensures !StartsWithSlash(src) ==> r == (if basePath.Some? then basePath.value else "") + src
    ensures |src| <= |r| && r[|r| - |src|..] == src
  {
    if StartsWithSlash(src) then src
    else
      var prefix := if basePath.Some? then basePath.value else "";
      assert (prefix + src)[|prefix|..] == src;
      prefix + src
  }

  /** Without a base path (or an empty one) the source is used as given. */
  lemma NoBasePathKeepsSrc(src: string, basePath: Option<string>)
    requires basePath.None? || basePath.value == ""
    ensures FinalSrc(src, basePath) == src
  {
  }

  /** With no base path, or one that starts with '/', prefixing a second time changes nothing. */
  lemma FinalSrcIdempotent(src: string, basePath: Option<string>)
    requires basePath.None? || basePath.value == "" || StartsWithSlash(basePath.value)
    ensures FinalSrc(FinalSrc(src, basePath), basePath) == FinalSrc(src, basePath)
  {
    if !StartsWithSlash(src) && basePath.Some? && basePath.value != "" {
      assert (basePath.value + src)[0] == basePath.value[0];
    }
  }
}
