/**
 * The YouTube embed (components/YouTube.tsx): a video id taken as given or
 * extracted from a URL by three patterns tried in order, then an iframe
 * source or an "invalid" placeholder.
 */
module YouTube {
  import opened Wrappers

  /** `[a-zA-Z0-9_-]`. */
  predicate IsIdChar(c: char)
  {
    ('a' <= c <= 'z') || ('A' <= c <= 'Z') || ('0' <= c <= '9') || c == '_' || c == '-'
  }

  /**
   * The literal prefixes of the three patterns, in the order they are tried:
   * `/youtu\.be\/(...)/`, `/youtube\.com\/watch\?v=(...)/`, `/youtube\.com\/embed\/(...)/`.
   */
  const Patterns: seq<string> := ["youtu.be/", "youtube.com/watch?v=", "youtube.com/embed/"]

  const EmbedBase: string := "https://www.youtube.com/embed/"

  /** The pattern `prefix([a-zA-Z0-9_-]+)` matches at position `p`: the prefix is there and at least one id character follows. */
  predicate MatchesAt(s: string, prefix: string, p: int)
  {
    0 <= p && p + |prefix| < |s| && s[p..p + |prefix|] == prefix && IsIdChar(s[p + |prefix|])
  }

  /** The greedy `[a-zA-Z0-9_-]+` from index `i`: the longest run of id characters starting there. */
  function IdRun(s: string, i: nat): (run: string)
    requires i <= |s|
    ensures i + |run| <= |s| && run == s[i..i + |run|]
    ensures forall k | 0 <= k < |run| :: IsIdChar(run[k])
    ensures i + |run| == |s| || !IsIdChar(s[i + |run|])
    decreases |s| - i
  {
    if i < |s| && IsIdChar(s[i]) then
      var rest := IdRun(s, i + 1);
      assert s[i..i + 1 + |rest|] == [s[i]] + s[i + 1..i + 1 + |rest|];
      [s[i]] + rest
    else []
  }

  /** The search of `String.prototype.match`: the first position from `from` on where the pattern matches. */
  function LeftmostFrom(s: string, prefix: string, from: nat): (p: Option<nat>)
    ensures p.Some? ==> from <= p.value && MatchesAt(s, prefix, p.value)
    ensures p.Some? ==> forall q | from <= q < p.value :: !MatchesAt(s, prefix, q)
    ensures p.None? ==> forall q | from <= q :: !MatchesAt(s, prefix, q)
    decreases |s| - from
  {
    if from >= |s| then None
    else if MatchesAt(s, prefix, from) then Some(from)
    else LeftmostFrom(s, prefix, from + 1)
  }

  /**
   * `url.match(pattern)` followed by `match[1]`: the capture at the leftmost
   * match, or `None` when the pattern does not match. A capture is never
   * empty and holds only id characters.
   */
  function Capture(s: string, prefix: string): (m: Option<string>)
    ensures m.Some? <==> exists p :: MatchesAt(s, prefix, p)
    ensures m.Some? ==> |m.value| > 0 && forall k | 0 <= k < |m.value| :: IsIdChar(m.value[k])
    ensures m.Some? ==>
      exists p :: (MatchesAt(s, prefix, p) && (forall q | 0 <= q < p :: !MatchesAt(s, prefix, q)) &&
        var start := p + |prefix|;
        start + |m.value| <= |s| && m.value == s[start..start + |m.value|] &&
        (start + |m.value| == |s| || !IsIdChar(s[start + |m.value|])))
  {
    match LeftmostFrom(s, prefix, 0)
    case None => None
    case Some(p) =>
      var run := IdRun(s, p + |prefix|);
      assert run[0] == s[p + |prefix|];
      Some(run)
  }

  /** The first of `patterns` whose capture succeeds decides the id. */
  function FirstCapture(url: string, patterns: seq<string>): Option<string>
  {
    if patterns == [] then None
    else
      var m := Capture(url, patterns[0]);
      if m.Some? then m else FirstCapture(url, patterns[1..])
  }

  /**
   * The id the patterns find is the capture of the first pattern that matches;
   * there is none exactly when no pattern matches.
   */
  lemma {:induction false} FirstCaptureDecides(url: string, patterns: seq<string>)
    ensures FirstCapture(url, patterns).None? <==> forall k | 0 <= k < |patterns| :: Capture(url, patterns[k]).None?
    ensures FirstCapture(url, patterns).Some? ==>
      exists k | 0 <= k < |patterns| :: FirstCapture(url, patterns) == Capture(url, patterns[k]) &&
        forall j | 0 <= j < k :: Capture(url, patterns[j]).None?
  {
    if patterns != [] {
      FirstCaptureDecides(url, patterns[1..]);
      if Capture(url, patterns[0]).None? && FirstCapture(url, patterns[1..]).Some? {
        var k :| 0 <= k < |patterns[1..]| && FirstCapture(url, patterns[1..]) == Capture(url, patterns[1..][k]) &&
          forall j | 0 <= j < k :: Capture(url, patterns[1..][j]).None?;
        assert FirstCapture(url, patterns) == Capture(url, patterns[k + 1]);
        assert forall j | 0 <= j < k + 1 :: Capture(url, patterns[j]).None? by {
          forall j | 0 <= j < k + 1 ensures Capture(url, patterns[j]).None? {
            if j > 0 {
              assert patterns[j] == patterns[1..][j - 1];
            }
          }
        }
      }
      if Capture(url, patterns[0]).None? {
        assert forall k | 1 <= k < |patterns| :: patterns[k] == patterns[1..][k - 1];
      }
    }
  }

  /** An id found by the patterns is non-empty and made of id characters only. */
  lemma PatternIdIsWellFormed(url: string)
    requires FirstCapture(url, Patterns).Some?
    ensures |FirstCapture(url, Patterns).value| > 0
    ensures forall k | 0 <= k < |FirstCapture(url, Patterns).value| :: IsIdChar(FirstCapture(url, Patterns).value[k])
  {
    FirstCaptureDecides(url, Patterns);
  }

  /** A short link: the id runs from after "youtu.be/" up to the first character outside the id alphabet. */
  lemma ShortLinkCapture()
    ensures Capture("youtu.be/dQw?t=5", "youtu.be/") == Some("dQw")
  {
    var s := "youtu.be/dQw?t=5";
    assert s[0..9] == "youtu.be/";
    assert MatchesAt(s, "youtu.be/", 0);
    assert LeftmostFrom(s, "youtu.be/", 0) == Some(0);
    assert IdRun(s, 12) == [];
    assert IdRun(s, 11) == ['w'];
    assert IdRun(s, 10) == ['Q', 'w'];
    assert IdRun(s, 9) == "dQw";
  }

  /**
   * What `extractVideoId` returns: the patterns' id, or else what the URL-parser
   * fallback gives; `parseUrl` stands for that fallback (lines 27-44) and
   * returns `None` where it throws or finds nothing.
   */
  function ExtractedId(url: string, parseUrl: string -> Option<string>): Option<string>
  {
    var m := FirstCapture(url, Patterns);
    if m.Some? then m else parseUrl(url)
  }

  /** A short link with no id after it matches none of the patterns: the URL parser decides. */
  lemma BareShortLinkFallsBack(parseUrl: string -> Option<string>)
    ensures ExtractedId("https://youtu.be/", parseUrl) == parseUrl("https://youtu.be/")
  {
    var s := "https://youtu.be/";
    forall p | 0 <= p ensures !MatchesAt(s, "youtu.be/", p) {
      if p < 8 {
        assert s[p..p + 9][8] == s[p + 8] != '/';
      }
    }
    assert Capture(s, Patterns[0]) == None;
    assert Capture(s, Patterns[1]) == None;
    assert Capture(s, Patterns[2]) == None;
  }

  /** `extractVideoId(url)`: the `for ... of patterns` loop with its early return, then the fallback. */
  method ExtractVideoId(url: string, parseUrl: string -> Option<string>) returns (id: Option<string>)
    ensures id == ExtractedId(url, parseUrl)
  {
    for i := 0 to |Patterns|
      invariant FirstCapture(url, Patterns) == FirstCapture(url, Patterns[i..])
    {
      var m := Capture(url, Patterns[i]);
      if m.Some? && m.value != "" {
        return m;
      }
      assert Patterns[i..][1..] == Patterns[i + 1..];
    }
    return parseUrl(url);
  }

  /** A JavaScript string that is truthy: present and not empty. */
  predicate Truthy(s: Option<string>)
  {
    s.Some? && s.value != ""
  }

  datatype Player = Invalid | Frame(src: string)

  /**
   * The component: a truthy `videoId` is used as given and `url` is ignored;
   * otherwise a truthy `url` is searched; a missing or empty id gives the
   * "Invalid YouTube URL or video ID" placeholder.
   */
  method Embed(videoId: Option<string>, url: Option<string>, parseUrl: string -> Option<string>) returns (player: Player)
    ensures Truthy(videoId) ==> player == Frame(EmbedBase + videoId.value)
    ensures !Truthy(videoId) && !Truthy(url) ==> player == Invalid
    ensures !Truthy(videoId) && Truthy(url) ==>
      var id := ExtractedId(url.value, parseUrl);
      player == if Truthy(id) then Frame(EmbedBase + id.value) else Invalid
  {
    var finalVideoId: Option<string> := if Truthy(videoId) then videoId else None;
    if Truthy(url) && !Truthy(videoId) {
      finalVideoId := ExtractVideoId(url.value, parseUrl);
    }
    if !Truthy(finalVideoId) {
      return Invalid;
    }
    return Frame(EmbedBase + finalVideoId.value);
  }
}
