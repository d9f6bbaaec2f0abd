/**
 * Tag classification: a post carries a label when one of its tags, lower-cased,
 * contains one of the label's keywords. The keyword tables are kept here, once;
 * the components that repeat them inline are shown to agree with them.
 */
module Keywords {
  import opened Wrappers
  import opened Posts

  /** `toLowerCase` restricted to ASCII: 'A'..'Z' become 'a'..'z', everything else is kept. */
  function LowerChar(c: char): char
  {
    if 'A' <= c <= 'Z' then (c as int - 'A' as int + 'a' as int) as char else c
  }

  function Lower(s: string): (r: string)
    ensures |r| == |s|
    ensures forall i | 0 <= i < |s| :: r[i] == LowerChar(s[i])
  {
    if s == [] then [] else [LowerChar(s[0])] + Lower(s[1..])
  }

  /** `sub` occurs in `s` starting at index `i`. */
  predicate OccursAt(s: string, sub: string, i: int)
  {
    0 <= i && i + |sub| <= |s| && s[i..i + |sub|] == sub
  }

  /** `s.includes(sub)`; the empty string is contained in every string. */
  predicate Contains(s: string, sub: string)
  {
    exists i | 0 <= i <= |s| - |sub| :: OccursAt(s, sub, i)
  }

  /** `tag.toLowerCase().includes(keyword)`. */
  predicate TagHas(tag: string, keyword: string)
  {
    Contains(Lower(tag), keyword)
  }

  /**
   * `tags && tags.some(tag => keywords.some(k => tag.toLowerCase().includes(k)))`:
   * absent tags never match.
   */
  predicate Matches(tags: Option<seq<string>>, keywords: seq<string>)
  {
    tags.Some? && exists i, j | 0 <= i < |tags.value| && 0 <= j < |keywords| :: TagHas(tags.value[i], keywords[j])
  }

  /** The filter that keeps the posts labelled by `keywords`. */
  function Tagged(keywords: seq<string>): Post -> bool
  {
    (post: Post) => Matches(post.tags, keywords)
  }

  // The shared keyword tables, one per label.
  const HollywoodKeywords: seq<string> := ["hollywood"]
  const WorldKeywords: seq<string> := ["canada", "holiday", "travel"]
  const ExclusiveKeywords: seq<string> := ["images", "exclusive", "feature"]
  const CelebverseKeywords: seq<string> := ["hollywood", "celebrity", "celeb", "actor", "actress"]
  const GossipsKeywords: seq<string> := ["gossip", "news", "entertainment", "scandal", "buzz"]

  // The same test read the way JavaScript evaluates it: `tags.some` walks the
  // tags, the `||` chain walks the keywords, `includes` walks the start positions.

  /** Characters `k..` of `keyword` equal the lower-cased characters of `tag` from `start + k` on. */
  predicate LowerRunAt(tag: string, keyword: string, start: nat, k: nat)
    decreases |keyword| - k
  {
    k >= |keyword| || (start + k < |tag| && LowerChar(tag[start + k]) == keyword[k] && LowerRunAt(tag, keyword, start, k + 1))
  }

  /** `tag.toLowerCase().includes(keyword)`, trying the start positions from `start` on. */
  predicate IncludesFrom(tag: string, keyword: string, start: nat)
    decreases |tag| - start
  {
    start + |keyword| <= |tag| && (LowerRunAt(tag, keyword, start, 0) || IncludesFrom(tag, keyword, start + 1))
  }

  /** The `||` chain over `keywords[j..]`. */
  predicate AnyKeyword(tag: string, keywords: seq<string>, j: nat)
    decreases |keywords| - j
  {
    j < |keywords| && (IncludesFrom(tag, keywords[j], 0) || AnyKeyword(tag, keywords, j + 1))
  }

  /** `tags.some(...)` over `tags[i..]`. */
  predicate AnyTag(tags: seq<string>, keywords: seq<string>, i: nat)
    decreases |tags| - i
  {
    i < |tags| && (AnyKeyword(tags[i], keywords, 0) || AnyTag(tags, keywords, i + 1))
  }

  /** `tags && tags.some(...)`, evaluated step by step. */
  predicate Scan(tags: Option<seq<string>>, keywords: seq<string>)
  {
    tags.Some? && AnyTag(tags.value, keywords, 0)
  }

  /** An occurrence at `p` is found by a search that starts at or before `p`. */
  lemma {:induction false} IncludesFromAt(tag: string, keyword: string, start: nat, p: nat)
    requires start <= p && p + |keyword| <= |tag| && LowerRunAt(tag, keyword, p, 0)
    ensures IncludesFrom(tag, keyword, start)
    decreases p - start
  {
    if start < p {
      IncludesFromAt(tag, keyword, start + 1, p);
    }
  }

  lemma {:induction false} LowerRunAtChars(tag: string, keyword: string, start: nat, k: nat)
    requires k <= |keyword| && start + |keyword| <= |tag|
    ensures LowerRunAt(tag, keyword, start, k) <==> forall m | k <= m < |keyword| :: LowerChar(tag[start + m]) == keyword[m]
    decreases |keyword| - k
  {
    if k < |keyword| {
      LowerRunAtChars(tag, keyword, start, k + 1);
    }
  }

  lemma OccursAtChars(tag: string, keyword: string, start: nat)
    requires start + |keyword| <= |tag|
    ensures OccursAt(Lower(tag), keyword, start) <==> forall m | 0 <= m < |keyword| :: LowerChar(tag[start + m]) == keyword[m]
  {
    var window := Lower(tag)[start..start + |keyword|];
    assert forall m | 0 <= m < |keyword| :: window[m] == LowerChar(tag[start + m]);
  }

  /** One start position: the character-by-character comparison finds exactly an occurrence in the lower-cased tag. */
  lemma RunIsOccurrence(tag: string, keyword: string, start: nat)
    requires start + |keyword| <= |tag|
    ensures LowerRunAt(tag, keyword, start, 0) <==> OccursAt(Lower(tag), keyword, start)
  {
    LowerRunAtChars(tag, keyword, start, 0);
    OccursAtChars(tag, keyword, start);
  }

  lemma {:induction false} IncludesFromIff(tag: string, keyword: string, start: nat)
    ensures IncludesFrom(tag, keyword, start) <==> exists p | start <= p <= |tag| - |keyword| :: OccursAt(Lower(tag), keyword, p)
    decreases |tag| - start
  {
    if start + |keyword| <= |tag| {
      RunIsOccurrence(tag, keyword, start);
      IncludesFromIff(tag, keyword, start + 1);
      if exists p | start <= p <= |tag| - |keyword| :: OccursAt(Lower(tag), keyword, p) {
        var p :| start <= p <= |tag| - |keyword| && OccursAt(Lower(tag), keyword, p);
        if p != start {
          assert start + 1 <= p;
        }
      }
    }
  }

  lemma {:induction false} AnyKeywordIff(tag: string, keywords: seq<string>, j: nat)
    ensures AnyKeyword(tag, keywords, j) <==> exists q | j <= q < |keywords| :: TagHas(tag, keywords[q])
    decreases |keywords| - j
  {
    if j < |keywords| {
      IncludesFromIff(tag, keywords[j], 0);
      assert |Lower(tag)| == |tag|;
      assert TagHas(tag, keywords[j]) <==> IncludesFrom(tag, keywords[j], 0);
      AnyKeywordIff(tag, keywords, j + 1);
    }
  }

  lemma {:induction false} AnyTagIff(tags: seq<string>, keywords: seq<string>, i: nat)
    ensures AnyTag(tags, keywords, i) <==> exists p, q | i <= p < |tags| && 0 <= q < |keywords| :: TagHas(tags[p], keywords[q])
    decreases |tags| - i
  {
    if i < |tags| {
      AnyKeywordIff(tags[i], keywords, 0);
      AnyTagIff(tags, keywords, i + 1);
    }
  }

  /** The step-by-step evaluation decides exactly `Matches`. */
  lemma ScanIsMatches(tags: Option<seq<string>>, keywords: seq<string>)
    ensures Scan(tags, keywords) <==> Matches(tags, keywords)
  {
    if tags.Some? {
      AnyTagIff(tags.value, keywords, 0);
    }
  }

  /** Absent and empty tag lists match no keyword table. */
  lemma NoTagsNoMatch(keywords: seq<string>)
    ensures !Matches(None, keywords) && !Matches(Some([]), keywords)
  {
  }

  /** Matching against two tables at once is matching against one or the other. */
  lemma MatchesUnion(tags: Option<seq<string>>, a: seq<string>, b: seq<string>)
    ensures Matches(tags, a + b) <==> Matches(tags, a) || Matches(tags, b)
  {
    if tags.Some? {
      var ts := tags.value;
      if Matches(tags, a + b) {
        var i, j :| 0 <= i < |ts| && 0 <= j < |a + b| && TagHas(ts[i], (a + b)[j]);
        if j < |a| {
          assert TagHas(ts[i], a[j]);
        } else {
          assert TagHas(ts[i], b[j - |a|]);
        }
      }
      if Matches(tags, a) {
        var i, j :| 0 <= i < |ts| && 0 <= j < |a| && TagHas(ts[i], a[j]);
        assert (a + b)[j] == a[j];
      }
      if Matches(tags, b) {
        var i, j :| 0 <= i < |ts| && 0 <= j < |b| && TagHas(ts[i], b[j]);
        assert (a + b)[|a| + j] == b[j];
      }
    }
  }

  /** A string that contains "celebrity" contains "celeb" at the same place. */
  lemma CelebrityContainsCeleb(s: string)
    requires Contains(s, "celebrity")
    ensures Contains(s, "celeb")
  {
    var i :| 0 <= i <= |s| - 9 && OccursAt(s, "celebrity", i);
    assert s[i..i + 5] == s[i..i + 9][..5];
    assert OccursAt(s, "celeb", i);
  }

  /**
   * "celebrity" is redundant in the Celebverse table: the table without it
   * labels exactly the same tag lists.
   */
  lemma CelebrityRedundant(tags: Option<seq<string>>)
    ensures Matches(tags, CelebverseKeywords) <==> Matches(tags, ["hollywood", "celeb", "actor", "actress"])
  {
    var short: seq<string> := ["hollywood", "celeb", "actor", "actress"];
    if Matches(tags, CelebverseKeywords) {
      var ts := tags.value;
      var i, j :| 0 <= i < |ts| && 0 <= j < 5 && TagHas(ts[i], CelebverseKeywords[j]);
      if j == 1 {
        CelebrityContainsCeleb(Lower(ts[i]));
        assert TagHas(ts[i], short[1]);
      } else {
        var j' := if j == 0 then 0 else j - 1;
        assert TagHas(ts[i], short[j']);
      }
    }
    if Matches(tags, short) {
      var ts := tags.value;
      var i, j :| 0 <= i < |ts| && 0 <= j < 4 && TagHas(ts[i], short[j]);
      var j' := if j == 0 then 0 else j + 1;
      assert TagHas(ts[i], CelebverseKeywords[j']);
    }
  }

  /** Since "hollywood" is a Celebverse keyword, every Hollywood-labelled tag list is labelled Celebverse too. */
  lemma HollywoodIsCelebverse(tags: Option<seq<string>>)
    requires Matches(tags, HollywoodKeywords)
    ensures Matches(tags, CelebverseKeywords)
  {
    var i, j :| 0 <= i < |tags.value| && 0 <= j < 1 && TagHas(tags.value[i], HollywoodKeywords[j]);
    assert TagHas(tags.value[i], CelebverseKeywords[0]);
  }
}
