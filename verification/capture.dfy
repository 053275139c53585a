/**
 * Locating the job list in the page: `re.search(r'let allJobs = (\[.*?\]);', html, re.DOTALL)`
 * and its group 1, written as two substring searches.
 */
module Capture {
  import opened Results
  import opened Text

  /** The fixed text before the captured group, including the group's opening bracket. */
  const Marker: string := "let allJobs = ["
  /** The closing bracket of the group followed by the semicolon after it. */
  const Terminator: string := "];"

  /**
   * The pattern matches `s[p..e]`: the marker at `p`, then anything (DOTALL), then `];`
   * ending at `e`. The `]` cannot be the marker's own `[`, so it sits at `p + |Marker|` or later.
   */
  ghost predicate MatchAt(s: string, p: int, e: int)
  {
    OccursAt(s, Marker, p) && p + |Marker| + |Terminator| <= e && OccursAt(s, Terminator, e - |Terminator|)
  }

  /**
   * The match `re.search` reports: the leftmost start position at which the pattern matches,
   * and, because `.*?` is lazy, the shortest match from that start.
   */
  ghost predicate SearchResult(s: string, p: int, e: int)
  {
    && MatchAt(s, p, e)
    && (forall q, f :: q < p ==> !MatchAt(s, q, f))
    && (forall f :: f < e ==> !MatchAt(s, p, f))
  }

  /** Start and end of the match: the first marker, then the first `];` after its bracket. */
  function MatchSpan(html: string): (r: Option<(nat, nat)>)
    ensures r.Some? ==> MatchAt(html, r.value.0, r.value.1)
  {
    match Find(html, Marker, 0)
    case None => None
    case Some(p) =>
      match Find(html, Terminator, p + |Marker|)
      case None => None
      case Some(j) => Some((p, j + |Terminator|))
  }

  /** `match.group(1)`, or None when there is no match. */
  function AllJobsLiteral(html: string): (r: Option<string>)
    ensures r.Some? ==> |r.value| >= 2 && r.value[0] == '[' && r.value[|r.value| - 1] == ']'
  {
    match MatchSpan(html)
    case None => None
    case Some((p, e)) =>
      assert html[p..p + |Marker|][|Marker| - 1] == '[';
      assert html[e - 2..e][0] == ']';
      Some(html[p + |Marker| - 1 .. e - 1])
  }

  /** The substring search finds exactly the match the regular expression engine reports. */
  lemma MatchSpanIsSearch(html: string)
    ensures MatchSpan(html).None? ==> forall p, e :: !MatchAt(html, p, e)
    ensures MatchSpan(html).Some? ==> SearchResult(html, MatchSpan(html).value.0, MatchSpan(html).value.1)
  {
    match Find(html, Marker, 0)
    case None =>
    case Some(p) =>
      var from := p + |Marker|;
      match Find(html, Terminator, from)
      case None =>
        forall q, f | MatchAt(html, q, f)
          ensures false
        {
        }
      case Some(j) =>
        forall f | f < j + |Terminator|
          ensures !MatchAt(html, p, f)
        {
          if MatchAt(html, p, f) {
            assert false;
          }
        }
  }

  /**
   * Whenever the pattern matches, the captured text is the group of the reported match; it
   * starts with `[`, ends with `]`, and contains no `];`, since the first one after the marker
   * ends the match.
   */
  lemma {:induction false} LiteralShape(html: string)
    ensures AllJobsLiteral(html).Some? <==> exists p, e :: MatchAt(html, p, e)
    ensures AllJobsLiteral(html).Some? ==>
      var (p, e) := MatchSpan(html).value;
      var c := AllJobsLiteral(html).value;
      && SearchResult(html, p, e)
      && c == html[p + |Marker| - 1 .. e - 1]
      && |c| >= 2 && c[0] == '[' && c[|c| - 1] == ']'
      && forall k :: 0 <= k < |c| - 1 ==> !OccursAt(c, Terminator, k)
  {
    MatchSpanIsSearch(html);
    if MatchSpan(html).Some? {
      var (p, e) := MatchSpan(html).value;
      var c := AllJobsLiteral(html).value;
      var start := p + |Marker| - 1;
      assert html[p..p + |Marker|][|Marker| - 1] == '[';
      assert html[e - 2..e][0] == ']';
      assert c[0] == '[' && c[|c| - 1] == ']';
      forall k | 0 <= k < |c| - 1
        ensures !OccursAt(c, Terminator, k)
      {
        assert c[k..k + 2][0] == c[k];
        if k > 0 {
          assert !MatchAt(html, p, start + k + 2);
          SliceOfSlice(html, start, e - 1, k, k + 2);
        }
      }
    }
  }

  /**
   * The lazy group stops at the first `];`, even one inside a JSON string: on
   * `let allJobs = ["a];b"];` the captured text is `["a]`, which does not decode.
   */
  lemma StopsAtFirstTerminator()
    ensures AllJobsLiteral("let allJobs = [\"a];b\"];") == Some("[\"a]")
  {
    var html := "let allJobs = [\"a];b\"];";
    assert OccursAt(html, Marker, 0);
    assert html[15] == '"' && html[16] == 'a';
    assert html[15..17][0] == html[15] && html[16..18][0] == html[16];
    assert !OccursAt(html, Terminator, 15) && !OccursAt(html, Terminator, 16);
    assert OccursAt(html, Terminator, 17);
    assert Find(html, Terminator, 17) == Some(17);
    assert Find(html, Terminator, 16) == Some(17);
    assert Find(html, Terminator, 15) == Some(17);
    assert Find(html, Marker, 0) == Some(0);
    assert MatchSpan(html) == Some((0, 19));
    assert html[14..18] == "[\"a]";
  }
}
