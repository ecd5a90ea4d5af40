/** utils/video_processor.py, `get_video_id`: `re.search` with the pattern
    `(?:https?://)?(?:www\.)?(?:youtube\.com/watch\?v=|youtu\.be/)([\w-]+)`
    and the first group of the match. The regex engine is modelled directly:
    every position is tried from the left, and at one position the optional
    prefixes and the alternation are tried in the engine's order. */
module VideoId {
  import opened Wrappers

  /** `\w`, approximated by its ASCII part: letters, digits and underscore. */
  predicate IsWordChar(c: char) {
    ('a' <= c <= 'z') || ('A' <= c <= 'Z') || ('0' <= c <= '9') || c == '_'
  }

  /** The class `[\w-]`. */
  predicate IsIdChar(c: char) {
    IsWordChar(c) || c == '-'
  }

  const WatchMarker: string := "youtube.com/watch?v="
  const ShortMarker: string := "youtu.be/"

  /** The texts `(?:https?://)?(?:www\.)?` can match, in the order the engine
      tries them: both optional groups are greedy, and `s?` first takes the `s`. */
  const Leads: seq<string> := ["https://www.", "https://", "http://www.", "http://", "www.", ""]

  /** The alternation, watch URL first. */
  const Markers: seq<string> := [WatchMarker, ShortMarker]

  /** `w` occurs in `s` at position `p`. */
  predicate HasAt(s: string, p: nat, w: string) {
    p + |w| <= |s| && s[p..p + |w|] == w
  }

  lemma HasAtSplit(s: string, p: nat, a: string, b: string)
    requires HasAt(s, p, a + b)
    ensures HasAt(s, p, a) && HasAt(s, p + |a|, b)
  {
    assert s[p..p + |a|] == (a + b)[..|a|];
    assert s[p + |a|..p + |a| + |b|] == (a + b)[|a|..];
  }

  /** A video id can start at `q`: a marker ends there and an id character follows. */
  predicate IdStartsAt(url: string, q: nat) {
    && q < |url| && IsIdChar(url[q])
    && ((q >= |WatchMarker| && HasAt(url, q - |WatchMarker|, WatchMarker))
        || (q >= |ShortMarker| && HasAt(url, q - |ShortMarker|, ShortMarker)))
  }

  /** The end of the longest run of id characters from `p`: `[\w-]+` is greedy. */
  function RunEnd(s: string, p: nat): (e: nat)
    requires p <= |s|
    ensures p <= e <= |s|
    ensures forall i :: p <= i < e ==> IsIdChar(s[i])
    ensures e == |s| || !IsIdChar(s[e])
    decreases |s| - p
  {
    if p < |s| && IsIdChar(s[p]) then RunEnd(s, p + 1) else p
  }

  /** One match: where it starts, the lead and marker it consumed, and the
      span of group 1. */
  datatype Match = Match(start: nat, lead: string, marker: string, groupStart: nat, groupEnd: nat)

  /** What every match found at `p` satisfies. */
  ghost predicate IsMatchAt(url: string, p: nat, m: Match) {
    && m.start == p
    && m.lead in Leads && m.marker in Markers
    && HasAt(url, p, m.lead + m.marker)
    && m.groupStart == p + |m.lead| + |m.marker|
    && IdStartsAt(url, m.groupStart)
    && m.groupStart <= m.groupEnd <= |url|
    && m.groupEnd == RunEnd(url, m.groupStart)
  }

  /** The pattern tried at `p`, from lead `li` and marker `mi` on: every
      marker after one lead before the next lead. */
  function TryAt(url: string, p: nat, li: nat, mi: nat): Option<Match>
    requires p <= |url|
    decreases |Leads| - li, |Markers| - mi
  {
    if li >= |Leads| then None
    else if mi >= |Markers| then TryAt(url, p, li + 1, 0)
    else
      var lead, marker := Leads[li], Markers[mi];
      var g := p + |lead| + |marker|;
      if HasAt(url, p, lead + marker) && g < |url| && IsIdChar(url[g]) then
        Some(Match(p, lead, marker, g, RunEnd(url, g)))
      else TryAt(url, p, li, mi + 1)
  }

  /** Whatever the engine finds at `p` is a match at `p`. */
  lemma {:induction false} TryAtIsMatch(url: string, p: nat, li: nat, mi: nat)
    requires p <= |url|
    ensures TryAt(url, p, li, mi).Some? ==> IsMatchAt(url, p, TryAt(url, p, li, mi).value)
    decreases |Leads| - li, |Markers| - mi
  {
    if li < |Leads| {
      if mi >= |Markers| {
        TryAtIsMatch(url, p, li + 1, 0);
      } else {
        var lead, marker := Leads[li], Markers[mi];
        var g := p + |lead| + |marker|;
        if HasAt(url, p, lead + marker) && g < |url| && IsIdChar(url[g]) {
          HasAtSplit(url, p, lead, marker);
          assert marker == WatchMarker || marker == ShortMarker;
          assert HasAt(url, g - |marker|, marker);
        } else {
          TryAtIsMatch(url, p, li, mi + 1);
        }
      }
    }
  }

  /** The pattern tried at position `p`. */
  function MatchAt(url: string, p: nat): Option<Match>
    requires p <= |url|
  {
    TryAt(url, p, 0, 0)
  }

  /** A marker at `p` followed by an id character makes the pattern match at `p`. */
  lemma MarkerMatchesAt(url: string, p: nat)
    requires p <= |url|
    ensures HasAt(url, p, WatchMarker) && IdStartsAt(url, p + |WatchMarker|) ==> MatchAt(url, p).Some?
    ensures HasAt(url, p, ShortMarker) && IdStartsAt(url, p + |ShortMarker|) ==> MatchAt(url, p).Some?
  {
    if HasAt(url, p, WatchMarker) && IdStartsAt(url, p + |WatchMarker|) {
      TryAtFindsBare(url, p, 0, 0, 0);
    }
    if HasAt(url, p, ShortMarker) && IdStartsAt(url, p + |ShortMarker|) {
      TryAtFindsBare(url, p, 0, 0, 1);
    }
  }

  /** `re.search` from position `p`: the first position at which the pattern matches. */
  function Search(url: string, p: nat): (r: Option<Match>)
    requires p <= |url|
    ensures r.Some? ==> p <= r.value.start <= |url| && MatchAt(url, r.value.start) == r
    ensures r.Some? ==> forall p' :: p <= p' < r.value.start ==> MatchAt(url, p').None?
    ensures r.None? ==> forall p' :: p <= p' <= |url| ==> MatchAt(url, p').None?
    decreases |url| - p
  {
    var m := MatchAt(url, p);
    if m.Some? then m
    else if p == |url| then None
    else Search(url, p + 1)
  }

  /** The leftmost position where a video id can start. */
  ghost predicate IsFirstIdStart(url: string, q: nat) {
    IdStartsAt(url, q) && forall q' :: 0 <= q' < q ==> !IdStartsAt(url, q')
  }

  /** With no lead, a marker followed by an id character matches, whatever
      alternatives come before it. */
  lemma {:induction false} TryAtFindsBare(url: string, p: nat, li: nat, mi: nat, m: nat)
    requires p <= |url| && m < |Markers|
    requires li < |Leads| - 1 || (li == |Leads| - 1 && mi <= m)
    requires HasAt(url, p, Markers[m])
    requires p + |Markers[m]| < |url| && IsIdChar(url[p + |Markers[m]|])
    ensures TryAt(url, p, li, mi).Some?
    decreases |Leads| - li, |Markers| - mi
  {
    if mi >= |Markers| {
      TryAtFindsBare(url, p, li + 1, 0, m);
    } else if li < |Leads| - 1 || mi < m {
      TryAtFindsBare(url, p, li, mi + 1, m);
    } else {
      assert Leads[li] + Markers[m] == Markers[m];
    }
  }

  /** Wherever an id can start, the pattern matches at the start of its marker. */
  lemma MatchBeforeIdStart(url: string, q: nat) returns (p: nat)
    requires IdStartsAt(url, q)
    ensures p < q && MatchAt(url, p).Some?
    ensures (HasAt(url, p, WatchMarker) && q == p + |WatchMarker|)
         || (HasAt(url, p, ShortMarker) && q == p + |ShortMarker|)
  {
    if q >= |WatchMarker| && HasAt(url, q - |WatchMarker|, WatchMarker) {
      p := q - |WatchMarker|;
      TryAtFindsBare(url, p, 0, 0, 0);
    } else {
      p := q - |ShortMarker|;
      TryAtFindsBare(url, p, 0, 0, 1);
    }
  }

  /** When the search finds nothing, no id can start anywhere. */
  lemma SearchFailsOnlyWithoutId(url: string)
    requires Search(url, 0).None?
    ensures forall q :: !IdStartsAt(url, q)
  {
    forall q | IdStartsAt(url, q)
      ensures false
    {
      var p := MatchBeforeIdStart(url, q);
    }
  }

  /** No lead contains a `y`; a marker contains one only at its start. */
  lemma WhereYCanBe(lead: string, marker: string, k: nat)
    requires lead in Leads && marker in Markers && k < |lead + marker|
    requires (lead + marker)[k] == 'y'
    ensures k == |lead|
  {
  }

  /** A character of a slice is the character at the offset position. */
  lemma SliceIndex(s: string, a: nat, b: nat, k: nat)
    ensures a + k < b <= |s| ==> s[a..b][k] == s[a + k]
  {
  }

  /** Where `w` occurs, its characters are the string's. */
  lemma CharAt(s: string, p: nat, w: string, k: nat)
    ensures HasAt(s, p, w) && k < |w| ==> s[p + k] == w[k]
  {
  }

  /** The two markers differ at their sixth character. */
  lemma ShortIsNotPrefixOfWatch(url: string, p: nat)
    ensures !(HasAt(url, p, ShortMarker) && HasAt(url, p, WatchMarker))
  {
    if HasAt(url, p, ShortMarker) && HasAt(url, p, WatchMarker) {
      SliceIndex(url, p, p + |ShortMarker|, 5);
      assert false;
    }
  }

  /** No marker starts inside a match and ends before its group: it would
      have to start at a `y` of the lead (there is none) or start the matched
      marker and end before it (the short marker is not a prefix of the long one). */
  lemma NoMarkerInsideMatch(url: string, m: Match, p: nat, mk: string)
    requires IsMatchAt(url, m.start, m) && mk in Markers
    requires m.start <= p && p + |mk| < m.groupStart
    ensures !HasAt(url, p, mk)
  {
    if HasAt(url, p, mk) {
      var d := p - m.start;
      CharAt(url, p, mk, 0);
      CharAt(url, m.start, m.lead + m.marker, d);
      WhereYCanBe(m.lead, m.marker, d);
      HasAtSplit(url, m.start, m.lead, m.marker);
      ShortIsNotPrefixOfWatch(url, p);
      assert false;
    }
  }

  /** The first match consumes the leftmost marker that an id character follows. */
  lemma SearchFindsFirstIdStart(url: string)
    requires Search(url, 0).Some?
    ensures IsFirstIdStart(url, Search(url, 0).value.groupStart)
  {
    var m := Search(url, 0).value;
    TryAtIsMatch(url, m.start, 0, 0);
    forall q: nat | q < m.groupStart
      ensures !IdStartsAt(url, q)
    {
      if IdStartsAt(url, q) {
        var p := MatchBeforeIdStart(url, q);
        if HasAt(url, p, WatchMarker) && q == p + |WatchMarker| {
          NoMarkerInsideMatch(url, m, p, WatchMarker);
        } else {
          NoMarkerInsideMatch(url, m, p, ShortMarker);
        }
      }
    }
  }

  /** The group of the first match is the id run at the leftmost id start. */
  lemma SearchGroupIsFirstRun(url: string)
    requires Search(url, 0).Some?
    ensures var m := Search(url, 0).value;
      && IsFirstIdStart(url, m.groupStart)
      && m.groupStart < m.groupEnd == RunEnd(url, m.groupStart)
  {
    var m := Search(url, 0).value;
    TryAtIsMatch(url, m.start, 0, 0);
    SearchFindsFirstIdStart(url);
  }

  /** `get_video_id`: group 1 of the first match, or nothing when the URL
      does not match (the caller then reports "Invalid URL" and exits). The
      result is the whole run of `[\w-]` characters after the leftmost
      `youtube.com/watch?v=` or `youtu.be/` that such a character follows. */
  function GetVideoId(url: string): (r: Option<string>)
    ensures r.Some? <==> exists q :: IdStartsAt(url, q)
    ensures r.Some? ==> exists q: nat :: IsFirstIdStart(url, q) && r.value == url[q..RunEnd(url, q)]
    ensures r.Some? ==> |r.value| > 0 && forall i :: 0 <= i < |r.value| ==> IsIdChar(r.value[i])
  {
    var m := Search(url, 0);
    if m.Some? then
      var g := m.value.groupStart;
      SearchGroupIsFirstRun(url);
      assert IdStartsAt(url, g);
      Some(url[g..RunEnd(url, g)])
    else
      SearchFailsOnlyWithoutId(url);
      None
  }
}
