/** The two `get_video_id` functions of the project: the server's, which knows
    long (`watch?v=`) and short (`youtu.be/`) links and cuts off trailing
    parameters, and the script's, which takes the text between the first `v=` and
    the next one (or the end). */
module VideoIds {
  import opened Text

  const QUERY_MARKER: string := "v="
  const SHORT_MARKER: string := "youtu.be/"
  /** The long and short link forms, up to where the identifier starts. */
  const WATCH_PAGE: string := "https://www.youtube.com/watch?"
  const WATCH_PREFIX: string := WATCH_PAGE + QUERY_MARKER
  const SHORT_PREFIX: string := "https://youtu.be/"

  /** The characters YouTube uses in video identifiers. */
  predicate IsIdChar(c: char)
  {
    'a' <= c <= 'z' || 'A' <= c <= 'Z' || '0' <= c <= '9' || c == '-' || c == '_'
  }

  predicate IsId(id: string)
  {
    forall i :: 0 <= i < |id| ==> IsIdChar(id[i])
  }

  /** `url.split(marker)[1].split(stop)[0]`; index 1 exists because `marker` occurs. */
  function PieceAfter(url: string, marker: string, stop: char): string
    requires |marker| > 0 && Contains(url, marker)
  {
    SplitCount(url, marker);
    Split(Split(url, marker)[1], [stop])[0]
  }

  /** `url[start..start + k]` runs from `start` to the first `stop` character, the
      next occurrence of `marker` or the end of `url`, whichever comes first. */
  predicate CutAt(url: string, marker: string, stop: char, start: nat, k: nat)
  {
    start + k <= |url|
    && stop !in url[start..start + k]
    && (forall j :: start <= j < start + k ==> !OccursAt(url, marker, j))
    && (start + k == |url| || url[start + k] == stop || OccursAt(url, marker, start + k))
  }

  /** The piece after the first `marker`, cut at `stop`, is the stretch `CutAt` describes,
      and holds neither `stop` nor `marker`. */
  lemma {:induction false} PieceAfterSpec(url: string, marker: string, stop: char)
    requires |marker| > 0 && Contains(url, marker)
    ensures var start, p := Find(url, marker).value + |marker|, PieceAfter(url, marker, stop);
      start + |p| <= |url| && p == url[start..start + |p|] && CutAt(url, marker, stop, start, |p|)
      && stop !in p && !Contains(p, marker)
  {
    var start := Find(url, marker).value + |marker|;
    SplitCount(url, marker);
    var q := Split(url, marker)[1];
    SecondPiece(url, marker);
    SplitFree(url, marker);
    assert !Contains(q, marker);
    var p := Split(q, [stop])[0];
    FirstPiece(q, [stop]);
    assert p == url[start..start + |p|];
    forall j | 0 <= j < |p| ensures p[j] != stop {
      OccursChar(q, stop, j);
    }
    if |p| < |q| {
      OccursChar(q, stop, |p|);
    }
    PrefixOfFree(q, marker, |p|);
  }

  /** `CutAt` fixes the piece: only one length satisfies it. */
  lemma {:induction false} PieceAfterIs(url: string, marker: string, stop: char, k: nat)
    requires |marker| > 0 && Contains(url, marker)
    requires CutAt(url, marker, stop, Find(url, marker).value + |marker|, k)
    ensures PieceAfter(url, marker, stop) == url[Find(url, marker).value + |marker|..Find(url, marker).value + |marker| + k]
  {
    PieceAfterSpec(url, marker, stop);
  }

  /** backend.py's `get_video_id`. */
  function BackendVideoId(url: string): string
  {
    if Contains(url, QUERY_MARKER) then PieceAfter(url, QUERY_MARKER, '&')
    else if Contains(url, SHORT_MARKER) then PieceAfter(url, SHORT_MARKER, '?')
    else url
  }

  /** With `v=` present, the identifier is the text after the first `v=`, up to the
      first `&`, the next `v=` or the end; it holds neither. */
  lemma {:induction false} QueryBranch(url: string)
    requires Contains(url, QUERY_MARKER)
    ensures var start, id := Find(url, QUERY_MARKER).value + 2, BackendVideoId(url);
      start + |id| <= |url| && id == url[start..start + |id|] && CutAt(url, QUERY_MARKER, '&', start, |id|)
      && '&' !in id && !Contains(id, QUERY_MARKER)
  {
    PieceAfterSpec(url, QUERY_MARKER, '&');
  }

  /** Without `v=` but with `youtu.be/`, the identifier is the text after the first
      `youtu.be/`, up to the first `?`, the next `youtu.be/` or the end. */
  lemma {:induction false} ShortBranch(url: string)
    requires !Contains(url, QUERY_MARKER) && Contains(url, SHORT_MARKER)
    ensures var start, id := Find(url, SHORT_MARKER).value + 9, BackendVideoId(url);
      start + |id| <= |url| && id == url[start..start + |id|] && CutAt(url, SHORT_MARKER, '?', start, |id|)
      && '?' !in id && !Contains(id, SHORT_MARKER) && !Contains(id, QUERY_MARKER)
  {
    var start := Find(url, SHORT_MARKER).value + 9;
    PieceAfterSpec(url, SHORT_MARKER, '?');
    var id := BackendVideoId(url);
    SliceOfFree(url, QUERY_MARKER, start, start + |id|);
  }

  /** A link with neither marker is taken to be the identifier itself. */
  lemma {:induction false} NoMarkerUnchanged(url: string)
    requires !Contains(url, QUERY_MARKER) && !Contains(url, SHORT_MARKER)
    ensures BackendVideoId(url) == url
  {
  }

  /** The result of main.py's `get_video_id`: the second piece, or the IndexError that
      indexing `[1]` raises when there is none. */
  datatype ScriptResult = ScriptId(id: string) | IndexError

  /** main.py's `get_video_id`. */
  function ScriptVideoId(url: string): ScriptResult
  {
    var pieces := Split(url, QUERY_MARKER);
    if |pieces| > 1 then ScriptId(pieces[1]) else IndexError
  }

  /** The script fails exactly when `v=` is missing. */
  lemma {:induction false} ScriptFails(url: string)
    ensures ScriptVideoId(url).IndexError? <==> !Contains(url, QUERY_MARKER)
  {
    SplitCount(url, QUERY_MARKER);
  }

  /** The script's identifier is everything between the first `v=` and the next one
      (or the end), parameters included. */
  lemma {:induction false} ScriptBetweenMarkers(url: string)
    requires Contains(url, QUERY_MARKER)
    ensures ScriptVideoId(url).ScriptId?
    ensures var start, id := Find(url, QUERY_MARKER).value + 2, ScriptVideoId(url).id;
      start + |id| <= |url| && id == url[start..start + |id|]
      && (forall j :: start <= j < start + |id| ==> !OccursAt(url, QUERY_MARKER, j))
      && (start + |id| == |url| || OccursAt(url, QUERY_MARKER, start + |id|))
      && !Contains(id, QUERY_MARKER)
  {
    SplitCount(url, QUERY_MARKER);
    SecondPiece(url, QUERY_MARKER);
    SplitFree(url, QUERY_MARKER);
  }

  /** Where both succeed, the server's identifier is the script's cut at the first `&`:
      a prefix of it, and all of it exactly when it has no `&`. */
  lemma {:induction false} BackendStripsScript(url: string)
    requires Contains(url, QUERY_MARKER)
    ensures ScriptVideoId(url).ScriptId?
    ensures var sid, id := ScriptVideoId(url).id, BackendVideoId(url);
      |id| <= |sid| && id == sid[..|id|] && (id == sid <==> '&' !in sid)
  {
    SplitCount(url, QUERY_MARKER);
    var sid := ScriptVideoId(url).id;
    var id := BackendVideoId(url);
    FirstPiece(sid, "&");
    if '&' in sid {
      ContainsChar(sid, '&');
      SplitCount(sid, "&");
      JoinSplit(sid, "&");
    } else {
      ContainsChar(sid, '&');
      SplitNone(sid, "&");
    }
  }

  /** Where the parts of a link with a `v=` parameter sit. */
  lemma {:induction false} QueryParts(pre: string, id: string, tail: string)
    ensures var url, start := pre + QUERY_MARKER + id + tail, |pre| + 2;
      |url| == start + |id| + |tail|
      && (forall j :: 0 <= j < |pre| ==> url[j] == pre[j])
      && url[|pre|..start] == QUERY_MARKER
      && (forall j :: start <= j < start + |id| ==> url[j] == id[j - start])
      && url[start..start + |id|] == id && url[start + |id|..] == tail
      && url == pre + QUERY_MARKER + (id + tail)
  {
    var url := pre + QUERY_MARKER + id + tail;
    assert url == pre + (QUERY_MARKER + (id + tail));
    assert url == (pre + QUERY_MARKER) + (id + tail);
  }

  /** A `v=` parameter after a stretch without `v=`, holding an identifier that is
      followed by nothing or by further `&` parameters, yields that identifier. */
  lemma {:induction false} QueryFormId(pre: string, id: string, tail: string)
    requires !Contains(pre, QUERY_MARKER) && IsId(id) && (tail == "" || tail[0] == '&')
    ensures BackendVideoId(pre + QUERY_MARKER + id + tail) == id
  {
    var url := pre + QUERY_MARKER + id + tail;
    var start := |pre| + 2;
    QueryParts(pre, id, tail);
    QueryFind(pre, id + tail);
    forall j | start <= j < start + |id| ensures !OccursAt(url, QUERY_MARKER, j) {
      if OccursAt(url, QUERY_MARKER, j) {
        OccursIndex(url, QUERY_MARKER, j, 1);
      }
    }
    if tail != "" {
      assert url[start + |id|] == tail[0];
    }
    PieceAfterIs(url, QUERY_MARKER, '&', |id|);
  }

  /** Where the parts of a short link sit. */
  lemma {:induction false} ShortParts(id: string, tail: string)
    ensures var url, start := SHORT_PREFIX + id + tail, |SHORT_PREFIX|;
      |url| == start + |id| + |tail|
      && (forall j :: 0 <= j < start ==> url[j] == SHORT_PREFIX[j])
      && (forall j :: start <= j < start + |id| ==> url[j] == id[j - start])
      && url[start..start + |id|] == id && url[start + |id|..] == tail
  {
    var url := SHORT_PREFIX + id + tail;
    assert url == SHORT_PREFIX + (id + tail);
  }

  /** Before its query a short link has no `=`. */
  lemma {:induction false} ShortNoEquals(id: string, tail: string)
    requires IsId(id)
    ensures forall j :: 0 <= j < |SHORT_PREFIX| + |id| ==> (SHORT_PREFIX + id + tail)[j] != '='
  {
    ShortParts(id, tail);
    assert '=' !in SHORT_PREFIX;
  }

  /** A short link whose query lacks `v=` has no `v=` at all: an `=` would have to
      follow the `v`. */
  lemma {:induction false} ShortNoQuery(id: string, tail: string)
    requires IsId(id) && (tail == "" || tail[0] == '?') && !Contains(tail, QUERY_MARKER)
    ensures !Contains(SHORT_PREFIX + id + tail, QUERY_MARKER)
  {
    var url := SHORT_PREFIX + id + tail;
    var end := |SHORT_PREFIX| + |id|;
    ShortParts(id, tail);
    ShortNoEquals(id, tail);
    ContainsOccurs(tail, QUERY_MARKER);
    forall j | 0 <= j ensures !OccursAt(url, QUERY_MARKER, j) {
      if OccursAt(url, QUERY_MARKER, j) {
        OccursIndex(url, QUERY_MARKER, j, 1);
        if j >= end {
          OccursShift(url, QUERY_MARKER, end, j - end);
        }
      }
    }
    ContainsOccurs(url, QUERY_MARKER);
  }

  /** The first `youtu.be/` of a short link is the one in its prefix. */
  lemma {:induction false} ShortFind(id: string, tail: string)
    ensures Find(SHORT_PREFIX + id + tail, SHORT_MARKER) == Some(8)
  {
    var url := SHORT_PREFIX + id + tail;
    ShortParts(id, tail);
    assert forall j :: 0 <= j < 8 ==> url[j] != 'y';
    NoLeadAt(url, SHORT_MARKER, 0, 8);
    assert url[8..|SHORT_PREFIX|] == SHORT_MARKER;
    FindFromIs(url, SHORT_MARKER, 0, 8);
  }

  /** In a short link the identifier runs from after the prefix to the first `?` or
      the end: no `youtu.be/` can start inside it, since its `.` would fall inside the
      identifier or its `youtu` would cover the `?`. */
  lemma {:induction false} ShortCut(id: string, tail: string)
    requires IsId(id) && (tail == "" || tail[0] == '?')
    ensures CutAt(SHORT_PREFIX + id + tail, SHORT_MARKER, '?', |SHORT_PREFIX|, |id|)
  {
    var url := SHORT_PREFIX + id + tail;
    var start := |SHORT_PREFIX|;
    var end := start + |id|;
    ShortParts(id, tail);
    forall j | start <= j < end ensures !OccursAt(url, SHORT_MARKER, j) {
      if OccursAt(url, SHORT_MARKER, j) {
        if j + 5 < end {
          OccursIndex(url, SHORT_MARKER, j, 5);
        } else {
          OccursIndex(url, SHORT_MARKER, j, end - j);
        }
      }
    }
    if tail != "" {
      assert url[end] == tail[0];
    }
  }

  /** A `youtu.be/` link holding an identifier followed by nothing or by a `?` query
      without `v=` yields that identifier. */
  lemma {:induction false} ShortFormId(id: string, tail: string)
    requires IsId(id) && (tail == "" || tail[0] == '?') && !Contains(tail, QUERY_MARKER)
    ensures BackendVideoId(SHORT_PREFIX + id + tail) == id
  {
    var url := SHORT_PREFIX + id + tail;
    ShortNoQuery(id, tail);
    ShortFind(id, tail);
    ShortCut(id, tail);
    ShortParts(id, tail);
    PieceAfterIs(url, SHORT_MARKER, '?', |id|);
  }

  /** The long and the short link to the same video give the same identifier. */
  lemma {:induction false} SameVideoSameId(id: string, query: string, shortQuery: string)
    requires IsId(id) && (query == "" || query[0] == '&')
    requires (shortQuery == "" || shortQuery[0] == '?') && !Contains(shortQuery, QUERY_MARKER)
    ensures BackendVideoId(WATCH_PREFIX + id + query) == id
    ensures BackendVideoId(SHORT_PREFIX + id + shortQuery) == id
  {
    WatchPageFree();
    QueryFormId(WATCH_PAGE, id, query);
    assert WATCH_PAGE + QUERY_MARKER + id + query == WATCH_PREFIX + id + query;
    ShortFormId(id, shortQuery);
  }

  /** No `v=` starts inside a stretch without `v=` that is followed by `v=`: one
      straddling its end would need `=` where the marker's `v` stands. */
  lemma {:induction false} MarkerAfterFree(pre: string, rest: string)
    requires !Contains(pre, QUERY_MARKER)
    ensures var url := pre + QUERY_MARKER + rest;
      forall j :: 0 <= j < |pre| ==> !OccursAt(url, QUERY_MARKER, j)
  {
    var url := pre + QUERY_MARKER + rest;
    assert url == pre + (QUERY_MARKER + rest);
    ContainsOccurs(pre, QUERY_MARKER);
    forall j | 0 <= j < |pre| ensures !OccursAt(url, QUERY_MARKER, j) {
      if j + 2 <= |pre| {
        assert !OccursAt(pre, QUERY_MARKER, j);
        assert url[j..j + 2] == pre[j..j + 2];
      } else {
        assert url[j + 1] == 'v';
        assert url[j..j + 2][1] == url[j + 1];
      }
    }
  }

  /** The first `v=` of a link is the one after a stretch without `v=`. */
  lemma {:induction false} QueryFind(pre: string, rest: string)
    requires !Contains(pre, QUERY_MARKER)
    ensures var url := pre + QUERY_MARKER + rest;
      Find(url, QUERY_MARKER) == Some(|pre|) && url[|pre| + 2..] == rest
  {
    var url := pre + QUERY_MARKER + rest;
    assert url == pre + (QUERY_MARKER + rest);
    MarkerAfterFree(pre, rest);
    assert url[|pre|..|pre| + 2] == QUERY_MARKER;
    FindFromIs(url, QUERY_MARKER, 0, |pre|);
  }

  /** For a link with a single `v=`, the script keeps everything after it, other
      parameters included. */
  lemma {:induction false} ScriptQueryForm(pre: string, rest: string)
    requires !Contains(pre, QUERY_MARKER) && !Contains(rest, QUERY_MARKER)
    ensures ScriptVideoId(pre + QUERY_MARKER + rest) == ScriptId(rest)
  {
    var url := pre + QUERY_MARKER + rest;
    QueryFind(pre, rest);
    SplitCons(url, QUERY_MARKER, |pre|);
    SplitNone(rest, QUERY_MARKER);
  }

  lemma WatchPageFree()
    ensures !Contains(WATCH_PAGE, QUERY_MARKER)
  {
    assert forall i :: 0 <= i < |WATCH_PAGE| ==> WATCH_PAGE[i] != 'v';
    NoLead(WATCH_PAGE, QUERY_MARKER);
  }

  lemma WatchLinkSpelled()
    ensures WATCH_PAGE + QUERY_MARKER + "ID" + "&t=5" == "https://www.youtube.com/watch?v=ID&t=5"
    ensures WATCH_PAGE + QUERY_MARKER + "ID&t=5" == "https://www.youtube.com/watch?v=ID&t=5"
  {
  }

  /** A watch link with a time parameter: the server strips `&t=5`, */
  lemma WatchLinkServer()
    ensures BackendVideoId("https://www.youtube.com/watch?v=ID&t=5") == "ID"
  {
    WatchLinkSpelled();
    WatchPageFree();
    QueryFormId(WATCH_PAGE, "ID", "&t=5");
  }

  /** ... while the script keeps it. */
  lemma WatchLinkScript()
    ensures ScriptVideoId("https://www.youtube.com/watch?v=ID&t=5") == ScriptId("ID&t=5")
  {
    WatchLinkSpelled();
    WatchPageFree();
    NoLead("ID&t=5", QUERY_MARKER);
    ScriptQueryForm(WATCH_PAGE, "ID&t=5");
  }

  /** A short link with a time parameter: the server strips `?t=5`, */
  lemma ShortLinkServer()
    ensures BackendVideoId("https://youtu.be/ID?t=5") == "ID"
  {
    NoLead("?t=5", QUERY_MARKER);
    ShortFormId("ID", "?t=5");
    assert SHORT_PREFIX + "ID" + "?t=5" == "https://youtu.be/ID?t=5";
  }

  /** ... while the script fails on a short link. */
  lemma ShortLinkScript()
    ensures ScriptVideoId("https://youtu.be/ID") == IndexError
  {
    var url := "https://youtu.be/ID";
    assert forall i :: 0 <= i < |url| ==> url[i] != 'v';
    NoLead(url, QUERY_MARKER);
    ScriptFails(url);
  }

  lemma PrecedenceSpelled()
    ensures !Contains("https://youtu.be/ABC?", QUERY_MARKER)
    ensures "https://youtu.be/ABC?" + QUERY_MARKER + "XYZ" + "" == "https://youtu.be/ABC?v=XYZ"
  {
    var pre := "https://youtu.be/ABC?";
    assert forall i :: 0 <= i < |pre| ==> pre[i] != 'v';
    NoLead(pre, QUERY_MARKER);
  }

  /** When both markers occur, `v=` wins. */
  lemma PrecedenceExample()
    ensures BackendVideoId("https://youtu.be/ABC?v=XYZ") == "XYZ"
  {
    PrecedenceSpelled();
    QueryFormId("https://youtu.be/ABC?", "XYZ", "");
  }
}
