/** The two texts the question-answering pipeline assembles itself: the transcript,
    from the caption segments, and the retrieval context, from the retrieved documents. */
module Assembly {
  import opened Text

  /** One caption segment as the transcript service returns it; only `text` is used. */
  datatype Segment = Segment(text: string, start: real, duration: real)

  /** A retrieved document; only its page content is used. */
  datatype Document = Document(pageContent: string)

  const SEGMENT_SEPARATOR := " "
  const DOCUMENT_SEPARATOR := "\n\n"

  /** The texts of the segments, in order. */
  function Texts(segments: seq<Segment>): (r: seq<string>)
    ensures |r| == |segments| && forall i :: 0 <= i < |segments| ==> r[i] == segments[i].text
  {
    seq(|segments|, i requires 0 <= i < |segments| => segments[i].text)
  }

  /** The page contents of the documents, in order. */
  function Contents(docs: seq<Document>): (r: seq<string>)
    ensures |r| == |docs| && forall i :: 0 <= i < |docs| ==> r[i] == docs[i].pageContent
  {
    seq(|docs|, i requires 0 <= i < |docs| => docs[i].pageContent)
  }

  /** The transcript: the segment texts joined with single spaces. */
  function Transcript(segments: seq<Segment>): string
  {
    Join(Texts(segments), SEGMENT_SEPARATOR)
  }

  /** The retrieval context: the page contents joined with blank lines. */
  function FormatDocs(docs: seq<Document>): string
  {
    Join(Contents(docs), DOCUMENT_SEPARATOR)
  }

  /** No segments give an empty transcript, one segment gives its text. */
  lemma TranscriptSmall(segments: seq<Segment>)
    ensures segments == [] ==> Transcript(segments) == ""
    ensures |segments| == 1 ==> Transcript(segments) == segments[0].text
  {
  }

  /** The transcript is as long as the texts together plus one space between neighbours. */
  lemma TranscriptLength(segments: seq<Segment>)
    requires |segments| > 0
    ensures |Transcript(segments)| == TotalLength(Texts(segments)) + |segments| - 1
  {
    JoinLength(Texts(segments), SEGMENT_SEPARATOR);
  }

  /** Segment `k` appears at its offset, after `k` earlier texts and `k` spaces, and is
      followed by a space unless it is the last one. */
  lemma TranscriptOrder(segments: seq<Segment>, k: nat)
    requires k < |segments|
    ensures var t, o, x := Transcript(segments), Offset(Texts(segments), SEGMENT_SEPARATOR, k), segments[k].text;
      o + |x| <= |t| && t[o..o + |x|] == x
      && (k + 1 < |segments| ==> o + |x| < |t| && t[o + |x|] == ' ')
  {
    var ts := Texts(segments);
    JoinAt(ts, SEGMENT_SEPARATOR, k);
    if k + 1 < |segments| {
      var t, o := Transcript(segments), Offset(ts, SEGMENT_SEPARATOR, k);
      assert t[o + |ts[k]|..o + |ts[k]| + 1][0] == t[o + |ts[k]|];
    }
  }

  /** A further segment extends the transcript by a space and its text. */
  lemma TranscriptAppend(segments: seq<Segment>, s: Segment)
    requires |segments| > 0
    ensures Transcript(segments + [s]) == Transcript(segments) + " " + s.text
  {
    assert Texts(segments + [s]) == Texts(segments) + [s.text];
    JoinSnoc(Texts(segments), s.text, SEGMENT_SEPARATOR);
  }

  /** Splitting the transcript on spaces gives back the segment texts when none holds a space. */
  lemma TranscriptSplit(segments: seq<Segment>)
    requires |segments| > 0
    requires forall i :: 0 <= i < |segments| ==> ' ' !in segments[i].text
    ensures Split(Transcript(segments), SEGMENT_SEPARATOR) == Texts(segments)
  {
    SplitJoin(Texts(segments), SEGMENT_SEPARATOR);
  }

  /** No documents give an empty context, one document gives its content unchanged. */
  lemma FormatDocsSmall(docs: seq<Document>)
    ensures docs == [] ==> FormatDocs(docs) == ""
    ensures |docs| == 1 ==> FormatDocs(docs) == docs[0].pageContent
  {
  }

  /** The context is as long as the contents together plus two characters between neighbours. */
  lemma FormatDocsLength(docs: seq<Document>)
    requires |docs| > 0
    ensures |FormatDocs(docs)| == TotalLength(Contents(docs)) + 2 * (|docs| - 1)
  {
    JoinLength(Contents(docs), DOCUMENT_SEPARATOR);
  }

  /** Document `k` appears at its offset in retrieval order, followed by a blank line
      unless it is the last one. */
  lemma FormatDocsOrder(docs: seq<Document>, k: nat)
    requires k < |docs|
    ensures var t, o, x := FormatDocs(docs), Offset(Contents(docs), DOCUMENT_SEPARATOR, k), docs[k].pageContent;
      o + |x| <= |t| && t[o..o + |x|] == x
      && (k + 1 < |docs| ==> o + |x| + 2 <= |t| && t[o + |x|..o + |x| + 2] == "\n\n")
  {
    JoinAt(Contents(docs), DOCUMENT_SEPARATOR, k);
  }

  /** A further document extends the context by a blank line and its content. */
  lemma FormatDocsAppend(docs: seq<Document>, d: Document)
    requires |docs| > 0
    ensures FormatDocs(docs + [d]) == FormatDocs(docs) + "\n\n" + d.pageContent
  {
    assert Contents(docs + [d]) == Contents(docs) + [d.pageContent];
    JoinSnoc(Contents(docs), d.pageContent, DOCUMENT_SEPARATOR);
  }

  /** Splitting the context on blank lines gives back the contents when none holds a newline. */
  lemma FormatDocsSplit(docs: seq<Document>)
    requires |docs| > 0
    requires forall i :: 0 <= i < |docs| ==> '\n' !in docs[i].pageContent
    ensures Split(FormatDocs(docs), DOCUMENT_SEPARATOR) == Contents(docs)
  {
    SplitJoin(Contents(docs), DOCUMENT_SEPARATOR);
  }
}
