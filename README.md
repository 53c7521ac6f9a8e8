# yt-rag core, modelled in Dafny

yt-rag answers questions about a YouTube video from its captions. A FastAPI server
(`backend.py`) exposes two requests. `process_video` extracts the video identifier
from a link. It fetches the English captions and joins them into a transcript. It then
builds a retrieval chain over the transcript and keeps the chain in the in-memory
registry `video_chains`. `ask_question` looks the video up in that registry and passes
the question to its chain. A script (`main.py`) does the same steps once, for a fixed
video.

This project models the logic the repository writes itself:

- `text.dfy` (module `Text`): Python's `in`, `str.split` with a non-empty separator
  (leftmost, non-overlapping occurrences) and `str.join` on strings.
- `video_ids.dfy` (module `VideoIds`): both `get_video_id` functions. The server's
  version knows `v=` query links and `youtu.be/` short links and cuts trailing
  parameters. The script's version keeps the text between the first `v=` and the
  next one (or the end), parameters included. It raises an `IndexError` when `v=` is
  absent; this is `ScriptResult.IndexError`.
- `assembly.dfy` (module `Assembly`): the transcript (segment texts joined with one
  space) and `format_docs` (page contents joined with a blank line). Both files use the
  same two expressions.
- `registry.dfy` (module `Registry`): the registry and the two requests. `Process` and
  `Ask` specify the requests as functions of the registry. The class `VideoChains`
  holds the registry as a `map` field. Its method `ProcessVideo` updates that field and
  is proved equal to `Process`. Its method `AskQuestion` has no `modifies` clause, so
  it cannot change the registry, and it is proved equal to `Ask`.

The outside world enters as function-typed parameters:

- the caption fetch, a function from video identifier to
  `Fetched(segments) | Disabled | FetchError(message)`;
- the chain construction (lines 62-98 of `backend.py`), a function from transcript to
  `Built(chain) | BuildFailed`;
- the chain invocation, a function from chain and question to
  `Answer(text) | InvokeError(message)`.

`Chain` is an abstract type.

`process_video` catches exceptions only around the caption fetch (lines 54-60). Only
`TranscriptsDisabled` is answered 404. Every other fetch failure is answered 500 with
the exception's text, and that includes a video without an English caption track. A
failure while building the chain propagates out of the handler. The framework then
answers 500 with its generic "Internal Server Error" body and no `detail`. The model
replies `Response(500, InternalServerError)` for it.

## Model

| member | source | states |
|---|---|---|
| `Text.Find` | backend.py:44 | Index of the leftmost occurrence of the separator, as `str.find`; `Text.FindFrom` (with `from` = 0) states that it is the leftmost occurrence, or `None` when there is none. |
| `Text.Contains` | backend.py:44 | The `in` operator on strings; `Text.ContainsOccurs` states it holds exactly when an occurrence exists. |
| `Text.FindFrom` | backend.py:44 | The result is an occurrence of the separator at or after `from`, and no occurrence lies between `from` and it; `None` means there is none at all from `from` on. |
| `Text.ContainsOccurs` | backend.py:44 | `sep in s` holds exactly when the separator occurs at some index of `s`. |
| `Text.OccursChar` | backend.py:45 | A one-character separator occurs at `j` exactly when `s[j]` is that character. |
| `Text.ContainsChar` | backend.py:45 | A one-character string is in `t` exactly when its character is. |
| `Text.Split` | backend.py:45 | `str.split` with a non-empty separator, defined by recursion: no occurrence gives `[s]`, otherwise the text before the leftmost occurrence followed by the split of the text after it. Its contract: at least one piece. What the pieces are is stated by `Text.JoinSplit`, `Text.SplitFree`, `Text.FirstPiece` and `Text.SecondPiece`. |
| `Text.SplitNone` | backend.py:45 | Without an occurrence of the separator, `s.split(sep)` is `[s]`. |
| `Text.SplitCount` | main.py:17 | The split has exactly one piece when the separator does not occur, so index 1 exists exactly when it does. |
| `Text.SplitFree` | backend.py:45 | No piece of a split contains the separator. |
| `Text.JoinSplit` | backend.py:45 | Joining the pieces of a split with the separator gives back the original text. |
| `Text.FirstPiece` | backend.py:45 | Piece 0 is a prefix of the text without the separator, ending at the end of the text or at the first occurrence. |
| `Text.SecondPiece` | main.py:17 | Piece 1 starts right after the first occurrence, holds no occurrence and ends at the end of the text or at the next occurrence. |
| `Text.SplitJoin` | backend.py:56 | Splitting `sep.join(ps)` on `sep` gives back `ps` when no piece holds the separator's first character. |
| `Text.Join` | backend.py:56 | `sep.join(ps)`, defined by recursion: `""` for no pieces, the piece itself for one, otherwise the first piece, the separator and the join of the rest. Its properties are stated by `Text.JoinLength`, `Text.JoinAt`, `Text.JoinSnoc`, `Text.JoinSplit` and `Text.SplitJoin`. |
| `Text.JoinSnoc` | backend.py:56 | Joining a further piece at the end of a non-empty list adds one separator and that piece. |
| `Text.JoinLength` | backend.py:56 | The joined text is as long as the pieces together plus n - 1 separators. |
| `Text.JoinAt` | backend.py:90 | Piece k stands at its offset, after k earlier pieces and k separators, and is followed by the separator unless it is the last piece. |
| `VideoIds.PieceAfter` | backend.py:45-47 | `url.split(marker)[1].split(stop)[0]`, defined only when the marker occurs; `VideoIds.PieceAfterSpec` and `VideoIds.PieceAfterIs` characterise it. |
| `VideoIds.PieceAfterSpec` | backend.py:45 | `url.split(marker)[1].split(stop)[0]` is the stretch of `url` from just after the first marker to the first `stop`, the next marker or the end. The stretch holds neither `stop` nor the marker. |
| `VideoIds.PieceAfterIs` | backend.py:45 | Only one stretch has those boundaries, so naming its length fixes the result. |
| `VideoIds.BackendVideoId` | backend.py:43-49 | The server's `get_video_id`: the `v=` branch, then the `youtu.be/` branch, then the link itself. Its meaning is stated branch by branch by `VideoIds.QueryBranch`, `VideoIds.ShortBranch` and `VideoIds.NoMarkerUnchanged`, with uniqueness from `VideoIds.PieceAfterIs`. |
| `VideoIds.QueryBranch` | backend.py:44-45 | With `v=` present, the identifier is the contiguous text after the first `v=`, up to the first `&`, the next `v=` or the end. It contains neither `&` nor `v=`. |
| `VideoIds.ShortBranch` | backend.py:46-47 | With no `v=` but a `youtu.be/`, the identifier is the contiguous text after the first `youtu.be/`, up to the first `?`, the next `youtu.be/` or the end. It contains no `?`, no `youtu.be/` and no `v=`. |
| `VideoIds.NoMarkerUnchanged` | backend.py:48-49 | With neither marker, the link itself is returned. |
| `VideoIds.QueryFormId` | backend.py:44-45 | A link made of text without `v=`, then `v=`, an identifier, and nothing or `&...`, yields exactly that identifier, whatever follows `&`. |
| `VideoIds.ShortFormId` | backend.py:46-47 | `https://youtu.be/` + identifier + (nothing or `?...` without `v=`) yields exactly that identifier. |
| `VideoIds.SameVideoSameId` | backend.py:43-49 | The watch link `https://www.youtube.com/watch?v=<id>` followed by nothing or `&...`, and the short link `https://youtu.be/<id>` followed by nothing or a `?...` query without `v=`, both yield the identifier. A short link whose query holds `v=` is not covered; the `v=` branch decides it (see `VideoIds.PrecedenceExample`). |
| `VideoIds.PrecedenceExample` | backend.py:44-47 | When both markers occur, the `v=` branch decides: `https://youtu.be/ABC?v=XYZ` yields `XYZ`. |
| `VideoIds.WatchLinkServer` | backend.py:44-45 | `https://www.youtube.com/watch?v=ID&t=5` yields `ID`. |
| `VideoIds.ShortLinkServer` | backend.py:46-47 | `https://youtu.be/ID?t=5` yields `ID`. |
| `VideoIds.ScriptVideoId` | main.py:16-17 | The script's `get_video_id`: piece 1 of the split on `v=`, or `IndexError`. Its meaning is stated by `VideoIds.ScriptFails`, `VideoIds.ScriptBetweenMarkers` and `VideoIds.BackendStripsScript`. |
| `VideoIds.ScriptFails` | main.py:17 | The script's extraction raises `IndexError` exactly when the link has no `v=`. |
| `VideoIds.ScriptBetweenMarkers` | main.py:16-17 | With `v=` present, the script's identifier is the contiguous text between the first `v=` and the next one (or the end), with no parameter stripping. It contains no `v=`. |
| `VideoIds.ScriptQueryForm` | main.py:17 | For a link with a single `v=` (no `v=` before it or after it), the script returns everything after it. |
| `VideoIds.WatchLinkScript` | main.py:17 | The script returns `ID&t=5` for `https://www.youtube.com/watch?v=ID&t=5`. |
| `VideoIds.ShortLinkScript` | main.py:17 | The script raises `IndexError` for `https://youtu.be/ID`. |
| `VideoIds.BackendStripsScript` | backend.py:45 | Where both extract from a `v=` link, the server's identifier is a prefix of the script's. It is all of it exactly when the script's result has no `&`. |
| `Assembly.Texts` | backend.py:56 | The generator `chunk["text"] for chunk in transcript_list` gives one text per segment, in order. |
| `Assembly.Contents` | backend.py:90 | The generator `doc.page_content for doc in retrieved_docs` gives one content per document, in order. |
| `Assembly.Transcript` | backend.py:56 | The transcript: the segment texts joined with `" "`, the same expression as main.py:25. Its properties are stated by the `Assembly.Transcript...` lemmas below. |
| `Assembly.TranscriptSmall` | backend.py:56 | No segments give `""`; one segment gives its text unchanged. |
| `Assembly.TranscriptLength` | backend.py:56 | The transcript's length is the sum of the segment lengths plus n - 1. |
| `Assembly.TranscriptOrder` | main.py:25 | Each segment's text appears in order at its offset, followed by a single space unless it is the last. |
| `Assembly.TranscriptAppend` | main.py:25 | One more segment extends the transcript by a space and its text. |
| `Assembly.TranscriptSplit` | backend.py:56 | Splitting the transcript on spaces recovers the segment texts when none contains a space. |
| `Assembly.FormatDocs` | backend.py:89-91 | `format_docs`: the page contents joined with `"\n\n"`, the same function as main.py:66-68. Its properties are stated by the `Assembly.FormatDocs...` lemmas below. |
| `Assembly.FormatDocsSmall` | backend.py:89-91 | No documents give `""`; one document gives its content unchanged. |
| `Assembly.FormatDocsLength` | main.py:66-68 | The context's length is the sum of the content lengths plus two per boundary. |
| `Assembly.FormatDocsOrder` | backend.py:89-91 | Each content appears in retrieval order at its offset, followed by `"\n\n"` unless it is the last. |
| `Assembly.FormatDocsAppend` | main.py:66-68 | One more document extends the context by a blank line and its content. |
| `Assembly.FormatDocsSplit` | backend.py:89-91 | Splitting the context on `"\n\n"` recovers the contents when none contains a newline. |
| `Registry.Process` | backend.py:51-105 | `process_video` on the registry as a value: the new registry and the reply. Its meaning is stated by `Registry.ProcessStatus`, `Registry.ProcessFailureUnchanged`, `Registry.ProcessSuccess`, `Registry.DisabledSkipsBuild` and `Registry.ReprocessReplaces`. |
| `Registry.Ask` | backend.py:107-117 | `ask_question` on the registry as a value: the reply. Its meaning is stated by `Registry.AskUnknown` and `Registry.AskKnown`. |
| `Registry.VideoChains.constructor` | backend.py:34 | The registry starts empty. |
| `Registry.VideoChains.ProcessVideo` | backend.py:51-105 | The new registry and the reply are exactly those `Process` gives for the old registry. |
| `Registry.VideoChains.AskQuestion` | backend.py:107-117 | The reply is `Ask` of the registry. The method has no `modifies` clause, so the registry is unchanged. |
| `Registry.ProcessStatus` | backend.py:53-60 | 404 exactly when captions are disabled. 200 exactly when the fetch and the chain construction both succeed. 500 exactly when the fetch fails otherwise or the construction fails. |
| `Registry.ProcessFailureUnchanged` | backend.py:54-104 | Any reply other than 200 leaves the registry unchanged. |
| `Registry.ProcessSuccess` | backend.py:101-105 | On 200 the reply is `processed` with the extracted id. The entry for that id holds the joined transcript of the fetched segments and the chain built from it. The keys grow by that id only, and every other entry is unchanged. |
| `Registry.DisabledSkipsBuild` | backend.py:57-58 | With captions disabled, the outcome does not depend on the chain construction. |
| `Registry.ProcessIdempotent` | backend.py:101-104 | Processing the same link again with the same fetch and construction results changes neither registry nor reply. |
| `Registry.ReprocessReplaces` | backend.py:101-104 | Processing a registered video again, with a possibly different chain construction, keeps the same keys. On success the entry becomes the new chain with the same transcript, and other entries stay as they were. On failure nothing changes. |
| `Registry.AskUnknown` | backend.py:110-111 | An id not in the registry is answered 404 "Video not processed. Please process the video first.", whatever the chains would answer, so no chain is invoked. |
| `Registry.AskKnown` | backend.py:112-117 | For a registered id, the stored chain gets the question verbatim. The reply is 200 with its answer, or 500 with the error message. |
| `Registry.ProcessThenAsk` | backend.py:101-117 | After a successful `process_video`, asking through the same link reaches the chain just built from the transcript. The reply is that chain's answer or error. |
| `Registry.DisabledThenAsk` | backend.py:57-111 | When a video with disabled captions was not registered before, processing it answers 404 "No captions available for this video." A question about it afterwards answers 404 "Video not processed...". |
| `Registry.ShortLinkAfterWatchLink` | backend.py:43-49 | After a video is processed through its watch link, asking through its short link finds it; the reply is never 404. |

## Left out

- Fetching captions (`YouTubeTranscriptApi.get_transcript`, backend.py:55, main.py:23) is network I/O. It is a parameter returning a `FetchResult`, and the text of the caught exception is its `message`.
- Building the chain (backend.py:62-98) is left abstract because it consists of foreign library calls: `RecursiveCharacterTextSplitter` chunking, sentence-transformer embeddings, FAISS, the prompt template, the Groq model and runnable composition. It is a parameter returning `Built(chain)` or `BuildFailed`, and `Chain` is an abstract type.
- Invoking a chain (backend.py:114) is a parameter returning `Answer` or `InvokeError`, for the same reason.
- The `detail` string of a 500 is whatever `str(e)` gives. It is carried as the `message` of the outside result and not computed.
- Segment timing (`start`, `duration`) is carried in `Segment` but never used, as in the source.
- Request-body validation by the framework (a 422 for a missing field), the CORS setup, the app object and environment variables (backend.py:16-31, 86) are server plumbing and are not modelled.
- Concurrent requests on `video_chains` are not modelled; requests are sequential method calls.
- The top-level flow of main.py (lines 20-33 and 78-81) is not modelled: a hard-coded id, `print`, `input` and a language-model call. This includes the script's later failure when captions are disabled and `transcript` is never bound.
- The Chrome extension (chrome-extension/) is browser UI and message passing and is not modelled.
- `Registry.VideoChains.AskQuestion`: "no chain is invoked on 404" is stated by `Registry.AskUnknown` instead. That lemma says the reply does not depend on the invocation function; the method does not record calls.
