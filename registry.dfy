/** The server's in-memory registry of processed videos (`video_chains`) and the two
    requests that use it: processing a video and asking a question about it. */
module Registry {
  import opened Text
  import opened VideoIds
  import opened Assembly

  /** A ready question-answering chain (retriever, prompt, language model, parser). */
  type Chain

  /** What the registry keeps for one video: its chain and its transcript. */
  datatype Session = Session(chain: Chain, transcript: string)

  /** Outcome of fetching the English captions of a video. */
  datatype FetchResult =
    | Fetched(segments: seq<Segment>)
    | Disabled                          // the video has captions turned off
    | FetchError(message: string)       // any other failure, with its message

  /** Outcome of building the chain from a transcript (chunking, embedding, indexing). */
  datatype BuildResult = Built(chain: Chain) | BuildFailed

  /** Outcome of invoking a chain with a question. */
  datatype InvokeResult = Answer(text: string) | InvokeError(message: string)

  /** The JSON body of a response. */
  datatype Body =
    | Processed(videoId: string)        // {"status": "processed", "video_id": ...}
    | Answered(answer: string)          // {"answer": ...}
    | Detail(message: string)           // {"detail": ...} of an HTTP error
    | InternalServerError               // the framework's reply to an uncaught exception

  datatype Response = Response(status: int, body: Body)

  const NO_CAPTIONS := "No captions available for this video."
  const NOT_PROCESSED := "Video not processed. Please process the video first."

  type Chains = map<string, Session>

  /** The registry after a request and the reply to it. */
  datatype Outcome = Outcome(chains: Chains, response: Response)

  /** Processing the video a link names, given the caption fetch and the chain
      construction as functions of their inputs. */
  function Process(chains: Chains, url: string, fetch: string -> FetchResult,
                   build: string -> BuildResult): Outcome
  {
    var id := BackendVideoId(url);
    match fetch(id)
    case Disabled => Outcome(chains, Response(404, Detail(NO_CAPTIONS)))
    case FetchError(message) => Outcome(chains, Response(500, Detail(message)))
    case Fetched(segments) =>
      var transcript := Transcript(segments);
      match build(transcript)
      case BuildFailed => Outcome(chains, Response(500, InternalServerError))
      case Built(chain) =>
        Outcome(chains[id := Session(chain, transcript)], Response(200, Processed(id)))
  }

  /** Asking a question about the video a link names, given chain invocation as a function. */
  function Ask(chains: Chains, url: string, question: string,
               invoke: (Chain, string) -> InvokeResult): Response
  {
    var id := BackendVideoId(url);
    if id !in chains then Response(404, Detail(NOT_PROCESSED))
    else match invoke(chains[id].chain, question)
      case Answer(text) => Response(200, Answered(text))
      case InvokeError(message) => Response(500, Detail(message))
  }

  class VideoChains {
    var chains: Chains

    /** The server starts with no processed videos. */
    constructor()
      ensures chains == map[]
    {
      chains := map[];
    }

    method ProcessVideo(url: string, fetch: string -> FetchResult, build: string -> BuildResult)
      returns (r: Response)
      modifies this
      ensures Outcome(chains, r) == Process(old(chains), url, fetch, build)
    {
      var id := BackendVideoId(url);
      var fetched := fetch(id);
      if fetched.Disabled? {
        return Response(404, Detail(NO_CAPTIONS));
      }
      if fetched.FetchError? {
        return Response(500, Detail(fetched.message));
      }
      var transcript := Transcript(fetched.segments);
      var built := build(transcript);
      if built.BuildFailed? {
        return Response(500, InternalServerError);
      }
      chains := chains[id := Session(built.chain, transcript)];
      r := Response(200, Processed(id));
    }

    method AskQuestion(url: string, question: string, invoke: (Chain, string) -> InvokeResult)
      returns (r: Response)
      ensures r == Ask(chains, url, question, invoke)
    {
      var id := BackendVideoId(url);
      if id !in chains {
        return Response(404, Detail(NOT_PROCESSED));
      }
      var chain := chains[id].chain;
      var result := invoke(chain, question);
      if result.InvokeError? {
        return Response(500, Detail(result.message));
      }
      r := Response(200, Answered(result.text));
    }
  }

  /** The status of a processing request says which step decided it. */
  lemma ProcessStatus(chains: Chains, url: string, fetch: string -> FetchResult,
                      build: string -> BuildResult)
    ensures var id, r := BackendVideoId(url), Process(chains, url, fetch, build).response;
      (r.status == 404 <==> fetch(id).Disabled?)
      && (r.status == 200 <==> fetch(id).Fetched? && build(Transcript(fetch(id).segments)).Built?)
      && (r.status == 500 <==>
            (fetch(id).FetchError? || (fetch(id).Fetched? && build(Transcript(fetch(id).segments)).BuildFailed?)))
  {
  }

  /** A request that does not succeed leaves the registry as it was. */
  lemma ProcessFailureUnchanged(chains: Chains, url: string, fetch: string -> FetchResult,
                                build: string -> BuildResult)
    ensures var o := Process(chains, url, fetch, build);
      o.response.status != 200 ==> o.chains == chains
  {
  }

  /** A successful request stores a session for exactly the extracted id, holding the
      joined transcript, and replies with that id; every other entry stays as it was. */
  lemma ProcessSuccess(chains: Chains, url: string, fetch: string -> FetchResult,
                       build: string -> BuildResult)
    ensures var id, o := BackendVideoId(url), Process(chains, url, fetch, build);
      o.response.status == 200 ==>
        && o.response.body == Processed(id)
        && fetch(id).Fetched?
        && id in o.chains
        && o.chains[id].transcript == Transcript(fetch(id).segments)
        && build(o.chains[id].transcript) == Built(o.chains[id].chain)
        && o.chains.Keys == chains.Keys + {id}
        && forall k :: k in chains && k != id ==> o.chains[k] == chains[k]
  {
  }

  /** Only the caption fetch decides a request whose captions are disabled: the chain
      is never built. */
  lemma DisabledSkipsBuild(chains: Chains, url: string, fetch: string -> FetchResult,
                           build1: string -> BuildResult, build2: string -> BuildResult)
    requires fetch(BackendVideoId(url)).Disabled?
    ensures Process(chains, url, fetch, build1) == Process(chains, url, fetch, build2)
  {
  }

  /** Processing the same link twice with the same outside world changes nothing more. */
  lemma ProcessIdempotent(chains: Chains, url: string, fetch: string -> FetchResult,
                          build: string -> BuildResult)
    ensures var o := Process(chains, url, fetch, build);
      Process(o.chains, url, fetch, build) == o
  {
  }

  /** Processing a registered video again is not cumulative: a fresh chain replaces the
      stored one, and the set of registered videos stays the same. */
  lemma ReprocessReplaces(chains: Chains, url: string, fetch: string -> FetchResult,
                          build1: string -> BuildResult, build2: string -> BuildResult)
    requires Process(chains, url, fetch, build1).response.status == 200
    ensures var id, o1 := BackendVideoId(url), Process(chains, url, fetch, build1);
      var o2 := Process(o1.chains, url, fetch, build2);
      var transcript := Transcript(fetch(id).segments);
      && (o2.response.status == 200 <==> build2(transcript).Built?)
      && (o2.response.status == 200 ==>
            o2.chains.Keys == o1.chains.Keys
            && o2.chains[id] == Session(build2(transcript).chain, transcript)
            && forall k :: k in o1.chains && k != id ==> o2.chains[k] == o1.chains[k])
      && (o2.response.status != 200 ==> o2.chains == o1.chains)
  {
  }

  /** Asking about a video that was never processed is refused, whatever the chains would say. */
  lemma AskUnknown(chains: Chains, url: string, question: string,
                   invoke1: (Chain, string) -> InvokeResult, invoke2: (Chain, string) -> InvokeResult)
    requires BackendVideoId(url) !in chains
    ensures Ask(chains, url, question, invoke1) == Response(404, Detail(NOT_PROCESSED))
    ensures Ask(chains, url, question, invoke1) == Ask(chains, url, question, invoke2)
  {
  }

  /** Asking about a processed video passes the question verbatim to its stored chain and
      replies with the answer, or with 500 and the error message. */
  lemma AskKnown(chains: Chains, url: string, question: string, invoke: (Chain, string) -> InvokeResult)
    requires BackendVideoId(url) in chains
    ensures var r, res := Ask(chains, url, question, invoke), invoke(chains[BackendVideoId(url)].chain, question);
      (res.Answer? ==> r == Response(200, Answered(res.text)))
      && (res.InvokeError? ==> r == Response(500, Detail(res.message)))
  {
  }

  /** After a video is processed, a question about it reaches the chain built from its
      transcript. */
  lemma ProcessThenAsk(chains: Chains, url: string, fetch: string -> FetchResult,
                       build: string -> BuildResult, question: string,
                       invoke: (Chain, string) -> InvokeResult)
    requires Process(chains, url, fetch, build).response.status == 200
    ensures var o, id := Process(chains, url, fetch, build), BackendVideoId(url);
      var chain := build(Transcript(fetch(id).segments)).chain;
      var r, res := Ask(o.chains, url, question, invoke), invoke(chain, question);
      (res.Answer? ==> r == Response(200, Answered(res.text)))
      && (res.InvokeError? ==> r == Response(500, Detail(res.message)))
  {
  }

  /** A video whose captions are disabled is still unknown afterwards. */
  lemma DisabledThenAsk(chains: Chains, url: string, fetch: string -> FetchResult,
                        build: string -> BuildResult, question: string,
                        invoke: (Chain, string) -> InvokeResult)
    requires BackendVideoId(url) !in chains && fetch(BackendVideoId(url)).Disabled?
    ensures var o := Process(chains, url, fetch, build);
      o.response == Response(404, Detail(NO_CAPTIONS))
      && Ask(o.chains, url, question, invoke) == Response(404, Detail(NOT_PROCESSED))
  {
  }

  /** A video processed through its watch link can be asked about through its short link. */
  lemma {:induction false} ShortLinkAfterWatchLink(chains: Chains, id: string, query: string,
                                                   fetch: string -> FetchResult, build: string -> BuildResult,
                                                   question: string, invoke: (Chain, string) -> InvokeResult)
    requires IsId(id)
    requires Process(chains, WATCH_PREFIX + id + query, fetch, build).response.status == 200
    requires query == "" || query[0] == '&'
    ensures var o := Process(chains, WATCH_PREFIX + id + query, fetch, build);
      Ask(o.chains, SHORT_PREFIX + id, question, invoke).status != 404
  {
    SameVideoSameId(id, query, "");
    ProcessSuccess(chains, WATCH_PREFIX + id + query, fetch, build);
    assert SHORT_PREFIX + id + "" == SHORT_PREFIX + id;
  }
}
