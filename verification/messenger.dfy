/** The dispatch logic of src/messenger_api.py: the per-sender mode machine,
    text chunking, the search carousel and its postback payloads, and the
    watch-video pipeline (cache, download, upload, save, send).

    Every collaborator the Python code calls over the network is a field of
    `Env`; what the handlers do is recorded as an ordered trace of `Event`s,
    and a Python exception that escapes a handler is the `raised` part of its
    result. */
module Messenger {
  import opened Wrappers
  import Seqs
  import Json
  import YoutubeApi
  import Downloader
  import VideoStore
  import TextProcessing

  /** `sender_id` as `webhook_handler` passes it: `None` when the event has
      no sender id. */
  type Sender = Option<string>

  /** The two values `user_states` holds. */
  datatype Mode = YouTube | Mistral

  /** An exception. The handlers only ever look at one thing about it:
      whether its text contains `"timeout"`. */
  datatype Fault = Fault(mentionsTimeout: bool)

  /** What `call_send_api` does with one message: return, or raise. */
  datatype Delivery = Accepted | Refused(fault: Fault)

  // ---------------------------------------------------------------------------
  // Constants

  const ChunkSize: nat := 2000
  const WatchUrlPrefix: string := "https://www.youtube.com/watch?v="
  const WatchButtonTitle: string := "Regarder sur YouTube"
  const DownloadButtonTitle: string := "Télécharger MP4"
  const WatchAction: string := "watch_video"
  const TitlePrefix: string := "Titre: "
  const PublicIdPrefix: string := "youtube_"

  const YouTubeModeOn: string := "Mode YouTube activé. Donnez-moi les mots-clés pour la recherche YouTube."
  const MistralModeOn: string := "Mode Mistral réactivé. Comment puis-je vous aider ?"
  const SearchFailed: string := "Désolé, je n'ai pas pu effectuer la recherche YouTube. Veuillez réessayer plus tard."
  const PostbackFailed: string := "Désolé, je n'ai pas pu traiter votre demande. Veuillez réessayer plus tard."
  const TextOnly: string := "Désolé, je ne peux traiter que des messages texte."
  const GenericError: string := "Désolé, j'ai rencontré une erreur en traitant votre message. Veuillez réessayer plus tard."
  const TimeoutError: string := "Désolé, la génération de la réponse a pris trop de temps. Veuillez réessayer avec une question plus courte ou plus simple."
  const PleaseWait: string := "Je télécharge votre vidéo, veuillez patienter..."
  const DownloadFailed: string := "Désolé, je n'ai pas pu télécharger cette vidéo. Elle est peut-être trop longue ou trop volumineuse."
  const UploadFailed: string := "Désolé, je n'ai pas pu traiter cette vidéo. Veuillez réessayer plus tard."
  const SendVideoFailed: string := "Désolé, je n'ai pas pu envoyer la vidéo. Veuillez réessayer plus tard."

  // ---------------------------------------------------------------------------
  // Messages, events, collaborators

  datatype Button =
    | WebUrl(url: string, title: string)
    | PostbackButton(title: string, payload: string)

  /** One card of the generic template. */
  datatype Element = Element(title: string, imageUrl: string, buttons: seq<Button>)

  /** The `message` part of a Send API request. Video attachments are
      always sent with `is_reusable: True`. */
  datatype Body =
    | Text(text: string)
    | Carousel(elements: seq<Element>)
    | VideoAttachment(url: string)

  datatype Outbound = Outbound(recipient: Sender, body: Body)

  /** What a handler does to the outside world, in order. */
  datatype Event =
    | Sent(msg: Outbound, delivery: Delivery)
    | Searched(query: string)
    | AskedMistral(prompt: string)
    | Fetched(videoId: VideoStore.VideoId)
    | Uploaded(source: string, publicId: string)
    | Saved(video: VideoStore.Video)

  /** The upload result dict; each field is `None` when its key is absent. */
  datatype Upload = Upload(secureUrl: Option<string>, bytes: Option<int>, thumbnailUrl: Option<string>)

  /** The collaborators.
      - `send`: `call_send_api`.
      - `search`: the YouTube Data API call; `None` when it raises.
      - `mistral`: `generate_mistral_response`, which never raises.
      - `fetch`: yt_dlp's `extract_info`; `None` when it raises.
      - `upload`: the Cloudinary upload; `None` for a falsy result. An upload
        that raises is a result without `secure_url`: the `except` of
        `handle_watch_video` answers both alike.
      - `chars`: the Unicode tables behind `str.lower()`. */
  datatype Env = Env(
    send: Outbound -> Delivery,
    search: string -> Option<YoutubeApi.SearchResponse>,
    mistral: string -> string,
    fetch: VideoStore.VideoId -> Option<Downloader.Info>,
    upload: (string, string) -> Option<Upload>,
    chars: TextProcessing.CharDb)

  /** `user_states` and the `videos` collection. */
  datatype World = World(modes: map<Sender, Mode>, videos: VideoStore.Collection)

  /** The effect of a helper that does not touch the world. */
  datatype Run = Run(trace: seq<Event>, raised: Option<Fault>)

  /** The effect of a handler. */
  datatype Outcome = Outcome(world: World, trace: seq<Event>, raised: Option<Fault>)

  /** The `postback` dict; `otherKeys` says whether it has keys besides
      `payload`. */
  datatype Postback = Postback(payload: Option<string>, otherKeys: bool)

  /** The `received_message` dict: its `text` and `postback` keys, and
      whether it has any other key. */
  datatype Received = Received(text: Option<string>, postback: Option<Postback>, otherKeys: bool)

  /** A run that followed the events already in `before`. */
  function After(w: World, before: seq<Event>, r: Run): (out: Outcome)
    ensures out.world == w && out.raised == r.raised
    ensures |out.trace| == |before| + |r.trace|
    ensures out.trace[..|before|] == before && out.trace[|before|..] == r.trace
  {
    Outcome(w, before + r.trace, r.raised)
  }

  // ---------------------------------------------------------------------------
  // send_text_message

  /** `[text[i:i+2000] for i in range(0, len(text), 2000)]` */
  function Chunks(text: string): (r: seq<string>)
    ensures |r| == (|text| + ChunkSize - 1) / ChunkSize
    ensures forall k :: 0 <= k < |r| ==> 0 < |r[k]| <= ChunkSize
    ensures forall k :: 0 <= k < |r| - 1 ==> |r[k]| == ChunkSize
    ensures |text| == 0 ==> r == []
    ensures 0 < |text| <= ChunkSize ==> r == [text]
    decreases |text|
  {
    if |text| == 0 then []
    else if |text| <= ChunkSize then [text]
    else [text[..ChunkSize]] + Chunks(text[ChunkSize..])
  }

  /** Sends `msgs` in order and stops at the first one `send` refuses,
      re-raising its fault. */
  function SendAll(send: Outbound -> Delivery, msgs: seq<Outbound>): (r: Run)
    ensures |r.trace| <= |msgs|
    ensures forall i :: 0 <= i < |r.trace| ==> r.trace[i] == Sent(msgs[i], send(msgs[i]))
    ensures r.raised.None? <==> forall i :: 0 <= i < |msgs| ==> send(msgs[i]).Accepted?
    ensures r.raised.None? ==> |r.trace| == |msgs|
    ensures r.raised.Some? ==>
      && 0 < |r.trace|
      && send(msgs[|r.trace| - 1]) == Refused(r.raised.value)
      && forall i :: 0 <= i < |r.trace| - 1 ==> send(msgs[i]).Accepted?
  {
    if |msgs| == 0 then Run([], None)
    else
      match send(msgs[0])
      case Refused(f) => Run([Sent(msgs[0], Refused(f))], Some(f))
      case Accepted =>
        var rest := SendAll(send, msgs[1..]);
        Run([Sent(msgs[0], Accepted)] + rest.trace, rest.raised)
  }

  /** One text message per chunk. */
  function TextMessages(to: Sender, text: string): (r: seq<Outbound>)
    ensures |r| == |Chunks(text)|
    ensures forall k :: 0 <= k < |r| ==> r[k] == Outbound(to, Text(Chunks(text)[k]))
  {
    var cs := Chunks(text);
    seq(|cs|, k requires 0 <= k < |cs| => Outbound(to, Text(cs[k])))
  }

  /** `send_text_message(to, text)` */
  function SendText(send: Outbound -> Delivery, to: Sender, text: string): (r: Run)
    ensures |r.trace| <= |Chunks(text)|
    ensures forall k :: 0 <= k < |r.trace| ==>
      var msg := Outbound(to, Text(Chunks(text)[k])); r.trace[k] == Sent(msg, send(msg))
    ensures r.raised.None? ==> |r.trace| == |Chunks(text)|
    // It raises iff some chunk is refused; then that chunk, the first one
    // refused, is the last one sent, and its error is the one raised.
    ensures r.raised.None? <==> forall k :: 0 <= k < |Chunks(text)| ==> send(Outbound(to, Text(Chunks(text)[k]))).Accepted?
    ensures r.raised.Some? ==> 0 < |r.trace| && r.trace[|r.trace| - 1].delivery == Refused(r.raised.value)
    ensures r.raised.Some? ==> forall k :: 0 <= k < |r.trace| - 1 ==> send(Outbound(to, Text(Chunks(text)[k]))).Accepted?
    ensures text == [] ==> r == Run([], None)
  {
    SendAll(send, TextMessages(to, text))
  }

  /** A text short enough for one chunk goes out as exactly one message. */
  lemma SendShortText(send: Outbound -> Delivery, to: Sender, text: string)
    requires 0 < |text| <= ChunkSize
    ensures var msg := Outbound(to, Text(text));
      SendText(send, to, text) == Run([Sent(msg, send(msg))], if send(msg).Accepted? then None else Some(send(msg).fault))
  {
    var msg := Outbound(to, Text(text));
    assert TextMessages(to, text) == [msg];
  }

  // ---------------------------------------------------------------------------
  // send_youtube_results

  /** The postback payload of a video's download button:
      `json.dumps({"action": "watch_video", "videoId": id})`. */
  function WatchPayload(videoId: string): string {
    Json.Serialize([("action", WatchAction), ("videoId", videoId)])
  }

  /** The card for one search result. */
  function ElementFor(v: YoutubeApi.VideoSummary): Element {
    Element(v.title, v.thumbnail,
            [WebUrl(WatchUrlPrefix + v.videoId, WatchButtonTitle),
             PostbackButton(DownloadButtonTitle, WatchPayload(v.videoId))])
  }

  /** The `elements` of the carousel. */
  function Elements(videos: seq<YoutubeApi.VideoSummary>): (r: seq<Element>)
    ensures |r| == |videos|
    ensures forall i :: 0 <= i < |r| ==> r[i] == ElementFor(videos[i])
  {
    seq(|videos|, i requires 0 <= i < |videos| => ElementFor(videos[i]))
  }

  /** `send_youtube_results(to, videos)`: one Send API call. */
  function SendResults(send: Outbound -> Delivery, to: Sender, videos: seq<YoutubeApi.VideoSummary>): (r: Run)
    ensures var msg := Outbound(to, Carousel(Elements(videos)));
      && r.trace == [Sent(msg, send(msg))]
      && (r.raised.None? <==> send(msg).Accepted?)
  {
    SendAll(send, [Outbound(to, Carousel(Elements(videos)))])
  }

  /** `search_youtube(query)`: `None` when it raises. */
  function Search(env: Env, query: string): Option<seq<YoutubeApi.VideoSummary>> {
    match env.search(query)
    case None => None
    case Some(resp) => YoutubeApi.FormatResults(resp)
  }

  /** What the YouTube-mode branch sends for a search result: the carousel,
      or the apology when the search raised or the carousel was refused. */
  function ShowResults(send: Outbound -> Delivery, to: Sender, found: Option<seq<YoutubeApi.VideoSummary>>): (r: Run)
    ensures found.None? ==> r == SendText(send, to, SearchFailed)
    ensures found.Some? ==>
      var msg := Outbound(to, Carousel(Elements(found.value)));
      && 0 < |r.trace| && r.trace[0] == Sent(msg, send(msg))
      && (send(msg).Accepted? ==> r == Run([Sent(msg, Accepted)], None))
      && (send(msg).Refused? ==>
            r.trace[1..] == SendText(send, to, SearchFailed).trace && r.raised == SendText(send, to, SearchFailed).raised)
  {
    if found.None? then SendText(send, to, SearchFailed)
    else
      var shown := SendResults(send, to, found.value);
      if shown.raised.None? then shown
      else
        var sorry := SendText(send, to, SearchFailed);
        Run(shown.trace + sorry.trace, sorry.raised)
  }

  /** The YouTube-mode branch of `handle_message`, with its own handler. */
  function SearchAndReply(env: Env, to: Sender, query: string): (r: Run)
    ensures 0 < |r.trace| && r.trace[0] == Searched(query)
    ensures r.trace[1..] == ShowResults(env.send, to, Search(env, query)).trace
    ensures r.raised == ShowResults(env.send, to, Search(env, query)).raised
  {
    var shown := ShowResults(env.send, to, Search(env, query));
    Run([Searched(query)] + shown.trace, shown.raised)
  }

  // ---------------------------------------------------------------------------
  // handle_watch_video and send_video_message

  /** `send_video_message(to, url, title)` */
  function SendVideo(send: Outbound -> Delivery, to: Sender, url: string, title: string): (r: Run)
    ensures var msg := Outbound(to, VideoAttachment(url));
      && 0 < |r.trace| && r.trace[0] == Sent(msg, send(msg))
      && (send(msg).Refused? ==> r == Run([Sent(msg, send(msg))], Some(send(msg).fault)))
      && (send(msg).Accepted? ==> r.trace[1..] == SendText(send, to, TitlePrefix + title).trace)
  {
    var msg := Outbound(to, VideoAttachment(url));
    match send(msg)
    case Refused(f) => Run([Sent(msg, Refused(f))], Some(f))
    case Accepted =>
      var caption := SendText(send, to, TitlePrefix + title);
      Run([Sent(msg, Accepted)] + caption.trace, caption.raised)
  }

  /** `download_youtube_video(video_id)` with its default caps; `None` for
      `(None, None)`, including when yt_dlp raises. */
  function TryDownload(env: Env, id: VideoStore.VideoId): Option<Downloader.Download> {
    match env.fetch(id)
    case None => None
    case Some(info) => Downloader.DownloadVideo(info, Downloader.DefaultMaxDuration, Downloader.DefaultMaxFilesize)
  }

  /** `f"{video_id}"`: a missing id prints as `None`. */
  function IdText(id: VideoStore.VideoId): string {
    match id
    case None => "None"
    case Some(s) => s
  }

  /** `f"youtube_{video_id}"` */
  function PublicId(id: VideoStore.VideoId): string {
    PublicIdPrefix + IdText(id)
  }

  /** The cache entry that lets `handle_watch_video` skip the download. */
  function CachedVideo(w: World, id: VideoStore.VideoId): Option<VideoStore.Video> {
    var found := VideoStore.FindByVideoId(w.videos, id);
    if found.Some? && |found.value.cloudinaryUrl| > 0 then found else None
  }

  /** The record `handle_watch_video` saves for a successful upload. */
  function RecordFor(id: VideoStore.VideoId, title: string, secureUrl: string, up: Upload): VideoStore.Video {
    VideoStore.Video(id, title, secureUrl, up.thumbnailUrl.GetOr(""), up.bytes.GetOr(0))
  }

  /** The upload, save and send steps once the download gave `d`. */
  function UploadAndSend(env: Env, w: World, to: Sender, id: VideoStore.VideoId, d: Downloader.Download, done: seq<Event>): (r: Outcome)
    ensures r.world.modes == w.modes
    ensures |r.trace| > |done| && r.trace[..|done|] == done && r.trace[|done|] == Uploaded(d.url, PublicId(id))
    ensures env.upload(d.url, PublicId(id)).None? ==>
      r == After(w, done + [Uploaded(d.url, PublicId(id))], SendText(env.send, to, UploadFailed))
    // An upload result without `secure_url` raises, and nothing is saved.
    ensures var up := env.upload(d.url, PublicId(id));
      up.Some? && up.value.secureUrl.None? ==>
        r.world == w && r.trace == done + [Uploaded(d.url, PublicId(id))] && r.raised.Some?
    ensures r.world != w ==>
      var up := env.upload(d.url, PublicId(id));
      && up.Some? && up.value.secureUrl.Some?
      && r.world.videos == VideoStore.Save(w.videos, RecordFor(id, d.title, up.value.secureUrl.value, up.value))
  {
    var up := env.upload(d.url, PublicId(id));
    var uploaded := done + [Uploaded(d.url, PublicId(id))];
    assert uploaded[..|done|] == done;
    if up.None? then After(w, uploaded, SendText(env.send, to, UploadFailed))
    // `result['secure_url']` raises KeyError
    else if up.value.secureUrl.None? then Outcome(w, uploaded, Some(Fault(false)))
    else
      var video := RecordFor(id, d.title, up.value.secureUrl.value, up.value);
      var saved := uploaded + [Saved(video)];
      assert saved[..|done|] == done && saved[|done|] == Uploaded(d.url, PublicId(id));
      After(w.(videos := VideoStore.Save(w.videos, video)), saved,
            SendVideo(env.send, to, video.cloudinaryUrl, video.title))
  }

  /** The cache-miss path after the "please wait" text went out: download,
      upload, save, send. */
  function FetchAndSend(env: Env, w: World, to: Sender, id: VideoStore.VideoId, before: seq<Event>): (r: Outcome)
    ensures r.world.modes == w.modes
    ensures |r.trace| > |before| && r.trace[..|before|] == before && r.trace[|before|] == Fetched(id)
    ensures TryDownload(env, id).None? ==>
      r == After(w, before + [Fetched(id)], SendText(env.send, to, DownloadFailed))
    ensures TryDownload(env, id).Some? ==>
      r == UploadAndSend(env, w, to, id, TryDownload(env, id).value, before + [Fetched(id)])
  {
    var fetched := before + [Fetched(id)];
    assert fetched[..|before|] == before;
    match TryDownload(env, id)
    case None => After(w, fetched, SendText(env.send, to, DownloadFailed))
    case Some(d) => UploadAndSend(env, w, to, id, d, fetched)
  }

  /** The `try` body of `handle_watch_video`. */
  function WatchBody(env: Env, w: World, to: Sender, id: VideoStore.VideoId): (r: Outcome)
    ensures r.world.modes == w.modes
    ensures CachedVideo(w, id).Some? ==>
      r == After(w, [], SendVideo(env.send, to, CachedVideo(w, id).value.cloudinaryUrl, CachedVideo(w, id).value.title))
  {
    var cached := CachedVideo(w, id);
    if cached.Some? then After(w, [], SendVideo(env.send, to, cached.value.cloudinaryUrl, cached.value.title))
    else
      var wait := SendText(env.send, to, PleaseWait);
      if wait.raised.Some? then After(w, [], wait)
      else FetchAndSend(env, w, to, id, wait.trace)
  }

  /** `handle_watch_video(to, id)`: anything the body raises is answered with
      an apology, and only a failure of that apology escapes. */
  function HandleWatchVideo(env: Env, w: World, to: Sender, id: VideoStore.VideoId): (r: Outcome)
    ensures r.world.modes == w.modes
    ensures var inner := WatchBody(env, w, to, id);
      && r.world == inner.world
      && |inner.trace| <= |r.trace| && r.trace[..|inner.trace|] == inner.trace
      && (inner.raised.None? ==> r == inner)
      && (inner.raised.Some? ==> r == After(inner.world, inner.trace, SendText(env.send, to, SendVideoFailed)))
      && (r.raised.Some? ==> inner.raised.Some?)
  {
    var inner := WatchBody(env, w, to, id);
    if inner.raised.None? then inner
    else After(inner.world, inner.trace, SendText(env.send, to, SendVideoFailed))
  }

  // ---------------------------------------------------------------------------
  // handle_message

  /** Where a postback payload leads. */
  datatype Route =
    | Watch(videoId: VideoStore.VideoId)  // `action` is `watch_video`
    | Ignore                              // any other `action`, or none
    | Reject                              // no payload, or not a JSON object

  /** The routing in `handle_message`'s postback branch. */
  function RoutePayload(payload: Option<string>): (r: Route)
    ensures payload.None? ==> r == Reject
    ensures r.Watch? <==>
      payload.Some? && Json.Parse(payload.value).Some? && Json.Get(Json.Parse(payload.value).value, "action") == Some(WatchAction)
    ensures r.Watch? ==> r.videoId == Json.Get(Json.Parse(payload.value).value, "videoId")
  {
    match payload
    case None => Reject
    case Some(p) =>
      match Json.Parse(p)
      case None => Reject
      case Some(o) => if Json.Get(o, "action") == Some(WatchAction) then Watch(Json.Get(o, "videoId")) else Ignore
  }

  function HandlePostback(env: Env, w: World, to: Sender, pb: Postback): (r: Outcome)
    ensures r.world.modes == w.modes
    ensures RoutePayload(pb.payload).Ignore? ==> r == Outcome(w, [], None)
    ensures RoutePayload(pb.payload).Reject? ==> r == After(w, [], SendText(env.send, to, PostbackFailed))
    ensures RoutePayload(pb.payload).Watch? ==>
      var watch := HandleWatchVideo(env, w, to, RoutePayload(pb.payload).videoId);
      && r.world == watch.world
      && |watch.trace| <= |r.trace| && r.trace[..|watch.trace|] == watch.trace
      && (watch.raised.None? ==> r == watch)
      && (watch.raised.Some? ==> r == After(watch.world, watch.trace, SendText(env.send, to, PostbackFailed)))
  {
    match RoutePayload(pb.payload)
    case Reject => After(w, [], SendText(env.send, to, PostbackFailed))
    case Ignore => Outcome(w, [], None)
    case Watch(id) =>
      var watch := HandleWatchVideo(env, w, to, id);
      if watch.raised.None? then watch
      else After(watch.world, watch.trace, SendText(env.send, to, PostbackFailed))
  }

  /** A text that switches modes, once lower-cased. */
  predicate IsCommand(lowered: string) {
    lowered == "/yt" || lowered == "yt/"
  }

  /** A mode command: the sender's mode is set, then acknowledged. */
  function SwitchMode(env: Env, w: World, to: Sender, mode: Mode, ack: string): (r: Outcome)
    requires 0 < |ack| <= ChunkSize
    ensures var msg := Outbound(to, Text(ack));
      && r.world == w.(modes := w.modes[to := mode])
      && r.trace == [Sent(msg, env.send(msg))]
      && (r.raised.Some? <==> env.send(msg).Refused?)
  {
    SendShortText(env.send, to, ack);
    After(w.(modes := w.modes[to := mode]), [], SendText(env.send, to, ack))
  }

  /** The Mistral branch: ask, then send the reply chunk by chunk. */
  function AskMistral(env: Env, w: World, to: Sender, text: string): (r: Outcome)
    ensures var reply := env.mistral(text);
      && r.world == w
      && 0 < |r.trace| && r.trace[0] == AskedMistral(text)
      && |r.trace| <= 1 + |Chunks(reply)|
      && (forall k :: 0 <= k < |r.trace| - 1 ==>
            var msg := Outbound(to, Text(Chunks(reply)[k])); r.trace[k + 1] == Sent(msg, env.send(msg)))
      && (r.raised.None? ==> |r.trace| == 1 + |Chunks(reply)|)
      && r.trace[1..] == SendText(env.send, to, reply).trace
      && r.raised == SendText(env.send, to, reply).raised
      && (r.raised.Some? ==> 1 < |r.trace| && r.trace[|r.trace| - 1].delivery == Refused(r.raised.value))
  {
    MistralReply(env, w, to, text);
    After(w, [AskedMistral(text)], SendText(env.send, to, env.mistral(text)))
  }

  /** The contract of `AskMistral`, proved about its body apart from it so
      that each proof stays small. */
  lemma MistralReply(env: Env, w: World, to: Sender, text: string)
    ensures var reply := env.mistral(text);
      var r := After(w, [AskedMistral(text)], SendText(env.send, to, reply));
      && r.world == w
      && 0 < |r.trace| && r.trace[0] == AskedMistral(text)
      && |r.trace| <= 1 + |Chunks(reply)|
      && (forall k :: 0 <= k < |r.trace| - 1 ==>
            var msg := Outbound(to, Text(Chunks(reply)[k])); r.trace[k + 1] == Sent(msg, env.send(msg)))
      && (r.raised.None? ==> |r.trace| == 1 + |Chunks(reply)|)
      && r.trace[1..] == SendText(env.send, to, reply).trace
      && r.raised == SendText(env.send, to, reply).raised
      && (r.raised.Some? ==> 1 < |r.trace| && r.trace[|r.trace| - 1].delivery == Refused(r.raised.value))
  {
    var sent := SendText(env.send, to, env.mistral(text));
    var r := After(w, [AskedMistral(text)], sent);
    assert forall k :: 0 <= k < |r.trace| - 1 ==> r.trace[k + 1] == sent.trace[k];
  }

  /** The YouTube-mode branch: search for the text as typed, then show the
      outcome. */
  function SearchBranch(env: Env, w: World, to: Sender, text: string): (r: Outcome)
    ensures var shown := ShowResults(env.send, to, Search(env, text));
      && r.world == w
      && 0 < |r.trace| && r.trace[0] == Searched(text)
      && r.trace[1..] == shown.trace
      && r.raised == shown.raised
  {
    After(w, [], SearchAndReply(env, to, text))
  }

  /** The text branch of `handle_message`. */
  function HandleText(env: Env, w: World, to: Sender, text: string): (r: Outcome)
    ensures r.world.videos == w.videos
    // A command sets the sender's mode, and nobody else's, and is answered
    // with exactly one message, the acknowledgement.
    ensures var lowered := TextProcessing.Lower(env.chars, text);
      var ack := Outbound(to, Text(YouTubeModeOn));
      lowered == "/yt" ==>
        && r.world == w.(modes := w.modes[to := YouTube])
        && r.trace == [Sent(ack, env.send(ack))]
        && (r.raised.Some? <==> env.send(ack).Refused?)
    ensures var lowered := TextProcessing.Lower(env.chars, text);
      var ack := Outbound(to, Text(MistralModeOn));
      lowered == "yt/" ==>
        && r.world == w.(modes := w.modes[to := Mistral])
        && r.trace == [Sent(ack, env.send(ack))]
        && (r.raised.Some? <==> env.send(ack).Refused?)
    ensures !IsCommand(TextProcessing.Lower(env.chars, text)) ==> r.world == w && 0 < |r.trace|
    // In YouTube mode the text is searched for as typed, and the search's
    // outcome is shown: the carousel, or the apology.
    ensures var shown := ShowResults(env.send, to, Search(env, text));
      !IsCommand(TextProcessing.Lower(env.chars, text)) && to in w.modes && w.modes[to] == YouTube ==>
        && r.trace[0] == Searched(text)
        && r.trace[1..] == shown.trace
        && r.raised == shown.raised
    // Otherwise Mistral is asked, and its reply goes out chunk by chunk.
    ensures var reply := env.mistral(text);
      !IsCommand(TextProcessing.Lower(env.chars, text)) && !(to in w.modes && w.modes[to] == YouTube) ==>
        && 0 < |r.trace| && r.trace[0] == AskedMistral(text)
        && |r.trace| <= 1 + |Chunks(reply)|
        && (forall k :: 1 <= k < |r.trace| ==>
              var msg := Outbound(to, Text(Chunks(reply)[k - 1])); r.trace[k] == Sent(msg, env.send(msg)))
        && (r.raised.None? ==> |r.trace| == 1 + |Chunks(reply)|)
        && r.trace[1..] == SendText(env.send, to, reply).trace
        && r.raised == SendText(env.send, to, reply).raised
        && (r.raised.Some? ==> 1 < |r.trace| && r.trace[|r.trace| - 1].delivery == Refused(r.raised.value))
  {
    var lowered := TextProcessing.Lower(env.chars, text);
    if lowered == "/yt" then SwitchMode(env, w, to, YouTube, YouTubeModeOn)
    else if lowered == "yt/" then SwitchMode(env, w, to, Mistral, MistralModeOn)
    else if to in w.modes && w.modes[to] == YouTube then SearchBranch(env, w, to, text)
    else AskMistral(env, w, to, text)
  }

  /** The `try` body of `handle_message`. */
  function MessageBody(env: Env, w: World, to: Sender, m: Received): (r: Outcome)
    // A text wins over a postback in the same message.
    ensures m.text.Some? ==> r == HandleText(env, w, to, m.text.value)
    ensures m.text.None? && m.postback.Some? ==> r == HandlePostback(env, w, to, m.postback.value)
    // Anything else changes nothing and gets exactly one message, the
    // "text only" apology.
    ensures var msg := Outbound(to, Text(TextOnly));
      m.text.None? && m.postback.None? ==>
        && r.world == w
        && r.trace == [Sent(msg, env.send(msg))]
        && (r.raised.Some? <==> env.send(msg).Refused?)
    ensures r.world.modes == w.modes || r.world.modes == w.modes[to := YouTube] || r.world.modes == w.modes[to := Mistral]
    ensures r.world.modes != w.modes ==> m.text.Some? && IsCommand(TextProcessing.Lower(env.chars, m.text.value))
  {
    if m.text.Some? then HandleText(env, w, to, m.text.value)
    else if m.postback.Some? then HandlePostback(env, w, to, m.postback.value)
    else After(w, [], SendText(env.send, to, TextOnly))
  }

  /** The reply of `handle_message`'s catch-all. */
  function ErrorReply(f: Fault): (r: string)
    ensures r == TimeoutError <==> f.mentionsTimeout
  {
    if f.mentionsTimeout then TimeoutError else GenericError
  }

  /** `handle_message(to, m)` */
  function HandleMessage(env: Env, w: World, to: Sender, m: Received): (r: Outcome)
    ensures var inner := MessageBody(env, w, to, m);
      && r.world == inner.world
      && |inner.trace| <= |r.trace| && r.trace[..|inner.trace|] == inner.trace
      && (inner.raised.None? ==> r == inner)
      && (inner.raised.Some? ==> r == After(inner.world, inner.trace, SendText(env.send, to, ErrorReply(inner.raised.value))))
    // The mode changes only on a command, and only for the sender.
    ensures r.world.modes == w.modes || r.world.modes == w.modes[to := YouTube] || r.world.modes == w.modes[to := Mistral]
    ensures r.world.modes != w.modes ==> m.text.Some? && IsCommand(TextProcessing.Lower(env.chars, m.text.value))
    // A text message never touches the video store.
    ensures m.text.Some? ==> r.world.videos == w.videos
  {
    CatchAll(env, to, MessageBody(env, w, to, m))
  }

  /** The `except` of `handle_message`: a raised error is answered with
      the matching reply. */
  function CatchAll(env: Env, to: Sender, inner: Outcome): (r: Outcome)
    ensures r.world == inner.world
    ensures |inner.trace| <= |r.trace| && r.trace[..|inner.trace|] == inner.trace
    ensures inner.raised.None? ==> r == inner
    ensures inner.raised.Some? ==> r == After(inner.world, inner.trace, SendText(env.send, to, ErrorReply(inner.raised.value)))
  {
    if inner.raised.None? then inner
    else After(inner.world, inner.trace, SendText(env.send, to, ErrorReply(inner.raised.value)))
  }
}
