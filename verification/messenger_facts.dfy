/** What src/messenger_api.py promises, stated over the `Messenger` model:
    chunking, the mode machine, the carousel's postback round trip and the
    watch-video pipeline. */
module MessengerFacts {
  import opened Wrappers
  import Seqs
  import Json
  import Downloader
  import VideoStore
  import TextProcessing
  import opened Messenger
  import opened YoutubeApi

  // ---------------------------------------------------------------------------
  // Chunking

  /** The chunks put back together are the text. */
  lemma {:induction false} ChunksJoin(text: string)
    ensures Seqs.Flatten(Chunks(text)) == text
    decreases |text|
  {
    if |text| > ChunkSize {
      var rest := Chunks(text[ChunkSize..]);
      ChunksJoin(text[ChunkSize..]);
      assert Chunks(text) == [text[..ChunkSize]] + rest;
      assert ([text[..ChunkSize]] + rest)[1..] == rest;
      assert text[..ChunkSize] + text[ChunkSize..] == text;
    }
  }

  function Min(a: int, b: int): int {
    if a <= b then a else b
  }

  /** Chunk `k` is the Python slice `text[k*2000 : k*2000+2000]`. */
  lemma {:induction false} ChunkAt(text: string, k: nat)
    requires k < |Chunks(text)|
    ensures k * ChunkSize < |text|
    ensures Chunks(text)[k] == text[k * ChunkSize .. Min((k + 1) * ChunkSize, |text|)]
    decreases |text|
  {
    if |text| > ChunkSize && k > 0 {
      var tail := text[ChunkSize..];
      assert Chunks(text)[k] == Chunks(tail)[k - 1];
      ChunkAt(tail, k - 1);
      var lo := (k - 1) * ChunkSize;
      var hi := Min(k * ChunkSize, |tail|);
      assert lo + ChunkSize == k * ChunkSize;
      assert hi + ChunkSize == Min((k + 1) * ChunkSize, |text|);
      SliceOfSuffix(text, ChunkSize, lo, hi);
    }
  }

  lemma SliceOfSuffix<T>(s: seq<T>, a: nat, lo: nat, hi: nat)
    requires a <= |s| && lo <= hi <= |s| - a
    ensures s[a..][lo..hi] == s[a + lo..a + hi]
  {
    assert forall i :: 0 <= i < hi - lo ==> s[a..][lo..hi][i] == s[a + lo + i];
  }

  /** 4500 characters go out as 2000, 2000 and 500. */
  lemma LongTextChunks(text: string)
    requires |text| == 4500
    ensures |Chunks(text)| == 3
    ensures |Chunks(text)[0]| == 2000 && |Chunks(text)[1]| == 2000 && |Chunks(text)[2]| == 500
  {
    ChunkAt(text, 2);
  }

  /** When chunk k is the first one refused, its error is raised, and no
      chunk after it is sent. */
  lemma RefusedChunkStops(send: Outbound -> Delivery, to: Sender, text: string, k: nat)
    requires k < |Chunks(text)|
    requires forall j :: 0 <= j < k ==> send(Outbound(to, Text(Chunks(text)[j]))).Accepted?
    requires send(Outbound(to, Text(Chunks(text)[k]))).Refused?
    ensures var r := SendText(send, to, text);
      && r.raised == Some(send(Outbound(to, Text(Chunks(text)[k]))).fault)
      && |r.trace| == k + 1
  {
    var r := SendText(send, to, text);
    assert r.raised.Some?;
  }

  // ---------------------------------------------------------------------------
  // The mode machine

  /** Every event in `trace` is a Send API call. */
  predicate OnlySends(trace: seq<Event>) {
    forall i :: 0 <= i < |trace| ==> trace[i].Sent?
  }

  /** `/yt` (in any case the tables fold to it) switches the sender, and
      nobody else, to YouTube mode and acknowledges it. */
  lemma YouTubeCommand(env: Env, w: World, to: Sender, m: Received)
    requires m.text.Some? && TextProcessing.Lower(env.chars, m.text.value) == "/yt"
    ensures var out := HandleMessage(env, w, to, m);
      && out.world == w.(modes := w.modes[to := YouTube])
      && 0 < |out.trace|
      && out.trace[0] == Sent(Outbound(to, Text(YouTubeModeOn)), env.send(Outbound(to, Text(YouTubeModeOn))))
      && OnlySends(out.trace)
  {
    SendShortText(env.send, to, YouTubeModeOn);
    var out := HandleMessage(env, w, to, m);
    var inner := MessageBody(env, w, to, m);
    assert inner.trace == SendText(env.send, to, YouTubeModeOn).trace;
    assert out.trace[..|inner.trace|] == inner.trace;
    assert out.trace[0] == inner.trace[0];
  }

  /** `yt/` switches the sender back to Mistral mode. */
  lemma MistralCommand(env: Env, w: World, to: Sender, m: Received)
    requires m.text.Some? && TextProcessing.Lower(env.chars, m.text.value) == "yt/"
    ensures var out := HandleMessage(env, w, to, m);
      && out.world == w.(modes := w.modes[to := Mistral])
      && 0 < |out.trace|
      && out.trace[0] == Sent(Outbound(to, Text(MistralModeOn)), env.send(Outbound(to, Text(MistralModeOn))))
      && OnlySends(out.trace)
  {
    SendShortText(env.send, to, MistralModeOn);
    var out := HandleMessage(env, w, to, m);
    var inner := MessageBody(env, w, to, m);
    assert inner.trace == SendText(env.send, to, MistralModeOn).trace;
    assert out.trace[..|inner.trace|] == inner.trace;
    assert out.trace[0] == inner.trace[0];
  }

  /** In YouTube mode any other text is searched for as typed, not
      lower-cased, and the mode stays. */
  lemma YouTubeModeSearches(env: Env, w: World, to: Sender, m: Received)
    requires m.text.Some? && !IsCommand(TextProcessing.Lower(env.chars, m.text.value))
    requires to in w.modes && w.modes[to] == YouTube
    ensures var out := HandleMessage(env, w, to, m);
      var shown := ShowResults(env.send, to, Search(env, m.text.value));
      && out.world == w
      && 1 + |shown.trace| <= |out.trace|
      && out.trace[..1 + |shown.trace|] == [Searched(m.text.value)] + shown.trace
      && (shown.raised.None? ==> out.raised.None? && out.trace == [Searched(m.text.value)] + shown.trace)
  {
    var out := HandleMessage(env, w, to, m);
    var inner := MessageBody(env, w, to, m);
    var shown := ShowResults(env.send, to, Search(env, m.text.value));
    assert inner.trace == [Searched(m.text.value)] + shown.trace by {
      assert inner.trace == [inner.trace[0]] + inner.trace[1..];
    }
    assert out.trace[..|inner.trace|] == inner.trace;
  }

  /** In the Mistral branch, when chunk k of the reply is the first one
      refused, its error is raised and no later chunk is sent. */
  lemma MistralReplyStops(env: Env, w: World, to: Sender, text: string, k: nat)
    requires var reply := env.mistral(text);
      && k < |Chunks(reply)|
      && (forall j :: 0 <= j < k ==> env.send(Outbound(to, Text(Chunks(reply)[j]))).Accepted?)
      && env.send(Outbound(to, Text(Chunks(reply)[k]))).Refused?
    ensures var r := AskMistral(env, w, to, text);
      var msg := Outbound(to, Text(Chunks(env.mistral(text))[k]));
      && r.raised == Some(env.send(msg).fault)
      && |r.trace| == k + 2
      && r.trace[k + 1] == Sent(msg, env.send(msg))
  {
    RefusedChunkStops(env.send, to, env.mistral(text), k);
  }

  /** Without YouTube mode any other text goes to Mistral, and the reply is
      sent back. */
  lemma OtherwiseMistralAnswers(env: Env, w: World, to: Sender, m: Received)
    requires m.text.Some? && !IsCommand(TextProcessing.Lower(env.chars, m.text.value))
    requires !(to in w.modes && w.modes[to] == YouTube)
    ensures var out := HandleMessage(env, w, to, m);
      var reply := env.mistral(m.text.value);
      && out.world == w && 0 < |out.trace| && out.trace[0] == AskedMistral(m.text.value)
      && (0 < |reply| <= ChunkSize ==> 1 < |out.trace| && out.trace[1] == Sent(Outbound(to, Text(reply)), env.send(Outbound(to, Text(reply)))))
  {
    var reply := env.mistral(m.text.value);
    var out := HandleMessage(env, w, to, m);
    var inner := MessageBody(env, w, to, m);
    assert out.trace[..|inner.trace|] == inner.trace;
    assert out.trace[0] == inner.trace[0];
    if 0 < |reply| <= ChunkSize {
      SendShortText(env.send, to, reply);
      assert out.trace[1] == inner.trace[1];
    }
  }

  /** The unit tests' Mistral scenario: "Hello, how are you?" from sender
      "123" asks Mistral with that text and sends its reply as one message. */
  lemma MistralScenario(env: Env, w: World)
    requires env.mistral("Hello, how are you?") == "This is a test response"
    requires forall msg :: env.send(msg) == Accepted
    requires Some("123") !in w.modes
    ensures HandleMessage(env, w, Some("123"), Received(Some("Hello, how are you?"), None, false))
         == Outcome(w, [AskedMistral("Hello, how are you?"),
                        Sent(Outbound(Some("123"), Text("This is a test response")), Accepted)], None)
  {
    var text := "Hello, how are you?";
    assert |TextProcessing.Lower(env.chars, text)| == 19;
    SendShortText(env.send, Some("123"), "This is a test response");
  }

  /** One complete item formats to its summary. */
  lemma FormatOne(item: Item)
    requires Complete(item)
    ensures FormatResults(SearchResponse(Some([item])))
         == Some([VideoSummary(item.title.value, item.thumbnailUrl.value, item.videoId.value)])
  {
    var items := [item];
    assert Complete(items[0]);
    var summary := VideoSummary(item.title.value, item.thumbnailUrl.value, item.videoId.value);
    var found := FormatResults(SearchResponse(Some(items)));
    assert found.Some? && |found.value| == 1 && found.value[0] == summary;
    assert found.value == [summary];
  }

  /** A search that finds one complete item is answered with a one-card
      carousel. */
  lemma SearchOneReply(env: Env, to: Sender, query: string, item: Item)
    requires Healthy(env)
    requires Complete(item)
    requires env.search(query) == Some(SearchResponse(Some([item])))
    ensures var card := ElementFor(VideoSummary(item.title.value, item.thumbnailUrl.value, item.videoId.value));
      SearchAndReply(env, to, query) == Run([Searched(query), Sent(Outbound(to, Carousel([card])), Accepted)], None)
  {
    var summary := VideoSummary(item.title.value, item.thumbnailUrl.value, item.videoId.value);
    FormatOne(item);
    assert Search(env, query) == Some([summary]);
    ShowOne(env, to, summary);
  }

  /** With every message accepted, one result goes out as one carousel. */
  lemma ShowOne(env: Env, to: Sender, v: VideoSummary)
    requires Healthy(env)
    ensures ShowResults(env.send, to, Some([v])) == Run([Sent(Outbound(to, Carousel([ElementFor(v)])), Accepted)], None)
  {
    var msg := Outbound(to, Carousel([ElementFor(v)]));
    assert Elements([v]) == [ElementFor(v)];
    assert env.send(msg) == Accepted;
    var shown := SendResults(env.send, to, [v]);
    assert shown.trace == [Sent(msg, Accepted)] && shown.raised.None?;
  }

  /** A search in YouTube mode that finds one complete item answers with
      a one-card carousel. */
  lemma SearchOneResult(env: Env, w: World, to: Sender, query: string, item: Item)
    requires !IsCommand(TextProcessing.Lower(env.chars, query))
    requires to in w.modes && w.modes[to] == YouTube
    requires Healthy(env)
    requires Complete(item)
    requires env.search(query) == Some(SearchResponse(Some([item])))
    ensures var card := ElementFor(VideoSummary(item.title.value, item.thumbnailUrl.value, item.videoId.value));
      HandleMessage(env, w, to, Received(Some(query), None, false))
        == Outcome(w, [Searched(query), Sent(Outbound(to, Carousel([card])), Accepted)], None)
  {
    SearchOneReply(env, to, query, item);
    var r := SearchAndReply(env, to, query);
    assert HandleText(env, w, to, query) == After(w, [], r);
    assert [] + r.trace == r.trace;
  }

  /** The unit tests' YouTube scenario: "/yt" then "cat videos" from the
      same sender; the second message is searched for as typed and one
      result comes back as a one-card carousel. */
  lemma YouTubeScenario(env: Env, w: World, item: Item)
    requires env.chars.lower('/') == '/' && env.chars.lower('y') == 'y' && env.chars.lower('t') == 't'
    requires Healthy(env)
    requires Complete(item)
    requires env.search("cat videos") == Some(SearchResponse(Some([item])))
    ensures var first := HandleMessage(env, w, Some("123"), Received(Some("/yt"), None, false));
      && first.trace == [Sent(Outbound(Some("123"), Text(YouTubeModeOn)), Accepted)]
      && var second := HandleMessage(env, first.world, Some("123"), Received(Some("cat videos"), None, false));
      && var card := ElementFor(VideoSummary(item.title.value, item.thumbnailUrl.value, item.videoId.value));
      && second == Outcome(first.world, [Searched("cat videos"), Sent(Outbound(Some("123"), Carousel([card])), Accepted)], None)
  {
    var to := Some("123");
    YouTubeOnScenario(env, w, to);
    var first := HandleMessage(env, w, to, Received(Some("/yt"), None, false));
    assert first.world.modes[to] == YouTube;
    assert |TextProcessing.Lower(env.chars, "cat videos")| == 10;
    SearchOneResult(env, first.world, to, "cat videos", item);
  }

  /** "/yt" is acknowledged with a single message. */
  lemma YouTubeOnScenario(env: Env, w: World, to: Sender)
    requires env.chars.lower('/') == '/' && env.chars.lower('y') == 'y' && env.chars.lower('t') == 't'
    requires Healthy(env)
    ensures HandleMessage(env, w, to, Received(Some("/yt"), None, false))
         == Outcome(w.(modes := w.modes[to := YouTube]), [Sent(Outbound(to, Text(YouTubeModeOn)), Accepted)], None)
  {
    assert TextProcessing.Lower(env.chars, "/yt") == "/yt";
    SendShortText(env.send, to, YouTubeModeOn);
  }

  // ---------------------------------------------------------------------------
  // Carousel and postback round trip

  /** The payload of a download button routes back to that very video. */
  lemma WatchPayloadRoutesBack(videoId: string)
    ensures RoutePayload(Some(WatchPayload(videoId))) == Watch(Some(videoId))
  {
    var o := [("action", WatchAction), ("videoId", videoId)];
    Json.ParseSerialize(o);
    WatchObjectFields(videoId);
  }

  /** The two keys of the download button's payload object. */
  lemma WatchObjectFields(videoId: string)
    ensures var o := [("action", WatchAction), ("videoId", videoId)];
      Json.Get(o, "action") == Some(WatchAction) && Json.Get(o, "videoId") == Some(videoId)
  {
    var o := [("action", WatchAction), ("videoId", videoId)];
    assert o[..1] == [("action", WatchAction)];
    assert "videoId" != "action";
  }

  /** A postback that routes to `Watch(id)` runs `handle_watch_video`
      for `id`; only if that raises does the postback apology follow. */
  lemma PostbackWatches(env: Env, w: World, to: Sender, pb: Postback, otherKeys: bool)
    requires RoutePayload(pb.payload).Watch?
    ensures var out := HandleMessage(env, w, to, Received(None, Some(pb), otherKeys));
      && var watch := HandleWatchVideo(env, w, to, RoutePayload(pb.payload).videoId);
      && out.world == watch.world
      && |watch.trace| <= |out.trace| && out.trace[..|watch.trace|] == watch.trace
      && (watch.raised.None? ==> out == watch)
  {
    var m := Received(None, Some(pb), otherKeys);
    var out := HandleMessage(env, w, to, m);
    var inner := MessageBody(env, w, to, m);
    var watch := HandleWatchVideo(env, w, to, RoutePayload(pb.payload).videoId);
    assert inner == HandlePostback(env, w, to, pb);
    PrefixOfPrefix(out.trace, inner.trace, watch.trace);
  }

  lemma PrefixOfPrefix<T>(a: seq<T>, b: seq<T>, c: seq<T>)
    requires |b| <= |a| && a[..|b|] == b
    requires |c| <= |b| && b[..|c|] == c
    ensures a[..|c|] == c
  {
    assert forall i :: 0 <= i < |c| ==> a[i] == b[i];
  }

  /** Pressing the download button of card `i` of a carousel runs
      `handle_watch_video` for video `i`. */
  lemma CarouselButtonWatchesVideo(env: Env, w: World, to: Sender, videos: seq<VideoSummary>, i: nat, extra: bool, otherKeys: bool)
    requires i < |videos|
    ensures var button := Elements(videos)[i].buttons[1];
      && button == PostbackButton(DownloadButtonTitle, WatchPayload(videos[i].videoId))
      && var out := HandleMessage(env, w, to, Received(None, Some(Postback(Some(button.payload), extra)), otherKeys));
      && var watch := HandleWatchVideo(env, w, to, Some(videos[i].videoId));
      && out.world == watch.world
      && |watch.trace| <= |out.trace| && out.trace[..|watch.trace|] == watch.trace
      && (watch.raised.None? ==> out == watch)
  {
    var payload := WatchPayload(videos[i].videoId);
    assert Elements(videos)[i].buttons[1] == PostbackButton(DownloadButtonTitle, payload);
    WatchPayloadRoutesBack(videos[i].videoId);
    PostbackWatches(env, w, to, Postback(Some(payload), extra), otherKeys);
  }

  /** A well-formed payload whose `action` is anything but `watch_video`
      is logged and dropped: nothing is sent and nothing changes. */
  lemma OtherActionIgnored(env: Env, w: World, to: Sender, o: Json.FlatObject, extra: bool, otherKeys: bool)
    requires Json.Get(o, "action") != Some(WatchAction)
    ensures HandleMessage(env, w, to, Received(None, Some(Postback(Some(Json.Serialize(o)), extra)), otherKeys))
         == Outcome(w, [], None)
  {
    OtherActionRoutesToIgnore(o);
  }

  lemma OtherActionRoutesToIgnore(o: Json.FlatObject)
    requires Json.Get(o, "action") != Some(WatchAction)
    ensures RoutePayload(Some(Json.Serialize(o))) == Ignore
  {
    Json.ParseSerialize(o);
  }

  /** A postback without a payload, or with one that is not a JSON object,
      gets the postback apology. */
  lemma MalformedPayloadApology(env: Env, w: World, to: Sender, pb: Postback, otherKeys: bool)
    requires pb.payload.None? || Json.Parse(pb.payload.value).None?
    ensures var out := HandleMessage(env, w, to, Received(None, Some(pb), otherKeys));
      && out.world == w && 0 < |out.trace|
      && out.trace[0] == Sent(Outbound(to, Text(PostbackFailed)), env.send(Outbound(to, Text(PostbackFailed))))
  {
    var m := Received(None, Some(pb), otherKeys);
    SendShortText(env.send, to, PostbackFailed);
    assert RoutePayload(pb.payload) == Reject;
    assert MessageBody(env, w, to, m) == After(w, [], SendText(env.send, to, PostbackFailed));
    BodyFirst(env, w, to, m);
  }

  /** What `handle_message` sends first is what its `try` body sends first. */
  lemma BodyFirst(env: Env, w: World, to: Sender, m: Received)
    requires 0 < |MessageBody(env, w, to, m).trace|
    ensures var out := HandleMessage(env, w, to, m);
      && out.world == MessageBody(env, w, to, m).world
      && 0 < |out.trace| && out.trace[0] == MessageBody(env, w, to, m).trace[0]
  {
    var out := HandleMessage(env, w, to, m);
    var inner := MessageBody(env, w, to, m);
    assert out.trace[..|inner.trace|] == inner.trace;
    assert out.trace[0] == inner.trace[0];
  }

  // ---------------------------------------------------------------------------
  // The watch-video pipeline

  /** The Send API accepts every message. */
  ghost predicate Healthy(env: Env) {
    forall msg :: env.send(msg) == Accepted
  }

  /** No download, upload or save happened. */
  predicate NoUploadOrSave(trace: seq<Event>) {
    forall i :: 0 <= i < |trace| ==> !trace[i].Uploaded? && !trace[i].Saved?
  }

  lemma OnlySendsConcat(a: seq<Event>, b: seq<Event>)
    requires OnlySends(a) && OnlySends(b)
    ensures OnlySends(a + b)
  {
    assert forall i :: 0 <= i < |a + b| ==> (a + b)[i] == if i < |a| then a[i] else b[i - |a|];
  }

  lemma NoUploadOrSaveConcat(a: seq<Event>, b: seq<Event>)
    requires NoUploadOrSave(a) && NoUploadOrSave(b)
    ensures NoUploadOrSave(a + b)
  {
    assert forall i :: 0 <= i < |a + b| ==> (a + b)[i] == if i < |a| then a[i] else b[i - |a|];
  }

  lemma SendVideoOnlySends(send: Outbound -> Delivery, to: Sender, url: string, title: string)
    ensures OnlySends(SendVideo(send, to, url, title).trace)
  {
    var r := SendVideo(send, to, url, title);
    assert r.trace == [r.trace[0]] + r.trace[1..];
    OnlySendsConcat([r.trace[0]], r.trace[1..]);
  }

  /** A cache hit with a non-empty URL sends that URL and downloads,
      uploads and saves nothing. */
  lemma CacheHit(env: Env, w: World, to: Sender, id: VideoStore.VideoId, v: VideoStore.Video)
    requires VideoStore.FindByVideoId(w.videos, id) == Some(v) && |v.cloudinaryUrl| > 0
    ensures var out := HandleWatchVideo(env, w, to, id);
      && out.world == w
      && 0 < |out.trace|
      && out.trace[0] == Sent(Outbound(to, VideoAttachment(v.cloudinaryUrl)), env.send(Outbound(to, VideoAttachment(v.cloudinaryUrl))))
      && OnlySends(out.trace)
  {
    var out := HandleWatchVideo(env, w, to, id);
    var inner := WatchBody(env, w, to, id);
    assert CachedVideo(w, id) == Some(v);
    SendVideoOnlySends(env.send, to, v.cloudinaryUrl, v.title);
    assert inner.trace == SendVideo(env.send, to, v.cloudinaryUrl, v.title).trace;
    assert out.trace[..|inner.trace|] == inner.trace;
    assert out.trace[0] == inner.trace[0];
    if inner.raised.Some? {
      OnlySendsConcat(inner.trace, SendText(env.send, to, SendVideoFailed).trace);
    }
  }

  /** On a miss the first thing sent is the "please wait" text. */
  lemma MissSaysWaitFirst(env: Env, w: World, to: Sender, id: VideoStore.VideoId)
    requires CachedVideo(w, id).None?
    ensures var out := HandleWatchVideo(env, w, to, id);
      && 0 < |out.trace|
      && out.trace[0] == Sent(Outbound(to, Text(PleaseWait)), env.send(Outbound(to, Text(PleaseWait))))
  {
    SendShortText(env.send, to, PleaseWait);
    var out := HandleWatchVideo(env, w, to, id);
    var inner := WatchBody(env, w, to, id);
    var wait := SendText(env.send, to, PleaseWait);
    if wait.raised.None? {
      var r := FetchAndSend(env, w, to, id, wait.trace);
      assert r.trace[..|wait.trace|] == wait.trace;
      assert inner.trace[0] == wait.trace[0];
    }
    assert out.trace[..|inner.trace|] == inner.trace;
    assert out.trace[0] == inner.trace[0];
  }

  /** The `try` body of `handle_watch_video` when the download fails, once
      the "please wait" text went out. */
  lemma DownloadFailureSteps(env: Env, w: World, to: Sender, id: VideoStore.VideoId)
    requires CachedVideo(w, id).None? && TryDownload(env, id).None?
    requires SendText(env.send, to, PleaseWait).raised.None?
    ensures var sorry := SendText(env.send, to, DownloadFailed);
      WatchBody(env, w, to, id)
        == Outcome(w, SendText(env.send, to, PleaseWait).trace + [Fetched(id)] + sorry.trace, sorry.raised)
  {
    var wait := SendText(env.send, to, PleaseWait);
    assert WatchBody(env, w, to, id) == FetchAndSend(env, w, to, id, wait.trace);
  }

  /** The `try` body of `handle_watch_video` neither uploads nor saves when
      the download fails. */
  lemma DownloadFailureBody(env: Env, w: World, to: Sender, id: VideoStore.VideoId)
    requires CachedVideo(w, id).None? && TryDownload(env, id).None?
    ensures WatchBody(env, w, to, id).world == w
    ensures NoUploadOrSave(WatchBody(env, w, to, id).trace)
  {
    var wait := SendText(env.send, to, PleaseWait);
    SendTextOnlySends(env.send, to, PleaseWait);
    if wait.raised.None? {
      var sorry := SendText(env.send, to, DownloadFailed);
      SendTextOnlySends(env.send, to, DownloadFailed);
      DownloadFailureSteps(env, w, to, id);
      NoUploadOrSaveConcat(wait.trace, [Fetched(id)]);
      NoUploadOrSaveConcat(wait.trace + [Fetched(id)], sorry.trace);
    } else {
      assert WatchBody(env, w, to, id) == After(w, [], wait);
      assert wait.trace == [] + wait.trace;
    }
  }

  /** With every message accepted, the failed download is answered with the
      download apology alone. */
  lemma DownloadFailureHealthy(env: Env, w: World, to: Sender, id: VideoStore.VideoId)
    requires Healthy(env) && CachedVideo(w, id).None? && TryDownload(env, id).None?
    ensures WatchBody(env, w, to, id) == Outcome(w, [Sent(Outbound(to, Text(PleaseWait)), Accepted),
                                                     Fetched(id),
                                                     Sent(Outbound(to, Text(DownloadFailed)), Accepted)], None)
  {
    SendShortText(env.send, to, PleaseWait);
    SendShortText(env.send, to, DownloadFailed);
    DownloadFailureSteps(env, w, to, id);
  }

  /** A failed download gets the download apology, and nothing is uploaded
      or saved. */
  lemma DownloadFailure(env: Env, w: World, to: Sender, id: VideoStore.VideoId)
    requires CachedVideo(w, id).None? && TryDownload(env, id).None?
    ensures var out := HandleWatchVideo(env, w, to, id);
      && out.world == w
      && NoUploadOrSave(out.trace)
      && (Healthy(env) ==> out.trace == [Sent(Outbound(to, Text(PleaseWait)), Accepted),
                                         Fetched(id),
                                         Sent(Outbound(to, Text(DownloadFailed)), Accepted)])
  {
    var inner := WatchBody(env, w, to, id);
    DownloadFailureBody(env, w, to, id);
    if Healthy(env) {
      DownloadFailureHealthy(env, w, to, id);
    }
    if inner.raised.Some? {
      var apology := SendText(env.send, to, SendVideoFailed);
      SendTextOnlySends(env.send, to, SendVideoFailed);
      assert HandleWatchVideo(env, w, to, id).trace == inner.trace + apology.trace;
      NoUploadOrSaveConcat(inner.trace, apology.trace);
    }
  }

  /** No record was saved. */
  predicate NoSave(trace: seq<Event>) {
    forall i :: 0 <= i < |trace| ==> !trace[i].Saved?
  }

  lemma NoSaveConcat(a: seq<Event>, b: seq<Event>)
    requires NoSave(a) && NoSave(b)
    ensures NoSave(a + b)
  {
    assert forall i :: 0 <= i < |a + b| ==> (a + b)[i] == if i < |a| then a[i] else b[i - |a|];
  }

  /** Everything `send_text_message` does is a Send API call. */
  lemma SendTextOnlySends(send: Outbound -> Delivery, to: Sender, text: string)
    ensures OnlySends(SendText(send, to, text).trace)
    ensures NoSave(SendText(send, to, text).trace)
    ensures NoUploadOrSave(SendText(send, to, text).trace)
  {
  }

  /** The `try` body of `handle_watch_video` when the upload fails, once
      the "please wait" text went out. */
  lemma UploadFailureSteps(env: Env, w: World, to: Sender, id: VideoStore.VideoId, d: Downloader.Download)
    requires CachedVideo(w, id).None? && TryDownload(env, id) == Some(d)
    requires env.upload(d.url, PublicId(id)).None?
    requires SendText(env.send, to, PleaseWait).raised.None?
    ensures var sorry := SendText(env.send, to, UploadFailed);
      WatchBody(env, w, to, id)
        == Outcome(w, SendText(env.send, to, PleaseWait).trace + [Fetched(id), Uploaded(d.url, PublicId(id))] + sorry.trace, sorry.raised)
  {
    var wait := SendText(env.send, to, PleaseWait);
    var sorry := SendText(env.send, to, UploadFailed);
    var fetched := wait.trace + [Fetched(id)];
    var uploaded := fetched + [Uploaded(d.url, PublicId(id))];
    assert WatchBody(env, w, to, id) == FetchAndSend(env, w, to, id, wait.trace);
    assert FetchAndSend(env, w, to, id, wait.trace) == UploadAndSend(env, w, to, id, d, fetched);
    assert UploadAndSend(env, w, to, id, d, fetched) == After(w, uploaded, sorry);
    assert uploaded == wait.trace + [Fetched(id), Uploaded(d.url, PublicId(id))];
  }

  /** The `try` body of `handle_watch_video` saves nothing when the upload
      fails. */
  lemma UploadFailureBody(env: Env, w: World, to: Sender, id: VideoStore.VideoId, d: Downloader.Download)
    requires CachedVideo(w, id).None? && TryDownload(env, id) == Some(d)
    requires env.upload(d.url, PublicId(id)).None?
    ensures WatchBody(env, w, to, id).world == w
    ensures NoSave(WatchBody(env, w, to, id).trace)
  {
    if SendText(env.send, to, PleaseWait).raised.None? {
      UploadFailureAfterWait(env, w, to, id, d);
    } else {
      WaitRefused(env, w, to, id);
    }
  }

  lemma UploadFailureAfterWait(env: Env, w: World, to: Sender, id: VideoStore.VideoId, d: Downloader.Download)
    requires CachedVideo(w, id).None? && TryDownload(env, id) == Some(d)
    requires env.upload(d.url, PublicId(id)).None?
    requires SendText(env.send, to, PleaseWait).raised.None?
    ensures WatchBody(env, w, to, id).world == w
    ensures NoSave(WatchBody(env, w, to, id).trace)
  {
    var wait := SendText(env.send, to, PleaseWait);
    var sorry := SendText(env.send, to, UploadFailed);
    SendTextOnlySends(env.send, to, PleaseWait);
    SendTextOnlySends(env.send, to, UploadFailed);
    UploadFailureSteps(env, w, to, id, d);
    var steps := [Fetched(id), Uploaded(d.url, PublicId(id))];
    NoSaveConcat(wait.trace, steps);
    NoSaveConcat(wait.trace + steps, sorry.trace);
  }

  /** On a miss whose "please wait" text is refused, the body stops there. */
  lemma WaitRefused(env: Env, w: World, to: Sender, id: VideoStore.VideoId)
    requires CachedVideo(w, id).None?
    requires SendText(env.send, to, PleaseWait).raised.Some?
    ensures WatchBody(env, w, to, id).world == w
    ensures NoSave(WatchBody(env, w, to, id).trace)
  {
    var wait := SendText(env.send, to, PleaseWait);
    SendTextOnlySends(env.send, to, PleaseWait);
    assert WatchBody(env, w, to, id) == After(w, [], wait);
    assert wait.trace == [] + wait.trace;
  }

  /** With every message accepted, the failed upload is answered with the
      upload apology alone. */
  lemma UploadFailureHealthy(env: Env, w: World, to: Sender, id: VideoStore.VideoId, d: Downloader.Download)
    requires Healthy(env) && CachedVideo(w, id).None? && TryDownload(env, id) == Some(d)
    requires env.upload(d.url, PublicId(id)).None?
    ensures WatchBody(env, w, to, id) == Outcome(w, [Sent(Outbound(to, Text(PleaseWait)), Accepted),
                                                     Fetched(id),
                                                     Uploaded(d.url, PublicId(id)),
                                                     Sent(Outbound(to, Text(UploadFailed)), Accepted)], None)
  {
    SendShortText(env.send, to, PleaseWait);
    SendShortText(env.send, to, UploadFailed);
    UploadFailureSteps(env, w, to, id, d);
  }

  /** A failed upload gets the upload apology, and nothing is saved. */
  lemma UploadFailure(env: Env, w: World, to: Sender, id: VideoStore.VideoId, d: Downloader.Download)
    requires CachedVideo(w, id).None? && TryDownload(env, id) == Some(d)
    requires env.upload(d.url, PublicId(id)).None?
    ensures var out := HandleWatchVideo(env, w, to, id);
      && out.world == w
      && NoSave(out.trace)
      && (Healthy(env) ==> out.trace == [Sent(Outbound(to, Text(PleaseWait)), Accepted),
                                         Fetched(id),
                                         Uploaded(d.url, PublicId(id)),
                                         Sent(Outbound(to, Text(UploadFailed)), Accepted)])
  {
    var inner := WatchBody(env, w, to, id);
    UploadFailureBody(env, w, to, id, d);
    if Healthy(env) {
      UploadFailureHealthy(env, w, to, id, d);
    }
    if inner.raised.Some? {
      var apology := SendText(env.send, to, SendVideoFailed);
      SendTextOnlySends(env.send, to, SendVideoFailed);
      assert HandleWatchVideo(env, w, to, id).trace == inner.trace + apology.trace;
      NoSaveConcat(inner.trace, apology.trace);
    }
  }

  lemma UploadAndSendSaves(env: Env, w: World, to: Sender, id: VideoStore.VideoId, d: Downloader.Download, u: Upload, url: string, done: seq<Event>)
    requires env.upload(d.url, PublicId(id)) == Some(u) && u.secureUrl == Some(url)
    ensures var r := UploadAndSend(env, w, to, id, d, done);
      var record := RecordFor(id, d.title, url, u);
      var shown := SendVideo(env.send, to, url, d.title);
      && r.world == w.(videos := VideoStore.Save(w.videos, record))
      && r.trace == done + [Uploaded(d.url, PublicId(id)), Saved(record)] + shown.trace
      && r.raised == shown.raised
  {
    var record := RecordFor(id, d.title, url, u);
    assert done + [Uploaded(d.url, PublicId(id))] + [Saved(record)] == done + [Uploaded(d.url, PublicId(id)), Saved(record)];
  }

  /** The `try` body of `handle_watch_video` when the upload succeeds, once
      the "please wait" text went out. */
  lemma UploadSuccessSteps(env: Env, w: World, to: Sender, id: VideoStore.VideoId, d: Downloader.Download, u: Upload, url: string)
    requires CachedVideo(w, id).None? && SendText(env.send, to, PleaseWait).raised.None?
    requires TryDownload(env, id) == Some(d)
    requires env.upload(d.url, PublicId(id)) == Some(u) && u.secureUrl == Some(url)
    ensures var record := RecordFor(id, d.title, url, u);
      var shown := SendVideo(env.send, to, url, d.title);
      WatchBody(env, w, to, id)
        == Outcome(w.(videos := VideoStore.Save(w.videos, record)),
                   SendText(env.send, to, PleaseWait).trace + [Fetched(id)] + [Uploaded(d.url, PublicId(id)), Saved(record)] + shown.trace,
                   shown.raised)
  {
    var wait := SendText(env.send, to, PleaseWait);
    var fetched := wait.trace + [Fetched(id)];
    assert WatchBody(env, w, to, id) == FetchAndSend(env, w, to, id, wait.trace);
    assert FetchAndSend(env, w, to, id, wait.trace) == UploadAndSend(env, w, to, id, d, fetched);
    UploadAndSendSaves(env, w, to, id, d, u, url, fetched);
  }

  /** A successful upload is saved under the requested id with its
      `secure_url`. */
  lemma UploadSuccess(env: Env, w: World, to: Sender, id: VideoStore.VideoId, d: Downloader.Download, u: Upload, url: string)
    requires CachedVideo(w, id).None? && env.send(Outbound(to, Text(PleaseWait))).Accepted?
    requires TryDownload(env, id) == Some(d)
    requires env.upload(d.url, PublicId(id)) == Some(u) && u.secureUrl == Some(url)
    ensures var record := RecordFor(id, d.title, url, u);
      && record.videoId == id && record.cloudinaryUrl == url
      && HandleWatchVideo(env, w, to, id).world == w.(videos := VideoStore.Save(w.videos, record))
  {
    SendShortText(env.send, to, PleaseWait);
    UploadSuccessSteps(env, w, to, id, d, u, url);
  }

  /** With every message accepted, the video goes out after its title is
      saved, and nothing raises. */
  lemma UploadSuccessShown(env: Env, to: Sender, url: string, title: string)
    requires Healthy(env)
    ensures SendVideo(env.send, to, url, title)
         == Run([Sent(Outbound(to, VideoAttachment(url)), Accepted)] + SendText(env.send, to, TitlePrefix + title).trace, None)
  {
    var caption := SendText(env.send, to, TitlePrefix + title);
    assert caption.raised.None?;
  }

  /** With a healthy Send API the user sees, in order: the "please wait"
      text, the uploaded video, and its title. */
  lemma UploadSuccessTrace(env: Env, w: World, to: Sender, id: VideoStore.VideoId, d: Downloader.Download, u: Upload, url: string)
    requires Healthy(env) && CachedVideo(w, id).None?
    requires TryDownload(env, id) == Some(d)
    requires env.upload(d.url, PublicId(id)) == Some(u) && u.secureUrl == Some(url)
    ensures var out := HandleWatchVideo(env, w, to, id);
      && out.raised.None?
      && out.trace == [Sent(Outbound(to, Text(PleaseWait)), Accepted),
                       Fetched(id),
                       Uploaded(d.url, PublicId(id)),
                       Saved(RecordFor(id, d.title, url, u)),
                       Sent(Outbound(to, VideoAttachment(url)), Accepted)]
                      + SendText(env.send, to, TitlePrefix + d.title).trace
  {
    var wait := Sent(Outbound(to, Text(PleaseWait)), Accepted);
    var saved := Saved(RecordFor(id, d.title, url, u));
    var shown := Sent(Outbound(to, VideoAttachment(url)), Accepted);
    var caption := SendText(env.send, to, TitlePrefix + d.title).trace;
    SendShortText(env.send, to, PleaseWait);
    UploadSuccessSteps(env, w, to, id, d, u, url);
    UploadSuccessShown(env, to, url, d.title);
    Regroup(wait, Fetched(id), Uploaded(d.url, PublicId(id)), saved, shown, caption);
  }

  lemma Regroup<T>(a: T, b: T, c: T, d: T, e: T, rest: seq<T>)
    ensures [a] + [b] + [c, d] + ([e] + rest) == [a, b, c, d, e] + rest
  {
  }

  /** After a successful pipeline with a non-empty URL the next request
      for the same id is a cache hit. */
  lemma SecondRequestHitsCache(env: Env, w: World, to: Sender, id: VideoStore.VideoId, d: Downloader.Download, u: Upload, url: string, later: Sender)
    requires CachedVideo(w, id).None? && env.send(Outbound(to, Text(PleaseWait))).Accepted?
    requires TryDownload(env, id) == Some(d)
    requires env.upload(d.url, PublicId(id)) == Some(u) && u.secureUrl == Some(url) && |url| > 0
    ensures var first := HandleWatchVideo(env, w, to, id);
      var again := HandleWatchVideo(env, first.world, later, id);
      && again.world == first.world
      && 0 < |again.trace|
      && again.trace[0] == Sent(Outbound(later, VideoAttachment(url)), env.send(Outbound(later, VideoAttachment(url))))
      && OnlySends(again.trace)
  {
    var record := RecordFor(id, d.title, url, u);
    UploadSuccess(env, w, to, id, d, u, url);
    var first := HandleWatchVideo(env, w, to, id);
    VideoStore.FindAfterSave(w.videos, record);
    CacheHit(env, first.world, later, id, record);
  }
}
