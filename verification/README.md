# nada Messenger bot — a Dafny model of its core logic

nada is a Facebook Messenger bot. A user talks to Mistral by default. The
command `/yt` switches that user to YouTube search mode and `yt/` switches
them back. A search answers with a carousel of videos. Each card has a
"Télécharger MP4" button whose postback payload brings the video id back to
the bot. The bot then serves the video from its cache. On a miss it reads the video's
format list, picks the first mp4 format with the least key, uploads from
that format's URL, records the upload and sends it. The key is the format's
byte size when positive, and otherwise its height.

This project models the decision logic under that I/O glue:

- `Downloader` (downloader.dfy): the duration and size gate of
  `download_youtube_video`, and its choice of format. The choice is the
  stable minimum of the mp4 formats under the key "filesize if positive,
  else height". `DownloaderExamples` (downloader_examples.dfy) works through
  concrete instances of the choice.
- `VideoStore` (video_store.dfy): the `videos` collection, its upsert
  `save` and its lookup `find_by_video_id`.
- `TextProcessing` (text_processing.dfy): `clean_text` and
  `extract_keywords`. `\w` and `str.lower` come from a character table
  `CharDb`, given as a parameter.
- `WebhookVerification` (config.dfy): the subscribe handshake of
  `verify_webhook`.
- `YoutubeApi` (youtube_api.dfy): the loop that projects the items of a
  search response onto `{title, thumbnail, videoId}`.
- `Json` (json.dfy): `json.dumps` and `json.loads` for objects with string
  values. It covers the carousel payload's round trip.
- `Messenger` (messenger.dfy): `handle_message`, the per-sender mode map,
  `send_text_message` chunking, `send_youtube_results`,
  `handle_watch_video` and `send_video_message`.
  - Every network collaborator is a field of `Env`: the Send API, the
    search, Mistral, yt-dlp's metadata, the upload and the case tables.
  - What a handler does is an ordered trace of `Event`s.
  - An exception that escapes a handler is the `raised` part of its result.
- `MessengerFacts` (messenger_facts.dfy): properties of the dispatch. It
  also contains the unit tests' scenarios.
- `Webhook` (webhook.dfy): `webhook_handler`, from a parsed update to an
  HTTP response plus the ordered list of `handle_message` calls. It also
  runs those calls against the model of `handle_message`.
- `Seqs` and `Wrappers` (seqs.dfy, wrappers.dfy): list comprehension,
  subsequence, and `Option` with Python truthiness.

## Model

| member | source | states |
|---|---|---|
| Downloader.DownloadVideo | src/youtube_downloader.py:45-82 | A duration over the cap gives no result, and a missing duration counts as 0. A positive info-level size over the cap gives no result. So does a list with no mp4 format. Otherwise there is a result exactly when the reference choice `BestMp4` has a URL. That URL is returned, with no fallback. The title is `info.title` or "Video sans titre". |
| Downloader.SortByKey | src/youtube_downloader.py:72-74 | The sorted list is a permutation of its input, and its keys never decrease. |
| Downloader.InsertSorted | src/youtube_downloader.py:72-74 | Inserting into a key-sorted list keeps it sorted. |
| Downloader.BestMp4 | src/youtube_downloader.py:69-76 | This is the reference definition of the choice, written without sorting: an mp4 format of least key that is strictly smaller than every earlier mp4 format. It is `None` exactly when no format is mp4. |
| Downloader.SortedHeadIsBest | src/youtube_downloader.py:69-76 | The head of the stable sort of the mp4 formats is the reference choice, so among equal keys the earliest format wins. |
| DownloaderExamples.UnknownSizeVariantChosen | src/youtube_downloader.py:72-79 | A variant of unknown size, keyed by its height of 360, beats a variant whose size is over the cap. |
| DownloaderExamples.MixedKeyPrefersUnknownSize | src/youtube_downloader.py:72-74 | Bytes and pixels share one scale: a 1080p variant of unknown size beats a 100 kB 144p variant. |
| DownloaderExamples.FormatSizeNotCapped | src/youtube_downloader.py:51-54 | The size of a single format is never compared with the cap. |
| DownloaderExamples.NoFallbackToNextFormat | src/youtube_downloader.py:76-82 | When the least-key mp4 format has no URL, the result is nothing, even though a later format has a URL. |
| DownloaderExamples.EqualKeysKeepInputOrder | src/youtube_downloader.py:72-76 | Of two formats with equal keys, the one listed first is chosen. |
| VideoStore.IndexOf | src/models/video.py:34 | Returns the first document with the id. It is `None` exactly when no document has that id. |
| VideoStore.FindByVideoId | src/models/video.py:31-45 | Finds a record exactly when some document has the id. The record found is a stored document with that id. |
| VideoStore.Save | src/models/video.py:13-29 | The saved record is stored, and the collection grows by at most one. Every document with another id is kept. |
| VideoStore.FindAfterSave | src/models/video.py:13-45 | Looking up the saved id returns exactly the saved record. |
| VideoStore.FindOtherAfterSave | src/models/video.py:23-27 | Saving leaves the lookup of every other id unchanged. |
| VideoStore.SecondSaveReplacesFirst | src/models/video.py:23-27 | Two saves under one id leave the same collection as the second save alone, so the last writer wins. |
| VideoStore.SaveKeepsIdsUnique | src/models/video.py:23-27 | The upsert keeps at most one document per `videoId`. |
| VideoStore.SavedCollectionsHaveUniqueIds | src/models/video.py:23-27 | Any sequence of saves keeps at most one document per `videoId`. |
| VideoStore.NeverSavedNotFound | src/models/video.py:34-37 | An id that was absent and never saved is still not found. |
| VideoStore.AsMap | src/models/video.py:31-45 | The map view holds an id exactly when the lookup finds it, and maps it to the record found. |
| VideoStore.SaveIsMapUpdate | src/models/video.py:23-27 | In the map view, `save` is the map update `m[v.videoId := v]`. |
| TextProcessing.Lower | src/utils/text_processing.py:23 | Lower-casing maps each character through the case table and keeps the length. |
| TextProcessing.RemoveSpecial | src/utils/text_processing.py:8 | The result is the input with every character that is neither a word character nor whitespace removed. The kept characters stay in place and in order. |
| TextProcessing.CleanText | src/utils/text_processing.py:3-13 | The output contains only word characters and single spaces. It has no two adjacent spaces and no leading or trailing space. |
| TextProcessing.CleanTextKeepsWordList | src/utils/text_processing.py:8-12 | The whitespace-separated words of `clean_text(x)` are exactly those of `x` with the special characters removed, so every space falls where a whitespace run was. |
| TextProcessing.CleanTextIsJoinedWords | src/utils/text_processing.py:3-13 | `clean_text(x)` is the words of `x`, with the special characters removed, joined by single spaces. |
| TextProcessing.CleanTextIdempotent | src/utils/text_processing.py:3-13 | `clean_text(clean_text(x)) == clean_text(x)`. |
| TextProcessing.CleanTextFixesCleanText | src/utils/text_processing.py:3-13 | A text that is already clean is left unchanged. |
| TextProcessing.CleanTextKeepsWordChars | src/utils/text_processing.py:8-12 | The word characters of the output are exactly those of the input, in order. |
| TextProcessing.CollapseKeepsWords | src/utils/text_processing.py:10 | Collapsing whitespace runs drops no word character. |
| TextProcessing.Words | src/utils/text_processing.py:26 | `split()` yields non-empty words that contain no whitespace. |
| TextProcessing.JoinWordsOfCleanText | src/utils/text_processing.py:23-26 | Joining the words of a clean text with single spaces gives the text back. A non-empty clean text has at least one word. |
| TextProcessing.WordsAreWordChars | src/utils/text_processing.py:8-26 | Every word of a text made of word characters and spaces is made of word characters. |
| TextProcessing.ExtractKeywords | src/utils/text_processing.py:15-31 | Every keyword is longer than two characters and is not a stop word. The keywords are an order-preserving subsequence of the words of `clean_text(lower(text))`, and every such word that qualifies is kept. Each keyword occurs as often as it occurs among those words, so duplicates are kept. |
| TextProcessing.KeywordsAreWordChars | src/utils/text_processing.py:15-31 | Every keyword is made of word characters only. |
| WebhookVerification.VerifyWebhook | src/config.py:32-53 | The result is exactly one of 200, 403 and 400. It is 400 iff the mode or token is missing or empty. It is 200 iff the mode is `subscribe` and the token equals the configured one, with the challenge echoed. Otherwise it is 403. An unset configured token never yields 200. |
| YoutubeApi.FormatResults | src/youtube_api.py:27-39 | A response without `items` gives the empty list. The loop succeeds iff every item has the three keys. On success it gives one summary per item, in order, built from `snippet.title`, `snippet.thumbnails.default.url` and `id.videoId`. |
| YoutubeApi.FormatItems | src/youtube_api.py:28-33 | The loop over the items, with the same one-per-item, in-order projection. |
| Json.ParseSerialize | src/messenger_api.py:97-100 | `json.loads(json.dumps(o)) == o` for every object with string values. |
| Json.Get | src/messenger_api.py:59-60 | `payload.get(key)` is `None` iff the key is absent. Otherwise it is the value of the key's last occurrence. |
| Messenger.Chunks | src/messenger_api.py:200 | There are ceil(len/2000) chunks. Each is non-empty and at most 2000 characters, and all but the last are exactly 2000. Empty text has no chunks, and a short text is a single chunk. |
| MessengerFacts.RefusedChunkStops | src/messenger_api.py:202-216 | When chunk k is the first one refused, its error is raised and exactly k + 1 messages are sent, so the chunks after k are never sent. |
| MessengerFacts.ChunksJoin | src/messenger_api.py:200 | The chunks concatenate to the text. |
| MessengerFacts.ChunkAt | src/messenger_api.py:200 | Chunk k is `text[2000k : min(2000(k+1), len)]`. |
| MessengerFacts.LongTextChunks | src/messenger_api.py:200 | A 4500-character text is sent as chunks of 2000, 2000 and 500 characters. |
| Messenger.SendAll | src/messenger_api.py:202-216 | Messages go out in order. The run raises iff some message is refused. It stops at the first refusal, re-raising its error, so no later message is sent. |
| Messenger.SendText | src/messenger_api.py:192-218 | One text message per chunk, in order. It raises iff some chunk is refused. Then every message before the last one sent was accepted, the last one is the refused one, and its error is the one raised, so no later chunk is sent. Empty text sends nothing. |
| Messenger.SendShortText | src/messenger_api.py:200-213 | A text of 1 to 2000 characters is sent as exactly one message. The run raises iff that message is refused. |
| Messenger.Elements | src/messenger_api.py:83-103 | The carousel has exactly one card per video, in order. |
| Messenger.SendResults | src/messenger_api.py:105-118 | The carousel is sent as a single Send API call. |
| Messenger.ShowResults | src/messenger_api.py:39-45 | A failed search gets the search apology. Otherwise the carousel goes out first. If it is accepted nothing else is sent and nothing is raised. If it is refused, the search apology follows, and the outcome raises exactly as that apology's sending does. |
| Messenger.SearchAndReply | src/messenger_api.py:37-45 | The search is made with the text as typed, before anything is sent. The carousel or the apology then follows, with its error, if any, raised. |
| Messenger.RoutePayload | src/messenger_api.py:55-66 | A payload routes to `Watch` iff it parses and its `action` is `watch_video`, carrying its `videoId`. A missing payload is rejected. |
| Messenger.HandlePostback | src/messenger_api.py:53-66 | `Watch` runs `handle_watch_video`. When that raises, the postback apology is sent right after it, from the state it left; when it does not, its outcome is the result. Another action does nothing at all. A rejected payload gets the apology. The modes are never changed. |
| Messenger.HandleText | src/messenger_api.py:28-50 | `/yt` and `yt/`, after lower-casing, change only the sender's mode and send exactly one acknowledgement, raising iff it is refused. Any other text leaves the state as it was and does something. In YouTube mode it searches for the text as typed, then sends the carousel or the apology, and raises as that does. Otherwise it first asks Mistral, and what follows is exactly the sending of the reply, with its events and its error: the chunks go out in order, and it raises iff a chunk is refused, in which case that chunk is the last one sent. The store is untouched. |
| Messenger.SearchBranch | src/messenger_api.py:37-45 | The YouTube-mode branch leaves the state unchanged, searches for the text as typed, and then shows the outcome: the carousel, or the apology. Its events and error are those of showing it. |
| Messenger.SwitchMode | src/messenger_api.py:31-36 | A mode command sets the sender's mode, and no other sender's, and sends exactly one message, the acknowledgement. It raises iff that message is refused. |
| Messenger.AskMistral | src/messenger_api.py:46-50 | Mistral is asked first and the state is unchanged. What follows is exactly the sending of the reply, with its events and its error: the chunks go out in order, and it raises iff a chunk is refused, in which case that chunk is the last event. |
| MessengerFacts.MistralReplyStops | src/messenger_api.py:46-50 | When chunk k of the Mistral reply is the first one refused, its error is raised and the trace ends with that chunk, so no later chunk is sent. |
| Messenger.MessageBody | src/messenger_api.py:28-69 | A message with a text takes the text branch, even if it also carries a postback. A message with only a postback takes the postback branch. Any other message changes nothing and sends exactly the "text only" reply, raising iff it is refused. |
| Messenger.ErrorReply | src/messenger_api.py:70-75 | The timeout apology is used iff the error mentions a timeout. |
| Messenger.HandleMessage | src/messenger_api.py:17-77 | The outcome is the try body's outcome, plus the matching error reply when the body raises. A mode changes only for the sender, and only on a command. A text never touches the store. |
| Messenger.SendVideo | src/messenger_api.py:168-190 | The video attachment goes out first. The `Titre: <title>` text follows, unless the attachment is refused, in which case its error is raised. |
| Messenger.UploadAndSend | src/messenger_api.py:144-162 | A failed upload gets the upload apology and nothing is saved. An upload result without `secure_url` raises right after the upload, with nothing saved or sent. The store changes only by saving a successful upload's `secure_url` under the id. |
| MessengerFacts.UploadAndSendSaves | src/messenger_api.py:150-162 | A successful upload with a `secure_url` saves the record under the id. The upload and the save are recorded in that order, the video is then sent, and the outcome raises exactly as sending the video does. |
| Messenger.FetchAndSend | src/messenger_api.py:137-149 | A failed download gets the download apology. Otherwise the pipeline goes on to the upload. |
| Messenger.WatchBody | src/messenger_api.py:124-132 | A cache hit with a non-empty URL just sends the cached video. |
| Messenger.HandleWatchVideo | src/messenger_api.py:120-166 | When the body does not raise, its outcome is the result. When it raises, the send-video apology (`SendVideoFailed`) is sent right after its trace, from the state it left, and only a refusal of that apology escapes. |
| MessengerFacts.YouTubeCommand | src/messenger_api.py:29-33 | `/yt` puts the sender, and nobody else, in YouTube mode. It only sends messages: the acknowledgement, and the error reply if that is refused. |
| MessengerFacts.MistralCommand | src/messenger_api.py:34-36 | `yt/` puts the sender back in Mistral mode. It only sends messages: the acknowledgement, and the error reply if that is refused. |
| MessengerFacts.YouTubeModeSearches | src/messenger_api.py:37-45 | In YouTube mode, other text is searched as typed, the world is unchanged, and the carousel or the apology follows. When showing it does not raise, nothing else happens. |
| MessengerFacts.OtherwiseMistralAnswers | src/messenger_api.py:46-50 | Without YouTube mode, Mistral is asked with the text, and a short reply is sent as one message. |
| MessengerFacts.MistralScenario | tests/test_messenger_api.py:60-72 | "Hello, how are you?" from "123" asks Mistral and sends its reply, and does nothing else. |
| MessengerFacts.YouTubeScenario | tests/test_messenger_api.py:74-96 | `/yt`, then "cat videos", gives the acknowledgement, then one search with "cat videos", then one carousel. |
| MessengerFacts.SearchOneResult | src/messenger_api.py:37-42 | In YouTube mode, a search with one complete item sends a one-card carousel built from that item. |
| MessengerFacts.WatchPayloadRoutesBack | src/messenger_api.py:97-100 | The download button's payload routes back to `Watch` with the same video id. |
| MessengerFacts.PostbackWatches | src/messenger_api.py:59-61 | A postback that routes to `Watch(id)` runs `handle_watch_video` for `id`. |
| MessengerFacts.CarouselButtonWatchesVideo | src/messenger_api.py:83-103 | Pressing card i's download button runs `handle_watch_video` for video i. |
| MessengerFacts.OtherActionIgnored | src/messenger_api.py:62-63 | A payload whose action is not `watch_video` sends nothing and changes nothing. |
| MessengerFacts.MalformedPayloadApology | src/messenger_api.py:64-66 | A missing or unparsable payload gets the postback apology first, and changes nothing. |
| MessengerFacts.CacheHit | src/messenger_api.py:126-132 | A cache hit with a non-empty URL sends that URL first. It only sends, and it leaves the store alone. |
| MessengerFacts.MissSaysWaitFirst | src/messenger_api.py:135 | On a miss, the "please wait" text is the first thing sent. |
| MessengerFacts.DownloadFailure | src/messenger_api.py:138-142 | A failed download gets the download apology, with no upload and no save. |
| MessengerFacts.UploadFailure | src/messenger_api.py:145-149 | A failed upload gets the upload apology, with no save. |
| MessengerFacts.UploadSuccess | src/messenger_api.py:151-159 | A successful upload is saved under the requested id with its `secure_url`. |
| MessengerFacts.UploadSuccessTrace | src/messenger_api.py:135-162 | With every message accepted, the user sees the "please wait" text, then the video, then `Titre: <title>`, and nothing raises. |
| MessengerFacts.SecondRequestHitsCache | src/messenger_api.py:126-159 | After a successful pipeline, the next request for the same id is a cache hit that only sends. |
| Webhook.DispatchFor | api/webhook.py:40-61 | An entry makes a call iff its `messaging[0]` has a truthy message or a truthy postback. The message takes priority, and a postback is passed on as `{'postback': …}` with the sender id. |
| Webhook.Dispatches | api/webhook.py:38-65 | There is at most one call per entry, and there are none iff no entry makes one. |
| Webhook.DispatchesOfOne | api/webhook.py:38-65 | A single entry gives its own call, if it makes one, and nothing else. |
| Webhook.DispatchesAppend | api/webhook.py:38 | Entries are dispatched in order: the calls of `a + b` are the calls of `a` followed by those of `b`. |
| Webhook.HandleUpdate | api/webhook.py:36-70 | An object other than `page` gives 404 and no call. `page` gives 200 `EVENT_RECEIVED` and exactly the calls the entries make, in order. |
| Webhook.RunAll | api/webhook.py:50-61 | Every call runs, each from the state the previous one left, even when an earlier one raised. |
| Webhook.Serve | api/webhook.py:28-70 | The response does not depend on what the handlers do. A non-page update changes nothing and sends nothing. A page update runs exactly the entries' calls, in order, each from the state the previous one left. The final state is the last call's, and the trace is their traces concatenated. |
| Webhook.ServeOne | api/webhook.py:38-61 | A page update with one entry answers 200 and runs `handle_message` once for that entry's call, with its state and trace, or runs nothing if the entry makes no call. |
| Webhook.ServeAppend | api/webhook.py:38-67 | Serving the entries `a + b` is serving `a`, then serving `b` from the state `a` left, whatever `a`'s calls raised. The traces follow each other. |

## Left out

- The network and SDK calls are parameters of the model, not part of it: `call_send_api` and its Graph API URL, the Google API client, yt-dlp's `extract_info` and its `ydl_opts`, the Cloudinary upload, Mistral, and Flask's `request` and `Response`.
- The yt-dlp `match_filter` (src/youtube_downloader.py:35) only acts on a real download, which the code never starts.
- src/cloudinary_service.py is not part of this model. It does not define the `upload_video` that src/messenger_api.py imports, so the upload is the parameter `Env.upload`.
- src/mistral_api.py is not part of this model. `generate_mistral_response` is the parameter `Env.mistral`, which never raises.
- src/database.py and src/utils/logger.py are not part of this model. They are connection and logging plumbing, and database errors are not modelled.
- The `createdAt` clock reading that `save` stores is left out.
- `user_states` lives in the memory of one process. The model gives it to each call explicitly, as `World.modes`.
- The Send API is a deterministic function of the message.
- `"timeout" in str(e)` is the boolean `Fault.mentionsTimeout`, because the model has no error texts.
- `\w` and the case mapping of `str.lower` come from the table `CharDb`.
  - `str.lower` maps one character to one character, so lower-casings that change the length are not modelled.
  - `Valid` asks only that no word character be whitespace.
- Whitespace (`\s`, `split()`, `strip()`) is the fixed set of `str.isspace()` characters, `IsSpace`.
- Keys present with a `None` value are not modelled. Examples are a `text` that is `None`, or a yt-dlp `duration` that is `None`. In the source these raise `TypeError` or `AttributeError`, which reach the surrounding `except`. An absent key is modelled.
- Json.Parse only reads objects whose values are strings.
  - Python would also accept other JSON values.
  - A postback payload that is valid JSON of another shape is rejected in the model. In the source it may be processed, or fail later, at `payload.get`.
- Json.Parse refuses a lone surrogate escape, which Python would accept, because a Dafny `char` cannot hold one.
- JSON numbers, nesting and duplicate-key subtleties beyond "the last value wins" are not modelled.
- The Flask error handler that answers 500 (api/webhook.py:72-75) is not modelled, and neither is a body that is not JSON.
- The GET endpoint (api/webhook.py:19-25) only forwards to `verify_webhook`, which WebhookVerification.VerifyWebhook models.
- No size cap is applied while downloading.
- Errors are untyped `Exception`s, so the model's `Fault` carries only whether its text mentions a timeout.
- A failed download sends no fallback link.
- TextProcessing.CollapseSpaces states only what its callers need. That nothing but whitespace is lost is stated separately, by TextProcessing.CollapseKeepsWords.
