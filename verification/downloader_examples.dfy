/** Worked instances of the format choice in src/youtube_downloader.py. */
module DownloaderExamples {
  import opened Wrappers
  import opened Downloader

  /** A 45-second item whose only size-known variant is over the byte cap: the
      size-unknown 360p variant is chosen, its key being 360. */
  lemma UnknownSizeVariantChosen()
    ensures DownloadVideo(
              Info(Some(45), None, Some("clip"), Some([
                Format(Some("mp4"), Some(0), Some(360), Some("low")),
                Format(Some("mp4"), Some(9000000), Some(720), Some("high"))])),
              60, 8000000)
            == Some(Download("low", "clip"))
  {
    var fs := [Format(Some("mp4"), Some(0), Some(360), Some("low")),
               Format(Some("mp4"), Some(9000000), Some(720), Some("high"))];
    assert fs[1..][1..] == [];
    assert BestMp4(fs[1..]) == Some(0);
    assert BestMp4(fs) == Some(0);
  }

  /** Bytes and pixels on one scale: a 100 kB 144p variant loses to a 1080p
      variant of unknown size, because 1080 < 100000. */
  lemma MixedKeyPrefersUnknownSize()
    ensures DownloadVideo(
              Info(Some(30), None, Some("clip"), Some([
                Format(Some("mp4"), Some(100000), Some(144), Some("small")),
                Format(Some("mp4"), None, Some(1080), Some("hd"))])),
              DefaultMaxDuration, DefaultMaxFilesize)
            == Some(Download("hd", "clip"))
  {
    var fs := [Format(Some("mp4"), Some(100000), Some(144), Some("small")),
               Format(Some("mp4"), None, Some(1080), Some("hd"))];
    assert fs[1..][1..] == [];
    assert BestMp4(fs[1..]) == Some(0);
    assert BestMp4(fs) == Some(1);
  }

  /** The per-format size is never held against the cap: a 50 MB variant is
      returned when the item itself advertises no size. */
  lemma FormatSizeNotCapped()
    ensures DownloadVideo(
              Info(None, None, None, Some([Format(Some("mp4"), Some(50000000), Some(240), Some("big"))])),
              DefaultMaxDuration, DefaultMaxFilesize)
            == Some(Download("big", UntitledTitle))
  {
    var fs := [Format(Some("mp4"), Some(50000000), Some(240), Some("big"))];
    assert fs[1..] == [];
    assert BestMp4(fs) == Some(0);
  }

  /** When the least-key variant has no URL the next one is not tried. */
  lemma NoFallbackToNextFormat()
    ensures DownloadVideo(
              Info(Some(10), None, Some("clip"), Some([
                Format(Some("webm"), Some(5), Some(144), Some("webm-url")),
                Format(Some("mp4"), Some(10), Some(144), None),
                Format(Some("mp4"), Some(20), Some(240), Some("next"))])),
              DefaultMaxDuration, DefaultMaxFilesize)
            == None
  {
    var fs := [Format(Some("webm"), Some(5), Some(144), Some("webm-url")),
               Format(Some("mp4"), Some(10), Some(144), None),
               Format(Some("mp4"), Some(20), Some(240), Some("next"))];
    assert fs[1..][1..][1..] == [];
    assert BestMp4(fs[1..][1..]) == Some(0);
    assert BestMp4(fs[1..]) == Some(0);
    assert BestMp4(fs) == Some(1);
  }

  /** Equal keys: the variant listed first wins. */
  lemma EqualKeysKeepInputOrder()
    ensures DownloadVideo(
              Info(Some(10), None, Some("clip"), Some([
                Format(Some("mp4"), None, Some(360), Some("first")),
                Format(Some("mp4"), Some(360), Some(720), Some("second"))])),
              DefaultMaxDuration, DefaultMaxFilesize)
            == Some(Download("first", "clip"))
  {
    var fs := [Format(Some("mp4"), None, Some(360), Some("first")),
               Format(Some("mp4"), Some(360), Some(720), Some("second"))];
    assert fs[1..][1..] == [];
    assert BestMp4(fs[1..]) == Some(0);
    assert BestMp4(fs) == Some(0);
  }
}
