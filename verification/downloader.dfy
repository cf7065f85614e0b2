/** The constraint gate and format choice of `download_youtube_video`
    (src/youtube_downloader.py). The yt-dlp metadata record is an input; the
    extraction itself is done by the caller. */
module Downloader {
  import opened Wrappers
  import Seqs

  /** Default caps of `download_youtube_video`: one minute and 8 MiB. */
  const DefaultMaxDuration: int := 60
  const DefaultMaxFilesize: int := 8 * 1024 * 1024

  /** Title used when the metadata has no `title` key. */
  const UntitledTitle: string := "Video sans titre"

  /** One entry of yt-dlp's `formats` list; `None` stands for an absent key. */
  datatype Format = Format(ext: Option<string>, filesize: Option<int>, height: Option<int>, url: Option<string>)

  /** The metadata returned by `extract_info(..., download=False)`. */
  datatype Info = Info(duration: Option<int>, filesize: Option<int>, title: Option<string>, formats: Option<seq<Format>>)

  /** The successful result: a direct media URL and the title. */
  datatype Download = Download(url: string, title: string)

  predicate IsMp4(f: Format) {
    f.ext == Some("mp4")
  }

  /** The sort key: the reported byte size when positive, the pixel height
      otherwise. Bytes and pixels share one scale, exactly as in the source. */
  function SortKey(f: Format): int {
    var size := f.filesize.GetOr(0);
    if size > 0 then size else f.height.GetOr(0)
  }

  function Mp4Formats(fs: seq<Format>): seq<Format> {
    Seqs.Filter(IsMp4, fs)
  }

  /** Keys never decrease from one element to the next. */
  ghost predicate SortedByKey(s: seq<Format>) {
    forall i :: 0 < i < |s| ==> SortKey(s[i - 1]) <= SortKey(s[i])
  }

  /** Inserts `f` in front of the first element whose key is not smaller, so
      that `f`, which came earlier in the input, stays ahead of equal keys. */
  function Insert(f: Format, sorted: seq<Format>): (r: seq<Format>)
    ensures multiset(r) == multiset(sorted) + multiset{f}
    ensures |r| == |sorted| + 1
    ensures r[0] == f || (|sorted| > 0 && r[0] == sorted[0])
  {
    if |sorted| == 0 || SortKey(f) <= SortKey(sorted[0]) then [f] + sorted
    else
      assert sorted == [sorted[0]] + sorted[1..];
      [sorted[0]] + Insert(f, sorted[1..])
  }

  /** Inserting into a sorted sequence keeps it sorted. */
  lemma {:induction false} InsertSorted(f: Format, sorted: seq<Format>)
    requires SortedByKey(sorted)
    ensures SortedByKey(Insert(f, sorted))
  {
    var r := Insert(f, sorted);
    if |sorted| == 0 || SortKey(f) <= SortKey(sorted[0]) {
      forall i | 0 < i < |r|
        ensures SortKey(r[i - 1]) <= SortKey(r[i])
      {
        if i > 1 {
          assert r[i - 1] == sorted[i - 2] && r[i] == sorted[i - 1];
        }
      }
    } else {
      var tail := sorted[1..];
      assert SortedByKey(tail) by {
        forall i | 0 < i < |tail|
          ensures SortKey(tail[i - 1]) <= SortKey(tail[i])
        {
          assert tail[i - 1] == sorted[i] && tail[i] == sorted[i + 1];
        }
      }
      InsertSorted(f, tail);
      var rest := Insert(f, tail);
      assert r == [sorted[0]] + rest;
      forall i | 0 < i < |r|
        ensures SortKey(r[i - 1]) <= SortKey(r[i])
      {
        if i > 1 {
          assert r[i - 1] == rest[i - 2] && r[i] == rest[i - 1];
        } else if rest[0] != f {
          assert rest[0] == sorted[1];
        }
      }
    }
  }

  /** Python's stable `sorted(fs, key=SortKey)`, as an insertion sort. */
  function SortByKey(fs: seq<Format>): (r: seq<Format>)
    ensures multiset(r) == multiset(fs)
    ensures |r| == |fs|
    ensures SortedByKey(r)
  {
    if |fs| == 0 then []
    else
      assert fs == [fs[0]] + fs[1..];
      InsertSorted(fs[0], SortByKey(fs[1..]));
      Insert(fs[0], SortByKey(fs[1..]))
  }

  /** Format `p` of `fs` is the one a stable sort of the mp4 formats by key puts
      first: an mp4 format of least key, and strictly smaller than every mp4
      format before it. */
  ghost predicate ChosenAt(fs: seq<Format>, p: int) {
    && 0 <= p < |fs|
    && IsMp4(fs[p])
    && (forall j :: 0 <= j < |fs| && IsMp4(fs[j]) ==> SortKey(fs[p]) <= SortKey(fs[j]))
    && (forall j :: 0 <= j < p && IsMp4(fs[j]) ==> SortKey(fs[p]) < SortKey(fs[j]))
  }

  /** Reference selection, written without sorting: the index of the earliest
      mp4 format of least key, if any. */
  function BestMp4(fs: seq<Format>): (r: Option<nat>)
    ensures r.Some? ==> ChosenAt(fs, r.value)
    ensures r.None? <==> forall j :: 0 <= j < |fs| ==> !IsMp4(fs[j])
  {
    if |fs| == 0 then None
    else
      match BestMp4(fs[1..])
      case None => if IsMp4(fs[0]) then Some(0) else None
      case Some(k) =>
        if IsMp4(fs[0]) && SortKey(fs[0]) <= SortKey(fs[k + 1]) then Some(0) else Some(k + 1)
  }

  /** The head of the sorted mp4 list is the reference choice. */
  lemma {:induction false} SortedHeadIsBest(fs: seq<Format>)
    requires |Mp4Formats(fs)| > 0
    ensures BestMp4(fs).Some?
    ensures SortByKey(Mp4Formats(fs))[0] == fs[BestMp4(fs).value]
  {
    var rest := fs[1..];
    if !IsMp4(fs[0]) {
      assert Mp4Formats(fs) == Mp4Formats(rest);
      SortedHeadIsBest(rest);
    } else if |Mp4Formats(rest)| == 0 {
      assert Mp4Formats(fs) == [fs[0]];
    } else {
      assert Mp4Formats(fs) == [fs[0]] + Mp4Formats(rest);
      assert Mp4Formats(fs)[1..] == Mp4Formats(rest);
      SortedHeadIsBest(rest);
    }
  }

  /** The duration and advertised-size gate: a missing duration counts as 0,
      and the size only counts when positive. */
  predicate WithinCaps(info: Info, maxDuration: int, maxFilesize: int) {
    var size := info.filesize.GetOr(0);
    info.duration.GetOr(0) <= maxDuration && !(size > maxFilesize && size > 0)
  }

  /** `download_youtube_video` once the metadata is known: `None` is the
      source's `(None, None)`. */
  function DownloadVideo(info: Info, maxDuration: int, maxFilesize: int): (r: Option<Download>)
    ensures info.duration.GetOr(0) > maxDuration ==> r.None?
    ensures 0 < info.filesize.GetOr(0) && maxFilesize < info.filesize.GetOr(0) ==> r.None?
    ensures (forall j :: 0 <= j < |info.formats.GetOr([])| ==> !IsMp4(info.formats.GetOr([])[j])) ==> r.None?
    ensures r.Some? <==>
      && WithinCaps(info, maxDuration, maxFilesize)
      && BestMp4(info.formats.GetOr([])).Some?
      && Truthy(info.formats.GetOr([])[BestMp4(info.formats.GetOr([])).value].url)
    ensures r.Some? ==>
      var fs := info.formats.GetOr([]);
      && ChosenAt(fs, BestMp4(fs).value)
      && fs[BestMp4(fs).value].url == Some(r.value.url)
      && |r.value.url| > 0
      && r.value.title == info.title.GetOr(UntitledTitle)
  {
    var duration := info.duration.GetOr(0);
    if duration > maxDuration then None
    else
      var filesize := info.filesize.GetOr(0);
      if filesize > maxFilesize && filesize > 0 then None
      else
        var title := info.title.GetOr(UntitledTitle);
        var formats := info.formats.GetOr([]);
        if |formats| == 0 then None
        else
          var mp4 := Mp4Formats(formats);
          if |mp4| == 0 then None
          else
            SortedHeadIsBest(formats);
            var directUrl := SortByKey(mp4)[0].url;
            if Truthy(directUrl) then Some(Download(directUrl.value, title)) else None
  }
}
