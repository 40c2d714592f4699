/**
 * `TelegramStreamer`: the catalog entry built for a media message, and the decisions `stream_file`
 * makes around the download slot and the disk cache.
 */
module Streamer {
  import opened Text
  import opened MediaParser
  import CacheManager
  import opened RateLimiting

  // ---------------------------------------------------------------------------------------------
  // Catalog ids

  /** `f"tg:{type}:{chat_id}:{message_id}"`, which reads back as the type, chat and message. */
  function CatalogId(t: MediaType, chatId: int, messageId: int): (id: string)
    ensures ParseCatalogId(id) == Some((t, chatId, messageId))
  {
    IdFieldsParse(t, chatId, messageId);
    "tg:" + (t.Name() + ":" + (IntToString(chatId) + ":" + IntToString(messageId)))
  }

  /** The three fields of a catalog id are split apart at its colons and parse back. */
  lemma {:induction false} IdFieldsParse(t: MediaType, chatId: int, messageId: int)
    ensures ParseCatalogId("tg:" + (t.Name() + ":" + (IntToString(chatId) + ":" + IntToString(messageId))))
            == Some((t, chatId, messageId))
  {
    var name, c, m := t.Name(), IntToString(chatId), IntToString(messageId);
    var rest := c + ":" + m;
    var id := "tg:" + (name + ":" + rest);
    assert id[..3] == "tg:" && id[3..] == name + ":" + rest;
    assert ':' !in name;
    SplitAtFirstColon(name, rest);
    assert forall k :: 0 <= k < |c| ==> c[k] != ':';
    SplitAtFirstColon(c, m);
    assert ParseMediaType(name) == Some(t);
    IntToStringRoundTrip(chatId);
    IntToStringRoundTrip(messageId);
  }

  /** Splits `s` at its first `:`. */
  function SplitAtColon(s: string): (r: Option<(string, string)>)
    ensures r.Some? ==> s == r.value.0 + ":" + r.value.1 && ':' !in r.value.0
    decreases |s|
  {
    if s == [] then None
    else if s[0] == ':' then
      assert s == [] + ":" + s[1..];
      Some(([], s[1..]))
    else match SplitAtColon(s[1..])
      case None => None
      case Some((a, b)) =>
        assert s == [s[0]] + a + ":" + b;
        Some(([s[0]] + a, b))
  }

  lemma {:induction false} SplitAtFirstColon(a: string, b: string)
    requires ':' !in a
    ensures SplitAtColon(a + ":" + b) == Some((a, b))
    decreases |a|
  {
    var s := a + ":" + b;
    if a == [] {
      assert s[0] == ':' && s[1..] == b;
    } else {
      assert s[0] == a[0] && s[1..] == a[1..] + ":" + b;
      SplitAtFirstColon(a[1..], b);
      assert [a[0]] + a[1..] == a;
    }
  }

  function ParseMediaType(s: string): (t: Option<MediaType>)
    ensures t.Some? ==> t.value.Name() == s
  {
    if s == "movie" then Some(Movie) else if s == "series" then Some(Series) else None
  }

  /** Reads a catalog id back into its media type, chat id and message id. */
  function ParseCatalogId(id: string): Option<(MediaType, int, int)> {
    if |id| < 3 || id[..3] != "tg:" then None
    else match SplitAtColon(id[3..])
      case None => None
      case Some((t, rest)) =>
        match SplitAtColon(rest)
        case None => None
        case Some((c, m)) =>
          match (ParseMediaType(t), ParseInt(c), ParseInt(m))
          case (Some(mt), Some(chat), Some(msg)) => Some((mt, chat, msg))
          case _ => None
  }

  /** Two messages share a catalog id only if they are the same message with the same type. */
  lemma {:induction false} CatalogIdInjective(t1: MediaType, c1: int, m1: int, t2: MediaType, c2: int, m2: int)
    requires CatalogId(t1, c1, m1) == CatalogId(t2, c2, m2)
    ensures t1 == t2 && c1 == c2 && m1 == m2
  {
    assert ParseCatalogId(CatalogId(t1, c1, m1)) == Some((t1, c1, m1));
  }

  // ---------------------------------------------------------------------------------------------
  // Messages

  /** The `file_name` attribute of a document or video: absent, `None`, or a string. */
  datatype FileNameAttr = NoAttribute | NullName | Named(name: string)

  datatype FileObject = FileObject(fileId: string, fileSize: nat, fileName: FileNameAttr)

  datatype Message = Message(id: int, chatId: int, document: Option<FileObject>, video: Option<FileObject>)

  /** `message.document or message.video`. */
  function MediaOf(m: Message): Option<FileObject> {
    if m.document.Some? then m.document else m.video
  }

  /** The row `_process_message` hands to the database (`date_added`, a clock reading, left out). */
  datatype CatalogEntry = CatalogEntry(
    id: string, name: string, year: string, quality: string, mediaType: string, description: string,
    channelId: int, messageId: int, fileId: string, fileSize: nat, originalFilename: string)

  /** `getattr(file_obj, 'file_name', f"file_{message.id}")`, `None` when the name is falsy. */
  function FileNameOf(m: Message, f: FileObject): (name: Option<string>)
    ensures name.Some? ==> name.value != ""
  {
    match f.fileName
    case NoAttribute => Some("file_" + IntToString(m.id))
    case NullName => None
    case Named(n) => if n == "" then None else Some(n)
  }

  /**
   * `_process_message`: the catalog entry for a media message, or nothing when the message has no
   * document or video or its file name is empty or `None`.
   */
  function ProcessMessage(m: Message, currentYear: string): (entry: Option<CatalogEntry>)
    ensures entry.None? <==> MediaOf(m).None? || FileNameOf(m, MediaOf(m).value).None?
    ensures entry.Some? ==>
              var f := MediaOf(m).value;
              var filename := FileNameOf(m, f).value;
              var info := ParseFilename(filename, currentYear);
              && entry.value.name != ""
              && entry.value.name == info.title
              && entry.value.year == info.year
              && entry.value.quality == info.quality
              && entry.value.originalFilename == filename
              && entry.value.description == "Personal media: " + filename
              && entry.value.channelId == m.chatId && entry.value.messageId == m.id
              && entry.value.fileId == f.fileId && entry.value.fileSize == f.fileSize
              && ParseCatalogId(entry.value.id) == Some((DetectMediaType(StripExtension(filename)), m.chatId, m.id))
              && entry.value.mediaType == DetectMediaType(StripExtension(filename)).Name()
  {
    match MediaOf(m)
    case None => None
    case Some(f) =>
      match FileNameOf(m, f)
      case None => None
      case Some(filename) =>
        var info := ParseFilename(filename, currentYear);
        Some(CatalogEntry(
          id := CatalogId(info.mediaType, m.chatId, m.id),
          name := info.title,
          year := info.year,
          quality := info.quality,
          mediaType := info.mediaType.Name(),
          description := "Personal media: " + info.originalFilename,
          channelId := m.chatId,
          messageId := m.id,
          fileId := f.fileId,
          fileSize := f.fileSize,
          originalFilename := info.originalFilename))
  }

  // ---------------------------------------------------------------------------------------------
  // Streaming

  /**
   * `use_cache and file_obj.file_size < Config.MAX_CACHE_SIZE // 2`: with caching on, a file is kept
   * when two copies of it, each one byte longer, still fit in the cache.
   */
  function AdmitsToCache(useCache: bool, fileSize: int, maxCacheSize: int): (admitted: bool)
    ensures admitted <==> useCache && 2 * (fileSize + 1) <= maxCacheSize
  {
    useCache && fileSize < maxCacheSize / 2
  }

  /** Two files the streamer admits to the cache fit in it together: no eviction follows. */
  lemma {:induction false} AdmittedPairFits(a: CacheManager.CacheFile, b: CacheManager.CacheFile, maxCacheSize: int)
    requires AdmitsToCache(true, a.size, maxCacheSize) && AdmitsToCache(true, b.size, maxCacheSize)
    ensures CacheManager.TotalSize([a, b]) <= maxCacheSize
  {
    assert [b][1..] == [];
    assert CacheManager.TotalSize([b]) == b.size;
    assert [a, b][1..] == [b];
    assert CacheManager.TotalSize([a, b]) == a.size + b.size;
    assert 2 * (maxCacheSize / 2) <= maxCacheSize;
  }

  /** Where `stream_file` takes the bytes from. */
  datatype Source = NotFound | FromCache | FromTelegramCaching | FromTelegram

  /**
   * The source `stream_file` picks: the cache only when asked for and the file is there, and a
   * download is kept for the cache only when the file is under half the cache size.
   */
  function StreamSource(media: Option<FileObject>, useCache: bool, cached: bool, maxCacheSize: int): (s: Source)
    ensures s == NotFound <==> media.None?
    ensures s == FromCache <==> media.Some? && useCache && cached
    ensures s == FromTelegramCaching <==> media.Some? && useCache && !cached && media.value.fileSize < maxCacheSize / 2
    ensures s == FromTelegramCaching ==> 2 * media.value.fileSize < maxCacheSize
  {
    if media.None? then NotFound
    else if useCache && cached then FromCache
    else if AdmitsToCache(useCache, media.value.fileSize, maxCacheSize) then FromTelegramCaching
    else FromTelegram
  }

  /**
   * `stream_file` around its download slot, at time `now`, as its `finally` is evidently meant to
   * work. The stream polls once for a slot. With a slot it fetches the message, picks the source
   * and gives the slot back. Without one (`None`) it is cancelled while still waiting, for example
   * because the client went away, and it gives back no slot. Either way the slot count a finished
   * stream leaves behind is the one it found.
   */
  method StreamFile(limiter: RateLimiter, now: int, media: Option<FileObject>, useCache: bool, cached: bool,
                    maxCacheSize: int)
    returns (source: Option<Source>)
    requires limiter.Valid()
    modifies limiter
    ensures limiter.Valid()
    ensures source.None? <==> old(limiter.activeDownloads) >= limiter.maxConcurrentDownloads
    ensures source.Some? ==> source.value == StreamSource(media, useCache, cached, maxCacheSize)
    ensures limiter.activeDownloads == old(limiter.activeDownloads)
    ensures source.Some? ==> limiter.info == old(limiter.info).(lastRequest := now)
    ensures source.None? ==> limiter.info == old(limiter.info)
  {
    var acquired := limiter.AcquireDownloadSlot(now);
    source := if acquired then Some(StreamSource(media, useCache, cached, maxCacheSize)) else None;
    FinishStream(limiter, acquired);
  }

  /** The `finally` of `stream_file` as evidently intended: a slot is given back only if one was taken. */
  method FinishStream(limiter: RateLimiter, holdsSlot: bool)
    requires limiter.Valid()
    modifies limiter
    ensures limiter.Valid()
    ensures limiter.activeDownloads ==
            if holdsSlot && old(limiter.activeDownloads) > 0 then old(limiter.activeDownloads) - 1
            else old(limiter.activeDownloads)
    ensures limiter.info == old(limiter.info)
  {
    if holdsSlot {
      limiter.ReleaseDownloadSlot();
    }
  }

  /**
   * `stream_file` as written: the wait for a slot sits inside the `try`, so a stream cancelled while
   * it still waits (`None`) runs the `finally` and gives back a slot it never took.
   */
  method StreamFileAsWritten(limiter: RateLimiter, now: int, media: Option<FileObject>, useCache: bool,
                             cached: bool, maxCacheSize: int)
    returns (source: Option<Source>)
    requires limiter.Valid()
    modifies limiter
    ensures limiter.Valid()
    ensures source.None? <==> old(limiter.activeDownloads) >= limiter.maxConcurrentDownloads
    ensures source.Some? ==> source.value == StreamSource(media, useCache, cached, maxCacheSize)
    ensures source.Some? ==> limiter.activeDownloads == old(limiter.activeDownloads)
    ensures source.None? ==>
              limiter.activeDownloads == if old(limiter.activeDownloads) > 0 then old(limiter.activeDownloads) - 1 else 0
    ensures source.Some? ==> limiter.info == old(limiter.info).(lastRequest := now)
    ensures source.None? ==> limiter.info == old(limiter.info)
  {
    var acquired := limiter.AcquireDownloadSlot(now);
    source := if acquired then Some(StreamSource(media, useCache, cached, maxCacheSize)) else None;
    limiter.ReleaseDownloadSlot();
  }

  /**
   * One slot (`MAX_CONCURRENT_DOWNLOADS = 1`). Stream A holds it; stream B waits and is cancelled;
   * B's `finally` frees A's slot, so stream C starts beside A: two downloads run, with a count of 1.
   */
  method CancelledWaitAsWritten() returns (limiter: RateLimiter, running: int)
    ensures limiter.maxConcurrentDownloads == 1 && running == 2 && limiter.activeDownloads == 1
  {
    limiter := new RateLimiter(1, 1000);
    var a := limiter.AcquireDownloadSlot(0);
    running := 1;
    var b := StreamFileAsWritten(limiter, 100, None, true, false, 1000);
    assert b.None? && limiter.activeDownloads == 0;
    var c := limiter.AcquireDownloadSlot(2000);
    running := running + (if c then 1 else 0);
  }

  /** The same streams with the `finally` giving back only a slot it took: C keeps waiting. */
  method CancelledWait() returns (limiter: RateLimiter, running: int, cStarts: bool)
    ensures limiter.maxConcurrentDownloads == 1 && running == 1 && limiter.activeDownloads == 1
    ensures !cStarts
  {
    limiter := new RateLimiter(1, 1000);
    var a := limiter.AcquireDownloadSlot(0);
    running := 1;
    var b := StreamFile(limiter, 100, None, true, false, 1000);
    cStarts := limiter.AcquireDownloadSlot(2000);
    running := running + (if cStarts then 1 else 0);
  }
}
