/**
 * The `GtfsFeed` resource: the POST pipeline and its helpers, over the
 * feed table, error-log table and disk it changes, plus the process-wide
 * `GtfsDaoMap` of loaded entity stores.
 */
module GtfsFeed {
  import opened Wrappers
  import opened StreamCopy
  import opened SavePath
  import opened HttpConnection
  import opened FeedSpec

  /** A loaded `GtfsDaoImpl`; its contents are the GTFS reader's concern. */
  datatype EntityStore = EntityStore(handle: nat)

  datatype Status = BadRequest | NotFound

  /** What `postGtfsFeed` answers: the feed, or an error built by `generateError`. */
  datatype Response = Ok(feed: FeedModel) | Error(title: string, message: string, status: Status)

  const MALFORMED_URL := Error("Malformed URL", "Malformed URL for the GTFS feed", BadRequest)
  const CANNOT_READ_URL := Error("Can't read from URL", "Can't read content from the GTFS URL", BadRequest)
  const CANNOT_READ_CONTENT := Error("Can't read content", "Can't read content from the GTFS URL", NotFound)

  /** The save path of `http://example.org/feed.zip` without a Content-Disposition header. */
  lemma ExampleSavePath(saveDir: string)
    ensures SaveFilePath("http://example.org/feed.zip", None, saveDir) == saveDir + "/feed.zip"
  {
    var base, name := "http://example.org", "feed.zip";
    assert "http://example.org/feed.zip" == base + [SEPARATOR] + name;
    FileNameOfUrl(base, name);
    assert [SEPARATOR] + name == "/feed.zip";
  }

  /**
   * `http://example.org/feeds/` without a Content-Disposition header has an
   * empty file name: its save path is the jar folder plus '/', which cannot
   * be opened for writing.
   */
  lemma ExampleFolderSavePath(saveDir: string)
    ensures SaveFilePath("http://example.org/feeds/", None, saveDir) == saveDir + "/"
    ensures !NamesFile(saveDir, SaveFilePath("http://example.org/feeds/", None, saveDir))
  {
    FileNameOfUrl("http://example.org/feeds", "");
    assert "http://example.org/feeds/" == "http://example.org/feeds" + [SEPARATOR] + "";
  }

  /**
   * Every resolution of `http://example.org/feeds/` without the header
   * deletes the row the previous one created and creates one under a new
   * id, since nothing is ever saved for it.
   */
  lemma FolderUrlNeverKept(w: World, found: Option<FeedModel>, transfer: Transfer,
                           found2: Option<FeedModel>, transfer2: Transfer)
    requires var url, saveDir := "http://example.org/feeds/", w.jarFolder;
      && WorldValid(w) && IsLookup(w.feeds, url, found)
      && (found.None? || found.value.feedLocation !in w.disk)
      && IsLookup(Resolve(w, url, found, SaveFilePath(url, None, saveDir), transfer).0.feeds, url, found2)
    ensures var url := "http://example.org/feeds/";
      var path := SaveFilePath(url, None, w.jarFolder);
      var (w1, feed1) := Resolve(w, url, found, path, transfer);
      var (w2, feed2) := Resolve(w1, url, found2, path, transfer2);
      && feed2.feedId != feed1.feedId && feed1.feedId !in w2.feeds && feed2.feedId in w2.feeds
  {
    var url := "http://example.org/feeds/";
    ExampleFolderSavePath(w.jarFolder);
    var path := SaveFilePath(url, None, w.jarFolder);
    ResolveFolderPathNeverKept(w, url, found, path, transfer, found2, path, transfer2);
  }

  /**
   * A first POST of `http://example.org/feed.zip` without a
   * Content-Disposition header: the feed is saved as `feed.zip` in the jar
   * folder under id 1, and a validator finding one bad stop files one
   * error list under iteration id 1 holding that one occurrence.
   */
  lemma FirstPostExample(saveDir: string, disk: map<string, seq<byte>>, chunks: seq<Chunk>,
                         validatorId: ErrorMessage, stop: Occurrence)
    ensures var url := "http://example.org/feed.zip";
      var path := saveDir + "/feed.zip";
      var (w, feed) := Resolve(World(saveDir, map[], 1, map[], disk), url, None, path, Stream(chunks, false));
      && SaveFilePath(url, None, saveDir) == path
      && feed == FeedModel(1, url, path)
      && w.disk[path] == Concat(chunks)
      && Validated(w.errorLogs, feed.feedId, Some(ErrorList(validatorId, [stop])))
         == map[1 := [ErrorList(validatorId.(iterationId := 1), [stop])]]
  {
    ExampleSavePath(saveDir);
    assert |saveDir + "/feed.zip"| != |saveDir + "/"|;
    var stamped := Stamp(ErrorList(validatorId, [stop]), 1);
    assert stamped == ErrorList(validatorId.(iterationId := 1), [stop]);
    assert LogsOf(map[], 1) + [stamped] == [stamped];
  }

  /**
   * As written, `http://a.org/gtfs.zip` and `http://b.org/gtfs.zip` are
   * saved to the same file. After both are downloaded, a new request for
   * the first finds its file present and returns its row, whose file now
   * holds the second feed's bytes.
   */
  lemma SharedFileNameCollision(w: World, chunks1: seq<Chunk>, chunks2: seq<Chunk>,
                                path3: string, transfer3: Transfer)
    requires WorldValid(w) && Concat(chunks1) != Concat(chunks2)
    requires IsLookup(w.feeds, "http://a.org/gtfs.zip", None) && IsLookup(w.feeds, "http://b.org/gtfs.zip", None)
    ensures var url1, url2, saveDir := "http://a.org/gtfs.zip", "http://b.org/gtfs.zip", w.jarFolder;
      var path := SaveFilePath(url1, None, saveDir);
      var (w1, feed1) := Resolve(w, url1, None, path, Stream(chunks1, false));
      var (w2, feed2) := Resolve(w1, url2, None, SaveFilePath(url2, None, saveDir), Stream(chunks2, false));
      var (w3, feed3) := Resolve(w2, url1, FeedByUrl(w2.feeds, url1), path3, transfer3);
      && SaveFilePath(url2, None, saveDir) == path
      && feed3 == feed1 && feed1.feedLocation in w3.disk
      && w3.disk[feed1.feedLocation] == Concat(chunks2) != Concat(chunks1)
  {
    var url1, url2, saveDir := "http://a.org/gtfs.zip", "http://b.org/gtfs.zip", w.jarFolder;
    assert url1 == "http://a.org" + [SEPARATOR] + "gtfs.zip";
    assert url2 == "http://b.org" + [SEPARATOR] + "gtfs.zip";
    SameNameSamePath("http://a.org", "http://b.org", "gtfs.zip", saveDir);
    var path := SaveFilePath(url1, None, saveDir);
    assert NamesFile(saveDir, path) by {
      FileNameOfUrl("http://a.org", "gtfs.zip");
      SavePathNamesFileIffName(url1, None, saveDir);
    }
    ResolveAfterOtherFeed(w, url1, url2, path, path, chunks1, chunks2, path3, transfer3);
  }

  /**
   * With per-URL save paths, downloading another feed never touches a
   * feed's file: the first feed, requested again, still has its own bytes.
   */
  lemma PerFeedPathsKeepContent(w: World, url1: string, url2: string,
                                disposition1: Option<string>, disposition2: Option<string>,
                                chunks1: seq<Chunk>, chunks2: seq<Chunk>, path3: string, transfer3: Transfer)
    requires WorldValid(w) && url1 != url2
    requires DispositionInBounds(disposition1) && DispositionInBounds(disposition2)
    requires IsLookup(w.feeds, url1, None) && IsLookup(w.feeds, url2, None)
    ensures var saveDir := w.jarFolder;
      var (w1, feed1) := Resolve(w, url1, None, PerFeedSaveFilePath(url1, disposition1, saveDir), Stream(chunks1, false));
      var (w2, feed2) := Resolve(w1, url2, None, PerFeedSaveFilePath(url2, disposition2, saveDir), Stream(chunks2, false));
      var (w3, feed3) := Resolve(w2, url1, FeedByUrl(w2.feeds, url1), path3, transfer3);
      feed3 == feed1 && feed1.feedLocation in w3.disk && w3.disk[feed1.feedLocation] == Concat(chunks1)
  {
    var saveDir := w.jarFolder;
    var path1 := PerFeedSaveFilePath(url1, disposition1, saveDir);
    var path2 := PerFeedSaveFilePath(url2, disposition2, saveDir);
    PerFeedPathsDistinct(url1, disposition1, url2, disposition2, saveDir);
    assert |path1| > |saveDir + [SEPARATOR]|;
    ResolveAfterOtherFeed(w, url1, url2, path1, path2, chunks1, chunks2, path3, transfer3);
  }

  class GtfsFeedResource {
    /** The folder holding the running jar, fixed for the process. */
    const saveDir: string
    var feeds: map<int, FeedRow>
    var nextId: int
    var errorLogs: map<int, seq<ErrorList>>
    var disk: map<string, seq<byte>>
    /** `GtfsFeed.GtfsDaoMap`. */
    var gtfsDaoMap: map<int, EntityStore>

    ghost function State(): World
      reads this
    {
      World(saveDir, feeds, nextId, errorLogs, disk)
    }

    ghost predicate Valid()
      reads this
    {
      WorldValid(State())
    }

    /**
     * A process start: the durable database and disk are whatever an
     * earlier run left, while `GtfsDaoMap` starts empty.
     */
    constructor (saveDir: string, feeds: map<int, FeedRow>, nextId: int,
                 errorLogs: map<int, seq<ErrorList>>, disk: map<string, seq<byte>>)
      requires WorldValid(World(saveDir, feeds, nextId, errorLogs, disk))
      ensures Valid() && this.saveDir == saveDir
      ensures this.feeds == feeds && this.nextId == nextId && this.errorLogs == errorLogs
      ensures this.disk == disk && gtfsDaoMap == map[]
    {
      this.saveDir := saveDir;
      this.feeds, this.nextId, this.errorLogs := feeds, nextId, errorLogs;
      this.disk := disk;
      gtfsDaoMap := map[];
    }

    /** `GTFSDB.readGtfsFeed(searchFeed)`: the row whose URL is `url`, or null. */
    method ReadGtfsFeedByUrl(url: string) returns (found: Option<FeedModel>)
      ensures IsLookup(feeds, url, found)
    {
      if id :| id in feeds && feeds[id].gtfsUrl == url {
        found := Some(FeedModel(id, url, feeds[id].feedLocation));
      } else {
        found := None;
      }
    }

    /** `GTFSDB.readGtfsFeed(feedId)`. */
    method ReadGtfsFeed(feedId: int) returns (feed: Option<FeedModel>)
      ensures feedId in feeds ==> feed == Some(FeedModel(feedId, feeds[feedId].gtfsUrl, feeds[feedId].feedLocation))
      ensures feedId !in feeds ==> feed == None
    {
      if feedId in feeds {
        feed := Some(FeedModel(feedId, feeds[feedId].gtfsUrl, feeds[feedId].feedLocation));
      } else {
        feed := None;
      }
    }

    /** `GTFSDB.createGtfsFeed`: a new row under the next id, which is returned. */
    method CreateGtfsFeed(url: string, location: string) returns (feedId: int)
      modifies this`feeds, this`nextId
      ensures feedId == old(nextId) && nextId == old(nextId) + 1
      ensures feeds == old(feeds)[feedId := FeedRow(url, location)]
    {
      feedId := nextId;
      feeds := feeds[feedId := FeedRow(url, location)];
      nextId := nextId + 1;
    }

    /** `GTFSDB.deleteGtfsFeed`. */
    method DeleteGtfsFeed(feedId: int)
      modifies this`feeds
      ensures feeds == old(feeds) - {feedId}
    {
      feeds := feeds - {feedId};
    }

    /** `GTFSDB.deleteGtfsMessageLogByFeed`. */
    method DeleteGtfsMessageLogByFeed(feedId: int)
      modifies this`errorLogs
      ensures errorLogs == old(errorLogs) - {feedId}
    {
      errorLogs := errorLogs - {feedId};
    }

    /** `DBHelper.saveGtfsError`. */
    method SaveGtfsError(errorList: ErrorList)
      modifies this`errorLogs
      ensures errorLogs == SaveError(old(errorLogs), errorList)
    {
      var id := errorList.errorMessage.iterationId;
      errorLogs := errorLogs[id := LogsOf(errorLogs, id) + [errorList]];
    }

    /**
     * `downloadGtfsFeed`: copy the response body into the file at `path`.
     * The input stream is opened first, then the output file; when either
     * fails to open nothing is written. A stream interrupted midway leaves
     * the bytes read so far. Every exception is swallowed.
     */
    method DownloadGtfsFeed(path: string, transfer: Transfer)
      modifies this`disk
      ensures disk == Downloaded(old(disk), saveDir, path, transfer)
    {
      match transfer
      case NoStream =>
      case Stream(chunks, _) =>
        if NamesFile(saveDir, path) {
          var bytes := CopyStream(chunks);
          disk := disk[path := bytes];
        }
    }

    /** `getGtfsFeedModel(gtfsFeedUrl, saveFilePath)`: create the row and read it back by its new id. */
    method GetNewGtfsFeedModel(url: string, path: string) returns (feed: FeedModel)
      modifies this`feeds, this`nextId
      ensures (State(), feed) == CreateFeed(old(State()), url, path)
    {
      var feedId := CreateGtfsFeed(url, path);
      var readBack := ReadGtfsFeed(feedId);
      feed := readBack.value;
    }

    /** `getGtfsFeedModel(gtfsFeedUrl, gtfsFeed, saveFilePath, connection)`, with `found` the row looked up by URL. */
    method GetGtfsFeedModel(url: string, found: Option<FeedModel>, path: string, transfer: Transfer) returns (feed: FeedModel)
      requires Valid() && IsLookup(feeds, url, found)
      modifies this`feeds, this`nextId, this`errorLogs, this`disk
      ensures Valid()
      ensures (State(), feed) == Resolve(old(State()), url, found, path, transfer)
    {
      ResolvePreservesValid(State(), url, found, path, transfer);
      if found.Some? {
        feed := found.value;
        DeleteGtfsMessageLogByFeed(feed.feedId);
        if feed.feedLocation !in disk {
          DeleteGtfsFeed(feed.feedId);
          DownloadGtfsFeed(path, transfer);
          feed := GetNewGtfsFeedModel(url, path);
        }
      } else {
        DownloadGtfsFeed(path, transfer);
        feed := GetNewGtfsFeedModel(url, path);
      }
    }

    /** `validateGtfsError`: stamp a non-empty error list with the feed id and save it. */
    method ValidateGtfsError(gtfsId: int, validatorResult: Option<ErrorList>)
      modifies this`errorLogs
      ensures errorLogs == Validated(old(errorLogs), gtfsId, validatorResult)
    {
      if validatorResult.Some? && |validatorResult.value.occurrenceList| > 0 {
        var errorList := Stamp(validatorResult.value, gtfsId);
        SaveGtfsError(errorList);
      }
    }

    /**
     * `saveGtfsFeed`: load the feed's file, then run the stop location-type
     * validator on it. `loaded` is what the GTFS reader produced (None: it
     * threw); `validatorResult` is what the validator returned.
     */
    method SaveGtfsFeed(feed: FeedModel, loaded: Option<EntityStore>, validatorResult: Option<ErrorList>)
      returns (store: Option<EntityStore>)
      modifies this`errorLogs
      ensures store == loaded
      ensures errorLogs == if loaded.Some? then Validated(old(errorLogs), feed.feedId, validatorResult) else old(errorLogs)
    {
      if loaded.None? {
        return None;
      }
      ValidateGtfsError(feed.feedId, validatorResult);
      store := loaded;
    }

    /**
     * `postGtfsFeed`. `urlWellFormed` says whether `new URL(gtfsFeedUrl)`
     * succeeds and `connection` is what `getHttpURLConnection` returned.
     * The early returns come in source order and change nothing; past
     * them the feed is resolved, then loaded, and only a successful load
     * is registered in `GtfsDaoMap`.
     */
    method PostGtfsFeed(gtfsFeedUrl: string, urlWellFormed: bool, connection: Option<Connection>,
                        loaded: Option<EntityStore>, validatorResult: Option<ErrorList>)
      returns (response: Response)
      requires Valid()
      requires connection.Some? ==> DispositionInBounds(connection.value.disposition)
      modifies this`feeds, this`nextId, this`errorLogs, this`disk, this`gtfsDaoMap
      ensures Valid()
      ensures !urlWellFormed ==> response == MALFORMED_URL && unchanged(this)
      ensures urlWellFormed && connection.None? ==> response == CANNOT_READ_URL && unchanged(this)
      ensures urlWellFormed && connection.Some? ==>
        var path := SaveFilePath(gtfsFeedUrl, connection.value.disposition, saveDir);
        var (w, feed) := Resolve(old(State()), gtfsFeedUrl, FeedByUrl(old(feeds), gtfsFeedUrl), path, connection.value.body);
        && feeds == w.feeds && nextId == w.nextId && disk == w.disk
        && (loaded.None? ==>
              response == CANNOT_READ_CONTENT && errorLogs == w.errorLogs && gtfsDaoMap == old(gtfsDaoMap))
        && (loaded.Some? ==>
              && response == Ok(feed)
              && errorLogs == Validated(w.errorLogs, feed.feedId, validatorResult)
              && gtfsDaoMap == old(gtfsDaoMap)[feed.feedId := loaded.value])
    {
      if !urlWellFormed {
        return MALFORMED_URL;
      }
      if connection.None? {
        return CANNOT_READ_URL;
      }
      var saveFilePath := SaveFilePath(gtfsFeedUrl, connection.value.disposition, saveDir);
      var gtfsFeed := ReadGtfsFeedByUrl(gtfsFeedUrl);
      LookupUnique(feeds, gtfsFeedUrl, gtfsFeed, FeedByUrl(feeds, gtfsFeedUrl));
      var feed := GetGtfsFeedModel(gtfsFeedUrl, gtfsFeed, saveFilePath, connection.value.body);
      var store := SaveGtfsFeed(feed, loaded, validatorResult);
      if store.None? {
        return CANNOT_READ_CONTENT;
      }
      gtfsDaoMap := gtfsDaoMap[feed.feedId := store.value];
      response := Ok(feed);
    }
  }
}
