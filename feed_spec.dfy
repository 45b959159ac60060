/**
 * The state `postGtfsFeed` works on and what its steps do to it, as values:
 * the feed table (GTFSDB's feed rows), the error-log table, the files on
 * disk, and the three-case resolution of `getGtfsFeedModel`. The class in
 * GtfsFeed is proved to follow these functions; the lemmas here say what
 * they promise.
 */
module FeedSpec {
  import opened Wrappers
  import opened StreamCopy
  import opened SavePath

  /** A feed row as GTFSDB stores it under its feed id. */
  datatype FeedRow = FeedRow(gtfsUrl: string, feedLocation: string)

  /** `GtfsFeedModel`: a feed row together with its id. */
  datatype FeedModel = FeedModel(feedId: int, gtfsUrl: string, feedLocation: string)

  /** The message part of an error list; `iterationId` is the feed it is filed under. */
  datatype ErrorMessage = ErrorMessage(iterationId: int, errorId: string)

  /** One rule violation found by a validator. */
  datatype Occurrence = Occurrence(elementId: string, elementValue: string)

  /** `ErrorListHelperModel`: what one validator found, in discovery order. */
  datatype ErrorList = ErrorList(errorMessage: ErrorMessage, occurrenceList: seq<Occurrence>)

  /**
   * The persistent state: the jar folder feeds are saved in, feed rows by
   * id and the next id GTFSDB hands out, error lists by feed id, and the
   * disk as the contents of every existing regular file (its keys are the
   * paths for which `exists() && !isDirectory()`).
   */
  datatype World = World(
    jarFolder: string,
    feeds: map<int, FeedRow>,
    nextId: int,
    errorLogs: map<int, seq<ErrorList>>,
    disk: map<string, seq<byte>>)

  /**
   * Feed ids are below the next id to hand out, no two rows share a URL,
   * and the jar folder is not among the files on disk.
   */
  predicate WorldValid(w: World)
  {
    && (forall id :: id in w.feeds ==> id < w.nextId)
    && (forall i, j :: i in w.feeds && j in w.feeds && w.feeds[i].gtfsUrl == w.feeds[j].gtfsUrl ==> i == j)
    && w.jarFolder + [SEPARATOR] !in w.disk
  }

  /** `found` is what `GTFSDB.readGtfsFeed(searchFeed)` gives for `url`: the row with that URL, or null. */
  predicate IsLookup(feeds: map<int, FeedRow>, url: string, found: Option<FeedModel>)
  {
    match found
    case None => forall id :: id in feeds ==> feeds[id].gtfsUrl != url
    case Some(f) => f.gtfsUrl == url && f.feedId in feeds && feeds[f.feedId] == FeedRow(url, f.feedLocation)
  }

  /** In a valid table a URL has one lookup result. */
  lemma LookupUnique(feeds: map<int, FeedRow>, url: string, a: Option<FeedModel>, b: Option<FeedModel>)
    requires forall i, j :: i in feeds && j in feeds && feeds[i].gtfsUrl == feeds[j].gtfsUrl ==> i == j
    requires IsLookup(feeds, url, a) && IsLookup(feeds, url, b)
    ensures a == b
  {
  }

  /** The lookup result for `url`, chosen among the rows that have it. */
  ghost function FeedByUrl(feeds: map<int, FeedRow>, url: string): (found: Option<FeedModel>)
    ensures IsLookup(feeds, url, found)
  {
    if exists id :: id in feeds && feeds[id].gtfsUrl == url then
      var id :| id in feeds && feeds[id].gtfsUrl == url;
      Some(FeedModel(id, url, feeds[id].feedLocation))
    else
      None
  }

  /**
   * `downloadGtfsFeed`: the file at `path` is (re)written with the bytes
   * read. Nothing is written when no input stream opens, nor when the
   * output file cannot be opened because `path` is the jar folder.
   */
  function Downloaded(disk: map<string, seq<byte>>, jarFolder: string, path: string, transfer: Transfer): map<string, seq<byte>>
  {
    match transfer
    case NoStream => disk
    case Stream(chunks, _) => if NamesFile(jarFolder, path) then disk[path := Concat(chunks)] else disk
  }

  /** `getGtfsFeedModel(url, saveFilePath)`: create a row, then read it back by the id GTFSDB assigned. */
  function CreateFeed(w: World, url: string, path: string): (World, FeedModel)
  {
    (w.(feeds := w.feeds[w.nextId := FeedRow(url, path)], nextId := w.nextId + 1),
     FeedModel(w.nextId, url, path))
  }

  /**
   * `getGtfsFeedModel(url, gtfsFeed, saveFilePath, connection)`, where `found`
   * is the row looked up by URL. A known feed always loses its error logs;
   * it is kept when its file exists, otherwise its row is deleted, the feed
   * downloaded and a new row created. An unknown feed is downloaded and
   * gets a new row.
   */
  function Resolve(w: World, url: string, found: Option<FeedModel>, path: string, transfer: Transfer): (World, FeedModel)
  {
    match found
    case None =>
      CreateFeed(w.(disk := Downloaded(w.disk, w.jarFolder, path, transfer)), url, path)
    case Some(f) =>
      var cleared := w.(errorLogs := w.errorLogs - {f.feedId});
      if f.feedLocation in w.disk then
        (cleared, f)
      else
        CreateFeed(cleared.(feeds := w.feeds - {f.feedId}, disk := Downloaded(w.disk, w.jarFolder, path, transfer)), url, path)
  }

  /** Unknown URL: download, then exactly one new row (url, path) under a fresh id; nothing deleted. */
  lemma ResolveUnknown(w: World, url: string, path: string, transfer: Transfer)
    requires WorldValid(w) && IsLookup(w.feeds, url, None)
    ensures var (w', feed) := Resolve(w, url, None, path, transfer);
      && feed == FeedModel(w.nextId, url, path)
      && feed.feedId !in w.feeds
      && w'.feeds == w.feeds[feed.feedId := FeedRow(url, path)]
      && w.feeds.Keys < w'.feeds.Keys && |w'.feeds| == |w.feeds| + 1
      && w'.nextId == w.nextId + 1
      && w'.errorLogs == w.errorLogs
      && w'.disk == Downloaded(w.disk, w.jarFolder, path, transfer)
  {
  }

  /** Known URL whose file exists: the same row comes back, tables and disk untouched except its error logs. */
  lemma ResolveKnownPresent(w: World, url: string, f: FeedModel, path: string, transfer: Transfer)
    requires IsLookup(w.feeds, url, Some(f)) && f.feedLocation in w.disk
    ensures var (w', feed) := Resolve(w, url, Some(f), path, transfer);
      && feed == f
      && w'.feeds == w.feeds && w'.nextId == w.nextId && w'.disk == w.disk
      && w'.errorLogs == w.errorLogs - {f.feedId}
  {
  }

  /**
   * Known URL whose file is missing: the old row and its error logs are
   * deleted, the feed downloaded, and exactly one new row (url, path)
   * created under a fresh id, which is the row returned.
   */
  lemma ResolveKnownMissing(w: World, url: string, f: FeedModel, path: string, transfer: Transfer)
    requires WorldValid(w) && IsLookup(w.feeds, url, Some(f)) && f.feedLocation !in w.disk
    ensures var (w', feed) := Resolve(w, url, Some(f), path, transfer);
      && feed == FeedModel(w.nextId, url, path)
      && feed.feedId != f.feedId && feed.feedId !in w.feeds
      && f.feedId !in w'.feeds && f.feedId !in w'.errorLogs
      && w'.feeds == (w.feeds - {f.feedId})[feed.feedId := FeedRow(url, path)]
      && |w'.feeds| == |w.feeds|
      && w'.nextId == w.nextId + 1
      && w'.errorLogs == w.errorLogs - {f.feedId}
      && w'.disk == Downloaded(w.disk, w.jarFolder, path, transfer)
  {
  }

  /**
   * Resolution keeps ids fresh, URLs unique and the jar folder off the
   * disk, and afterwards the URL looks up the returned row.
   */
  lemma ResolvePreservesValid(w: World, url: string, found: Option<FeedModel>, path: string, transfer: Transfer)
    requires WorldValid(w) && IsLookup(w.feeds, url, found)
    ensures var (w', feed) := Resolve(w, url, found, path, transfer);
      WorldValid(w') && IsLookup(w'.feeds, url, Some(feed)) && feed.gtfsUrl == url
  {
  }

  /**
   * A feed resolved with a completed download gets a row pointing at the
   * save path. When that is not the jar folder, the file holds exactly the
   * bytes the server sent; otherwise nothing is written.
   */
  lemma ResolveDownloadsContent(w: World, url: string, found: Option<FeedModel>, path: string, chunks: seq<Chunk>)
    requires IsLookup(w.feeds, url, found)
    requires found.None? || found.value.feedLocation !in w.disk
    ensures var (w', feed) := Resolve(w, url, found, path, Stream(chunks, false));
      && feed.feedLocation == path
      && (NamesFile(w.jarFolder, path) ==> path in w'.disk && w'.disk[path] == Concat(chunks))
      && (!NamesFile(w.jarFolder, path) ==> w'.disk == w.disk)
  {
  }

  /**
   * Idempotence: resolving the same URL again, right after a resolution
   * that left its file on disk, returns the same row, downloads nothing and
   * changes no row; only that feed's error logs are cleared again.
   */
  lemma {:induction false} ResolveTwice(w: World, url: string, found: Option<FeedModel>, path: string, transfer: Transfer,
                                        found2: Option<FeedModel>, path2: string, transfer2: Transfer)
    requires WorldValid(w) && IsLookup(w.feeds, url, found)
    requires var (w1, feed1) := Resolve(w, url, found, path, transfer);
      feed1.feedLocation in w1.disk && IsLookup(w1.feeds, url, found2)
    ensures var (w1, feed1) := Resolve(w, url, found, path, transfer);
      Resolve(w1, url, found2, path2, transfer2) == (w1.(errorLogs := w1.errorLogs - {feed1.feedId}), feed1)
  {
    var (w1, feed1) := Resolve(w, url, found, path, transfer);
    ResolvePreservesValid(w, url, found, path, transfer);
    LookupUnique(w1.feeds, url, found2, Some(feed1));
  }

  /**
   * Self-healing: a known feed whose file vanished comes back under a new
   * id, with the new content on disk unless the save path is the jar folder.
   */
  lemma ResolveSelfHeals(w: World, url: string, f: FeedModel, path: string, chunks: seq<Chunk>)
    requires WorldValid(w) && IsLookup(w.feeds, url, Some(f)) && f.feedLocation !in w.disk
    ensures var (w', feed) := Resolve(w, url, Some(f), path, Stream(chunks, false));
      && feed.feedId != f.feedId && f.feedId !in w'.feeds
      && (NamesFile(w.jarFolder, path) ==> feed.feedLocation in w'.disk && w'.disk[feed.feedLocation] == Concat(chunks))
  {
  }

  /**
   * A feed saved to the jar folder itself (an empty file name) is never
   * found on disk: the next resolution of its URL deletes its row again and
   * creates another under a fresh id, and so on for every request.
   */
  lemma {:induction false} ResolveFolderPathNeverKept(w: World, url: string, found: Option<FeedModel>, path: string,
                                                      transfer: Transfer, found2: Option<FeedModel>, path2: string,
                                                      transfer2: Transfer)
    requires WorldValid(w) && IsLookup(w.feeds, url, found) && !NamesFile(w.jarFolder, path)
    requires found.None? || found.value.feedLocation !in w.disk
    requires IsLookup(Resolve(w, url, found, path, transfer).0.feeds, url, found2)
    ensures var (w1, feed1) := Resolve(w, url, found, path, transfer);
      var (w2, feed2) := Resolve(w1, url, found2, path2, transfer2);
      && feed1.feedLocation == path && path !in w1.disk
      && feed2.feedId == w1.nextId && feed2.feedId != feed1.feedId
      && feed1.feedId !in w2.feeds && feed2.feedId in w2.feeds
  {
    var (w1, feed1) := Resolve(w, url, found, path, transfer);
    ResolvePreservesValid(w, url, found, path, transfer);
    LookupUnique(w1.feeds, url, found2, Some(feed1));
  }

  /**
   * Two new feeds downloaded one after the other, then the first requested
   * again. Unless the first path is the jar folder, its row comes back
   * unchanged, and its file holds the second feed's bytes when both were
   * saved to the same path, its own otherwise.
   */
  lemma {:induction false} ResolveAfterOtherFeed(w: World, url1: string, url2: string, path1: string, path2: string,
                                                 chunks1: seq<Chunk>, chunks2: seq<Chunk>, path3: string, transfer3: Transfer)
    requires WorldValid(w) && url1 != url2
    requires IsLookup(w.feeds, url1, None) && IsLookup(w.feeds, url2, None)
    ensures var (w1, feed1) := Resolve(w, url1, None, path1, Stream(chunks1, false));
      var (w2, feed2) := Resolve(w1, url2, None, path2, Stream(chunks2, false));
      var (w3, feed3) := Resolve(w2, url1, FeedByUrl(w2.feeds, url1), path3, transfer3);
      NamesFile(w.jarFolder, path1) ==>
        && feed3 == feed1 && feed1.feedLocation in w3.disk
        && w3.disk[feed1.feedLocation] == if path1 == path2 then Concat(chunks2) else Concat(chunks1)
  {
    var (w1, feed1) := Resolve(w, url1, None, path1, Stream(chunks1, false));
    ResolvePreservesValid(w, url1, None, path1, Stream(chunks1, false));
    assert IsLookup(w1.feeds, url2, None);
    var (w2, feed2) := Resolve(w1, url2, None, path2, Stream(chunks2, false));
    assert IsLookup(w2.feeds, url1, Some(feed1));
    LookupUnique(w2.feeds, url1, FeedByUrl(w2.feeds, url1), Some(feed1));
  }

  /** An error list is filed only when the validator returned one with at least one occurrence. */
  predicate ShouldSave(errorList: Option<ErrorList>)
  {
    errorList.Some? && |errorList.value.occurrenceList| > 0
  }

  /** `errorList.getErrorMessage().setIterationId(gtfsId)`. */
  function Stamp(errorList: ErrorList, gtfsId: int): (stamped: ErrorList)
    ensures stamped.errorMessage.iterationId == gtfsId
    ensures stamped.errorMessage.errorId == errorList.errorMessage.errorId
    ensures stamped.occurrenceList == errorList.occurrenceList
  {
    errorList.(errorMessage := errorList.errorMessage.(iterationId := gtfsId))
  }

  /** The error lists filed under `id`. */
  function LogsOf(errorLogs: map<int, seq<ErrorList>>, id: int): seq<ErrorList>
  {
    if id in errorLogs then errorLogs[id] else []
  }

  /** `DBHelper.saveGtfsError`: file the list under its iteration id, after the ones already there. */
  function SaveError(errorLogs: map<int, seq<ErrorList>>, errorList: ErrorList): map<int, seq<ErrorList>>
  {
    var id := errorList.errorMessage.iterationId;
    errorLogs[id := LogsOf(errorLogs, id) + [errorList]]
  }

  /** `validateGtfsError(gtfsId, ...)` given what the validator returned. */
  function Validated(errorLogs: map<int, seq<ErrorList>>, gtfsId: int, result: Option<ErrorList>): map<int, seq<ErrorList>>
  {
    if ShouldSave(result) then SaveError(errorLogs, Stamp(result.value, gtfsId)) else errorLogs
  }

  /**
   * A non-empty result is filed exactly once, under `gtfsId`, with its
   * occurrences in discovery order; every other feed's logs are untouched.
   * A null or empty result changes nothing.
   */
  lemma ValidatedFilesOnce(errorLogs: map<int, seq<ErrorList>>, gtfsId: int, result: Option<ErrorList>)
    ensures !ShouldSave(result) ==> Validated(errorLogs, gtfsId, result) == errorLogs
    ensures ShouldSave(result) ==>
      var filed := LogsOf(Validated(errorLogs, gtfsId, result), gtfsId);
      && filed == LogsOf(errorLogs, gtfsId) + [filed[|filed| - 1]]
      && filed[|filed| - 1].errorMessage.iterationId == gtfsId
      && filed[|filed| - 1].occurrenceList == result.value.occurrenceList
    ensures forall id :: id != gtfsId ==> LogsOf(Validated(errorLogs, gtfsId, result), id) == LogsOf(errorLogs, id)
  {
  }
}
