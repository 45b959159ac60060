# GTFS feed ingestion: a Dafny model of the `GtfsFeed` resource

This project models the decision logic of the `GtfsFeed` REST resource of
the GTFS-realtime validator: what happens when a client POSTs the URL of a
GTFS feed. The resource checks the URL and the HTTP connection, works out
the local file name, and looks up the feed's row in the database. It then
reuses the local file, re-downloads it, or downloads it for the first time.
Next it loads the feed and runs the stop location-type validator, filing
any errors it finds. Finally it registers the loaded store in the
process-wide `GtfsDaoMap`.

Modules, one per concern of `GtfsFeed.java`:

- `JavaStrings`: `String.indexOf` and `String.lastIndexOf` as used by the
  save-path code, each with the contract Java documents.
- `SavePath`: `getSaveFilePath`. It takes the file name from the
  Content-Disposition header or from the URL's last segment, and joins it
  to the jar folder. It also holds a per-URL save path that avoids the
  file-name collision recorded under Findings.
- `StreamCopy`: the chunked copy loop of `downloadGtfsFeed`. It uses a real
  4096-byte buffer array and a `while` loop until `read` returns -1.
- `HttpConnection`: `getHttpURLConnection`, both as written and as
  evidently intended (see Findings).
- `FeedSpec`: the persistent state as a value `World` (feed rows, next id,
  error logs, files on disk). Also the specification functions for the
  three-case feed resolution (`Resolve`) and for error-list filing
  (`Validated`), with the lemmas about them.
- `GtfsFeed`: class `GtfsFeedResource`. It holds the tables and
  `GtfsDaoMap` as fields. Its methods follow the Java step by step, and each
  `ensures` ties the new state to the `FeedSpec` functions.

The model follows the code in four places where one might expect
otherwise:

- A feed that already has a row loses its error logs on every request,
  whether or not its file is still on disk, not only when it is
  re-downloaded.
- A failed download is swallowed by `downloadGtfsFeed`, and the feed row is
  created anyway. `Transfer.NoStream` leaves the disk unchanged, and
  `Resolve` still creates the row.
- An empty file name (as for `http://example.org/feeds/` without the
  header) leaves the save path `<jar folder>/`, which `java.io.File`
  reduces to the jar folder itself. `new FileOutputStream` throws on it and
  nothing is written, yet the row is created. Every later request for that
  URL finds a directory rather than a file, deletes the row and creates
  another under a new id.
- When the entity-store load fails, the response is NOT_FOUND. By then the
  feed row, the download and the error-log deletion have already happened.

## Model

| member | source | states |
|---|---|---|
| `JavaStrings.IndexOf` | src/main/java/edu/usf/cutr/gtfsrtvalidator/api/resource/GtfsFeed.java:222 | -1 exactly when the key occurs nowhere; otherwise the key occurs at the result and at no earlier index |
| `JavaStrings.LastIndexOf` | src/main/java/edu/usf/cutr/gtfsrtvalidator/api/resource/GtfsFeed.java:218 | -1 exactly when the character is absent; otherwise the character is at the result and not after it |
| `SavePath.FileName` | src/main/java/edu/usf/cutr/gtfsrtvalidator/api/resource/GtfsFeed.java:212-226 | the file name: from the URL after its last '/' without the header, from the header after the first `filename=` otherwise; its contract is stated by `FileNameIsLastSegment`, `FileNameFromDisposition` and `NoFileNameWithoutKeyAfterStart` |
| `SavePath.SaveFilePath` | src/main/java/edu/usf/cutr/gtfsrtvalidator/api/resource/GtfsFeed.java:211-236 | the save path; `SavePathLayout` states its layout and `SavePathNamesFileIffName` when it is the jar folder itself |
| `SavePath.NamesFile` | src/main/java/edu/usf/cutr/gtfsrtvalidator/api/resource/GtfsFeed.java:272 | whether `new FileOutputStream` can open the save path rather than failing on the jar folder: the path is not the jar folder plus '/'; used by `FeedSpec.Downloaded` |
| `SavePath.SavePathNamesFileIffName` | src/main/java/edu/usf/cutr/gtfsrtvalidator/api/resource/GtfsFeed.java:228-236 | the save path is the jar folder plus '/' exactly when the file name is empty |
| `SavePath.UrlFileNameEmptyIffTrailingSeparator` | src/main/java/edu/usf/cutr/gtfsrtvalidator/api/resource/GtfsFeed.java:216-219 | without the header, the file name is empty exactly when the URL is empty or ends in '/' |
| `SavePath.FileNameIsLastSegment` | src/main/java/edu/usf/cutr/gtfsrtvalidator/api/resource/GtfsFeed.java:216-219 | without the header, the name is the longest '/'-free suffix of the URL, and the whole URL when it has no '/' |
| `SavePath.FileNameOfUrl` | src/main/java/edu/usf/cutr/gtfsrtvalidator/api/resource/GtfsFeed.java:216-219 | a URL `base/name` with no '/' in `name` is saved under `name` |
| `SavePath.FileNameFromDisposition` | src/main/java/edu/usf/cutr/gtfsrtvalidator/api/resource/GtfsFeed.java:220-225 | when `filename=` first occurs after a non-empty prefix without '=', the name is the value after the key minus its first and last character, and the substring is in bounds |
| `SavePath.FileNameFromQuotedDisposition` | src/main/java/edu/usf/cutr/gtfsrtvalidator/api/resource/GtfsFeed.java:220-225 | a header ending in `filename="name"` yields exactly `name` |
| `SavePath.NoFileNameWithoutKeyAfterStart` | src/main/java/edu/usf/cutr/gtfsrtvalidator/api/resource/GtfsFeed.java:213-225 | with a header whose `filename=` is missing or first found at index 0, the name stays empty |
| `SavePath.SavePathLayout` | src/main/java/edu/usf/cutr/gtfsrtvalidator/api/resource/GtfsFeed.java:228-236 | the save path is the jar folder, one separator, then the file name |
| `SavePath.SaveDirIndependentOfUrl` | src/main/java/edu/usf/cutr/gtfsrtvalidator/api/resource/GtfsFeed.java:228-236 | the directory part of the path is the same for every URL and header |
| `SavePath.SameNameSamePath` | src/main/java/edu/usf/cutr/gtfsrtvalidator/api/resource/GtfsFeed.java:216-235 | as written, two URLs ending in the same file name get the same save path |
| `SavePath.PerFeedSaveFilePath` | src/main/java/edu/usf/cutr/gtfsrtvalidator/api/resource/GtfsFeed.java:228-236 | the corrected save path: jar folder, the URL escaped into one folder name, then the file name; `PerFeedPathsDistinct` states that it is injective in the URL |
| `SavePath.PerFeedPathsDistinct` | src/main/java/edu/usf/cutr/gtfsrtvalidator/api/resource/GtfsFeed.java:228-236 | with the URL escaped into the path, distinct feed URLs always get distinct save paths |
| `FeedSpec.ResolveAfterOtherFeed` | src/main/java/edu/usf/cutr/gtfsrtvalidator/api/resource/GtfsFeed.java:159-186 | after a second new feed is downloaded, the first, unless its path is the jar folder, is found with its file present and returned unchanged; its file holds the second feed's bytes when both used one path, its own otherwise |
| `GtfsFeed.SharedFileNameCollision` | src/main/java/edu/usf/cutr/gtfsrtvalidator/api/resource/GtfsFeed.java:211-236 | `http://a.org/gtfs.zip` and `http://b.org/gtfs.zip` share one file, so the first feed is later served with the second feed's bytes |
| `GtfsFeed.PerFeedPathsKeepContent` | src/main/java/edu/usf/cutr/gtfsrtvalidator/api/resource/GtfsFeed.java:211-236 | with per-URL save paths, downloading another feed never replaces a feed's own bytes |
| `StreamCopy.ConcatSnoc` | src/main/java/edu/usf/cutr/gtfsrtvalidator/api/resource/GtfsFeed.java:276-278 | reading one more chunk appends exactly its bytes to the output |
| `StreamCopy.ConcatChunkAt` | src/main/java/edu/usf/cutr/gtfsrtvalidator/api/resource/GtfsFeed.java:274-278 | every chunk appears in the output, in order, right after the chunks read before it |
| `StreamCopy.Read` | src/main/java/edu/usf/cutr/gtfsrtvalidator/api/resource/GtfsFeed.java:276 | `read` returns -1 at end of stream, else fills the buffer's front with the next chunk and returns its length |
| `StreamCopy.CopyStream` | src/main/java/edu/usf/cutr/gtfsrtvalidator/api/resource/GtfsFeed.java:274-278 | the bytes written equal the in-order concatenation of all chunks read |
| `HttpConnection.OpenConnection` | src/main/java/edu/usf/cutr/gtfsrtvalidator/api/resource/GtfsFeed.java:140-157 | `getHttpURLConnection` as written; its contract is stated by `OpenConnectionKeepsNonSuccess` and `OpenConnectionInverted` |
| `HttpConnection.JavaDiv` | src/main/java/edu/usf/cutr/gtfsrtvalidator/api/resource/GtfsFeed.java:148 | Java `int` division truncates toward zero |
| `HttpConnection.OpenConnectionKeepsNonSuccess` | src/main/java/edu/usf/cutr/gtfsrtvalidator/api/resource/GtfsFeed.java:140-157 | as written, a connection is returned exactly when the server answered with a code outside 200..299; an IOException or a 2xx code gives null |
| `HttpConnection.OpenConnectionInverted` | src/main/java/edu/usf/cutr/gtfsrtvalidator/api/resource/GtfsFeed.java:147-150 | a 200 response is dropped and a 404 kept as written; the intended check does the opposite |
| `HttpConnection.OpenConnectionIntended` | src/main/java/edu/usf/cutr/gtfsrtvalidator/api/resource/GtfsFeed.java:147-150 | the intended check keeps the connection exactly for a 2xx response code |
| `FeedSpec.IsLookup` | src/main/java/edu/usf/cutr/gtfsrtvalidator/api/resource/GtfsFeed.java:107-110 | what `readGtfsFeed(searchFeed)` may return: the row with the URL, or null when no row has it; `LookupUnique` makes it a function of the table |
| `FeedSpec.Downloaded` | src/main/java/edu/usf/cutr/gtfsrtvalidator/api/resource/GtfsFeed.java:266-285 | the disk after `downloadGtfsFeed`: the path holds the concatenated chunks, or nothing changes when no stream opens or the path is the jar folder; `ResolveDownloadsContent` states it for resolution |
| `FeedSpec.CreateFeed` | src/main/java/edu/usf/cutr/gtfsrtvalidator/api/resource/GtfsFeed.java:239-251 | the row (url, path) under the next id, read back; `ResolveUnknown` and `ResolveKnownMissing` state its effect |
| `FeedSpec.Resolve` | src/main/java/edu/usf/cutr/gtfsrtvalidator/api/resource/GtfsFeed.java:159-186 | the three-case resolution; its contract is stated by `ResolveUnknown`, `ResolveKnownPresent`, `ResolveKnownMissing`, `ResolvePreservesValid` and `ResolveTwice` |
| `FeedSpec.LookupUnique` | src/main/java/edu/usf/cutr/gtfsrtvalidator/api/resource/GtfsFeed.java:107-110 | with URLs unique in the feed table, the lookup by URL has one answer |
| `FeedSpec.FeedByUrl` | src/main/java/edu/usf/cutr/gtfsrtvalidator/api/resource/GtfsFeed.java:107-110 | the row found for a URL has that URL, and null means no row has it |
| `FeedSpec.ResolveUnknown` | src/main/java/edu/usf/cutr/gtfsrtvalidator/api/resource/GtfsFeed.java:180-184 | unknown URL: download, then exactly one new row (url, path) under a fresh id, which is returned; nothing deleted |
| `FeedSpec.ResolveKnownPresent` | src/main/java/edu/usf/cutr/gtfsrtvalidator/api/resource/GtfsFeed.java:160-168 | known URL with its file on disk: same row returned, no download, no row created or deleted, its error logs cleared |
| `FeedSpec.ResolveKnownMissing` | src/main/java/edu/usf/cutr/gtfsrtvalidator/api/resource/GtfsFeed.java:169-179 | known URL with its file gone: old row and its error logs deleted, other logs kept, path downloaded, exactly one new row (url, path) under the next id returned and the counter advanced |
| `FeedSpec.ResolvePreservesValid` | src/main/java/edu/usf/cutr/gtfsrtvalidator/api/resource/GtfsFeed.java:159-186 | ids stay below the counter, URLs stay unique, the jar folder is never a file on disk, and the URL afterwards looks up the returned row |
| `FeedSpec.ResolveDownloadsContent` | src/main/java/edu/usf/cutr/gtfsrtvalidator/api/resource/GtfsFeed.java:177-183 | after a completed download the returned row points at the save path, which holds exactly the bytes received unless it is the jar folder; for the jar folder the disk is unchanged |
| `FeedSpec.ResolveTwice` | src/main/java/edu/usf/cutr/gtfsrtvalidator/api/resource/GtfsFeed.java:159-186 | a second request for the same URL, with the file still there, returns the same row, downloads nothing and changes no row |
| `FeedSpec.ResolveSelfHeals` | src/main/java/edu/usf/cutr/gtfsrtvalidator/api/resource/GtfsFeed.java:169-179 | a feed whose file vanished comes back under a new id, the old id gone, with freshly downloaded content unless the path is the jar folder |
| `FeedSpec.ResolveFolderPathNeverKept` | src/main/java/edu/usf/cutr/gtfsrtvalidator/api/resource/GtfsFeed.java:159-186 | a feed saved to the jar folder itself (an empty file name) is never on disk, so the next resolution of its URL deletes its row and creates another under a fresh id |
| `FeedSpec.ShouldSave` | src/main/java/edu/usf/cutr/gtfsrtvalidator/api/resource/GtfsFeed.java:256 | an error list is filed only when it is non-null with at least one occurrence; used by `ValidatedFilesOnce` |
| `FeedSpec.SaveError` | src/main/java/edu/usf/cutr/gtfsrtvalidator/api/resource/GtfsFeed.java:262 | `saveGtfsError` appends the list after those filed under its iteration id; `ValidatedFilesOnce` states it |
| `FeedSpec.Validated` | src/main/java/edu/usf/cutr/gtfsrtvalidator/api/resource/GtfsFeed.java:254-263 | `validateGtfsError`; its contract is stated by `ValidatedFilesOnce` |
| `FeedSpec.Stamp` | src/main/java/edu/usf/cutr/gtfsrtvalidator/api/resource/GtfsFeed.java:258-260 | stamping sets the iteration id to the feed id and keeps the error id and occurrences |
| `FeedSpec.ValidatedFilesOnce` | src/main/java/edu/usf/cutr/gtfsrtvalidator/api/resource/GtfsFeed.java:254-263 | a non-null, non-empty list is filed exactly once under the feed id with its occurrences in order, and other feeds' logs are untouched; otherwise nothing changes |
| `GtfsFeed.ExampleSavePath` | src/main/java/edu/usf/cutr/gtfsrtvalidator/api/resource/GtfsFeed.java:211-236 | `http://example.org/feed.zip` with no header is saved as `<jar folder>/feed.zip` |
| `GtfsFeed.ExampleFolderSavePath` | src/main/java/edu/usf/cutr/gtfsrtvalidator/api/resource/GtfsFeed.java:211-236 | `http://example.org/feeds/` with no header is saved to `<jar folder>/`, the jar folder itself, which cannot be opened as a file |
| `GtfsFeed.FolderUrlNeverKept` | src/main/java/edu/usf/cutr/gtfsrtvalidator/api/resource/GtfsFeed.java:159-186 | each resolution of `http://example.org/feeds/` without the header deletes the previous row and creates one under a new id |
| `GtfsFeed.FirstPostExample` | src/main/java/edu/usf/cutr/gtfsrtvalidator/api/resource/GtfsFeed.java:159-186 | the first resolution of that URL, from empty tables, gives id 1 and a file holding the downloaded bytes; one bad stop files one list under iteration id 1 |
| `GtfsFeed.GtfsFeedResource.constructor` | src/main/java/edu/usf/cutr/gtfsrtvalidator/api/resource/GtfsFeed.java:52 | a process start: the durable tables and disk as an earlier run left them (ids fresh, URLs unique), and an empty `GtfsDaoMap` |
| `GtfsFeed.GtfsFeedResource.ReadGtfsFeedByUrl` | src/main/java/edu/usf/cutr/gtfsrtvalidator/api/resource/GtfsFeed.java:107-110 | returns the row with the URL, or null when there is none |
| `GtfsFeed.GtfsFeedResource.ReadGtfsFeed` | src/main/java/edu/usf/cutr/gtfsrtvalidator/api/resource/GtfsFeed.java:249 | returns the row stored under the id, or null |
| `GtfsFeed.GtfsFeedResource.CreateGtfsFeed` | src/main/java/edu/usf/cutr/gtfsrtvalidator/api/resource/GtfsFeed.java:246 | adds one row under the next id and returns that id |
| `GtfsFeed.GtfsFeedResource.DeleteGtfsFeed` | src/main/java/edu/usf/cutr/gtfsrtvalidator/api/resource/GtfsFeed.java:174 | removes exactly that row |
| `GtfsFeed.GtfsFeedResource.DeleteGtfsMessageLogByFeed` | src/main/java/edu/usf/cutr/gtfsrtvalidator/api/resource/GtfsFeed.java:162 | removes exactly that feed's error logs |
| `GtfsFeed.GtfsFeedResource.SaveGtfsError` | src/main/java/edu/usf/cutr/gtfsrtvalidator/api/resource/GtfsFeed.java:262 | appends the list to the logs of its iteration id |
| `GtfsFeed.GtfsFeedResource.DownloadGtfsFeed` | src/main/java/edu/usf/cutr/gtfsrtvalidator/api/resource/GtfsFeed.java:266-285 | the disk becomes `Downloaded`: the file at the path holds the concatenated chunks; nothing is written when no stream opens or when the path is the jar folder |
| `GtfsFeed.GtfsFeedResource.GetNewGtfsFeedModel` | src/main/java/edu/usf/cutr/gtfsrtvalidator/api/resource/GtfsFeed.java:239-251 | creates one row (url, path) and returns it as read back by its new id |
| `GtfsFeed.GtfsFeedResource.GetGtfsFeedModel` | src/main/java/edu/usf/cutr/gtfsrtvalidator/api/resource/GtfsFeed.java:159-186 | the new tables, disk and returned row are those of `Resolve`; the table invariant is kept |
| `GtfsFeed.GtfsFeedResource.ValidateGtfsError` | src/main/java/edu/usf/cutr/gtfsrtvalidator/api/resource/GtfsFeed.java:254-264 | the error logs become `Validated` of the old ones |
| `GtfsFeed.GtfsFeedResource.SaveGtfsFeed` | src/main/java/edu/usf/cutr/gtfsrtvalidator/api/resource/GtfsFeed.java:188-209 | a failed load returns null and files nothing; a successful one runs the validator and returns the store |
| `GtfsFeed.GtfsFeedResource.PostGtfsFeed` | src/main/java/edu/usf/cutr/gtfsrtvalidator/api/resource/GtfsFeed.java:95-125 | the early returns run in order (malformed URL, then no connection), both BAD_REQUEST with nothing changed. Otherwise the feed is resolved. A failed load gives NOT_FOUND with `GtfsDaoMap` unchanged; success maps the feed id to the store |

## Left out

- `java.net.URL` parsing in `getUrlFromString` is a library call. It is reduced to a boolean input of `PostGtfsFeed` that says whether the URL parsed.
- The network is not modelled: opening the connection, the User-Agent header, reading the response code and the Content-Disposition header. `Remote` and `Connection` carry the results as plain inputs. How a response code relates to the body stream (`getInputStream` throws for error codes) is not modelled either.
- HttpConnection.OpenConnection: does not model the ClassCastException for URLs that `new URL` accepts but that do not open an HTTP connection (`ftp:`, `file:`, `jar:`). The cast at line 143 throws, only IOException is caught, and the exception escapes `postGtfsFeed` as a server error. `Remote` has no case for it, so no `PostGtfsFeed` outcome covers such a URL.
- GtfsFeed.GtfsFeedResource.PostGtfsFeed: takes the result of `getHttpURLConnection` as an input. It therefore holds for both `OpenConnection` (as written) and `OpenConnectionIntended`.
- GTFS parsing by `GtfsReader`/`GtfsDaoImpl` is a library call. The load result is an input: `None` stands for any exception in `saveGtfsFeed`.
- The body of `StopLocationTypeValidator` is not part of this model. The validator's result is an input: an optional error list.
- GTFSDB and DBHelper are modelled as maps and a fresh-id counter. Their own failures are not modelled (database exceptions, or a read-back returning null), and `GetFile.getJarLocation` is a constant folder `saveDir`.
- `File.separator` is taken to be '/'.
- SavePath.FileName: requires `DispositionInBounds`. The source throws StringIndexOutOfBoundsException when `filename=` is found but the header is too short for `index + 10 <= length - 1`. That exception would escape `postGtfsFeed`; it is excluded rather than modelled.
- GtfsFeed.GtfsFeedResource.PostGtfsFeed: requires `DispositionInBounds` on the connection's header, for the same reason.
- SavePath.NamesFile: the path clean-up of `java.io.File` (a trailing '/' dropped, repeated '/' merged) is modelled only for the jar folder plus '/'. Other disk keys are path strings as built. So the header `filename="gtfs/"` writes the key `<jar folder>/gtfs/` where Java writes `<jar folder>/gtfs`, and the header `filename="/gtfs.zip"` gives `<jar folder>//gtfs.zip`, a key distinct from `<jar folder>/gtfs.zip` although Java opens one file for both. Within one path string the model agrees with Java, since the same string is written and later checked. `FeedSpec.Downloaded`, `GtfsFeed.GtfsFeedResource.DownloadGtfsFeed`, `FeedSpec.ResolveDownloadsContent`, `FeedSpec.ResolveFolderPathNeverKept` and `FeedSpec.ResolveAfterOtherFeed` treat such spellings as different files.
- GtfsFeed.GtfsFeedResource.DownloadGtfsFeed: treats only the jar folder plus '/' as impossible to open. A file name that names another existing folder (`.`, `..`, or a header's `filename=` naming a subfolder), a missing parent folder, or a permission failure also makes `new FileOutputStream` throw, and the model writes the bytes there; the disk holds no folders or permissions to decide this.
- Leaving the streams unclosed after an IOException is not modelled. That is a resource leak with no effect on the tables or on the bytes written.
- The `deleteGtfsFeed`, `getGtfsFeeds` and `getGtfsFeedErrors` endpoints are thin wrappers over the database.
- Console logging and stack traces.
- Concurrent requests. Two simultaneous POSTs of one URL could both see no row; the model runs one request at a time.

## Findings

`PostGtfsFeed` models the code, so it uses the as-written save path and takes
the connection decision as an input. The corrected members are proved on
their own and in `PerFeedPathsKeepContent`, which reruns the collision
scenario with per-URL paths.

| source | as written | input that shows it | evidently intended | confidence | as-written member | corrected member |
|---|---|---|---|---|---|---|
| src/main/java/edu/usf/cutr/gtfsrtvalidator/api/resource/GtfsFeed.java:147-150 | the connection is discarded when the response code is 2xx and kept otherwise | a server answering 200 OK: `postGtfsFeed` answers BAD_REQUEST "Can't read from URL". A 404 is kept, but then `getInputStream` throws, the download writes nothing, a row is still created, the load fails and the answer is NOT_FOUND | keep the connection only for a 2xx code, which is what the comment above the check describes | not executed; high | `HttpConnection.OpenConnectionInverted` | `HttpConnection.OpenConnectionIntended` |
| src/main/java/edu/usf/cutr/gtfsrtvalidator/api/resource/GtfsFeed.java:216-235 | the save path is the jar folder plus only the URL's last segment, so feeds whose URLs end alike share one file | three resolutions: `http://a.org/gtfs.zip`, then `http://b.org/gtfs.zip`, then the first again, each without the header. The first feed's row is returned and its file holds the second feed's bytes. As POSTs this needs connections that survive line 148: a readable answer outside 2xx, or the 2xx check corrected | one local file per feed URL, so that a row's path holds that feed's own last download | not executed; high | `GtfsFeed.SharedFileNameCollision` | `SavePath.PerFeedPathsDistinct` |
