/**
 * `getSaveFilePath`: the local file a feed is downloaded to. The file name
 * comes from the response's Content-Disposition header when there is one,
 * otherwise from the URL after its last '/'; it is joined to the directory
 * that holds the running jar.
 */
module SavePath {
  import opened Wrappers
  import opened JavaStrings

  /** `File.separator`, taken as on a Unix-like platform. */
  const SEPARATOR: char := '/'

  /** The key searched for in the Content-Disposition value. */
  const FILENAME_KEY: string := "filename="

  /**
   * The header cases in which `disposition.substring(index + 10, length - 1)`
   * does not throw StringIndexOutOfBoundsException.
   */
  predicate DispositionInBounds(disposition: Option<string>)
  {
    match disposition
    case None => true
    case Some(d) =>
      var index := IndexOf(d, FILENAME_KEY);
      index <= 0 || index + 10 <= |d| - 1
  }

  /** The file-name part of `getSaveFilePath`. */
  function FileName(gtfsFeedUrl: string, disposition: Option<string>): string
    requires DispositionInBounds(disposition)
  {
    match disposition
    case None => gtfsFeedUrl[LastIndexOf(gtfsFeedUrl, '/') + 1..]
    case Some(d) =>
      var index := IndexOf(d, FILENAME_KEY);
      if index > 0 then d[index + 10..|d| - 1] else ""
  }

  /** `getSaveFilePath(gtfsFeedUrl, connection)` with the jar directory `saveDir`. */
  function SaveFilePath(gtfsFeedUrl: string, disposition: Option<string>, saveDir: string): string
    requires DispositionInBounds(disposition)
  {
    saveDir + [SEPARATOR] + FileName(gtfsFeedUrl, disposition)
  }

  /**
   * Whether `new FileOutputStream(path)` opens `path` as a file rather than
   * failing on the jar folder: `java.io.File` drops the trailing '/' of
   * `saveDir + "/"`, which then names the folder itself, a directory, and
   * opening it throws FileNotFoundException.
   */
  predicate NamesFile(saveDir: string, path: string)
  {
    path != saveDir + [SEPARATOR]
  }

  /**
   * The save path names a file exactly when the file name is not empty; an
   * empty name leaves the jar folder plus '/'.
   */
  lemma SavePathNamesFileIffName(gtfsFeedUrl: string, disposition: Option<string>, saveDir: string)
    requires DispositionInBounds(disposition)
    ensures NamesFile(saveDir, SaveFilePath(gtfsFeedUrl, disposition, saveDir)) <==> FileName(gtfsFeedUrl, disposition) != []
  {
    var path := SaveFilePath(gtfsFeedUrl, disposition, saveDir);
    assert |path| == |saveDir| + 1 + |FileName(gtfsFeedUrl, disposition)|;
  }

  /**
   * Without the header, the file name is empty exactly when the URL is
   * empty or ends in '/': `http://host/feeds/` is saved to the jar folder.
   */
  lemma {:induction false} UrlFileNameEmptyIffTrailingSeparator(gtfsFeedUrl: string)
    ensures FileName(gtfsFeedUrl, None) == [] <==> gtfsFeedUrl == [] || gtfsFeedUrl[|gtfsFeedUrl| - 1] == SEPARATOR
  {
    var name := FileName(gtfsFeedUrl, None);
    if name != [] {
      assert name[|name| - 1] == gtfsFeedUrl[|gtfsFeedUrl| - 1];
    } else if gtfsFeedUrl != [] {
      assert LastIndexOf(gtfsFeedUrl, '/') == |gtfsFeedUrl| - 1;
    }
  }

  /**
   * Without the header the file name is the longest suffix of the URL that
   * holds no '/': the whole URL when it has no '/' at all.
   */
  lemma FileNameIsLastSegment(gtfsFeedUrl: string)
    ensures var name := FileName(gtfsFeedUrl, None);
      && SEPARATOR !in name
      && |name| <= |gtfsFeedUrl|
      && gtfsFeedUrl == gtfsFeedUrl[..|gtfsFeedUrl| - |name|] + name
      && (|name| < |gtfsFeedUrl| ==> gtfsFeedUrl[|gtfsFeedUrl| - |name| - 1] == SEPARATOR)
      && (SEPARATOR !in gtfsFeedUrl ==> name == gtfsFeedUrl)
  {
  }

  /** A URL `base/name` whose last segment `name` has no '/' is saved under `name`. */
  lemma {:induction false} FileNameOfUrl(base: string, name: string)
    requires SEPARATOR !in name
    ensures FileName(base + [SEPARATOR] + name, None) == name
  {
    var url := base + [SEPARATOR] + name;
    assert url[|base|] == SEPARATOR;
    assert url[|base| + 1..] == name;
    assert LastIndexOf(url, SEPARATOR) == |base|;
  }

  /**
   * With the header, when the key follows a non-empty prefix holding no '=',
   * the name is the value after the key less its first and last characters:
   * the quotes of `filename="..."`, or real characters when the value is
   * unquoted.
   */
  lemma {:induction false} FileNameFromDisposition(gtfsFeedUrl: string, prefix: string, value: string)
    requires prefix != [] && '=' !in prefix
    requires |value| >= 2
    ensures DispositionInBounds(Some(prefix + FILENAME_KEY + value))
    ensures FileName(gtfsFeedUrl, Some(prefix + FILENAME_KEY + value)) == value[1..|value| - 1]
  {
    var d := prefix + FILENAME_KEY + value;
    assert OccursAt(d, FILENAME_KEY, |prefix|) by {
      assert d[|prefix|..|prefix| + |FILENAME_KEY|] == FILENAME_KEY;
    }
    // the key ends in its only '=', and no '=' lies in reach of an earlier start
    assert '=' !in FILENAME_KEY[..|FILENAME_KEY| - 1];
    forall i | 0 <= i < |prefix|
      ensures !OccursAt(d, FILENAME_KEY, i)
    {
      var e := i + |FILENAME_KEY| - 1;
      if e < |prefix| {
        assert d[e] == prefix[e];
      } else {
        assert d[e] == FILENAME_KEY[..|FILENAME_KEY| - 1][e - |prefix|];
      }
      assert d[i..i + |FILENAME_KEY|][|FILENAME_KEY| - 1] == d[e];
    }
    assert IndexOf(d, FILENAME_KEY) == |prefix|;
    assert d[|prefix| + 10..|d| - 1] == value[1..|value| - 1];
  }

  /** The usual quoted form `...; filename="name"` yields exactly `name`. */
  lemma FileNameFromQuotedDisposition(gtfsFeedUrl: string, prefix: string, name: string)
    requires prefix != [] && '=' !in prefix
    ensures DispositionInBounds(Some(prefix + FILENAME_KEY + "\"" + name + "\""))
    ensures FileName(gtfsFeedUrl, Some(prefix + FILENAME_KEY + "\"" + name + "\"")) == name
  {
    var value := "\"" + name + "\"";
    assert prefix + FILENAME_KEY + "\"" + name + "\"" == prefix + FILENAME_KEY + value;
    FileNameFromDisposition(gtfsFeedUrl, prefix, value);
    assert value[1..|value| - 1] == name;
  }

  /**
   * With the header, a file name is taken only when the first `filename=`
   * is at an index above 0: when the key is missing, or the value starts
   * with it, the name is empty and the save path is the jar folder plus
   * '/', which names no file.
   */
  lemma NoFileNameWithoutKeyAfterStart(gtfsFeedUrl: string, d: string)
    requires OccursAt(d, FILENAME_KEY, 0) || forall i :: !OccursAt(d, FILENAME_KEY, i)
    ensures DispositionInBounds(Some(d))
    ensures FileName(gtfsFeedUrl, Some(d)) == ""
    ensures forall saveDir :: !NamesFile(saveDir, SaveFilePath(gtfsFeedUrl, Some(d), saveDir))
  {
  }

  /** The save path is the jar directory, the separator, then the file name. */
  lemma SavePathLayout(gtfsFeedUrl: string, disposition: Option<string>, saveDir: string)
    requires DispositionInBounds(disposition)
    ensures var path := SaveFilePath(gtfsFeedUrl, disposition, saveDir);
      && |path| == |saveDir| + 1 + |FileName(gtfsFeedUrl, disposition)|
      && path[..|saveDir|] == saveDir
      && path[|saveDir|] == SEPARATOR
      && path[|saveDir| + 1..] == FileName(gtfsFeedUrl, disposition)
  {
  }

  /** Two requests share the directory part of their save paths, whatever their URLs and headers. */
  lemma SaveDirIndependentOfUrl(url1: string, disposition1: Option<string>, url2: string, disposition2: Option<string>, saveDir: string)
    requires DispositionInBounds(disposition1) && DispositionInBounds(disposition2)
    ensures SaveFilePath(url1, disposition1, saveDir)[..|saveDir| + 1]
         == SaveFilePath(url2, disposition2, saveDir)[..|saveDir| + 1]
         == saveDir + [SEPARATOR]
  {
  }

  /*
   * Per-URL save paths. The file name alone is shared by many feeds
   * (`gtfs.zip`, `google_transit.zip`), so two feed URLs ending in the same
   * name are saved to the same file. A path that also holds the whole URL,
   * escaped so that it has no separator, gives every URL its own file.
   */

  /** One URL character as it appears in a path component: '/' and '%' percent-encoded. */
  function EscapeChar(c: char): (e: string)
    ensures 1 <= |e| <= 3 && SEPARATOR !in e
  {
    if c == '/' then "%2F" else if c == '%' then "%25" else [c]
  }

  /** The URL as a single path component. */
  function EscapeUrl(url: string): (e: string)
    ensures SEPARATOR !in e
  {
    if url == [] then [] else EscapeChar(url[0]) + EscapeUrl(url[1..])
  }

  /** The escape of the first character can be read back from the front of the output. */
  lemma EscapeCharPrefix(c: char, d: char, x: string, y: string)
    requires EscapeChar(c) + x == EscapeChar(d) + y
    ensures c == d && x == y
  {
    var s := EscapeChar(c) + x;
    if c == '/' || c == '%' {
      assert EscapeChar(d)[0] == s[0] == '%';
      assert EscapeChar(d)[2] == s[2] == EscapeChar(c)[2];
    } else {
      assert EscapeChar(d)[0] == s[0] == c;
    }
    assert x == s[|EscapeChar(c)|..] == y;
  }

  /** Distinct URLs have distinct escapes. */
  lemma {:induction false} EscapeUrlInjective(a: string, b: string)
    requires EscapeUrl(a) == EscapeUrl(b)
    ensures a == b
  {
    if a != [] && b != [] {
      EscapeCharPrefix(a[0], b[0], EscapeUrl(a[1..]), EscapeUrl(b[1..]));
      EscapeUrlInjective(a[1..], b[1..]);
      assert a == [a[0]] + a[1..] && b == [b[0]] + b[1..];
    }
  }

  /** In `x/y`, with no separator in `x`, the first separator is the one after `x`. */
  lemma SplitAtFirstSeparator(x: string, y: string, x': string, y': string)
    requires SEPARATOR !in x && SEPARATOR !in x'
    requires x + [SEPARATOR] + y == x' + [SEPARATOR] + y'
    ensures x == x'
  {
    var s := x + [SEPARATOR] + y;
    forall i | 0 <= i < |x| ensures !OccursAt(s, [SEPARATOR], i) {
      assert s[i..i + 1] == [x[i]];
    }
    forall i | 0 <= i < |x'| ensures !OccursAt(s, [SEPARATOR], i) {
      assert s[i..i + 1] == [x'[i]];
    }
    assert s[|x|..|x| + 1] == [SEPARATOR];
    assert s == x' + [SEPARATOR] + y';
    assert s[|x'|..|x'| + 1] == [SEPARATOR];
    assert OccursAt(s, [SEPARATOR], |x|) && OccursAt(s, [SEPARATOR], |x'|);
    var r := IndexOf(s, [SEPARATOR]);
    assert r == |x|;
    assert r == |x'|;
    assert x == s[..|x|] == x';
  }

  /** A save path that keeps one file per feed URL: a folder named after the escaped URL, then the file name. */
  function PerFeedSaveFilePath(gtfsFeedUrl: string, disposition: Option<string>, saveDir: string): string
    requires DispositionInBounds(disposition)
  {
    saveDir + [SEPARATOR] + EscapeUrl(gtfsFeedUrl) + [SEPARATOR] + FileName(gtfsFeedUrl, disposition)
  }

  /** Distinct feed URLs get distinct per-feed save paths, whatever their headers. */
  lemma PerFeedPathsDistinct(url1: string, disposition1: Option<string>, url2: string, disposition2: Option<string>, saveDir: string)
    requires DispositionInBounds(disposition1) && DispositionInBounds(disposition2)
    ensures PerFeedSaveFilePath(url1, disposition1, saveDir) == PerFeedSaveFilePath(url2, disposition2, saveDir)
      ==> url1 == url2
  {
    var p1 := PerFeedSaveFilePath(url1, disposition1, saveDir);
    var p2 := PerFeedSaveFilePath(url2, disposition2, saveDir);
    if p1 == p2 {
      var e1, e2 := EscapeUrl(url1), EscapeUrl(url2);
      FolderBeforeFileName(saveDir, e1, FileName(url1, disposition1), e2, FileName(url2, disposition2));
      EscapeUrlInjective(url1, url2);
    }
  }

  /** In `dir/e/n`, with no separator in `e`, the folder `e` is determined by the whole path. */
  lemma FolderBeforeFileName(dir: string, e1: string, n1: string, e2: string, n2: string)
    requires SEPARATOR !in e1 && SEPARATOR !in e2
    requires dir + [SEPARATOR] + e1 + [SEPARATOR] + n1 == dir + [SEPARATOR] + e2 + [SEPARATOR] + n2
    ensures e1 == e2
  {
    var k := |dir| + 1;
    var p := dir + [SEPARATOR] + e1 + [SEPARATOR] + n1;
    assert p[k..] == e1 + [SEPARATOR] + n1;
    assert p[k..] == e2 + [SEPARATOR] + n2;
    SplitAtFirstSeparator(e1, n1, e2, n2);
  }

  /** As written, two feeds whose URLs end in the same name share one save path. */
  lemma SameNameSamePath(base1: string, base2: string, name: string, saveDir: string)
    requires SEPARATOR !in name
    ensures SaveFilePath(base1 + [SEPARATOR] + name, None, saveDir)
         == SaveFilePath(base2 + [SEPARATOR] + name, None, saveDir)
  {
    FileNameOfUrl(base1, name);
    FileNameOfUrl(base2, name);
  }
}
