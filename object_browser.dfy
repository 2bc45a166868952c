/**
 * The object browser's logic
 * (frontend/src/app/components/ObjectBrowser/ObjectBrowser.tsx): the
 * folder-name and file-view checks, the delete confirmation, the search
 * filters over object and prefix rows, the key of a new folder's marker
 * object and the breadcrumb trail of the current prefix. Keys use `/` as
 * their path separator.
 */
module ObjectBrowser {
  import opened Strings
  import opened Filtering
  import opened KeyCodec
  import ObjectsRoute

  /** `s.slice(0, -1)`: all but the last character; the empty string stays empty. */
  function DropLast(s: string): (r: string)
    ensures |s| > 0 ==> r + [s[|s| - 1]] == s
    ensures |s| == 0 ==> r == ""
  {
    if |s| == 0 then "" else s[..|s| - 1]
  }

  // ---------------------------------------------------------------- folders

  /**
   * One character of `/^[a-zA-Z0-9!.-_*'()]+$/`. Inside the brackets `.-_`
   * is a range, 0x2E..0x5F: it takes in `/`, `:`, `;`, `<`, `=`, `>`, `?`,
   * `@`, `[`, `\`, `]`, `^` and `_` as well as `.`, and leaves `-` out.
   */
  predicate IsFolderNameChar(c: char)
  {
    || 'a' <= c <= 'z' || 'A' <= c <= 'Z' || '0' <= c <= '9'
    || c == '!' || '.' <= c <= '_' || c == '*' || c == '\'' || c == '(' || c == ')'
  }

  /** `validateFolderName`: non-empty, and every character allowed by the pattern. */
  function ValidateFolderName(name: string): (ok: bool)
    ensures ok <==> |name| > 0 && forall i :: 0 <= i < |name| ==> IsFolderNameChar(name[i])
  {
    if name == "" then false
    else forall i :: 0 <= i < |name| ==> IsFolderNameChar(name[i])
  }

  /**
   * What the pattern really admits: a `/` passes, so one "folder" name can
   * open several levels at once, and so does a `?`, while a `-` never
   * passes, although the rules shown to the user speak of hyphens.
   */
  lemma FolderNamePatternAsWritten()
    ensures ValidateFolderName("a/b")
    ensures ValidateFolderName("x:y@z")
    ensures ValidateFolderName("ab?")
    ensures !ValidateFolderName("my-folder")
    ensures !ValidateFolderName("my folder")
  {
    assert "my-folder"[2] == '-';
    assert "my folder"[2] == ' ';
  }

  /** No accepted folder name holds a hyphen or a space. */
  lemma ValidFolderNameHasNoHyphen(name: string)
    requires ValidateFolderName(name)
    ensures '-' !in name && ' ' !in name
  {
    forall i | 0 <= i < |name| ensures name[i] != '-' && name[i] != ' ' {
      assert IsFolderNameChar(name[i]);
    }
  }

  const MarkerName := ".s3keep"

  /** The key of the empty marker object that makes a new folder visible. */
  function FolderMarkerKey(decodedPrefix: string, folderName: string): (key: string)
    ensures decodedPrefix <= key
    ensures |key| == |decodedPrefix| + |folderName| + 1 + |MarkerName|
    ensures key[|decodedPrefix|..|key| - |MarkerName| - 1] == folderName
    ensures key[|key| - |MarkerName| - 1..] == "/" + MarkerName
    ensures LastSegment(key, '/') == MarkerName
  {
    var key := decodedPrefix + folderName + "/" + MarkerName;
    assert (decodedPrefix + folderName + "/" + MarkerName)[..|decodedPrefix|] == decodedPrefix;
    assert '/' !in MarkerName;
    LastSegmentAfter(decodedPrefix + folderName, MarkerName, '/');
    assert key == decodedPrefix + folderName + ['/'] + MarkerName;
    key
  }

  /** The prefix the browser moves to after creating the folder. */
  function FolderPrefix(decodedPrefix: string, folderName: string): (prefix: string)
    ensures |prefix| > 0 && prefix[|prefix| - 1] == '/'
    ensures decodedPrefix <= prefix
    ensures |prefix| == |decodedPrefix| + |folderName| + 1
    ensures prefix[|decodedPrefix|..|prefix| - 1] == folderName
    ensures FolderMarkerKey(decodedPrefix, folderName) == prefix + MarkerName
  {
    decodedPrefix + folderName + "/"
  }

  /**
   * In the model's lossless key transport, the backend decodes the encoded
   * marker back to the marker key, and would offer it for download as
   * `.s3keep`. Keys whose base64 form holds `/` do not reach the backend at
   * all; that loss is outside the model.
   */
  lemma FolderMarkerReachesStore(decodedPrefix: string, folderName: string)
    ensures Decode(Encode(FolderMarkerKey(decodedPrefix, folderName))) == FolderMarkerKey(decodedPrefix, folderName)
    ensures ObjectsRoute.DownloadFileName(Encode(FolderMarkerKey(decodedPrefix, folderName))) == MarkerName
  {
    DecodeEncode(FolderMarkerKey(decodedPrefix, folderName));
  }

  // ---------------------------------------------------------------- viewing

  const MaxViewSize := 1024 * 1024

  const AllowedExtensions: seq<string> := [
    "txt", "log", "jpg", "py", "json", "yaml", "yml", "md", "html", "css", "js", "ts",
    "tsx", "jsx", "sh", "bash", "sql", "csv", "xml", "png", "gif", "bmp", "jpeg", "svg",
    "webp", "ico"]

  /**
   * `validateFileView`: at most 1 MiB, and the text after the last `.` of the
   * name (the whole name when it has no `.`) is on the allow-list, compared
   * case-sensitively.
   */
  function ValidateFileView(filename: string, size: int): (ok: bool)
    ensures size > MaxViewSize ==> !ok
    ensures ok <==> size <= MaxViewSize && LastSegment(filename, '.') in AllowedExtensions
  {
    if size > MaxViewSize then false
    else if LastSegment(filename, '.') !in AllowedExtensions then false
    else true
  }

  /** A name without `.` is looked up whole in the allow-list. */
  lemma FileViewWithoutDot(filename: string, size: int)
    requires '.' !in filename
    ensures ValidateFileView(filename, size) <==> size <= MaxViewSize && filename in AllowedExtensions
  {
    LastSegmentNoSeparator(filename, '.');
  }

  /** Only the text after the last `.` counts: earlier extensions are ignored. */
  lemma FileViewLastExtension(stem: string, ext: string, size: int)
    requires '.' !in ext
    ensures ValidateFileView(stem + "." + ext, size) <==> size <= MaxViewSize && ext in AllowedExtensions
  {
    LastSegmentAfter(stem, ext, '.');
  }

  /** A small text file can be viewed; the same name over 1 MiB cannot. */
  lemma FileViewTextFile()
    ensures ValidateFileView("notes.txt", 100)
    ensures !ValidateFileView("notes.txt", MaxViewSize + 1)
  {
    assert "notes.txt" == "notes" + "." + "txt";
    FileViewLastExtension("notes", "txt", 100);
    assert AllowedExtensions[0] == "txt";
  }

  /** The allow-list is compared case-sensitively: an upper-case extension is refused. */
  lemma FileViewCaseSensitive()
    ensures !ValidateFileView("photo.PNG", 100)
  {
    assert "photo.PNG" == "photo" + "." + "PNG";
    FileViewLastExtension("photo", "PNG", 100);
    forall i | 0 <= i < |AllowedExtensions| ensures AllowedExtensions[i] != "PNG" {
      assert AllowedExtensions[i][0] != 'P';
    }
  }

  /** A name without `.` that happens to spell an extension can be viewed. */
  lemma FileViewBareExtension()
    ensures ValidateFileView("md", 100)
  {
    FileViewWithoutDot("md", 100);
    assert AllowedExtensions[7] == "md";
  }

  // ---------------------------------------------------------------- deleting

  /** `validateFileToDelete`: confirmed exactly when the typed text is the key's last segment. */
  function ValidateFileToDelete(typed: string, selectedKey: string): (ok: bool)
    ensures ok <==> typed == LastSegment(selectedKey, '/')
  {
    if typed != LastSegment(selectedKey, '/') then false else true
  }

  /** For a key inside a folder, the file name alone confirms, the full key does not. */
  lemma DeleteConfirmedByFileName(folder: string, name: string)
    requires '/' !in name
    ensures ValidateFileToDelete(name, folder + "/" + name)
    ensures !ValidateFileToDelete(folder + "/" + name, folder + "/" + name)
  {
    LastSegmentAfter(folder, name, '/');
  }

  // ---------------------------------------------------------------- searching

  /**
   * An object row, fields in the source's order. `size` is the already
   * formatted size text; `originalSize` is the byte count.
   */
  datatype ObjectRow = ObjectRow(key: string, lastModified: string, size: string, originalSize: nat)

  /** The key field is searched by its last segment only; the others by their full text. */
  predicate ObjectRowMatches(row: ObjectRow, search: string)
  {
    || MatchesIgnoringCase(LastSegment(row.key, '/'), search)
    || MatchesIgnoringCase(row.lastModified, search)
    || MatchesIgnoringCase(row.size, search)
    || MatchesIgnoringCase(NatToDecimal(row.originalSize), search)
  }

  /** `filteredRows`: the matching object rows in order; an empty search keeps them all. */
  function FilteredObjectRows(rows: seq<ObjectRow>, search: string): (kept: seq<ObjectRow>)
    ensures forall r :: r in kept <==> r in rows && ObjectRowMatches(r, search)
    ensures search == "" ==> kept == rows
  {
    var keep := (r: ObjectRow) => ObjectRowMatches(r, search);
    if search == "" then
      forall r | r in rows ensures keep(r) {
        EmptySearchMatches(r.lastModified);
      }
      FilterKeepsAll(rows, keep);
      Filter(rows, keep)
    else
      Filter(rows, keep)
  }

  /** The object filter keeps table order, and a single row survives exactly when it matches. */
  lemma FilteredObjectRowsInOrder(xs: seq<ObjectRow>, ys: seq<ObjectRow>, row: ObjectRow, search: string)
    ensures FilteredObjectRows(xs + ys, search) == FilteredObjectRows(xs, search) + FilteredObjectRows(ys, search)
    ensures FilteredObjectRows([row], search) == if ObjectRowMatches(row, search) then [row] else []
  {
    var keep := (r: ObjectRow) => ObjectRowMatches(r, search);
    FilterConcat(xs, ys, keep);
    FilterOne(row, keep);
  }

  /** A search for a folder name does not find the files inside that folder by their key. */
  lemma FolderPartOfKeyNotSearched(folder: string, name: string, search: string)
    requires '/' !in name
    ensures MatchesIgnoringCase(LastSegment(folder + "/" + name, '/'), search)
        <==> MatchesIgnoringCase(name, search)
  {
    LastSegmentAfter(folder, name, '/');
  }

  datatype PrefixRow = PrefixRow(prefix: string)

  /** The folder name shown for a prefix: its last segment once the trailing `/` is dropped. */
  function PrefixLabel(prefix: string): (shown: string)
    ensures IsLastSegment(DropLast(prefix), '/', shown)
  {
    LastSegment(DropLast(prefix), '/')
  }

  /** A prefix row is kept when its prefix and label are non-empty and the label matches. */
  predicate PrefixRowMatches(row: PrefixRow, search: string)
  {
    |row.prefix| > 0 && |PrefixLabel(row.prefix)| > 0 && MatchesIgnoringCase(PrefixLabel(row.prefix), search)
  }

  /** `filteredPrefixRows`: the matching prefix rows, in order; an empty prefix is never kept. */
  function FilteredPrefixRows(rows: seq<PrefixRow>, search: string): (kept: seq<PrefixRow>)
    ensures forall r :: r in kept <==> r in rows && PrefixRowMatches(r, search)
    ensures forall r :: r in kept ==> |r.prefix| > 0
  {
    Filter(rows, (r: PrefixRow) => PrefixRowMatches(r, search))
  }

  /** The prefix filter keeps table order, and a single row survives exactly when it matches. */
  lemma FilteredPrefixRowsInOrder(xs: seq<PrefixRow>, ys: seq<PrefixRow>, row: PrefixRow, search: string)
    ensures FilteredPrefixRows(xs + ys, search) == FilteredPrefixRows(xs, search) + FilteredPrefixRows(ys, search)
    ensures FilteredPrefixRows([row], search) == if PrefixRowMatches(row, search) then [row] else []
  {
    var keep := (r: PrefixRow) => PrefixRowMatches(r, search);
    FilterConcat(xs, ys, keep);
    FilterOne(row, keep);
  }

  /**
   * A folder `parent + name + "/"` under a parent prefix (empty or ending in
   * `/`) with a non-empty, `/`-free name is labelled by that name, and the
   * empty search keeps it.
   */
  lemma FolderPrefixLabel(parent: string, name: string)
    requires |parent| == 0 || parent[|parent| - 1] == '/'
    requires |name| > 0 && '/' !in name
    ensures PrefixLabel(parent + name + "/") == name
    ensures PrefixRowMatches(PrefixRow(parent + name + "/"), "")
  {
    var p := parent + name + "/";
    assert DropLast(p) == parent + name;
    if |parent| == 0 {
      assert DropLast(p) == name;
      LastSegmentNoSeparator(name, '/');
    } else {
      assert parent + name == DropLast(parent) + ['/'] + name;
      LastSegmentAfter(DropLast(parent), name, '/');
    }
    EmptySearchMatches(PrefixLabel(p));
  }

  // ---------------------------------------------------------------- breadcrumbs

  /** One breadcrumb: its text, the prefix it leads to and whether it is disabled. */
  datatype Crumb = Crumb(text: string, target: string, disabled: bool)

  /** The segments of the current prefix once its trailing `/` is dropped. */
  function CrumbParts(decodedPrefix: string): (parts: seq<string>)
    ensures |parts| >= 1
    ensures forall i :: 0 <= i < |parts| ==> '/' !in parts[i]
    ensures Join(parts, '/') == DropLast(decodedPrefix)
  {
    JoinSplit(DropLast(decodedPrefix), '/');
    Split(DropLast(decodedPrefix), '/')
  }

  /** Crumb `i` of the trail over `parts`. */
  function CrumbAt(parts: seq<string>, i: nat): (c: Crumb)
    requires i < |parts|
  {
    Crumb(parts[i], Join(parts[..i + 1], '/') + "/", i == |parts| - 1)
  }

  /** Crumb `i` leads to the first `i + 1` segments joined by `/`, plus `/`; only the last is disabled. */
  function Breadcrumbs(decodedPrefix: string): (crumbs: seq<Crumb>)
    ensures var parts := CrumbParts(decodedPrefix);
      && |crumbs| == |parts|
      && (forall i :: 0 <= i < |crumbs| ==> crumbs[i].text == parts[i])
      && (forall i :: 0 <= i < |crumbs| ==> crumbs[i].target == Join(parts[..i + 1], '/') + "/")
      && (forall i :: 0 <= i < |crumbs| ==> (crumbs[i].disabled <==> i == |crumbs| - 1))
  {
    var parts := CrumbParts(decodedPrefix);
    seq(|parts|, i requires 0 <= i < |parts| => CrumbAt(parts, i))
  }

  /**
   * For a prefix ending in `/` (as every listed or created prefix does),
   * every breadcrumb leads to a prefix of it, and the last one, the
   * disabled one, leads to the prefix itself.
   */
  lemma BreadcrumbTargets(decodedPrefix: string)
    requires |decodedPrefix| > 0 && decodedPrefix[|decodedPrefix| - 1] == '/'
    ensures forall c :: c in Breadcrumbs(decodedPrefix) ==> c.target <= decodedPrefix
    ensures Last(Breadcrumbs(decodedPrefix)).target == decodedPrefix
  {
    var parts := CrumbParts(decodedPrefix);
    var crumbs := Breadcrumbs(decodedPrefix);
    assert Join(parts, '/') + "/" == decodedPrefix;
    forall i | 0 <= i < |crumbs| ensures crumbs[i].target <= decodedPrefix {
      JoinPrefix(parts, '/', i + 1);
    }
    assert parts[..|parts|] == parts;
  }

  /**
   * The trail has one crumb per folder level: for a prefix made of
   * `/`-free levels, each followed by `/`, crumb `i` shows level `i`.
   */
  lemma BreadcrumbsOneCrumbPerLevel(levels: seq<string>)
    requires |levels| >= 1
    requires forall i :: 0 <= i < |levels| ==> '/' !in levels[i]
    ensures var crumbs := Breadcrumbs(Join(levels, '/') + "/");
      |crumbs| == |levels| && forall i :: 0 <= i < |levels| ==> crumbs[i].text == levels[i]
  {
    var p := Join(levels, '/') + "/";
    assert DropLast(p) == Join(levels, '/');
    SplitJoin(levels, '/');
  }

  /** At the bucket root the trail holds one empty, disabled crumb leading to `/`. */
  lemma BreadcrumbsAtRoot()
    ensures Breadcrumbs("") == [Crumb("", "/", true)]
  {
    assert DropLast("") == "";
    assert Split("", '/') == [""];
    assert CrumbParts("") == [""];
    assert [""][..1] == [""];
    assert Join([""], '/') == "";
    assert CrumbAt([""], 0) == Crumb("", "/", true);
  }

  /**
   * A folder created under the current prefix (empty or ending in `/`) with
   * a non-empty, `/`-free name is opened at a prefix that the listing shows
   * under that very name, and the empty search keeps it.
   */
  lemma NewFolderListedUnderItsName(decodedPrefix: string, folderName: string)
    requires |decodedPrefix| == 0 || decodedPrefix[|decodedPrefix| - 1] == '/'
    requires |folderName| > 0 && '/' !in folderName
    ensures PrefixLabel(FolderPrefix(decodedPrefix, folderName)) == folderName
    ensures PrefixRowMatches(PrefixRow(FolderPrefix(decodedPrefix, folderName)), "")
  {
    FolderPrefixLabel(decodedPrefix, folderName);
  }
}
