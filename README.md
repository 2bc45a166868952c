# s3-workbench core, modelled in Dafny

s3-workbench is a browser console for an S3-compatible object store. A Node
backend holds the store credentials and proxies every operation; a React
front end lists buckets, browses prefixes and uploads, views, downloads and
deletes objects. This project models the parts of it that hold logic rather
than pass-through calls:

- **Upload progress and cancellation** (`objects_route.dfy`, module
  `ObjectsRoute`). The backend keeps one process-wide progress record
  `{loaded, status}` and one abort-controller slot. The class `UploadTracker`
  holds both. Each handler step is one method: the upload request, the
  store's progress, success and failure callbacks, `abort-upload`, a tick of
  the `upload-progress` stream and a subscriber disconnect. Every step keeps
  `Valid()`: an idle or completed record carries no byte count, and an
  `uploading` status or a controller in the slot means some transfer is
  still running. The download handler's attachment filename is the decoded
  key after its last `/`.
- **Connection settings** (`config.dfy`, module `StoreConfig`). The class
  `Config` holds the four settings and the client. An `S3Client` is an
  immutable record of the settings it was built with. Each rebuild allocates
  a new one. `Valid()` says the client matches the current settings.
- **Bucket page** (`buckets.dfy`, module `Buckets`): the new-bucket name
  check, rule by rule; the delete confirmation; the case-insensitive table
  filter.
- **Object browser** (`object_browser.dfy`, module `ObjectBrowser`): the
  folder-name and file-view checks, the delete confirmation, the object and
  prefix search filters, the folder-marker key and the breadcrumb trail.
- **String and sequence operations** the above are built from
  (`strings.dfy`, `filtering.dfy`): JavaScript `split`, `join`, `pop`,
  `includes`, `toLowerCase`, `Number.prototype.toString` and
  `Array.prototype.filter`. Each is tied to an independent characterisation,
  for example "the text after the last separator" and "occurs at some index".
- **Key transport** (`key_codec.dfy`): keys cross HTTP as base64 (section 4
  of RFC 4648). Here they are opaque tokens, and decoding an encoded key
  gives it back. The program itself loses keys whose base64 form holds `/`
  (see "Left out").

Quirks of the code are modelled as written:

- The folder-name pattern's `.-_` is a character range (0x2E..0x5F). It
  accepts `/`, `:`, `?` and `@` and rejects `-`. The hint shown to the user says
  hyphens are allowed.
- A file name with no `.` is looked up whole in the viewing allow-list.
- The bucket-name check has no minimum length and accepts a trailing `.`.
  The page's Create button is separately disabled below three characters
  (frontend/src/app/components/Buckets/Buckets.tsx:372). So `a` passes the
  check but cannot be submitted from the page.
- At the bucket root the breadcrumb trail has one empty, disabled crumb.
- `abort-upload` resets the record to idle but leaves the controller in its
  slot. The slot is emptied only when some upload settles (success or
  failure), and a new upload replaces it.
  So "status is uploading exactly when the slot is full" is not an invariant
  of this code: `AbortBeforeSettling` reaches an idle record with a full
  slot. The model proves only the weaker `Valid()` above.

## Model

| member | source | states |
|---|---|---|
| ObjectsRoute.UploadTracker.constructor | backend/src/routes/api/objects/index.ts:123-126 | the record starts as loaded 0, status idle, and the abort slot is empty |
| ObjectsRoute.UploadTracker.SetUploadProgress | backend/src/routes/api/objects/index.ts:128-131 | overwrites loaded and status with the given values and changes nothing else |
| ObjectsRoute.UploadTracker.Snapshot | backend/src/routes/api/objects/index.ts:148-151 | the snapshot sent on the stream carries the record's current loaded and status |
| ObjectsRoute.UploadTracker.BeginUpload | backend/src/routes/api/objects/index.ts:176-214 | with no file part: a 400 reply and no state change; otherwise a fresh unfired controller replaces the slot, progress becomes (0, uploading), no reply yet, and the transfer targets the decoded key with 4 parallel parts and leavePartsOnError false |
| ObjectsRoute.UploadTracker.OnUploadProgress | backend/src/routes/api/objects/index.ts:216-218 | every progress event sets status uploading and loaded to the reported byte count, leaving the slot alone |
| ObjectsRoute.UploadTracker.OnUploadDone | backend/src/routes/api/objects/index.ts:220-223 | on success progress becomes (0, completed), the slot becomes empty and the reply is 'Object uploaded successfully' |
| ObjectsRoute.UploadTracker.OnUploadFailed | backend/src/routes/api/objects/index.ts:224-228 | on any failure the slot becomes empty and progress becomes (0, idle) |
| ObjectsRoute.UploadTracker.AbortUpload | backend/src/routes/api/objects/index.ts:166-174 | with a controller in the slot: it is fired, progress becomes (0, idle), reply 'Upload aborted'; with an empty slot: reply 'No upload to abort' and no change; the slot itself is never changed here |
| ObjectsRoute.UploadTracker.Subscribe | backend/src/routes/api/objects/index.ts:133-147 | a subscription starts with its timer running and its stream open |
| ObjectsRoute.UploadTracker.Tick | backend/src/routes/api/objects/index.ts:147-157 | a running timer emits the current {loaded, status}; if that status was completed, the record resets to (0, idle), the timer stops and the stream ends; otherwise nothing changes; a stopped timer emits nothing |
| ObjectsRoute.UploadTracker.Disconnect | backend/src/routes/api/objects/index.ts:159-163 | a subscriber disconnect resets the record to (0, idle) and stops the timer, leaving the slot alone |
| ObjectsRoute.AbortController.Abort | backend/src/routes/api/objects/index.ts:168 | firing the controller sets its aborted signal |
| ObjectsRoute.AbortBeforeSettling | backend/src/routes/api/objects/index.ts:166-228 | an upload begun and then aborted before it settles leaves the record (0, idle) with the fired controller still in the slot, so 'uploading exactly when the slot is full' is not kept |
| ObjectsRoute.DownloadFileName | backend/src/routes/api/objects/index.ts:73-74 | the filename is the suffix of the decoded key that holds no '/' and is either the whole key or preceded by '/' |
| ObjectsRoute.DownloadFileNameFlat | backend/src/routes/api/objects/index.ts:74 | a key with no '/' is offered under its own name |
| ObjectsRoute.DownloadFileNameNested | backend/src/routes/api/objects/index.ts:74 | a key folder + '/' + name, with no '/' in name, is offered as name |
| ObjectsRoute.Download | backend/src/routes/api/objects/index.ts:68-105 | when the store yields the object: an attachment of type application/octet-stream named by the derived filename, for the decoded key; when the store call fails: a 500 'Error downloading file' |
| StoreConfig.EnvLookup | backend/src/utils/config.ts:5-8 | an environment variable is defined exactly when it is set, and then has its value |
| StoreConfig.S3Client.constructor | backend/src/utils/config.ts:12-22 | a client records region, endpoint and the credential pair it was given, with path-style addressing on |
| StoreConfig.Config.constructor | backend/src/utils/config.ts:5-10 | the initial settings come from the four AWS environment variables and the client is built from them |
| StoreConfig.Config.InitializeS3Client | backend/src/utils/config.ts:12-22 | returns a newly allocated client built from the four current settings |
| StoreConfig.Config.UpdateConfig | backend/src/utils/config.ts:24-37 | after updateConfig(a, s, r, e) the settings are a, s, r and e, and the client is a new one built from them |
| StoreConfig.Config.GetConfig | backend/src/utils/config.ts:39-47 | returns the four current settings and the current client, which matches them, and changes no state |
| StoreConfig.UpdateThenGet | backend/src/utils/config.ts:24-47 | getConfig right after updateConfig(a, s, r, e) reports a, s, r, e and a new client built from them |
| StoreConfig.GetTwice | backend/src/utils/config.ts:39-47 | two getConfig calls with no update between them return identical settings and the same client |
| KeyCodec.DecodeEncode | backend/src/routes/api/objects/index.ts:73 | in the model's transport, decoding an encoded key gives the key back |
| Buckets.ValidateBucketName | frontend/src/app/components/Buckets/Buckets.tsx:72-109 | rejected when longer than 63, when not starting with a-z or 0-9 (so the empty name too), when any character is outside [a-z0-9.-], when ending in '-', when holding '..', '-.' or '.-', when IP-shaped; accepted exactly when every such rule passes and no listed bucket has the name, and with no list loaded every rule-passing name is accepted |
| Buckets.EmptyBucketNameRejected | frontend/src/app/components/Buckets/Buckets.tsx:79-81 | the empty name is rejected |
| Buckets.ExistingBucketNameRejected | frontend/src/app/components/Buckets/Buckets.tsx:103-106 | the name of any listed bucket is rejected |
| Buckets.JoinFour | frontend/src/app/components/Buckets/Buckets.tsx:99 | four pieces joined by '.' are the pieces with a dot between each neighbouring pair |
| Buckets.IpShapedOf | frontend/src/app/components/Buckets/Buckets.tsx:99-101 | any four non-empty digit runs joined by single dots are IP-shaped |
| Buckets.IpShapedParts | frontend/src/app/components/Buckets/Buckets.tsx:99-101 | every IP-shaped name is four digit runs joined by single dots, so IP shape is exactly the language of the pattern |
| Buckets.DottedQuadRejected | frontend/src/app/components/Buckets/Buckets.tsx:99-101 | a dotted quad such as 192.168.1.1 is rejected |
| Buckets.LooserThanStoreRules | frontend/src/app/components/Buckets/Buckets.tsx:72-109 | the one-character name 'a' and the dot-ended name 'abc.' are both accepted |
| Buckets.ValidateBucketToDelete | frontend/src/app/components/Buckets/Buckets.tsx:173-179 | deletion is confirmed exactly when the typed text equals the selected bucket name |
| Buckets.Rows | frontend/src/app/components/Buckets/Buckets.tsx:230-234 | no rows without a loaded list; otherwise one row per bucket, in order, with its name, creation date and the owner's display name |
| Buckets.FilteredRows | frontend/src/app/components/Buckets/Buckets.tsx:236-240 | a row is kept exactly when some field contains the search text ignoring case; an empty search keeps every row in order |
| Buckets.FilteredRowsInOrder | frontend/src/app/components/Buckets/Buckets.tsx:236-240 | the bucket filter keeps table order: filtering two runs of rows gives the kept rows of the first, then those of the second, and one row survives exactly when it matches |
| ObjectBrowser.ValidateFolderName | frontend/src/app/components/ObjectBrowser/ObjectBrowser.tsx:415-424 | valid exactly when non-empty and every character is a-z, A-Z, 0-9, '!', in the range '.'..'_', '*', an apostrophe, '(' or ')' |
| ObjectBrowser.FolderNamePatternAsWritten | frontend/src/app/components/ObjectBrowser/ObjectBrowser.tsx:419-420 | 'a/b', 'x:y@z' and 'ab?' are accepted while 'my-folder' and 'my folder' are rejected |
| ObjectBrowser.ValidFolderNameHasNoHyphen | frontend/src/app/components/ObjectBrowser/ObjectBrowser.tsx:419-420 | no accepted folder name holds a hyphen or a space, unlike the hint at line 800 |
| ObjectBrowser.FolderMarkerKey | frontend/src/app/components/ObjectBrowser/ObjectBrowser.tsx:440-442 | the marker key is the current prefix, then exactly the folder name, then '/.s3keep' (its length is the sum of the three), and its last '/'-segment is '.s3keep' |
| ObjectBrowser.FolderPrefix | frontend/src/app/components/ObjectBrowser/ObjectBrowser.tsx:452 | the prefix opened after creation is the current prefix, then exactly the folder name, then '/'; it is the marker key minus '.s3keep' |
| ObjectBrowser.NewFolderListedUnderItsName | frontend/src/app/components/ObjectBrowser/ObjectBrowser.tsx:440-452 | a folder created under a prefix that is empty or ends in '/', with a non-empty '/'-free name, is opened at a prefix that the listing labels with that name and the empty search keeps |
| ObjectBrowser.FolderMarkerReachesStore | frontend/src/app/components/ObjectBrowser/ObjectBrowser.tsx:442 | in the model's lossless transport, the backend decodes the marker key back to itself and would offer it for download as '.s3keep' |
| ObjectBrowser.ValidateFileView | frontend/src/app/components/ObjectBrowser/ObjectBrowser.tsx:170-179 | false above 1024*1024 bytes; otherwise true exactly when the text after the last '.' is on the allow-list |
| ObjectBrowser.FileViewWithoutDot | frontend/src/app/components/ObjectBrowser/ObjectBrowser.tsx:175 | a name without '.' is compared whole against the allow-list |
| ObjectBrowser.FileViewLastExtension | frontend/src/app/components/ObjectBrowser/ObjectBrowser.tsx:175 | for stem + '.' + ext with no '.' in ext, only ext is looked up |
| ObjectBrowser.FileViewTextFile | frontend/src/app/components/ObjectBrowser/ObjectBrowser.tsx:171-174 | 'notes.txt' of 100 bytes can be viewed, and cannot once over 1 MiB |
| ObjectBrowser.FileViewCaseSensitive | frontend/src/app/components/ObjectBrowser/ObjectBrowser.tsx:171-175 | 'photo.PNG' cannot be viewed, because the lookup is case-sensitive |
| ObjectBrowser.FileViewBareExtension | frontend/src/app/components/ObjectBrowser/ObjectBrowser.tsx:175 | a file named just 'md' can be viewed |
| ObjectBrowser.ValidateFileToDelete | frontend/src/app/components/ObjectBrowser/ObjectBrowser.tsx:372-378 | deletion is confirmed exactly when the typed text equals the last '/'-segment of the selected key |
| ObjectBrowser.DeleteConfirmedByFileName | frontend/src/app/components/ObjectBrowser/ObjectBrowser.tsx:373 | for a key inside a folder the bare file name confirms and the full key does not |
| ObjectBrowser.FilteredObjectRows | frontend/src/app/components/ObjectBrowser/ObjectBrowser.tsx:150-159 | an object row is kept exactly when the key's last segment, or the full text of another field, contains the search text ignoring case; an empty search keeps every row |
| ObjectBrowser.FilteredObjectRowsInOrder | frontend/src/app/components/ObjectBrowser/ObjectBrowser.tsx:150-159 | the object filter keeps table order: filtering two runs of rows gives the kept rows of the first, then those of the second, and one row survives exactly when it matches |
| ObjectBrowser.FolderPartOfKeyNotSearched | frontend/src/app/components/ObjectBrowser/ObjectBrowser.tsx:152-154 | the key field of folder + '/' + name matches a search exactly when name does |
| ObjectBrowser.PrefixLabel | frontend/src/app/components/ObjectBrowser/ObjectBrowser.tsx:163 | the prefix label is the last '/'-segment of the prefix minus its final character |
| ObjectBrowser.FilteredPrefixRows | frontend/src/app/components/ObjectBrowser/ObjectBrowser.tsx:161-167 | a prefix row is kept exactly when the prefix is non-empty, its label is non-empty and the label contains the search text ignoring case |
| ObjectBrowser.FilteredPrefixRowsInOrder | frontend/src/app/components/ObjectBrowser/ObjectBrowser.tsx:161-167 | the prefix filter keeps table order, and one prefix row survives exactly when it matches |
| ObjectBrowser.FolderPrefixLabel | frontend/src/app/components/ObjectBrowser/ObjectBrowser.tsx:161-167 | a folder parent + name + '/' under a parent prefix is labelled name and is kept by the empty search |
| ObjectBrowser.DropLast | frontend/src/app/components/ObjectBrowser/ObjectBrowser.tsx:163 | slice(0, -1) drops exactly the final character, and leaves the empty string empty |
| ObjectBrowser.CrumbParts | frontend/src/app/components/ObjectBrowser/ObjectBrowser.tsx:534 | the crumb segments are never empty as a list, none holds '/', and they join back to the prefix minus its final character |
| ObjectBrowser.Breadcrumbs | frontend/src/app/components/ObjectBrowser/ObjectBrowser.tsx:534-541 | crumb i shows segment i and targets the first i+1 segments joined by '/' plus '/', and only the last crumb is disabled |
| ObjectBrowser.BreadcrumbTargets | frontend/src/app/components/ObjectBrowser/ObjectBrowser.tsx:540-541 | for a prefix ending in '/', every crumb targets a prefix of it and the disabled last crumb targets the prefix itself |
| ObjectBrowser.BreadcrumbsOneCrumbPerLevel | frontend/src/app/components/ObjectBrowser/ObjectBrowser.tsx:534-543 | for a prefix made of '/'-free levels each followed by '/', the trail has one crumb per level and crumb i shows level i |
| ObjectBrowser.BreadcrumbsAtRoot | frontend/src/app/components/ObjectBrowser/ObjectBrowser.tsx:534-541 | at the bucket root the trail is one empty disabled crumb targeting '/' |
| Strings.Split | backend/src/routes/api/objects/index.ts:74 | split yields at least one piece, and no piece holds the separator |
| Strings.Join | frontend/src/app/components/ObjectBrowser/ObjectBrowser.tsx:540 | a join begins with its first piece |
| Strings.JoinEndsWithLast | frontend/src/app/components/ObjectBrowser/ObjectBrowser.tsx:540 | a join ends with its last piece |
| Strings.JoinSplit | frontend/src/app/components/ObjectBrowser/ObjectBrowser.tsx:540 | joining the pieces of a split with the same separator gives back the string |
| Strings.SplitNoSeparator | frontend/src/app/components/ObjectBrowser/ObjectBrowser.tsx:175 | a string without the separator splits into itself alone |
| Strings.SplitAfterSeparator | frontend/src/app/components/Buckets/Buckets.tsx:99 | a separator-free head followed by the separator becomes the first piece of the split |
| Strings.SplitJoin | frontend/src/app/components/Buckets/Buckets.tsx:99 | splitting a join of separator-free pieces gives back the pieces |
| Strings.JoinPrefix | frontend/src/app/components/ObjectBrowser/ObjectBrowser.tsx:540 | the first k pieces joined, plus a separator, begin the whole join plus a separator |
| Strings.LastSegmentLengthBound | backend/src/routes/api/objects/index.ts:74 | no candidate last segment is longer than another |
| Strings.LastSegmentUnique | backend/src/routes/api/objects/index.ts:74 | a string has at most one last segment |
| Strings.SeparatorOfSeveralPieces | backend/src/routes/api/objects/index.ts:74 | a split into more than one piece means the separator occurs in the string |
| Strings.ConsLastSegment | backend/src/routes/api/objects/index.ts:74 | putting a character in front keeps the last segment, unless the segment was the whole string and the character is not the separator |
| Strings.LastSegmentShorter | backend/src/routes/api/objects/index.ts:74 | in a string holding the separator, the last segment is shorter than the string |
| Strings.LastOfSplit | backend/src/routes/api/objects/index.ts:74 | the last piece of a split is the text after the last separator |
| Strings.LastSegment | backend/src/routes/api/objects/index.ts:74 | split(sep).pop() is a separator-free suffix that is the whole string or follows a separator |
| Strings.LastSegmentNoSeparator | frontend/src/app/components/ObjectBrowser/ObjectBrowser.tsx:175 | without the separator the last segment is the whole string |
| Strings.LastSegmentAfter | frontend/src/app/components/ObjectBrowser/ObjectBrowser.tsx:153 | whatever precedes a final separator does not affect the last segment |
| Strings.Includes | frontend/src/app/components/ObjectBrowser/ObjectBrowser.tsx:154 | a string includes each of its prefixes, and never includes a longer string |
| Strings.IncludesFromOccurrence | frontend/src/app/components/ObjectBrowser/ObjectBrowser.tsx:154 | an occurrence at some index makes includes true |
| Strings.OccurrenceFromIncludes | frontend/src/app/components/ObjectBrowser/ObjectBrowser.tsx:154 | when includes is true, some index holds an occurrence |
| Strings.IncludesIff | frontend/src/app/components/ObjectBrowser/ObjectBrowser.tsx:154 | includes holds exactly when the search text occurs at some index |
| Strings.IncludesEmpty | frontend/src/app/components/Buckets/Buckets.tsx:239 | every string includes the empty string |
| Strings.ToLowerChar | frontend/src/app/components/Buckets/Buckets.tsx:239 | each letter A..Z maps to the letter at the same position in a..z, and every other character is unchanged |
| Strings.ToLower | frontend/src/app/components/Buckets/Buckets.tsx:239 | lower-casing keeps the length and lower-cases each character |
| Strings.DigitChar | frontend/src/app/components/ObjectBrowser/ObjectBrowser.tsx:156 | a value below ten becomes a decimal digit character |
| Strings.DigitValue | frontend/src/app/components/ObjectBrowser/ObjectBrowser.tsx:156 | a digit character has a value below ten that maps back to it |
| Strings.NatToDecimal | frontend/src/app/components/ObjectBrowser/ObjectBrowser.tsx:156 | a byte count prints as a non-empty run of digits with no leading zero |
| Strings.DecimalRoundTrip | frontend/src/app/components/ObjectBrowser/ObjectBrowser.tsx:156 | reading back the printed digits of a byte count gives the count |
| Filtering.Filter | frontend/src/app/components/Buckets/Buckets.tsx:236 | filter keeps exactly the elements satisfying the test and is no longer than its input |
| Filtering.FilterOne | frontend/src/app/components/Buckets/Buckets.tsx:236 | a single element is kept exactly when it passes the test |
| Filtering.FilterConcat | frontend/src/app/components/Buckets/Buckets.tsx:236 | filtering a concatenation is the concatenation of the filtered parts, so kept elements stay in order and keep their multiplicity |
| Filtering.FilterKeepsAll | frontend/src/app/components/Buckets/Buckets.tsx:236-240 | a filter whose test every element passes returns the sequence unchanged |
| Filtering.MatchesIgnoringCase | frontend/src/app/components/Buckets/Buckets.tsx:239 | a value matches exactly when the lower-cased search text occurs at some index of the lower-cased value, which needs the search to be no longer than the value |
| Filtering.EmptySearchMatches | frontend/src/app/components/Buckets/Buckets.tsx:239 | the empty search text matches every value |
| Filtering.MatchIgnoresSearchCase | frontend/src/app/components/Buckets/Buckets.tsx:239 | matching gives the same answer for the search text and its lower-cased form |

## Left out

- S3 SDK calls (listing, get, delete, create and delete bucket, the multi-part `Upload`) are foreign library code. The upload's outcome enters the model only as the progress, success and failure callbacks. The download's outcome enters only as the flag `storeFound`.
- Stream piping, `reply.raw` writes, server-sent-event framing, the one-second `setInterval` cadence and the interleaving of concurrent requests are I/O and timing. Each handler step is one atomic transition, and the steps may be called in any order that keeps their requirements.
- ObjectsRoute.UploadTracker.OnUploadProgress: requires a started, unsettled transfer (ghost `inFlight > 0`). This stands for "the store only calls back for an upload it is running"; the callbacks do not say which of several overlapping uploads they belong to.
- ObjectsRoute.UploadTracker.BeginUpload: a request that is not multipart makes `req.file()` throw (backend/src/routes/api/objects/index.ts:183) before any state change; the model has no such path. The 10 GiB `fileSize` limit is enforced by the multipart parser while the stream is read. It reaches the model only as a failure callback. A key that is not valid base64 (where `atob` throws) is not modelled.
- ObjectsRoute.Download: the `Access-Control-Expose-Headers` header of the reply (backend/src/routes/api/objects/index.ts:88) is not modelled.
- ObjectBrowser.ValidateFileView: sizes are integers. A `NaN` size, which passes the source's size test because `NaN > 1048576` is false (frontend/src/app/components/ObjectBrowser/ObjectBrowser.tsx:172), is not modelled.
- The `view` endpoint (backend/src/routes/api/objects/index.ts:47-65), listing and object deletion are pass-through calls with no logic beyond decoding the key.
- The model-import endpoint (backend/src/routes/api/objects/index.ts:232-241) only logs.
- ObjectBrowser.FolderMarkerReachesStore and KeyCodec.DecodeEncode: the model's key transport is lossless by construction, but the program loses every key whose base64 form holds `/`. The encoded key is put raw into a path segment (frontend/src/app/components/ObjectBrowser/ObjectBrowser.tsx:443, :452, :390, :636), and the route parameter `:encodedKey` (backend/src/routes/api/objects/index.ts:177) cannot hold `/`. Such a request matches no route, and no handler runs. For example, the folder name `ab?` passes ObjectBrowser.ValidateFolderName, but its marker key `ab?/.s3keep` encodes to `YWI/Ly5zM2tlZXA=`, so no marker is created. Any limit on path-parameter length in the server setup is not part of this model.
- KeyCodec.DecodeEncode: base64 itself is not modelled. Encoded keys are opaque tokens, so the round trip holds by construction. `Encode` is total, but `btoa` accepts only Latin-1 text: a key holding a character above U+00FF (such as `日本.txt`) makes the browser throw when it encodes a listed key (frontend/src/app/components/ObjectBrowser/ObjectBrowser.tsx:636) or an uploaded file name (frontend/src/app/components/ObjectBrowser/ObjectBrowser.tsx:307), and no request is sent.
- Strings.ToLowerChar: only A..Z are lower-cased; every other character is left alone, while JavaScript's `toLowerCase` also maps letters such as `É` to `é`. Strings.ToLower, Filtering.MatchesIgnoringCase and the three search filters (Buckets.FilteredRows, ObjectBrowser.FilteredObjectRows, ObjectBrowser.FilteredPrefixRows) inherit this gap: a search for `é` does not find `É` in the model.
- Strings.NatToDecimal: only non-negative integers are printed. JavaScript's exponent notation from 1e21 upwards is not modelled, and neither is `NaN` from a `parseInt` that fails.
- `formatBytes` and the upload-percentage `Math.round` arithmetic are floating point. The formatted size reaches the model as a given string field of the row.
- The locale-dependent `localeCompare` sort of the bucket table is not modelled.
- React state, modals, routing and rendering are not modelled. The browser-side abort of the HTTP upload request (frontend/src/app/components/ObjectBrowser/ObjectBrowser.tsx:281-293) is not modelled either.
- StoreConfig.Config.GetConfig: requires `Valid()`, which every constructor and update establishes. The atomicity of the swap with respect to concurrent requests is not modelled.
