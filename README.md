# PyHLS, modelled in Dafny

PyHLS is a small FastAPI server for HTTP Live Streaming (RFC 8216).

- An upload is encoded into an HLS directory: a `playlist.m3u8` and `.ts` segments.
- The upload is given four random identifiers:
  - an internal id that names its directory;
  - a public id that clients use;
  - an access key, from which per-resource signed JWT access tokens are derived;
  - an admin key that authorises refresh, info, extend and delete.
- Playlists are served rewritten, so that every segment line becomes an
  authenticated `/stream/<id>/<segment>?token=<token>` URL.
- Segment requests are checked against path traversal.
- Metadata lives in a JSON document behind the `VideoDatabase` class.

This project models the request handlers of `PyHLS/main.py`, the store in
`PyHLS/database.py` and the token functions of `PyHLS/utils.py`, and proves
properties of them. The top-level `database.py` and `utils.py` are
byte-identical copies of the `PyHLS` files. The `Database` and `Tokens`
modules model both, and the line numbers below hold for both.

Modules:

- `Options`: `Option` and `Result`.
- `Text`: the Python `str` operations the core uses:
  - `split`, `strip`, `startswith`/`endswith`, `in`, `join`.
  - `Split` follows Python's rule: n separators give n + 1 pieces.
- `PosixPath`: `os.path.join`, `normpath` and `abspath` on POSIX paths.
  - The roots `MEDIA_ROOT = "media"` and `HLS_ROOT = "media/hls"`.
  - Lemmas about how the server's paths resolve.
- `Tokens`: access and admin tokens (HMAC SHA-256 JWTs).
  - SHA-256 and the HMAC are uninterpreted terms. Two digests or two signatures
    are equal exactly when their inputs are, which is how collision resistance
    and unforgeability are taken.
  - `jwt.decode` checks the algorithm, the signature and `exp`.
- `Database`: `VideoDatabase` is a class whose one field is the stored
  document.
  - The document is a `Table`: the keys in insertion order, plus a map. Python
    dict order is observable in `get_video_by_internal_id` and in the order of
    the statistics.
  - Each method loads the table, changes it and saves it, as the source does.
- `Playlist`: `rewrite_playlist_with_auth_urls`, with
  `readlines`/universal newlines and the rewrite of one line. The rewrite is a
  method with the source's loop, proved against a function.
- `Handlers`:
  - Each handler is a function from the state before the request (store and
    file system) to a response and the state after it.
  - The class `Server` holds the `VideoDatabase` and the file system. It runs
    each handler step by step against them and is proved to follow the
    function.
  - The clock, `uuid4`, `secrets.token_hex`, ffmpeg, the JWT text encoding and
    the working directory are parameters.
- `HandlerProperties`: properties that relate several handlers:
  - gates (missing media, admin key, access token, segment name);
  - what upload, delete, refresh and extend leave behind;
  - round trips (refresh then play, upload then play);
  - an invariant that every stored expiry lies in 1..10080 minutes.

## Model

| member | source | states |
|---|---|---|
| Text.Split | PyHLS/utils.py:103 | `str.split` with a separator always yields at least one piece |
| Text.SplitCount | PyHLS/utils.py:103-104 | the number of pieces is the number of separators plus one |
| Text.SplitPiecesFree | PyHLS/main.py:261 | no piece contains the separator |
| Text.SplitWithoutSeparator | PyHLS/main.py:261 | text without the separator splits into itself alone |
| Text.SplitAround | PyHLS/utils.py:103 | splitting `a + sep + b` gives the pieces of `a` followed by the pieces of `b` |
| Text.SplitTwo | PyHLS/utils.py:103 | text with one separator and none elsewhere splits into exactly the two sides |
| Text.SplitHasTwoPieces | PyHLS/main.py:261 | text containing the separator splits into at least two pieces |
| Text.SplitLastPiece | PyHLS/main.py:261 | the last piece (`[-1]`) contains no separator, ends the text, and is the whole text or is preceded by a separator |
| Text.LeadingSpaces | PyHLS/main.py:258 | the count of leading whitespace: all of it is whitespace, and what follows is not |
| Text.Strip | PyHLS/main.py:258 | `str.strip` yields a slice of the text that neither starts nor ends with whitespace, with only whitespace cut on either side |
| Text.ConcatAppend | PyHLS/main.py:267 | `"".join` distributes over concatenation of the lists |
| Text.JoinWithSnoc | PyHLS/main.py:157 | joining one more part adds the separator and that part |
| PosixPath.Collapse | PyHLS/main.py:157 | the components `normpath` keeps are never empty and never `.` |
| PosixPath.CollapseSnoc | PyHLS/main.py:157 | appending a plain component (not empty, `.` or `..`, and without `/`) appends it to the normalised components |
| PosixPath.NormPathSnoc | PyHLS/main.py:157 | normalising a path with a plain component added normalises the path and adds the component |
| PosixPath.HlsRootNormal | PyHLS/main.py:13-14 | `HLS_ROOT` is `media/hls`, already normal, with components `media` and `hls` |
| PosixPath.PairNormal | PyHLS/main.py:14 | two plain components joined by `/` are already normal |
| PosixPath.JoinOntoCwd | PyHLS/main.py:156-157 | `abspath` joins a relative path onto the working directory |
| PosixPath.ResourceDirNormal | PyHLS/main.py:156 | `HLS_ROOT/<dir>` is normal and relative for a plain directory name |
| PosixPath.ResourcePathsNormal | PyHLS/main.py:154-157 | `HLS_ROOT/<dir>` and `HLS_ROOT/<dir>/<name>` are their own normal forms |
| PosixPath.ResourceFileResolves | PyHLS/main.py:154-158 | the absolute normalised segment path is the absolute resource directory, `/` and the name |
| PosixPath.UnderWorkingDirectory | PyHLS/main.py:154-158 | a plain name resolves under the normalised resource directory, for any working directory |
| PosixPath.AbsPathRooted | PyHLS/main.py:156-157 | `abspath` of anything is rooted when the working directory is |
| PosixPath.HlsJoin | PyHLS/main.py:31-32 | joining `HLS_ROOT` with a plain component adds `/` and the component |
| PosixPath.JoinPlain | PyHLS/main.py:90-91 | `os.path.join` onto a path not ending in `/` adds `/` and the component |
| PosixPath.HlsEntryResolves | PyHLS/main.py:31-32 | an entry of `HLS_ROOT` resolves to the rooted `HLS_ROOT`, `/` and its name |
| PosixPath.HlsRootUnderWorkingDirectory | PyHLS/main.py:186 | normalising `cwd/HLS_ROOT/<c>` gives normalised `cwd/HLS_ROOT`, `/` and `c` |
| PosixPath.NestedEntriesDiffer | PyHLS/main.py:31-32 | an entry of a directory is never a path two levels below it |
| Tokens.EncodeDecode | PyHLS/utils.py:49-55 | decoding an encoded token with its own key and algorithm gives the payload back before `exp` and `ExpiredSignature` from `exp` on; another key gives `InvalidSignature`, another algorithm `InvalidAlgorithm` |
| Tokens.JwtDecode | PyHLS/utils.py:55 | decoding succeeds iff the token is well formed, has the allowed algorithm and the key's signature over its payload, and `exp`, if present, is after now; then it yields the payload |
| Tokens.CreateAccessToken | PyHLS/utils.py:31-49 | an access token verifies for its media id and access key exactly before `iat + 60 * expiry_minutes`; `iat`, `exp` and `jti` are as issued |
| Tokens.VerifyAccessToken | PyHLS/utils.py:51-77 | acceptance implies a signature under the derived key, type `access`, the expected media id, the access-key hash and no expiry; a failed decode rejects |
| Tokens.ValidateTokenFormat | PyHLS/utils.py:97-107 | a token passes iff it contains exactly two dots (which also rejects the empty string) |
| Tokens.CreateAdminToken | PyHLS/utils.py:109-122 | an admin token verifies for its admin key exactly before `iat + 3600 * expiry_hours` |
| Tokens.VerifyAdminToken | PyHLS/utils.py:124-146 | acceptance implies a signature under the secret key, type `admin`, `admin` true, the admin-key hash and no expiry; a failed decode rejects |
| Tokens.SigningKeysDiffer | PyHLS/utils.py:79-82 | two access keys derive two signing keys under one secret |
| Tokens.SigningKeySeparatorAmbiguity | PyHLS/utils.py:81 | for all `a`, `b`, `c`, the distinct secrets `a:b` and `a` with access keys `c` and `b:c` derive the same signing key, because of the `:` separator |
| Tokens.AccessTokenRejectsOtherMedia | PyHLS/utils.py:62-63 | an access token never verifies for another media id, at any time |
| Tokens.AccessTokenRejectsOtherKey | PyHLS/utils.py:54-55 | an access token never verifies under another access key, for any media id |
| Tokens.AdminTokenIsNoAccessToken | PyHLS/utils.py:58-59 | an admin token is never accepted as an access token |
| Tokens.AccessTokenIsNoAdminToken | PyHLS/utils.py:129-130 | an access token is never accepted as an admin token |
| Tokens.AdminTokenRejectsOtherKey | PyHLS/utils.py:135-137 | an admin token never verifies for another admin key |
| Tokens.CompactSerializationFormat | PyHLS/utils.py:102-107 | three dot-free parts joined by dots split back into those parts and pass the format check |
| Database.Put | PyHLS/database.py:59 | assigning a key keeps the table well formed and updates just that key |
| Database.Drop | PyHLS/database.py:125 | removing keys from the order keeps exactly the others |
| Database.DropDistinct | PyHLS/database.py:125 | removing keys keeps the order duplicate-free |
| Database.Remove | PyHLS/database.py:86 | `del` keeps the table well formed and removes just that key |
| Database.DropTwice | PyHLS/database.py:124-125 | removing keys one after another is removing them together |
| Database.DropNone | PyHLS/database.py:124-125 | removing absent keys changes nothing |
| Database.DistinctCardinality | PyHLS/database.py:160 | a duplicate-free order has as many elements as entries |
| Database.TableSize | PyHLS/database.py:160 | `len(db_data)` is the length of the insertion order |
| Database.ExpiredKeysExact | PyHLS/database.py:108-121 | the collected keys are exactly those whose upload time parses and whose window has passed, without duplicates |
| Database.CleanedKeepsLiveRecords | PyHLS/database.py:101-130 | after cleanup exactly the unexpired records remain, unchanged |
| Database.CleanedCount | PyHLS/database.py:127-130 | the expired count plus the remaining records is the original size |
| Database.CleanedNothingExpired | PyHLS/database.py:127-128 | with nothing expired, cleanup leaves the table as it was |
| Database.KeysWithStatusExact | PyHLS/database.py:96-97 | the filtered keys are exactly those with that status, in order |
| Database.WithStatusExact | PyHLS/database.py:96-97 | the comprehension keeps exactly the records with that status, unchanged |
| Database.SumCountsIgnores | PyHLS/database.py:163-165 | a count for a label not listed does not change the sum |
| Database.SumCountsBump | PyHLS/database.py:165 | bumping one listed label's count raises the sum by one |
| Database.CleanupAsShipped | PyHLS/database.py:101-130 | as written: the loop raises `NameError` on the first record whose upload time parses; it returns 0 only when none does |
| Database.CleanupAsShippedRaisesOnExpiredRecord | PyHLS/database.py:115 | an expired record makes the shipped cleanup raise `NameError` instead of removing it |
| Database.ExpiredKeysStep | PyHLS/database.py:110-117 | one more loop iteration extends the collected keys by that record if it is expired |
| Database.CollectExpired | PyHLS/database.py:106-121 | the first loop collects the expired keys in order and counts them |
| Database.RemoveAll | PyHLS/database.py:124-125 | the second loop deletes every collected key in turn |
| Database.CleanupOutcome | PyHLS/database.py:124-128 | removing the collected keys yields the cleaned table; nothing collected leaves it as it was |
| Database.TallyStep | PyHLS/database.py:163-165 | one iteration of the status tally keeps counts equal to the labels seen so far |
| Database.VideoDatabase.constructor | PyHLS/database.py:10-19 | the store starts from the document on disk, or empty |
| Database.VideoDatabase.LoadDatabase | PyHLS/database.py:21-27 | loading yields the stored table |
| Database.VideoDatabase.SaveDatabase | PyHLS/database.py:29-48 | saving replaces the stored table |
| Database.VideoDatabase.StoreVideo | PyHLS/database.py:50-60 | the record is stored under its key with `created_at` and `updated_at` stamped; every other key is unchanged |
| Database.VideoDatabase.GetVideo | PyHLS/database.py:62-66 | a record is found iff its key is stored, and it is the stored one |
| Database.VideoDatabase.UpdateVideo | PyHLS/database.py:68-78 | true iff the key was stored; then the record is replaced with `updated_at` stamped, in place in the order; otherwise nothing changes |
| Database.VideoDatabase.DeleteVideo | PyHLS/database.py:80-89 | true iff the key was stored; afterwards it is absent, everything else is unchanged |
| Database.VideoDatabase.ListVideos | PyHLS/database.py:91-99 | with an empty or no status, the whole table; otherwise exactly the records with that status, in stored order |
| Database.VideoDatabase.CleanupExpiredVideos | PyHLS/database.py:101-130 | corrected: returns the number of expired records, and the table keeps exactly the unexpired ones |
| Database.VideoDatabase.GetVideoByInternalId | PyHLS/database.py:132-141 | none iff no record has that internal id; otherwise the first such record in stored order |
| Database.VideoDatabase.UpdateVideoStatus | PyHLS/database.py:143-153 | true iff the key was stored; then only its status and `updated_at` change |
| Database.VideoDatabase.GetDatabaseStats | PyHLS/database.py:155-171 | the total is the number of records; each status occurs once, counts its records and is present iff it has any; the counts sum to the total |
| Playlist.UniversalNewlines | PyHLS/main.py:253 | text mode leaves no `\r`, and keeps text without one unchanged |
| Playlist.IndexOf | PyHLS/main.py:254 | the first occurrence of a character |
| Playlist.SplitLines | PyHLS/main.py:254 | `readlines` pieces concatenate back to the text, and all but the last end with their only newline |
| Playlist.RewritePlaylistWithAuthUrls | PyHLS/main.py:251-267 | the loop's output is the concatenation of the rewritten lines |
| Playlist.RewriteAllSnoc | PyHLS/main.py:257-265 | one more loop iteration appends the rewrite of that line |
| Playlist.SegmentLineRewritten | PyHLS/main.py:259-263 | a stripped line ending in `.ts` becomes the authenticated URL of its last `/` component |
| Playlist.LastComponentIsSegmentName | PyHLS/main.py:261 | the last component of a `.ts` line has no `/` and ends the line |
| Playlist.OtherLineKept | PyHLS/main.py:264-265 | any other line is kept stripped, with a newline |
| Playlist.TagLineEndingInTsBecomesUri | PyHLS/main.py:259 | a tag line (starting with `#`) that ends in `.ts` is rewritten into a URL too |
| Playlist.StripKeepsInterior | PyHLS/main.py:258 | stripping a line adds no character and drops its newline |
| Playlist.SegmentUrlChars | PyHLS/main.py:262 | the URL is made of the media id, segment name, token and the fixed text |
| Playlist.RewriteLineChars | PyHLS/main.py:258-265 | a rewritten line ends in a newline and draws its other characters from the stripped line, id, token and fixed text |
| Playlist.RewrittenLineIsLine | PyHLS/main.py:258-265 | a rewritten line is one line: one final newline and no carriage return, given id and token without newlines |
| Playlist.ReadLinesOfLines | PyHLS/main.py:254 | lines that each end in their only newline read back as themselves |
| Playlist.RewritePreservesLines | PyHLS/main.py:251-267 | reading the rewritten playlist back gives the rewritten lines: as many as in the input |
| Handlers.RemoveIfPresent | PyHLS/main.py:47-48 | removing an existing file; a directory there raises, nothing there changes nothing |
| Handlers.ExtendedExpiry | PyHLS/main.py:234-237 | the new expiry is the sum, capped at 10080 |
| Handlers.Server.constructor | PyHLS/main.py:15 | the server holds the store, the file system and the environment |
| Handlers.Server.UploadMedia | PyHLS/main.py:19-71 | the handler's steps (directory, file, encoder, clean-up, store, token) give the response and state of `Upload` |
| Handlers.Server.RefreshAccessToken | PyHLS/main.py:73-110 | the handler follows `Refresh`: lookup, admin key, playlist check, new token, update |
| Handlers.Server.GetPlaylistHandler | PyHLS/main.py:112-135 | the handler follows `GetPlaylist` and changes nothing |
| Handlers.Server.GetSegmentHandler | PyHLS/main.py:137-163 | the handler follows `GetSegment` and changes nothing |
| Handlers.Server.DeleteMedia | PyHLS/main.py:165-190 | the handler follows `Delete`: record removed, then the directory tree |
| Handlers.Server.GetMediaInfoHandler | PyHLS/main.py:192-214 | the handler follows `GetMediaInfo` and changes nothing |
| Handlers.Server.ExtendMediaExpiry | PyHLS/main.py:216-249 | the handler follows `Extend` |
| HandlerProperties.AbsentMediaNotFound | PyHLS/main.py:80-82 | for an unknown id, refresh, playlist, segment, delete, info and extend all answer 404 "Media not found!" and change nothing |
| HandlerProperties.AdminKeyGate | PyHLS/main.py:85-86 | refresh, delete, info and extend answer 403 iff the admin key is wrong, and then change nothing |
| HandlerProperties.AccessTokenGate | PyHLS/main.py:122-123 | playlist and segment answer 403 iff the access token does not verify, whatever the segment name |
| HandlerProperties.SegmentNameGate | PyHLS/main.py:150-151 | with a valid token, a segment request is refused as an invalid name iff the name fails the check |
| HandlerProperties.ValidSegmentNameIsPlain | PyHLS/main.py:150 | a name passing the check is a plain path component |
| HandlerProperties.UuidHexIsPlain | PyHLS/main.py:25-31 | a `uuid4().hex`, and it with `.mp4`, are plain path components |
| HandlerProperties.SegmentPathCheckImplied | PyHLS/main.py:153-163 | for a name passing the check, the containment test always passes: the answer is the file under the resource directory if it exists, else "Segment not found" |
| HandlerProperties.ExtendStoresCappedExpiry | PyHLS/main.py:233-249 | extend reports the old expiry, the capped new one and the difference, stores it with the stamps, and changes no other record |
| HandlerProperties.PutKeepsExpiryInRange | PyHLS/database.py:59 | storing a record with expiry in 1..10080 keeps every stored expiry in range |
| HandlerProperties.UploadKeepsExpiryInRange | PyHLS/main.py:22 | upload keeps every stored expiry in 1..10080 |
| HandlerProperties.RefreshKeepsExpiryInRange | PyHLS/main.py:100-102 | refresh keeps every stored expiry in 1..10080 |
| HandlerProperties.ExtendKeepsExpiryInRange | PyHLS/main.py:233-241 | extend keeps every stored expiry in 1..10080 |
| HandlerProperties.DeleteKeepsExpiryInRange | PyHLS/main.py:181-184 | delete keeps every stored expiry in 1..10080 |
| HandlerProperties.RefreshRoundTrip | PyHLS/main.py:96-110 | a refreshed token verifies, and the playlist is served rather than refused, exactly before `now + 60 * minutes`; only that record's expiry and stamps change |
| HandlerProperties.DeleteRemovesOnlyThatMedia | PyHLS/main.py:180-190 | delete removes exactly that record and its directory tree; it fails only if a file sits where the directory is, leaving the files as they were |
| HandlerProperties.DeletedMediaNotFound | PyHLS/main.py:180-190 | after a delete, every handler answers 404 for that id |
| HandlerProperties.UploadLocations | PyHLS/main.py:31-33 | the upload's directory, media file and playlist resolve under the rooted `HLS_ROOT` |
| HandlerProperties.MediaFileOutsideDirectory | PyHLS/main.py:31-32 | the media file is neither the resource directory nor inside it |
| HandlerProperties.UploadFailureKeepsStore | PyHLS/main.py:39-44 | a failed encoding stores nothing and returns no upload |
| HandlerProperties.UploadFailureCleansUp | PyHLS/main.py:39-48 | a failed encoding answers "Encoding failed" and leaves neither the directory, anything in it, nor the media file; other files stay |
| HandlerProperties.FailedUploadStep | PyHLS/main.py:39-48 | the failing upload is the removal of the tree and the media file after the encoder ran |
| HandlerProperties.FailureCleanup | PyHLS/main.py:43-48 | removing the tree and then the file keeps every unrelated file |
| HandlerProperties.UploadSucceeded | PyHLS/main.py:50-71 | a successful upload stores the new record, returns its access token, removes the media file and keeps what the encoder wrote |
| HandlerProperties.UploadThenPlaylist | PyHLS/main.py:112-135 | after an upload, the playlist with the returned token is the rewritten encoder playlist before expiry, and 403 afterwards |

## Left out

- File I/O: the JSON file, `_init_database`, the backup-and-rename in `_save_database`, and `_load_database` giving `{}` on an unreadable file. Loading and saving read and replace the class's field, and the size in `get_database_stats` is a parameter.
- `threading.Lock` and concurrency. Each handler runs atomically. Interleavings are not modelled, including the unlocked load/delete/save in `delete_media`.
- The clock, `uuid.uuid4`, `secrets.token_hex` and the request's base URL are parameters. One clock value serves a whole request.
- Times are integer seconds, with no microseconds. ISO-8601 stamps are numbers, and `fromisoformat` is a parse-or-fail stamp.
- SHA-256, HMAC and base64url are uninterpreted terms. The text of an encoded JWT belongs to the library and is a codec parameter. Its round trip (`Faithful`) is an assumption of the lemmas that need it.
- `jwt.decode` is modelled as checking the algorithm, the signature and `exp` (expired when `exp <= now`). Leeway and other claims are not modelled.
- Tokens.ValidateTokenFormat: the `isinstance` check is implied by the type, as tokens are strings here.
- `generate_hls` (ffmpeg). An encoder run is a parameter: the files it wrote and whether it failed.
- `os.makedirs` creating missing parent directories. Only the resource directory is created.
- `hash_video_id` and `generate_secure_filename` are never called by the core and are not modelled.
- `env.py` is configuration. `SECRET_KEY` and `ALGORITHM` are a `Config` parameter.
- HTTP routing, status codes and media types. Responses are a datatype. The fixed success messages of upload, refresh and extend are not carried.
- Records missing the fields the server always writes (`internal_id`, `access_key`, `admin_key`) are not modelled, so the `KeyError` on them is not either.
- Timing-safe comparison: keys are compared with plain equality, as in the source.
- UTF-8 decoding of the playlist file. Its contents are text.
- Handlers.Locate: an absolute path is taken as is. A relative one is taken from the working directory with `normpath`; symbolic links are not modelled.
- Handlers.Server.UploadMedia: `expiry_minutes` within 1..10080 is a precondition, because the framework's query validation enforces it before the handler runs. The same holds for RefreshAccessToken and ExtendMediaExpiry.
- The timestamp strings `created_at`/`updated_at` are clock values, not ISO text.

## Findings

| source | as written | input that shows it | evidently intended | confidence | as-written member | corrected member |
|---|---|---|---|---|---|---|
| PyHLS/database.py:115 | `timedelta` is used but `database.py` imports only `datetime`, so the first record whose upload time parses raises `NameError`; the `except (ValueError, KeyError)` does not catch it and no expired record is ever removed | one record with `upload_time` at time 0 and no `expiry_minutes`, cleaned at time 3601 | the record is expired (3601 > 0 + 60·60) and is removed, and the count 1 is returned | not executed | Database.CleanupAsShippedRaisesOnExpiredRecord | Database.VideoDatabase.CleanupExpiredVideos |
