/**
 * The request handlers of PyHLS/main.py as transitions over the metadata
 * store and the file system. Each handler is specified by a function of
 * the state before the request, giving the response and the state after
 * it; the `Server` class runs the handlers step by step against a
 * `VideoDatabase` and a file system it updates, and is proved to follow
 * the functions. The checks run in the source's order: the record lookup,
 * then the admin key or the access token, then names and files.
 */
module Handlers {
  import opened Options
  import opened Text
  import opened PosixPath
  import opened Tokens
  import opened Database
  import opened Playlist

  // ---------------------------------------------------------------------
  // Environment

  /**
   * `jwt.encode`'s text output and `jwt.decode`'s parsing of a token
   * string, which belong to the JWT library.
   */
  datatype Codec = Codec(render: Jws -> string, parse: string -> Token)

  /** Parsing gives back every rendered token. */
  ghost predicate Faithful(codec: Codec) {
    forall j :: codec.parse(codec.render(j)) == Compact(j)
  }

  /** The configuration, the token codec and the process's working directory. */
  datatype Env = Env(cfg: Config, codec: Codec, cwd: string)

  /** What is at a path: a directory, or a file with its contents. */
  datatype Entry = Directory | File(content: string)

  /** The file system, by absolute normalised path. */
  type FileSystem = map<string, Entry>

  /** The location the operating system gives a path: relative paths are taken from the working directory. */
  function Locate(cwd: string, p: string): string {
    if StartsWith(p, "/") then p else AbsPath(cwd, p)
  }

  /** `os.path.exists(p)`, with what is there. */
  function Lookup(fs: FileSystem, cwd: string, p: string): Option<Entry> {
    var loc := Locate(cwd, p);
    if loc in fs then Some(fs[loc]) else None
  }

  /** `shutil.rmtree` of a directory: it and everything below it go. */
  function RemoveTree(fs: FileSystem, dir: string): FileSystem
  {
    map k | k in fs && k != dir && !StartsWith(k, dir + "/") :: fs[k]
  }

  /** `if os.path.exists(p): os.remove(p)`: a directory there makes `os.remove` raise. */
  function RemoveIfPresent(fs: FileSystem, loc: string): (r: Result<FileSystem, string>)
    ensures r.Err? <==> loc in fs && fs[loc].Directory?
    ensures r.Ok? ==> r.value == fs - {loc}
  {
    if loc !in fs then
      assert fs - {loc} == fs;
      Ok(fs)
    else if fs[loc].Directory? then Err("IsADirectoryError")
    else Ok(fs - {loc})
  }

  /**
   * What `generate_hls` did: the files ffmpeg wrote (by location), and
   * whether it failed and with what message (ffmpeg's standard error).
   */
  datatype EncoderRun =
    | Encoded(written: FileSystem)
    | EncoderFailed(written: FileSystem, message: string)

  /** `uuid.uuid4().hex`: 32 lower-case hexadecimal digits. */
  predicate UuidHex(s: string) {
    |s| == 32 && forall i :: 0 <= i < |s| ==> s[i] in "0123456789abcdef"
  }

  /** The four random identifiers an upload draws. */
  datatype NewIds = NewIds(internalId: string, publicId: string, accessKey: string, adminKey: string)

  predicate FreshIds(ids: NewIds) {
    UuidHex(ids.internalId) && UuidHex(ids.publicId) && UuidHex(ids.accessKey) && UuidHex(ids.adminKey)
  }

  // ---------------------------------------------------------------------
  // Responses

  datatype Response =
    | NotFound(detail: string)
    | Forbidden(detail: string)
    | BadRequest(detail: string)
    /** An `HTTPException` with status 500. */
    | ServerError(detail: string)
    /** An exception no handler catches, which the framework answers with status 500. */
    | Unhandled(exception: string)
    | Uploaded(mediaId: string, accessToken: string, adminKey: string, playlistUrl: string, expiresInMinutes: int)
    | Refreshed(mediaId: string, accessToken: string, playlistUrl: string, expiresInMinutes: int)
    | PlaylistBody(content: string)
    | SegmentFile(path: string)
    | Deleted(message: string)
    | Info(mediaId: string, uploadTime: Timestamp, expiryMinutes: int, lastTokenRefresh: Option<int>,
           createdAt: Option<int>, updatedAt: Option<int>)
    | Extended(mediaId: string, previousExpiryMinutes: int, newExpiryMinutes: int, extendedByMinutes: int)

  /** A response with the store and the file system it leaves behind. */
  datatype Step = Step(response: Response, table: Table, fs: FileSystem)

  const MaxExpiryMinutes: int := 10080

  function PlaylistUrl(baseUrl: string, mediaId: string, accessToken: string): string {
    baseUrl + "stream/" + mediaId + "/playlist.m3u8?token=" + accessToken
  }

  function ResourceDir(internalId: string): string {
    PathJoin(HlsRoot, internalId)
  }

  function PlaylistPath(internalId: string): string {
    PathJoin(ResourceDir(internalId), "playlist.m3u8")
  }

  /** The segment-name check of `get_segment`. */
  predicate ValidSegmentName(segmentName: string) {
    EndsWith(segmentName, ".ts") && '/' !in segmentName && !Contains(segmentName, "..")
  }

  /** `min(current + additional, 10080)`. */
  function ExtendedExpiry(current: int, additional: int): (r: int)
    ensures r <= MaxExpiryMinutes && r <= current + additional
    ensures r == current + additional || r == MaxExpiryMinutes
  {
    if current + additional < MaxExpiryMinutes then current + additional else MaxExpiryMinutes
  }

  /** The record an upload stores, before `store_video` stamps it. */
  function NewRecord(ids: NewIds, expiryMinutes: int, now: int): Record {
    Record(ids.publicId, ids.internalId, ids.accessKey, ids.adminKey, Some(At(now)), Some(expiryMinutes),
           None, None, None, None, None)
  }

  // ---------------------------------------------------------------------
  // The handlers, as functions of the state before the request

  /** `upload_media`. */
  function Upload(env: Env, table: Table, fs: FileSystem, ids: NewIds, media: string, expiryMinutes: int,
                  encoder: EncoderRun, now: int, jti: string, baseUrl: string): Step
  {
    var dirLoc := Locate(env.cwd, ResourceDir(ids.internalId));
    var mediaLoc := Locate(env.cwd, PathJoin(HlsRoot, ids.internalId + ".mp4"));
    if dirLoc in fs && fs[dirLoc].File? then Step(Unhandled("FileExistsError"), table, fs)
    else
      var made := fs[dirLoc := Directory];
      if mediaLoc in made && made[mediaLoc].Directory? then Step(Unhandled("IsADirectoryError"), table, made)
      else
        var encoded := made[mediaLoc := File(media)] + encoder.written;
        if encoder.EncoderFailed? then
          var (cleared, failure) :=
            if encoded[dirLoc].Directory? then
              (RemoveTree(encoded, dirLoc), ServerError("Encoding failed: " + encoder.message + "!"))
            else (encoded, Unhandled("NotADirectoryError"));
          match RemoveIfPresent(cleared, mediaLoc)
          case Err(e) => Step(Unhandled(e), table, cleared)
          case Ok(after) => Step(failure, table, after)
        else
          match RemoveIfPresent(encoded, mediaLoc)
          case Err(e) => Step(Unhandled(e), table, encoded)
          case Ok(after) =>
            var stored := NewRecord(ids, expiryMinutes, now).(createdAt := Some(now), updatedAt := Some(now));
            var accessToken := env.codec.render(CreateAccessToken(env.cfg, ids.publicId, ids.accessKey, expiryMinutes, now, jti));
            Step(Uploaded(ids.publicId, accessToken, ids.adminKey, PlaylistUrl(baseUrl, ids.publicId, accessToken), expiryMinutes),
                 Put(table, ids.publicId, stored), after)
  }

  /** `refresh_access_token`. */
  function Refresh(env: Env, table: Table, fs: FileSystem, mediaId: string, adminKey: string, expiryMinutes: int,
                   now: int, jti: string, baseUrl: string): Step
  {
    if mediaId !in table.rows then Step(NotFound("Media not found!"), table, fs)
    else
      var record := table.rows[mediaId];
      if record.adminKey != adminKey then Step(Forbidden("Invalid admin key!"), table, fs)
      else if Lookup(fs, env.cwd, PlaylistPath(record.internalId)).None? then Step(NotFound("Media files not found!"), table, fs)
      else
        var accessToken := env.codec.render(CreateAccessToken(env.cfg, mediaId, record.accessKey, expiryMinutes, now, jti));
        var updated := record.(expiryMinutes := Some(expiryMinutes), lastTokenRefresh := Some(now));
        Step(Refreshed(mediaId, accessToken, PlaylistUrl(baseUrl, mediaId, accessToken), expiryMinutes),
             Put(table, mediaId, updated.(updatedAt := Some(now))), fs)
  }

  /** `get_playlist`, which changes nothing. */
  function GetPlaylist(env: Env, table: Table, fs: FileSystem, mediaId: string, accessToken: string, now: int): Response {
    if mediaId !in table.rows then NotFound("Media not found!")
    else
      var record := table.rows[mediaId];
      if !VerifyAccessToken(env.cfg, env.codec.parse(accessToken), mediaId, record.accessKey, now) then
        Forbidden("Invalid or expired access token!")
      else
        match Lookup(fs, env.cwd, PlaylistPath(record.internalId))
        case None => NotFound("Playlist not found!")
        case Some(Directory) => Unhandled("IsADirectoryError")
        case Some(File(content)) => PlaylistBody(RewrittenPlaylist(content, mediaId, accessToken))
  }

  /** `get_segment`, which changes nothing. */
  function GetSegment(env: Env, table: Table, fs: FileSystem, mediaId: string, segmentName: string,
                      accessToken: string, now: int): Response {
    if mediaId !in table.rows then NotFound("Media not found!")
    else
      var record := table.rows[mediaId];
      if !VerifyAccessToken(env.cfg, env.codec.parse(accessToken), mediaId, record.accessKey, now) then
        Forbidden("Invalid or expired access token!")
      else if !ValidSegmentName(segmentName) then BadRequest("Invalid segment name!")
      else
        var segmentPath := PathJoin(ResourceDir(record.internalId), segmentName);
        var absHlsDir := AbsPath(env.cwd, ResourceDir(record.internalId));
        var normSegmentPath := AbsPath(env.cwd, NormPath(segmentPath));
        if !StartsWith(normSegmentPath, absHlsDir + "/") then BadRequest("Invalid segment path!")
        else if Lookup(fs, env.cwd, normSegmentPath).None? then NotFound("Segment not found")
        else SegmentFile(normSegmentPath)
  }

  /** `delete_media`: the record goes first, then the resource's directory, if there is one. */
  function Delete(env: Env, table: Table, fs: FileSystem, mediaId: string, adminKey: string): Step {
    if mediaId !in table.rows then Step(NotFound("Media not found!"), table, fs)
    else
      var record := table.rows[mediaId];
      if record.adminKey != adminKey then Step(Forbidden("Invalid admin key!"), table, fs)
      else
        var remaining := Remove(table, mediaId);
        var dirLoc := Locate(env.cwd, ResourceDir(record.internalId));
        if dirLoc !in fs then Step(Deleted("Media successfully deleted!"), remaining, fs)
        else if fs[dirLoc].File? then Step(Unhandled("NotADirectoryError"), remaining, fs)
        else Step(Deleted("Media successfully deleted!"), remaining, RemoveTree(fs, dirLoc))
  }

  /** `get_media_info`, which changes nothing; a record without upload time raises `KeyError`. */
  function GetMediaInfo(table: Table, mediaId: string, adminKey: string): Response {
    if mediaId !in table.rows then NotFound("Media not found!")
    else
      var record := table.rows[mediaId];
      if record.adminKey != adminKey then Forbidden("Invalid admin key!")
      else if record.uploadTime.None? then Unhandled("KeyError")
      else Info(mediaId, record.uploadTime.value, ExpiryMinutesOf(record), record.lastTokenRefresh,
                record.createdAt, record.updatedAt)
  }

  /** `extend_media_expiry`. */
  function Extend(table: Table, fs: FileSystem, mediaId: string, adminKey: string, additionalMinutes: int,
                  now: int): Step {
    if mediaId !in table.rows then Step(NotFound("Media not found!"), table, fs)
    else
      var record := table.rows[mediaId];
      if record.adminKey != adminKey then Step(Forbidden("Invalid admin key!"), table, fs)
      else
        var currentExpiry := ExpiryMinutesOf(record);
        var newExpiry := ExtendedExpiry(currentExpiry, additionalMinutes);
        var updated := record.(expiryMinutes := Some(newExpiry), expiryExtendedAt := Some(now));
        Step(Extended(mediaId, currentExpiry, newExpiry, newExpiry - currentExpiry),
             Put(table, mediaId, updated.(updatedAt := Some(now))), fs)
  }

  // ---------------------------------------------------------------------
  // The server

  /** The module-level state of PyHLS/main.py: the store `db` and the file system. */
  class Server {
    const db: VideoDatabase
    var fs: FileSystem
    const env: Env

    ghost predicate Valid()
      reads this, db
    {
      db.Valid()
    }

    constructor (db: VideoDatabase, fs: FileSystem, env: Env)
      requires db.Valid()
      ensures Valid() && this.db == db && this.fs == fs && this.env == env
    {
      this.db := db;
      this.fs := fs;
      this.env := env;
    }

    function PathExists(p: string): (r: Option<Entry>)
      reads this
    {
      Lookup(fs, env.cwd, p)
    }

    method UploadMedia(ids: NewIds, media: string, expiryMinutes: int, encoder: EncoderRun, now: int,
                       jti: string, baseUrl: string) returns (response: Response)
      requires Valid() && FreshIds(ids) && 1 <= expiryMinutes <= MaxExpiryMinutes
      modifies this, db
      ensures Valid()
      ensures Step(response, db.table, fs) ==
              Upload(env, old(db.table), old(fs), ids, media, expiryMinutes, encoder, now, jti, baseUrl)
    {
      var mediaPath := PathJoin(HlsRoot, ids.internalId + ".mp4");
      var hlsDir := ResourceDir(ids.internalId);
      var dirLoc := Locate(env.cwd, hlsDir);
      if dirLoc in fs && fs[dirLoc].File? {
        return Unhandled("FileExistsError");
      }
      fs := fs[dirLoc := Directory];
      var mediaLoc := Locate(env.cwd, mediaPath);
      if mediaLoc in fs && fs[mediaLoc].Directory? {
        return Unhandled("IsADirectoryError");
      }
      fs := fs[mediaLoc := File(media)];
      fs := fs + encoder.written;
      var raised: Option<Response> := None;
      if encoder.EncoderFailed? {
        if fs[dirLoc].Directory? {
          fs := RemoveTree(fs, dirLoc);
          raised := Some(ServerError("Encoding failed: " + encoder.message + "!"));
        } else {
          raised := Some(Unhandled("NotADirectoryError"));
        }
      }
      // finally: the uploaded file goes in every case
      if mediaLoc in fs {
        if fs[mediaLoc].Directory? {
          return Unhandled("IsADirectoryError");
        }
        fs := fs - {mediaLoc};
      }
      if raised.Some? {
        return raised.value;
      }
      var mediaData := NewRecord(ids, expiryMinutes, now);
      db.StoreVideo(ids.publicId, mediaData, now);
      var accessToken := env.codec.render(CreateAccessToken(env.cfg, ids.publicId, ids.accessKey, expiryMinutes, now, jti));
      response := Uploaded(ids.publicId, accessToken, ids.adminKey, PlaylistUrl(baseUrl, ids.publicId, accessToken),
                           expiryMinutes);
    }

    method RefreshAccessToken(mediaId: string, adminKey: string, expiryMinutes: int, now: int, jti: string,
                              baseUrl: string) returns (response: Response)
      requires Valid() && 1 <= expiryMinutes <= MaxExpiryMinutes
      modifies db
      ensures Valid()
      ensures Step(response, db.table, fs) ==
              Refresh(env, old(db.table), fs, mediaId, adminKey, expiryMinutes, now, jti, baseUrl)
    {
      var mediaData := db.GetVideo(mediaId);
      if mediaData.None? {
        return NotFound("Media not found!");
      }
      var record := mediaData.value;
      if record.adminKey != adminKey {
        return Forbidden("Invalid admin key!");
      }
      var internalId := record.internalId;
      var hlsDir := ResourceDir(internalId);
      var playlistPath := PathJoin(hlsDir, "playlist.m3u8");
      if PathExists(playlistPath).None? {
        return NotFound("Media files not found!");
      }
      var accessToken := env.codec.render(CreateAccessToken(env.cfg, mediaId, record.accessKey, expiryMinutes, now, jti));
      record := record.(expiryMinutes := Some(expiryMinutes));
      record := record.(lastTokenRefresh := Some(now));
      var _ := db.UpdateVideo(mediaId, record, now);
      response := Refreshed(mediaId, accessToken, PlaylistUrl(baseUrl, mediaId, accessToken), expiryMinutes);
    }

    method GetPlaylistHandler(mediaId: string, accessToken: string, now: int) returns (response: Response)
      requires Valid()
      ensures response == GetPlaylist(env, db.table, fs, mediaId, accessToken, now)
    {
      var mediaData := db.GetVideo(mediaId);
      if mediaData.None? {
        return NotFound("Media not found!");
      }
      var record := mediaData.value;
      if !VerifyAccessToken(env.cfg, env.codec.parse(accessToken), mediaId, record.accessKey, now) {
        return Forbidden("Invalid or expired access token!");
      }
      var internalId := record.internalId;
      var playlistPath := PathJoin(PathJoin(HlsRoot, internalId), "playlist.m3u8");
      var entry := PathExists(playlistPath);
      if entry.None? {
        return NotFound("Playlist not found!");
      }
      if entry.value.Directory? {
        return Unhandled("IsADirectoryError");
      }
      var updatedPlaylist := RewritePlaylistWithAuthUrls(ReadLines(entry.value.content), mediaId, accessToken);
      response := PlaylistBody(updatedPlaylist);
    }

    method GetSegmentHandler(mediaId: string, segmentName: string, accessToken: string, now: int)
      returns (response: Response)
      requires Valid()
      ensures response == GetSegment(env, db.table, fs, mediaId, segmentName, accessToken, now)
    {
      var mediaData := db.GetVideo(mediaId);
      if mediaData.None? {
        return NotFound("Media not found!");
      }
      var record := mediaData.value;
      if !VerifyAccessToken(env.cfg, env.codec.parse(accessToken), mediaId, record.accessKey, now) {
        return Forbidden("Invalid or expired access token!");
      }
      if !EndsWith(segmentName, ".ts") || '/' in segmentName || Contains(segmentName, "..") {
        return BadRequest("Invalid segment name!");
      }
      var internalId := record.internalId;
      var segmentPath := PathJoin(PathJoin(HlsRoot, internalId), segmentName);
      var absHlsDir := AbsPath(env.cwd, PathJoin(HlsRoot, internalId));
      var normSegmentPath := AbsPath(env.cwd, NormPath(segmentPath));
      if !StartsWith(normSegmentPath, absHlsDir + "/") {
        return BadRequest("Invalid segment path!");
      }
      if PathExists(normSegmentPath).None? {
        return NotFound("Segment not found");
      }
      response := SegmentFile(normSegmentPath);
    }

    method DeleteMedia(mediaId: string, adminKey: string) returns (response: Response)
      requires Valid()
      modifies this, db
      ensures Valid()
      ensures Step(response, db.table, fs) == Delete(env, old(db.table), old(fs), mediaId, adminKey)
    {
      var mediaData := db.GetVideo(mediaId);
      if mediaData.None? {
        return NotFound("Media not found!");
      }
      if mediaData.value.adminKey != adminKey {
        return Forbidden("Invalid admin key!");
      }
      var internalId := mediaData.value.internalId;
      var contents := db.LoadDatabase();
      contents := Remove(contents, mediaId);
      db.SaveDatabase(contents);
      var hlsDir := Locate(env.cwd, PathJoin(HlsRoot, internalId));
      if hlsDir in fs {
        if fs[hlsDir].File? {
          return Unhandled("NotADirectoryError");
        }
        fs := RemoveTree(fs, hlsDir);
      }
      response := Deleted("Media successfully deleted!");
    }

    method GetMediaInfoHandler(mediaId: string, adminKey: string) returns (response: Response)
      requires Valid()
      ensures response == GetMediaInfo(db.table, mediaId, adminKey)
    {
      var mediaData := db.GetVideo(mediaId);
      if mediaData.None? {
        return NotFound("Media not found!");
      }
      var record := mediaData.value;
      if record.adminKey != adminKey {
        return Forbidden("Invalid admin key!");
      }
      if record.uploadTime.None? {
        return Unhandled("KeyError");
      }
      response := Info(mediaId, record.uploadTime.value, record.expiryMinutes.GetOr(DefaultExpiryMinutes),
                       record.lastTokenRefresh, record.createdAt, record.updatedAt);
    }

    method ExtendMediaExpiry(mediaId: string, adminKey: string, additionalMinutes: int, now: int)
      returns (response: Response)
      requires Valid() && 1 <= additionalMinutes <= MaxExpiryMinutes
      modifies db
      ensures Valid()
      ensures Step(response, db.table, fs) == Extend(old(db.table), fs, mediaId, adminKey, additionalMinutes, now)
    {
      var mediaData := db.GetVideo(mediaId);
      if mediaData.None? {
        return NotFound("Media not found!");
      }
      var record := mediaData.value;
      if record.adminKey != adminKey {
        return Forbidden("Invalid admin key!");
      }
      var currentExpiry := record.expiryMinutes.GetOr(DefaultExpiryMinutes);
      var newExpiry := currentExpiry + additionalMinutes;
      newExpiry := if newExpiry < MaxExpiryMinutes then newExpiry else MaxExpiryMinutes;
      record := record.(expiryMinutes := Some(newExpiry));
      record := record.(expiryExtendedAt := Some(now));
      var _ := db.UpdateVideo(mediaId, record, now);
      response := Extended(mediaId, currentExpiry, newExpiry, newExpiry - currentExpiry);
    }
  }
}
