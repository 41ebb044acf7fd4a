/**
 * What the handlers of PyHLS/main.py guarantee, stated over the functions
 * that specify them: the order of the checks, what each answer leaves in
 * the store and on disk, the expiry bounds, and the end-to-end paths from
 * an upload to the playlist it serves.
 */
module HandlerProperties {
  import opened Options
  import opened Text
  import opened PosixPath
  import opened Tokens
  import opened Database
  import opened Playlist
  import opened Handlers

  // ---------------------------------------------------------------------
  // Order of the checks

  /**
   * Every handler that takes a media id answers "Media not found!" for an
   * unknown one, whatever key, token or name comes with it, and changes
   * nothing.
   */
  lemma AbsentMediaNotFound(env: Env, table: Table, fs: FileSystem, mediaId: string, adminKey: string,
                            accessToken: string, segmentName: string, minutes: int, now: int,
                            jti: string, baseUrl: string)
    requires mediaId !in table.rows
    ensures Refresh(env, table, fs, mediaId, adminKey, minutes, now, jti, baseUrl) == Step(NotFound("Media not found!"), table, fs)
    ensures GetPlaylist(env, table, fs, mediaId, accessToken, now) == NotFound("Media not found!")
    ensures GetSegment(env, table, fs, mediaId, segmentName, accessToken, now) == NotFound("Media not found!")
    ensures Delete(env, table, fs, mediaId, adminKey) == Step(NotFound("Media not found!"), table, fs)
    ensures GetMediaInfo(table, mediaId, adminKey) == NotFound("Media not found!")
    ensures Extend(table, fs, mediaId, adminKey, minutes, now) == Step(NotFound("Media not found!"), table, fs)
  {
  }

  /**
   * For a known resource the four admin handlers answer Forbidden exactly
   * when the key differs from the stored admin key, and then change nothing.
   */
  lemma AdminKeyGate(env: Env, table: Table, fs: FileSystem, mediaId: string, adminKey: string, minutes: int,
                     now: int, jti: string, baseUrl: string)
    requires mediaId in table.rows
    ensures var wrongKey := table.rows[mediaId].adminKey != adminKey;
      (Refresh(env, table, fs, mediaId, adminKey, minutes, now, jti, baseUrl).response.Forbidden? <==> wrongKey) &&
      (Delete(env, table, fs, mediaId, adminKey).response.Forbidden? <==> wrongKey) &&
      (GetMediaInfo(table, mediaId, adminKey).Forbidden? <==> wrongKey) &&
      (Extend(table, fs, mediaId, adminKey, minutes, now).response.Forbidden? <==> wrongKey)
    ensures table.rows[mediaId].adminKey != adminKey ==>
      Refresh(env, table, fs, mediaId, adminKey, minutes, now, jti, baseUrl) == Step(Forbidden("Invalid admin key!"), table, fs) &&
      Delete(env, table, fs, mediaId, adminKey) == Step(Forbidden("Invalid admin key!"), table, fs) &&
      Extend(table, fs, mediaId, adminKey, minutes, now) == Step(Forbidden("Invalid admin key!"), table, fs)
  {
  }

  /**
   * For a known resource the playlist and segment handlers answer
   * Forbidden exactly when the token does not verify; the token is checked
   * before the segment name, so a bad token is Forbidden whatever the name.
   */
  lemma AccessTokenGate(env: Env, table: Table, fs: FileSystem, mediaId: string, segmentName: string,
                        accessToken: string, now: int)
    requires mediaId in table.rows
    ensures var valid := VerifyAccessToken(env.cfg, env.codec.parse(accessToken), mediaId, table.rows[mediaId].accessKey, now);
      (GetPlaylist(env, table, fs, mediaId, accessToken, now).Forbidden? <==> !valid) &&
      (GetSegment(env, table, fs, mediaId, segmentName, accessToken, now).Forbidden? <==> !valid) &&
      (!valid ==> GetSegment(env, table, fs, mediaId, segmentName, accessToken, now) == Forbidden("Invalid or expired access token!"))
  {
  }

  /** With a valid token, the name is rejected exactly when it fails the segment-name check. */
  lemma SegmentNameGate(env: Env, table: Table, fs: FileSystem, mediaId: string, segmentName: string,
                        accessToken: string, now: int)
    requires mediaId in table.rows
    requires VerifyAccessToken(env.cfg, env.codec.parse(accessToken), mediaId, table.rows[mediaId].accessKey, now)
    ensures GetSegment(env, table, fs, mediaId, segmentName, accessToken, now) == BadRequest("Invalid segment name!")
            <==> !ValidSegmentName(segmentName)
  {
  }

  /** A name that passes the segment-name check is a single plain path component. */
  lemma ValidSegmentNameIsPlain(segmentName: string)
    requires ValidSegmentName(segmentName)
    ensures PlainComponent(segmentName)
  {
    assert |segmentName| >= 3;
  }

  /** A random identifier is a plain path component, and so is its ".mp4" file name. */
  lemma UuidHexIsPlain(s: string)
    requires UuidHex(s)
    ensures PlainComponent(s) && PlainComponent(s + ".mp4")
  {
    assert '/' !in ".mp4";
  }

  /**
   * For a resource whose directory name is plain (every uploaded one:
   * `UuidHexIsPlain`), a name that passes the segment-name check always
   * passes the containment check that follows it: the file served is the
   * name inside the resource's directory, if it exists.
   */
  lemma SegmentPathCheckImplied(env: Env, table: Table, fs: FileSystem, mediaId: string, segmentName: string,
                                accessToken: string, now: int)
    requires mediaId in table.rows && PlainComponent(table.rows[mediaId].internalId)
    requires VerifyAccessToken(env.cfg, env.codec.parse(accessToken), mediaId, table.rows[mediaId].accessKey, now)
    requires ValidSegmentName(segmentName)
    requires StartsWith(env.cwd, "/")
    ensures var file := AbsPath(env.cwd, ResourceDir(table.rows[mediaId].internalId)) + "/" + segmentName;
      GetSegment(env, table, fs, mediaId, segmentName, accessToken, now) ==
        if file in fs then SegmentFile(file) else NotFound("Segment not found")
  {
    var internalId := table.rows[mediaId].internalId;
    ValidSegmentNameIsPlain(segmentName);
    ResourceFileResolves(env.cwd, internalId, segmentName);
    var dir := AbsPath(env.cwd, ResourceDir(internalId));
    var file := dir + "/" + segmentName;
    assert StartsWith(file, dir + "/") by {
      assert file[..|dir + "/"|] == dir + "/";
    }
    AbsPathRooted(env.cwd, NormPath(PathJoin(ResourceDir(internalId), segmentName)));
  }

  // ---------------------------------------------------------------------
  // Expiry

  /**
   * Extending stores the capped sum, reports the previous value (60 when the
   * record has none), the new one and their difference, and changes only the
   * record's expiry and its two time stamps.
   */
  lemma ExtendStoresCappedExpiry(table: Table, fs: FileSystem, mediaId: string, adminKey: string,
                                 additionalMinutes: int, now: int)
    requires WellFormed(table)
    requires mediaId in table.rows && table.rows[mediaId].adminKey == adminKey
    ensures var r := Extend(table, fs, mediaId, adminKey, additionalMinutes, now);
            var record := table.rows[mediaId];
            var current := ExpiryMinutesOf(record);
      r.response.Extended? && r.response.previousExpiryMinutes == current &&
      r.response.newExpiryMinutes <= MaxExpiryMinutes &&
      (current + additionalMinutes <= MaxExpiryMinutes ==> r.response.newExpiryMinutes == current + additionalMinutes) &&
      (current + additionalMinutes >= MaxExpiryMinutes ==> r.response.newExpiryMinutes == MaxExpiryMinutes) &&
      r.response.extendedByMinutes == r.response.newExpiryMinutes - current &&
      r.table.rows[mediaId] == record.(expiryMinutes := Some(r.response.newExpiryMinutes),
                                       expiryExtendedAt := Some(now), updatedAt := Some(now)) &&
      r.table.order == table.order && r.fs == fs &&
      forall k :: k != mediaId ==> (k in r.table.rows <==> k in table.rows) &&
                                   (k in table.rows ==> r.table.rows[k] == table.rows[k])
  {
  }

  /** Every stored expiry lies between 1 and 10080 minutes (absent ones count as 60). */
  ghost predicate ExpiryInRange(t: Table) {
    forall k :: k in t.rows ==> 1 <= ExpiryMinutesOf(t.rows[k]) <= MaxExpiryMinutes
  }

  lemma PutKeepsExpiryInRange(t: Table, k: string, r: Record)
    requires ExpiryInRange(t) && 1 <= ExpiryMinutesOf(r) <= MaxExpiryMinutes
    ensures ExpiryInRange(Put(t, k, r))
  {
  }

  /** Given the bound the query parameter is validated against, an upload keeps every stored expiry in range. */
  lemma UploadKeepsExpiryInRange(env: Env, table: Table, fs: FileSystem, ids: NewIds, media: string, minutes: int,
                                 encoder: EncoderRun, now: int, jti: string, baseUrl: string)
    requires ExpiryInRange(table) && 1 <= minutes <= MaxExpiryMinutes
    ensures ExpiryInRange(Upload(env, table, fs, ids, media, minutes, encoder, now, jti, baseUrl).table)
  {
    var stored := NewRecord(ids, minutes, now).(createdAt := Some(now), updatedAt := Some(now));
    PutKeepsExpiryInRange(table, ids.publicId, stored);
  }

  /** Given the bound the query parameter is validated against, a refresh keeps every stored expiry in range. */
  lemma RefreshKeepsExpiryInRange(env: Env, table: Table, fs: FileSystem, mediaId: string, adminKey: string,
                                  minutes: int, now: int, jti: string, baseUrl: string)
    requires ExpiryInRange(table) && 1 <= minutes <= MaxExpiryMinutes
    ensures ExpiryInRange(Refresh(env, table, fs, mediaId, adminKey, minutes, now, jti, baseUrl).table)
  {
    if mediaId in table.rows {
      var refreshed := table.rows[mediaId].(expiryMinutes := Some(minutes), lastTokenRefresh := Some(now));
      PutKeepsExpiryInRange(table, mediaId, refreshed.(updatedAt := Some(now)));
    }
  }

  /**
   * Given a positive extension (the query parameter's lower bound), an
   * extension keeps every stored expiry in range: the cap holds it at 10080.
   */
  lemma ExtendKeepsExpiryInRange(table: Table, fs: FileSystem, mediaId: string, adminKey: string,
                                 additionalMinutes: int, now: int)
    requires ExpiryInRange(table) && 1 <= additionalMinutes
    ensures ExpiryInRange(Extend(table, fs, mediaId, adminKey, additionalMinutes, now).table)
  {
    if mediaId in table.rows {
      var record := table.rows[mediaId];
      var newExpiry := ExtendedExpiry(ExpiryMinutesOf(record), additionalMinutes);
      var extended := record.(expiryMinutes := Some(newExpiry), expiryExtendedAt := Some(now));
      PutKeepsExpiryInRange(table, mediaId, extended.(updatedAt := Some(now)));
    }
  }

  /** Deletion keeps every stored expiry in range. */
  lemma DeleteKeepsExpiryInRange(env: Env, table: Table, fs: FileSystem, mediaId: string, adminKey: string)
    requires ExpiryInRange(table)
    ensures ExpiryInRange(Delete(env, table, fs, mediaId, adminKey).table)
  {
  }

  // ---------------------------------------------------------------------
  // What refresh and delete change

  /**
   * A successful refresh changes only the record's expiry and its refresh
   * and update times, and the token it returns verifies for the resource
   * exactly until the new expiry, so the playlist handler accepts it until then.
   */
  lemma RefreshRoundTrip(env: Env, table: Table, fs: FileSystem, mediaId: string, adminKey: string, minutes: int,
                         now: int, jti: string, baseUrl: string, at: int)
    requires Faithful(env.codec)
    requires mediaId in table.rows && table.rows[mediaId].adminKey == adminKey
    requires Lookup(fs, env.cwd, PlaylistPath(table.rows[mediaId].internalId)).Some?
    ensures var r := Refresh(env, table, fs, mediaId, adminKey, minutes, now, jti, baseUrl);
            var record := table.rows[mediaId];
      r.response.Refreshed? && r.response.expiresInMinutes == minutes && r.fs == fs &&
      r.table.rows[mediaId] == record.(expiryMinutes := Some(minutes), lastTokenRefresh := Some(now), updatedAt := Some(now)) &&
      r.table.order == table.order &&
      (forall k :: k != mediaId ==> (k in r.table.rows <==> k in table.rows) &&
                                    (k in table.rows ==> r.table.rows[k] == table.rows[k])) &&
      (VerifyAccessToken(env.cfg, env.codec.parse(r.response.accessToken), mediaId, record.accessKey, at) <==>
         at < now + 60 * minutes) &&
      (GetPlaylist(env, r.table, r.fs, mediaId, r.response.accessToken, at).Forbidden? <==> at >= now + 60 * minutes)
  {
    var record := table.rows[mediaId];
    var t := CreateAccessToken(env.cfg, mediaId, record.accessKey, minutes, now, jti);
    assert env.codec.parse(env.codec.render(t)) == Compact(t);
  }

  /**
   * Deleting a resource removes exactly its record, then its directory with
   * everything below it; nothing else on disk changes. If a plain file sits
   * where the directory should be, `rmtree` raises after the record is gone.
   */
  lemma DeleteRemovesOnlyThatMedia(env: Env, table: Table, fs: FileSystem, mediaId: string, adminKey: string)
    requires WellFormed(table)
    requires mediaId in table.rows && table.rows[mediaId].adminKey == adminKey
    ensures var r := Delete(env, table, fs, mediaId, adminKey);
      WellFormed(r.table) && mediaId !in r.table.rows &&
      forall k :: k != mediaId ==> (k in r.table.rows <==> k in table.rows) &&
                                   (k in r.table.rows ==> r.table.rows[k] == table.rows[k])
    ensures var r := Delete(env, table, fs, mediaId, adminKey);
            var dir := Locate(env.cwd, ResourceDir(table.rows[mediaId].internalId));
      (r.response == Deleted("Media successfully deleted!") && dir !in fs ==> r.fs == fs) &&
      (r.response == Deleted("Media successfully deleted!") && dir in fs ==>
         dir !in r.fs &&
         (forall k :: k in r.fs ==> k in fs && r.fs[k] == fs[k] && !StartsWith(k, dir + "/")) &&
         (forall k :: k in fs && k != dir && !StartsWith(k, dir + "/") ==> k in r.fs)) &&
      (r.response != Deleted("Media successfully deleted!") ==>
         r.response == Unhandled("NotADirectoryError") && r.fs == fs && dir in fs && fs[dir].File?)
  {
  }

  /** Once a resource is deleted, every handler answers "Media not found!" for it. */
  lemma DeletedMediaNotFound(env: Env, table: Table, fs: FileSystem, mediaId: string, adminKey: string,
                             accessToken: string, segmentName: string, minutes: int, now: int,
                             jti: string, baseUrl: string)
    requires WellFormed(table)
    requires mediaId in table.rows && table.rows[mediaId].adminKey == adminKey
    ensures var r := Delete(env, table, fs, mediaId, adminKey);
      GetPlaylist(env, r.table, r.fs, mediaId, accessToken, now) == NotFound("Media not found!") &&
      GetSegment(env, r.table, r.fs, mediaId, segmentName, accessToken, now) == NotFound("Media not found!") &&
      GetMediaInfo(r.table, mediaId, adminKey) == NotFound("Media not found!") &&
      Refresh(env, r.table, r.fs, mediaId, adminKey, minutes, now, jti, baseUrl).response == NotFound("Media not found!") &&
      Extend(r.table, r.fs, mediaId, adminKey, minutes, now).response == NotFound("Media not found!") &&
      Delete(env, r.table, r.fs, mediaId, adminKey).response == NotFound("Media not found!")
  {
    var r := Delete(env, table, fs, mediaId, adminKey);
    AbsentMediaNotFound(env, r.table, r.fs, mediaId, adminKey, accessToken, segmentName, minutes, now, jti, baseUrl);
  }

  // ---------------------------------------------------------------------
  // Upload

  /** Where an upload puts its directory, its temporary file and the playlist. */
  lemma UploadLocations(cwd: string, internalId: string)
    requires UuidHex(internalId)
    ensures Locate(cwd, ResourceDir(internalId)) == AbsPath(cwd, HlsRoot) + "/" + internalId
    ensures Locate(cwd, PathJoin(HlsRoot, internalId + ".mp4")) == AbsPath(cwd, HlsRoot) + "/" + (internalId + ".mp4")
    ensures Locate(cwd, PlaylistPath(internalId)) == AbsPath(cwd, HlsRoot) + "/" + internalId + "/" + "playlist.m3u8"
  {
    UuidHexIsPlain(internalId);
    HlsEntryLocation(cwd, internalId);
    HlsEntryLocation(cwd, internalId + ".mp4");
    PlaylistLocation(cwd, internalId);
  }

  lemma HlsEntryLocation(cwd: string, c: string)
    requires PlainComponent(c)
    ensures Locate(cwd, PathJoin(HlsRoot, c)) == AbsPath(cwd, HlsRoot) + "/" + c
  {
    HlsEntryResolves(cwd, c);
    HlsJoin(c);
    assert (HlsRoot + "/" + c)[..1] == "m";
  }

  lemma PlaylistLocation(cwd: string, internalId: string)
    requires PlainComponent(internalId)
    ensures Locate(cwd, PlaylistPath(internalId)) == AbsPath(cwd, HlsRoot) + "/" + internalId + "/" + "playlist.m3u8"
  {
    var playlist := "playlist.m3u8";
    var dir := HlsRoot + "/" + internalId;
    assert PlainComponent(playlist);
    HlsJoin(internalId);
    JoinPlain(dir, playlist);
    assert (dir + "/" + playlist)[..1] == "m";
    HlsRootUnderWorkingDirectory(cwd, internalId);
    UnderWorkingDirectory(cwd, internalId, playlist);
    ResourceDirNormal(internalId);
  }

  /** The temporary file is neither the resource's directory nor inside it. */
  lemma MediaFileOutsideDirectory(root: string, internalId: string)
    requires '/' !in internalId
    ensures root + "/" + (internalId + ".mp4") != root + "/" + internalId
    ensures !StartsWith(root + "/" + (internalId + ".mp4"), root + "/" + internalId + "/")
  {
    var file := root + "/" + (internalId + ".mp4");
    var dir := root + "/" + internalId + "/";
    assert file[|dir| - 1] == '.';
    assert dir[|dir| - 1] == '/';
    if |dir| <= |file| {
      assert file[..|dir|][|dir| - 1] == '.';
    }
  }

  /**
   * Whatever happens to a failed encoding, the store is unchanged.
   */
  lemma UploadFailureKeepsStore(env: Env, table: Table, fs: FileSystem, ids: NewIds, media: string, minutes: int,
                                encoder: EncoderRun, now: int, jti: string, baseUrl: string)
    requires encoder.EncoderFailed?
    ensures Upload(env, table, fs, ids, media, minutes, encoder, now, jti, baseUrl).table == table
    ensures !Upload(env, table, fs, ids, media, minutes, encoder, now, jti, baseUrl).response.Uploaded?
  {
  }

  /**
   * When the encoder fails after writing only below its output directory,
   * the upload answers "Encoding failed: ...!", the resource's directory and
   * everything below it are gone, so is the uploaded file, and every other
   * path is as it was.
   */
  lemma UploadFailureCleansUp(env: Env, table: Table, fs: FileSystem, ids: NewIds, media: string, minutes: int,
                              encoder: EncoderRun, now: int, jti: string, baseUrl: string)
    requires FreshIds(ids) && encoder.EncoderFailed?
    requires var dir := Locate(env.cwd, ResourceDir(ids.internalId));
             var file := Locate(env.cwd, PathJoin(HlsRoot, ids.internalId + ".mp4"));
      (dir !in fs || fs[dir].Directory?) && (file !in fs || fs[file].File?) &&
      forall k :: k in encoder.written ==> StartsWith(k, dir + "/")
    ensures var r := Upload(env, table, fs, ids, media, minutes, encoder, now, jti, baseUrl);
            var dir := Locate(env.cwd, ResourceDir(ids.internalId));
            var file := Locate(env.cwd, PathJoin(HlsRoot, ids.internalId + ".mp4"));
      r.response == ServerError("Encoding failed: " + encoder.message + "!") && r.table == table &&
      dir !in r.fs && file !in r.fs &&
      (forall k :: k in r.fs ==> !StartsWith(k, dir + "/")) &&
      (forall k :: k in fs && k != dir && k != file && !StartsWith(k, dir + "/") ==> k in r.fs && r.fs[k] == fs[k])
  {
    var dir := Locate(env.cwd, ResourceDir(ids.internalId));
    var file := Locate(env.cwd, PathJoin(HlsRoot, ids.internalId + ".mp4"));
    UploadLocations(env.cwd, ids.internalId);
    UuidHexIsPlain(ids.internalId);
    MediaFileOutsideDirectory(AbsPath(env.cwd, HlsRoot), ids.internalId);
    FailedUploadStep(env, table, fs, ids, media, minutes, encoder, now, jti, baseUrl);
    FailureCleanup(fs, encoder.written, dir, file, media);
  }

  /** The state a failed encoding leaves, when the file is outside the directory and ffmpeg wrote only inside it. */
  lemma FailedUploadStep(env: Env, table: Table, fs: FileSystem, ids: NewIds, media: string, minutes: int,
                         encoder: EncoderRun, now: int, jti: string, baseUrl: string)
    requires encoder.EncoderFailed?
    requires var dir := Locate(env.cwd, ResourceDir(ids.internalId));
             var file := Locate(env.cwd, PathJoin(HlsRoot, ids.internalId + ".mp4"));
      file != dir && !StartsWith(file, dir + "/") &&
      (dir !in fs || fs[dir].Directory?) && (file !in fs || fs[file].File?) &&
      forall k :: k in encoder.written ==> StartsWith(k, dir + "/")
    ensures var dir := Locate(env.cwd, ResourceDir(ids.internalId));
            var file := Locate(env.cwd, PathJoin(HlsRoot, ids.internalId + ".mp4"));
      Upload(env, table, fs, ids, media, minutes, encoder, now, jti, baseUrl) ==
        Step(ServerError("Encoding failed: " + encoder.message + "!"), table,
             RemoveTree(fs[dir := Directory][file := File(media)] + encoder.written, dir) - {file})
  {
    var dir := Locate(env.cwd, ResourceDir(ids.internalId));
    var file := Locate(env.cwd, PathJoin(HlsRoot, ids.internalId + ".mp4"));
    NotBelowItself(dir);
    var encoded := fs[dir := Directory][file := File(media)] + encoder.written;
    assert encoded[dir].Directory? && encoded[file] == File(media);
  }

  lemma NotBelowItself(dir: string)
    ensures !StartsWith(dir, dir + "/")
  {
  }

  /** Removing the tree and then the file leaves exactly what was outside both, unchanged. */
  lemma FailureCleanup(fs: FileSystem, written: FileSystem, dir: string, file: string, media: string)
    requires file != dir && !StartsWith(file, dir + "/")
    requires forall k :: k in written ==> StartsWith(k, dir + "/")
    ensures var after := RemoveTree(fs[dir := Directory][file := File(media)] + written, dir) - {file};
      dir !in after && file !in after &&
      (forall k :: k in after ==> !StartsWith(k, dir + "/")) &&
      (forall k :: k in fs && k != dir && k != file && !StartsWith(k, dir + "/") ==> k in after && after[k] == fs[k])
  {
  }

  /**
   * A successful upload stores the new record under the public id, leaves
   * the encoder's output in place of the uploaded file, and returns the
   * rendered access token for the record.
   */
  lemma UploadSucceeded(env: Env, table: Table, fs: FileSystem, ids: NewIds, media: string, minutes: int,
                        encoder: EncoderRun, now: int, jti: string, baseUrl: string)
    requires Upload(env, table, fs, ids, media, minutes, encoder, now, jti, baseUrl).response.Uploaded?
    ensures var r := Upload(env, table, fs, ids, media, minutes, encoder, now, jti, baseUrl);
            var dir := Locate(env.cwd, ResourceDir(ids.internalId));
            var file := Locate(env.cwd, PathJoin(HlsRoot, ids.internalId + ".mp4"));
      encoder.Encoded? &&
      r.table == Put(table, ids.publicId, NewRecord(ids, minutes, now).(createdAt := Some(now), updatedAt := Some(now))) &&
      r.response.accessToken == env.codec.render(CreateAccessToken(env.cfg, ids.publicId, ids.accessKey, minutes, now, jti)) &&
      file !in r.fs &&
      forall k :: k in encoder.written && k != file ==> k in r.fs && r.fs[k] == encoder.written[k]
  {
  }

  /**
   * End to end: after a successful upload whose encoder wrote the playlist,
   * the playlist handler serves that playlist, rewritten with the returned
   * token, exactly until the chosen expiry, and refuses the token from then on.
   */
  lemma UploadThenPlaylist(env: Env, table: Table, fs: FileSystem, ids: NewIds, media: string, minutes: int,
                           encoder: EncoderRun, now: int, jti: string, baseUrl: string, content: string, at: int)
    requires Faithful(env.codec) && FreshIds(ids)
    requires encoder.Encoded?
    requires var playlist := Locate(env.cwd, PlaylistPath(ids.internalId));
      playlist in encoder.written && encoder.written[playlist] == File(content)
    requires Upload(env, table, fs, ids, media, minutes, encoder, now, jti, baseUrl).response.Uploaded?
    ensures var r := Upload(env, table, fs, ids, media, minutes, encoder, now, jti, baseUrl);
      GetPlaylist(env, r.table, r.fs, ids.publicId, r.response.accessToken, at) ==
        if at < now + 60 * minutes then PlaylistBody(RewrittenPlaylist(content, ids.publicId, r.response.accessToken))
        else Forbidden("Invalid or expired access token!")
  {
    var root := AbsPath(env.cwd, HlsRoot);
    UploadLocations(env.cwd, ids.internalId);
    UuidHexIsPlain(ids.internalId);
    NestedEntriesDiffer(root, ids.internalId + ".mp4", ids.internalId, "playlist.m3u8");
    UploadSucceeded(env, table, fs, ids, media, minutes, encoder, now, jti, baseUrl);
    var r := Upload(env, table, fs, ids, media, minutes, encoder, now, jti, baseUrl);
    var playlist := Locate(env.cwd, PlaylistPath(ids.internalId));
    assert r.fs[playlist] == File(content);
    var record := r.table.rows[ids.publicId];
    assert record.accessKey == ids.accessKey && record.internalId == ids.internalId;
    var t := CreateAccessToken(env.cfg, ids.publicId, ids.accessKey, minutes, now, jti);
    assert env.codec.parse(r.response.accessToken) == Compact(t);
  }
}
