/**
 * The metadata store `VideoDatabase` (PyHLS/database.py, and its
 * byte-identical copy database.py). The JSON document on disk is a Python
 * dict from public id to record; it is modelled as a `Table`, an
 * insertion-ordered map, because dict iteration order is observable in
 * `get_video_by_internal_id` and in the order of the statistics. Every
 * operation loads the table, changes it and saves it; loading and saving
 * read and replace the class's one field. Time is integer seconds.
 */
module Database {
  import opened Options

  /** An ISO-8601 time stamp as stored: one `datetime.fromisoformat` accepts, or other text. */
  datatype Timestamp = At(seconds: int) | Unparsable(text: string)

  /**
   * One resource's metadata. The fields the server always writes are plain;
   * those a record may lack are options (`dict.get` yields `None`).
   */
  datatype Record = Record(
    publicId: string,
    internalId: string,
    accessKey: string,
    adminKey: string,
    uploadTime: Option<Timestamp>,
    expiryMinutes: Option<int>,
    lastTokenRefresh: Option<int>,
    expiryExtendedAt: Option<int>,
    createdAt: Option<int>,
    updatedAt: Option<int>,
    status: Option<string>)

  const DefaultExpiryMinutes: int := 60

  /** `video_data.get('expiry_minutes', 60)`. */
  function ExpiryMinutesOf(r: Record): int {
    r.expiryMinutes.GetOr(DefaultExpiryMinutes)
  }

  /** The upload time parses, and the validity window counted from it has passed. */
  predicate Expired(r: Record, now: int) {
    r.uploadTime.Some? && r.uploadTime.value.At? &&
    now > r.uploadTime.value.seconds + 60 * ExpiryMinutesOf(r)
  }

  /** `video_data.get('status', 'unknown')`. */
  function StatusLabel(r: Record): string {
    r.status.GetOr("unknown")
  }

  /** A dict from public id to record: its keys in insertion order, and the map itself. */
  datatype Table = Table(order: seq<string>, rows: map<string, Record>)

  const EmptyTable: Table := Table([], map[])

  ghost predicate Distinct(s: seq<string>) {
    forall i, j :: 0 <= i < j < |s| ==> s[i] != s[j]
  }

  /** The order lists every key of the map exactly once. */
  ghost predicate WellFormed(t: Table) {
    Distinct(t.order) && forall k :: k in t.order <==> k in t.rows
  }

  function Elements(s: seq<string>): set<string> {
    set x | x in s
  }

  /** `d[k] = v`: a new key goes to the end, an existing one keeps its place. */
  function Put(t: Table, k: string, v: Record): (r: Table)
    ensures WellFormed(t) ==> WellFormed(r)
    ensures r.rows == t.rows[k := v]
  {
    var r := Table(if k in t.rows then t.order else t.order + [k], t.rows[k := v]);
    assert WellFormed(t) ==> forall x :: x in r.order <==> x in r.rows;
    r
  }

  /** The keys of `s` that are not in `ks`, in their order. */
  function Drop(s: seq<string>, ks: set<string>): (r: seq<string>)
    ensures forall x :: x in r <==> x in s && x !in ks
  {
    if s == [] then []
    else
      var rest := Drop(s[..|s| - 1], ks);
      var x := s[|s| - 1];
      assert forall y :: y in s[..|s| - 1] ==> y in s;
      if x in ks then rest else rest + [x]
  }

  /** Dropping keys from a list without repetitions leaves one without repetitions. */
  lemma {:induction false} DropDistinct(s: seq<string>, ks: set<string>)
    ensures Distinct(s) ==> Distinct(Drop(s, ks))
  {
    if s != [] && Distinct(s) {
      var prefix, x := s[..|s| - 1], s[|s| - 1];
      assert forall i :: 0 <= i < |prefix| ==> prefix[i] == s[i];
      DropDistinct(prefix, ks);
      if x !in ks {
        assert x !in prefix;
        var rest := Drop(prefix, ks);
        assert Drop(s, ks) == rest + [x];
      }
    }
  }

  /** `del d[k]`, which raises `KeyError` unless `k` is present. */
  function Remove(t: Table, k: string): (r: Table)
    requires k in t.rows
    ensures WellFormed(t) ==> WellFormed(r)
    ensures r.rows == t.rows - {k}
  {
    DropDistinct(t.order, {k});
    Table(Drop(t.order, {k}), t.rows - {k})
  }

  lemma {:induction false} DropTwice(s: seq<string>, ks: set<string>, k: string)
    ensures Drop(Drop(s, ks), {k}) == Drop(s, ks + {k})
  {
    if s != [] {
      DropTwice(s[..|s| - 1], ks, k);
      var x := s[|s| - 1];
      if x !in ks {
        var d := Drop(s[..|s| - 1], ks);
        assert (d + [x])[..|d|] == d;
      }
    }
  }

  lemma {:induction false} DropNone(s: seq<string>, ks: set<string>)
    requires forall x :: x in s ==> x !in ks
    ensures Drop(s, ks) == s
  {
    if s != [] {
      var prefix, x := s[..|s| - 1], s[|s| - 1];
      assert x in s && forall y :: y in prefix ==> y in s;
      DropNone(prefix, ks);
      assert Drop(s, ks) == prefix + [x];
      assert prefix + [x] == s;
    }
  }

  /** The number of distinct keys listed is the length of the list. */
  lemma {:induction false} DistinctCardinality(s: seq<string>)
    requires Distinct(s)
    ensures |Elements(s)| == |s|
  {
    if s != [] {
      var prefix := s[..|s| - 1];
      DistinctCardinality(prefix);
      assert Elements(s) == Elements(prefix) + {s[|s| - 1]};
      assert s[|s| - 1] !in Elements(prefix);
    }
  }

  lemma TableSize(t: Table)
    requires WellFormed(t)
    ensures |t.order| == |t.rows|
  {
    assert Elements(t.order) == t.rows.Keys;
    DistinctCardinality(t.order);
  }

  // ---------------------------------------------------------------------
  // Specification functions for the loops of the store

  /** `videos_to_remove`: the keys of `order`, in order, whose records have expired. */
  function ExpiredKeys(order: seq<string>, rows: map<string, Record>, now: int): seq<string> {
    if order == [] then []
    else
      var rest := ExpiredKeys(order[..|order| - 1], rows, now);
      var k := order[|order| - 1];
      if k in rows && Expired(rows[k], now) then rest + [k] else rest
  }

  /** The keys listed for removal are exactly the expired ones, each once. */
  lemma {:induction false} ExpiredKeysExact(order: seq<string>, rows: map<string, Record>, now: int)
    requires Distinct(order)
    ensures forall k :: k in ExpiredKeys(order, rows, now) <==> k in order && k in rows && Expired(rows[k], now)
    ensures Distinct(ExpiredKeys(order, rows, now))
  {
    if order != [] {
      var prefix := order[..|order| - 1];
      ExpiredKeysExact(prefix, rows, now);
      assert forall y :: y in prefix ==> y in order;
      assert order == prefix + [order[|order| - 1]];
      assert order[|order| - 1] !in prefix;
    }
  }

  /** The store once every expired record is removed. */
  function Cleaned(t: Table, now: int): Table {
    var gone := Elements(ExpiredKeys(t.order, t.rows, now));
    Table(Drop(t.order, gone), t.rows - gone)
  }

  /** Cleaning keeps exactly the records that have not expired, unchanged and in their order. */
  lemma CleanedKeepsLiveRecords(t: Table, now: int)
    requires WellFormed(t)
    ensures WellFormed(Cleaned(t, now))
    ensures forall k :: k in Cleaned(t, now).rows <==> k in t.rows && !Expired(t.rows[k], now)
    ensures forall k :: k in Cleaned(t, now).rows ==> Cleaned(t, now).rows[k] == t.rows[k]
  {
    ExpiredKeysExact(t.order, t.rows, now);
    DropDistinct(t.order, Elements(ExpiredKeys(t.order, t.rows, now)));
  }

  /** The number of expired keys is the number of records cleaning removes. */
  lemma CleanedCount(t: Table, now: int)
    requires WellFormed(t)
    ensures |ExpiredKeys(t.order, t.rows, now)| + |Cleaned(t, now).rows| == |t.rows|
  {
    var keys := ExpiredKeys(t.order, t.rows, now);
    ExpiredKeysExact(t.order, t.rows, now);
    var gone := Elements(keys);
    assert gone <= t.rows.Keys;
    DistinctCardinality(keys);
    assert (t.rows - gone).Keys == t.rows.Keys - gone;
  }

  /** A store without expired records is left as it is. */
  lemma CleanedNothingExpired(t: Table, now: int)
    requires WellFormed(t)
    requires forall k :: k in t.rows ==> !Expired(t.rows[k], now)
    ensures Cleaned(t, now) == t
  {
    ExpiredKeysExact(t.order, t.rows, now);
    var gone := Elements(ExpiredKeys(t.order, t.rows, now));
    assert gone == {};
    DropNone(t.order, gone);
    assert t.rows - gone == t.rows;
  }

  /** The keys of `order`, in order, whose records carry exactly status `s`. */
  function KeysWithStatus(order: seq<string>, rows: map<string, Record>, s: string): seq<string> {
    if order == [] then []
    else
      var rest := KeysWithStatus(order[..|order| - 1], rows, s);
      var k := order[|order| - 1];
      if k in rows && rows[k].status == Some(s) then rest + [k] else rest
  }

  lemma {:induction false} KeysWithStatusExact(order: seq<string>, rows: map<string, Record>, s: string)
    requires Distinct(order)
    ensures forall k :: k in KeysWithStatus(order, rows, s) <==> k in order && k in rows && rows[k].status == Some(s)
    ensures Distinct(KeysWithStatus(order, rows, s))
  {
    if order != [] {
      var prefix := order[..|order| - 1];
      KeysWithStatusExact(prefix, rows, s);
      assert forall y :: y in prefix ==> y in order;
      assert order == prefix + [order[|order| - 1]];
      assert order[|order| - 1] !in prefix;
    }
  }
  /** `{k: v for k, v in data.items() if v.get('status') == s}`. */
  function WithStatus(t: Table, s: string): Table {
    Table(KeysWithStatus(t.order, t.rows, s), map k | k in t.rows && t.rows[k].status == Some(s) :: t.rows[k])
  }

  /** The filtered table lists, in the original order, exactly the records with that status, unchanged. */
  lemma WithStatusExact(t: Table, s: string)
    requires WellFormed(t)
    ensures WellFormed(WithStatus(t, s))
    ensures forall k :: (k in WithStatus(t, s).rows <==> k in t.rows && t.rows[k].status == Some(s)) &&
                        (k in WithStatus(t, s).rows ==> WithStatus(t, s).rows[k] == t.rows[k])
  {
    KeysWithStatusExact(t.order, t.rows, s);
  }


  /** How many keys of `order` have records with status label `tag`. */
  function CountLabel(order: seq<string>, rows: map<string, Record>, tag: string): nat {
    if order == [] then 0
    else
      var k := order[|order| - 1];
      CountLabel(order[..|order| - 1], rows, tag) + (if k in rows && StatusLabel(rows[k]) == tag then 1 else 0)
  }

  /** The sum of the counts listed in `labels`. */
  function SumCounts(labels: seq<string>, counts: map<string, nat>): nat {
    if labels == [] then 0
    else
      var s := labels[|labels| - 1];
      SumCounts(labels[..|labels| - 1], counts) + (if s in counts then counts[s] else 0)
  }

  lemma {:induction false} SumCountsIgnores(labels: seq<string>, counts: map<string, nat>, s: string, v: nat)
    requires s !in labels
    ensures SumCounts(labels, counts[s := v]) == SumCounts(labels, counts)
  {
    if labels != [] {
      assert forall y :: y in labels[..|labels| - 1] ==> y in labels;
      SumCountsIgnores(labels[..|labels| - 1], counts, s, v);
    }
  }

  lemma {:induction false} SumCountsBump(labels: seq<string>, counts: map<string, nat>, s: string)
    requires Distinct(labels) && s in labels && s in counts
    ensures SumCounts(labels, counts[s := counts[s] + 1]) == SumCounts(labels, counts) + 1
  {
    var prefix := labels[..|labels| - 1];
    assert forall y :: y in prefix ==> y in labels;
    if labels[|labels| - 1] == s {
      assert s !in prefix;
      SumCountsIgnores(prefix, counts, s, counts[s] + 1);
    } else {
      assert labels == prefix + [labels[|labels| - 1]];
      assert s in prefix;
      SumCountsBump(prefix, counts, s);
    }
  }

  /** Position `i` holds the first record, in order, with internal id `internalId`. */
  ghost predicate FirstWithInternalId(t: Table, internalId: string, i: int) {
    0 <= i < |t.order| && t.order[i] in t.rows && t.rows[t.order[i]].internalId == internalId &&
    forall j :: 0 <= j < i && t.order[j] in t.rows ==> t.rows[t.order[j]].internalId != internalId
  }

  // ---------------------------------------------------------------------
  // `cleanup_expired_videos` as shipped

  datatype PyException = NameError(name: string)

  predicate UploadTimeParses(r: Record) {
    r.uploadTime.Some? && r.uploadTime.value.At?
  }

  /**
   * database.py:115 as shipped: `timedelta` is used but only `datetime` is
   * imported (database.py:4). The comparison is reached for the first record
   * whose upload time parses and raises `NameError`, which the
   * `except (ValueError, KeyError)` at line 119 does not catch; records that
   * do not parse are skipped. Nothing is ever removed.
   */
  function CleanupAsShipped(order: seq<string>, rows: map<string, Record>): (r: Result<nat, PyException>)
    ensures r.Ok? <==> forall i :: 0 <= i < |order| && order[i] in rows ==> !UploadTimeParses(rows[order[i]])
    ensures r.Ok? ==> r.value == 0
    ensures r.Err? ==> r.error == NameError("timedelta")
  {
    if order == [] then Ok(0)
    else if order[0] in rows && UploadTimeParses(rows[order[0]]) then Err(NameError("timedelta"))
    else
      var r := CleanupAsShipped(order[1..], rows);
      assert forall i :: 1 <= i < |order| ==> order[i] == order[1..][i - 1];
      r
  }

  /**
   * The discrepancy on a concrete store: one record uploaded at time 0 with
   * the default 60-minute window, cleaned up at time 3601. The intended
   * cleanup removes it; the shipped code raises `NameError`.
   */
  lemma CleanupAsShippedRaisesOnExpiredRecord(r: Record)
    requires r.uploadTime == Some(At(0)) && r.expiryMinutes == None
    ensures CleanupAsShipped(["m"], map["m" := r]) == Err(NameError("timedelta"))
    ensures ExpiredKeys(["m"], map["m" := r], 3601) == ["m"]
  {
    assert ["m"][..0] == [];
  }

  // ---------------------------------------------------------------------
  // Steps of the cleanup's removal loop

  /** After removing the first `j` listed keys from `original`. */
  ghost predicate RemovedPrefix(original: Table, data: Table, toRemove: seq<string>, j: int) {
    0 <= j <= |toRemove| && WellFormed(data) && Distinct(toRemove) &&
    (forall x :: x in toRemove ==> x in original.rows) &&
    data.rows == original.rows - Elements(toRemove[..j]) &&
    data.order == Drop(original.order, Elements(toRemove[..j]))
  }

  lemma NothingRemovedYet(original: Table, toRemove: seq<string>, now: int)
    requires WellFormed(original) && toRemove == ExpiredKeys(original.order, original.rows, now)
    ensures RemovedPrefix(original, original, toRemove, 0)
  {
    ExpiredKeysExact(original.order, original.rows, now);
    assert Elements(toRemove[..0]) == {};
    DropNone(original.order, {});
  }

  lemma ExpiredKeysStep(order: seq<string>, i: int, rows: map<string, Record>, now: int)
    requires 0 <= i < |order|
    ensures ExpiredKeys(order[..i + 1], rows, now) ==
      ExpiredKeys(order[..i], rows, now) + (if order[i] in rows && Expired(rows[order[i]], now) then [order[i]] else [])
  {
    assert order[..i + 1][..i] == order[..i];
  }

  lemma RemoveStep(original: Table, data: Table, toRemove: seq<string>, j: int)
    requires RemovedPrefix(original, data, toRemove, j) && j < |toRemove|
    ensures toRemove[j] in data.rows
    ensures RemovedPrefix(original, Remove(data, toRemove[j]), toRemove, j + 1)
  {
    var k := toRemove[j];
    assert k in original.rows;
    assert k !in toRemove[..j];
    assert Elements(toRemove[..j + 1]) == Elements(toRemove[..j]) + {k};
    DropTwice(original.order, Elements(toRemove[..j]), k);
  }

  lemma CleanupOutcome(original: Table, data: Table, toRemove: seq<string>, now: int)
    requires WellFormed(original)
    requires toRemove == ExpiredKeys(original.order, original.rows, now)
    requires RemovedPrefix(original, data, toRemove, |toRemove|)
    ensures data == Cleaned(original, now)
    ensures toRemove == [] ==> data == original
  {
    assert toRemove[..|toRemove|] == toRemove;
    if toRemove == [] {
      DropNone(original.order, {});
      assert Elements(toRemove) == {};
    }
  }

  // ---------------------------------------------------------------------
  // Steps of the statistics loop

  /** The per-label counts of the first `i` records of `t`. */
  ghost predicate Tallied(t: Table, i: int, statusOrder: seq<string>, counts: map<string, nat>) {
    0 <= i <= |t.order| &&
    Distinct(statusOrder) &&
    (forall s :: s in statusOrder <==> s in counts) &&
    (forall s :: s in counts <==> CountLabel(t.order[..i], t.rows, s) > 0) &&
    (forall s :: s in counts ==> counts[s] == CountLabel(t.order[..i], t.rows, s)) &&
    SumCounts(statusOrder, counts) == i
  }

  lemma TallyStep(t: Table, i: int, statusOrder: seq<string>, counts: map<string, nat>)
    requires WellFormed(t) && Tallied(t, i, statusOrder, counts) && i < |t.order|
    ensures t.order[i] in t.rows
    ensures var s := StatusLabel(t.rows[t.order[i]]);
      if s in counts then Tallied(t, i + 1, statusOrder, counts[s := counts[s] + 1])
      else Tallied(t, i + 1, statusOrder + [s], counts[s := 1])
  {
    assert t.order[i] in t.order;
    var s := StatusLabel(t.rows[t.order[i]]);
    forall tag
      ensures CountLabel(t.order[..i + 1], t.rows, tag) == CountLabel(t.order[..i], t.rows, tag) + (if tag == s then 1 else 0)
    {
      CountLabelSnoc(t.order, t.rows, i, tag);
    }
    if s in counts {
      SumCountsBump(statusOrder, counts, s);
    } else {
      TallyNewLabel(t, i, statusOrder, counts, s);
    }
  }

  lemma CountLabelSnoc(order: seq<string>, rows: map<string, Record>, i: int, tag: string)
    requires 0 <= i < |order| && order[i] in rows
    ensures CountLabel(order[..i + 1], rows, tag)
         == CountLabel(order[..i], rows, tag) + (if StatusLabel(rows[order[i]]) == tag then 1 else 0)
  {
    assert order[..i + 1][..i] == order[..i];
  }

  lemma TallyNewLabel(t: Table, i: int, statusOrder: seq<string>, counts: map<string, nat>, s: string)
    requires Tallied(t, i, statusOrder, counts) && i < |t.order| && s !in counts
    requires forall tag :: CountLabel(t.order[..i + 1], t.rows, tag) == CountLabel(t.order[..i], t.rows, tag) + (if tag == s then 1 else 0)
    ensures Tallied(t, i + 1, statusOrder + [s], counts[s := 1])
  {
    SumCountsIgnores(statusOrder, counts, s, 1);
    assert (statusOrder + [s])[..|statusOrder|] == statusOrder;
  }


  // ---------------------------------------------------------------------
  // The store

  datatype Stats = Stats(
    totalVideos: nat,
    statusOrder: seq<string>,
    statusCounts: map<string, nat>,
    databaseSizeBytes: nat)

  /**
   * The first loop of `cleanup_expired_videos`: the keys whose records have
   * expired, in the table's order, and how many there are. A record whose
   * upload time is missing or does not parse is skipped.
   */
  method CollectExpired(data: Table, now: int) returns (videosToRemove: seq<string>, expiredCount: nat)
    requires WellFormed(data)
    ensures videosToRemove == ExpiredKeys(data.order, data.rows, now)
    ensures expiredCount == |videosToRemove|
  {
    expiredCount := 0;
    videosToRemove := [];
    var i := 0;
    while i < |data.order|
      invariant 0 <= i <= |data.order|
      invariant videosToRemove == ExpiredKeys(data.order[..i], data.rows, now)
      invariant expiredCount == |videosToRemove|
    {
      var publicId := data.order[i];
      var videoData := data.rows[publicId];
      ExpiredKeysStep(data.order, i, data.rows, now);
      // A missing or unparsable upload time is skipped (`KeyError`, `ValueError`).
      if videoData.uploadTime.Some? && videoData.uploadTime.value.At? {
        var uploadTime := videoData.uploadTime.value.seconds;
        var expiryMinutes := videoData.expiryMinutes.GetOr(DefaultExpiryMinutes);
        if now > uploadTime + 60 * expiryMinutes {
          videosToRemove := videosToRemove + [publicId];
          expiredCount := expiredCount + 1;
        }
      }
      i := i + 1;
    }
    assert data.order[..i] == data.order;
  }

  /** The second loop of `cleanup_expired_videos`: `del data[k]` for each collected key in turn. */
  method RemoveAll(original: Table, toRemove: seq<string>) returns (data: Table)
    requires RemovedPrefix(original, original, toRemove, 0)
    ensures RemovedPrefix(original, data, toRemove, |toRemove|)
  {
    data := original;
    var j := 0;
    while j < |toRemove|
      invariant RemovedPrefix(original, data, toRemove, j)
    {
      RemoveStep(original, data, toRemove, j);
      data := Remove(data, toRemove[j]);
      j := j + 1;
    }
  }


  class VideoDatabase {
    /** The JSON document, as last saved. */
    var table: Table

    ghost predicate Valid()
      reads this
    {
      WellFormed(table)
    }

    /** `_init_database`: an existing document is kept, a missing one is created empty. */
    constructor (stored: Option<Table>)
      requires stored.Some? ==> WellFormed(stored.value)
      ensures Valid()
      ensures table == stored.GetOr(EmptyTable)
    {
      table := stored.GetOr(EmptyTable);
    }

    /** `_load_database`. */
    method LoadDatabase() returns (data: Table)
      requires Valid()
      ensures data == table && WellFormed(data)
    {
      data := table;
    }

    /** `_save_database`: the document is replaced as a whole. */
    method SaveDatabase(data: Table)
      requires WellFormed(data)
      modifies this
      ensures Valid() && table == data
    {
      table := data;
    }

    /** `store_video`: the record, stamped with creation and update times, under `publicId`. */
    method StoreVideo(publicId: string, videoData: Record, now: int)
      requires Valid()
      modifies this
      ensures Valid()
      ensures table == Put(old(table), publicId, videoData.(createdAt := Some(now), updatedAt := Some(now)))
      ensures forall k :: k != publicId ==> (k in table.rows <==> k in old(table.rows))
      ensures forall k :: k != publicId && k in old(table.rows) ==> table.rows[k] == old(table.rows)[k]
    {
      var data := LoadDatabase();
      var stamped := videoData.(createdAt := Some(now), updatedAt := Some(now));
      data := Put(data, publicId, stamped);
      SaveDatabase(data);
    }

    /** `get_video`. */
    method GetVideo(publicId: string) returns (found: Option<Record>)
      requires Valid()
      ensures found.Some? <==> publicId in table.rows
      ensures found.Some? ==> found.value == table.rows[publicId]
    {
      var data := LoadDatabase();
      found := if publicId in data.rows then Some(data.rows[publicId]) else None;
    }

    /** `update_video`: replaces a present record, stamped with the update time. */
    method UpdateVideo(publicId: string, videoData: Record, now: int) returns (updated: bool)
      requires Valid()
      modifies this
      ensures Valid()
      ensures updated <==> publicId in old(table.rows)
      ensures !updated ==> table == old(table)
      ensures updated ==> table == Put(old(table), publicId, videoData.(updatedAt := Some(now)))
      ensures updated ==> table.order == old(table.order)
    {
      var data := LoadDatabase();
      if publicId in data.rows {
        data := Put(data, publicId, videoData.(updatedAt := Some(now)));
        SaveDatabase(data);
        return true;
      }
      return false;
    }

    /** `delete_video`. */
    method DeleteVideo(publicId: string) returns (deleted: bool)
      requires Valid()
      modifies this
      ensures Valid()
      ensures deleted <==> publicId in old(table.rows)
      ensures !deleted ==> table == old(table)
      ensures deleted ==> table == Remove(old(table), publicId)
      ensures publicId !in table.rows
      ensures forall k :: k != publicId && k in old(table.rows) ==> k in table.rows && table.rows[k] == old(table.rows)[k]
    {
      var data := LoadDatabase();
      if publicId in data.rows {
        data := Remove(data, publicId);
        SaveDatabase(data);
        return true;
      }
      return false;
    }

    /**
     * `list_videos`: every record when `status` is `None` or empty,
     * otherwise the records whose status is exactly `status`, in order.
     */
    method ListVideos(status: Option<string>) returns (result: Table)
      requires Valid()
      ensures WellFormed(result)
      ensures status.None? || status.value == "" ==> result == table
      ensures status.Some? && status.value != "" ==>
        result.order == KeysWithStatus(table.order, table.rows, status.value) &&
        forall k :: (k in result.rows <==> k in table.rows && table.rows[k].status == status) &&
                    (k in result.rows ==> result.rows[k] == table.rows[k])
    {
      var data := LoadDatabase();
      if status.Some? && status.value != "" {
        WithStatusExact(data, status.value);
        return WithStatus(data, status.value);
      }
      return data;
    }

    /**
     * `cleanup_expired_videos`, with the comparison the code evidently
     * intends (see `CleanupAsShipped` for what it does as shipped): every
     * record whose upload time parses and whose window has passed is
     * removed, the others are kept, and the number removed is returned.
     */
    method CleanupExpiredVideos(now: int) returns (expiredCount: nat)
      requires Valid()
      modifies this
      ensures Valid()
      ensures expiredCount == |ExpiredKeys(old(table).order, old(table).rows, now)|
      ensures table == Cleaned(old(table), now)
    {
      var original := LoadDatabase();
      var videosToRemove;
      videosToRemove, expiredCount := CollectExpired(original, now);
      NothingRemovedYet(original, videosToRemove, now);
      var data := RemoveAll(original, videosToRemove);
      CleanupOutcome(original, data, videosToRemove, now);
      if expiredCount > 0 {
        SaveDatabase(data);
      }
    }

    /** `get_video_by_internal_id`: the first record in order with that internal id. */
    method GetVideoByInternalId(internalId: string) returns (found: Option<Record>)
      requires Valid()
      ensures found.None? <==> forall k :: k in table.rows ==> table.rows[k].internalId != internalId
      ensures found.Some? ==> exists i :: FirstWithInternalId(table, internalId, i) && found.value == table.rows[table.order[i]]
    {
      var data := LoadDatabase();
      var i := 0;
      while i < |data.order|
        invariant 0 <= i <= |data.order|
        invariant forall j :: 0 <= j < i ==> data.rows[data.order[j]].internalId != internalId
      {
        var videoData := data.rows[data.order[i]];
        if videoData.internalId == internalId {
          assert FirstWithInternalId(data, internalId, i);
          return Some(videoData);
        }
        i := i + 1;
      }
      forall k | k in data.rows
        ensures data.rows[k].internalId != internalId
      {
        assert k in data.order;
        var j :| 0 <= j < |data.order| && data.order[j] == k;
      }
      return None;
    }

    /** `update_video_status`: only the status and the update time of a present record change. */
    method UpdateVideoStatus(publicId: string, status: string, now: int) returns (updated: bool)
      requires Valid()
      modifies this
      ensures Valid()
      ensures updated <==> publicId in old(table.rows)
      ensures !updated ==> table == old(table)
      ensures updated ==> table == Put(old(table), publicId,
                                       old(table).rows[publicId].(status := Some(status), updatedAt := Some(now)))
      ensures updated ==> table.order == old(table.order)
    {
      var data := LoadDatabase();
      if publicId in data.rows {
        var videoData := data.rows[publicId].(status := Some(status));
        videoData := videoData.(updatedAt := Some(now));
        data := Put(data, publicId, videoData);
        SaveDatabase(data);
        return true;
      }
      return false;
    }

    /**
     * `get_database_stats`: the number of records, and per status label
     * (missing statuses count as "unknown") how many records carry it, each
     * label listed once in `statusOrder`. `fileSize` is the size of the
     * document on disk, `None` when it does not exist.
     */
    method GetDatabaseStats(fileSize: Option<nat>) returns (stats: Stats)
      requires Valid()
      ensures stats.totalVideos == |table.rows|
      ensures Distinct(stats.statusOrder)
      ensures forall s :: s in stats.statusOrder <==> s in stats.statusCounts
      ensures forall s :: s in stats.statusCounts <==> CountLabel(table.order, table.rows, s) > 0
      ensures forall s :: s in stats.statusCounts ==> stats.statusCounts[s] == CountLabel(table.order, table.rows, s)
      ensures SumCounts(stats.statusOrder, stats.statusCounts) == stats.totalVideos
      ensures stats.databaseSizeBytes == fileSize.GetOr(0)
    {
      var data := LoadDatabase();
      var totalVideos := |data.rows|;
      var statusOrder: seq<string> := [];
      var statusCounts: map<string, nat> := map[];
      var i := 0;
      while i < |data.order|
        invariant 0 <= i <= |data.order|
        invariant Tallied(data, i, statusOrder, statusCounts)
      {
        var videoData := data.rows[data.order[i]];
        var status := StatusLabel(videoData);
        TallyStep(data, i, statusOrder, statusCounts);
        if status in statusCounts {
          statusCounts := statusCounts[status := statusCounts[status] + 1];
        } else {
          statusOrder := statusOrder + [status];
          statusCounts := statusCounts[status := 1];
        }
        i := i + 1;
      }
      assert data.order[..i] == data.order;
      TableSize(data);
      stats := Stats(totalVideos, statusOrder, statusCounts, fileSize.GetOr(0));
    }
  }

  /**
   * A check that the contracts of `store_video`, `get_video` and
   * `delete_video` are strong enough for a caller: for every store and
   * record, fetching a stored record yields it with both time stamps, and
   * fetching it after deleting it yields nothing.
   */
  method StoreThenGet(db: VideoDatabase, publicId: string, record: Record, now: int)
    requires db.Valid()
    modifies db
  {
    db.StoreVideo(publicId, record, now);
    var found := db.GetVideo(publicId);
    assert found == Some(record.(createdAt := Some(now), updatedAt := Some(now)));
    var deleted := db.DeleteVideo(publicId);
    assert deleted;
    found := db.GetVideo(publicId);
    assert found == None;
  }
}
