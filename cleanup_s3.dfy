/**
 * `cleanupOldImages`: list the photos under a prefix and delete, in one bulk
 * request, those last modified before a cutoff. The storage service is the
 * pair of functions `list` (by prefix) and `delete` (of a key list; `false`
 * is a thrown error); `now` is the clock in milliseconds.
 */
module CleanupS3 {
  import opened Common
  import ImageUtils

  datatype S3Object = S3Object(key: string, lastModified: Option<int>)

  /** A `ListObjectsV2` answer (`Contents` may be absent) or a thrown error. */
  datatype Listing = Listed(contents: Option<seq<S3Object>>) | ListFailed

  datatype CleanupOptions = CleanupOptions(daysOld: Option<int>, prefix: Option<string>)

  /** What the caller observes: no delete request, a delete request that succeeded, or an exception. */
  datatype Outcome = NoDeleteRequest | Deleted(keys: seq<string>) | Threw

  const DefaultDaysOld := 30
  const MsPerDay := 24 * 60 * 60 * 1000

  /** `cutoffDate.setDate(cutoffDate.getDate() - daysOld)` on the current time. */
  function Cutoff(now: int, daysOld: int): int {
    now - daysOld * MsPerDay
  }

  /** `obj.LastModified && obj.LastModified < cutoffDate` */
  predicate Aged(o: S3Object, cutoff: int) {
    o.lastModified.Some? && o.lastModified.value < cutoff
  }

  /** `Contents.filter(...)` */
  function AgedObjects(objs: seq<S3Object>, cutoff: int): (r: seq<S3Object>)
    ensures forall o :: o in r <==> o in objs && Aged(o, cutoff)
    ensures |r| <= |objs|
  {
    if |objs| == 0 then []
    else (if Aged(objs[0], cutoff) then [objs[0]] else []) + AgedObjects(objs[1..], cutoff)
  }

  /** `.map(obj => ({ Key: obj.Key }))` */
  function Keys(objs: seq<S3Object>): (r: seq<string>)
    ensures |r| == |objs|
    ensures forall i :: 0 <= i < |objs| ==> r[i] == objs[i].key
  {
    if |objs| == 0 then [] else [objs[0].key] + Keys(objs[1..])
  }

  function CleanupOldImages(options: CleanupOptions, now: int, list: string -> Listing,
                            delete: seq<string> -> bool): (r: Outcome)
    ensures r.Deleted? ==> |r.keys| > 0
  {
    var daysOld := if options.daysOld.Some? then options.daysOld.value else DefaultDaysOld;
    var prefix := if options.prefix.Some? then options.prefix.value else ImageUtils.WashesPrefix;
    var cutoff := Cutoff(now, daysOld);
    match list(prefix)
    case ListFailed => Threw
    case Listed(contents) =>
      if contents.None? || |contents.value| == 0 then NoDeleteRequest
      else
        var keys := Keys(AgedObjects(contents.value, cutoff));
        if |keys| == 0 then NoDeleteRequest
        else if delete(keys) then Deleted(keys)
        else Threw
  }

  /** The options a call without options uses: 30 days, the `washes` prefix. */
  lemma Defaults(now: int, list: string -> Listing, delete: seq<string> -> bool)
    ensures CleanupOldImages(CleanupOptions(None, None), now, list, delete)
         == CleanupOldImages(CleanupOptions(Some(30), Some("washes")), now, list, delete)
  {
  }

  /** The deleted keys are exactly those of the listed objects modified strictly before `now - daysOld` days. */
  lemma DeleteSet(daysOld: int, prefix: string, now: int, list: string -> Listing, delete: seq<string> -> bool)
    requires list(prefix).Listed? && list(prefix).contents.Some?
    ensures var objs := list(prefix).contents.value;
      var r := CleanupOldImages(CleanupOptions(Some(daysOld), Some(prefix)), now, list, delete);
      var keys := Keys(AgedObjects(objs, Cutoff(now, daysOld)));
      (r.Deleted? ==> r.keys == keys)
      && (r.NoDeleteRequest? <==> keys == [])
      && (r.Threw? <==> keys != [] && !delete(keys))
  {
    var objs := list(prefix).contents.value;
    if |objs| == 0 {
      assert AgedObjects(objs, Cutoff(now, daysOld)) == [];
    }
  }

  /** An object modified exactly at the cutoff is kept, and so is one without a modification time. */
  lemma KeptAtCutoff(o: S3Object, objs: seq<S3Object>, cutoff: int)
    requires o.lastModified == Some(cutoff) || o.lastModified.None?
    ensures o !in AgedObjects(objs, cutoff)
  {
  }

  /** Filtering distributes over concatenation: the delete list keeps listing order. */
  lemma {:induction false} AgedAppend(a: seq<S3Object>, b: seq<S3Object>, cutoff: int)
    ensures AgedObjects(a + b, cutoff) == AgedObjects(a, cutoff) + AgedObjects(b, cutoff)
  {
    if |a| == 0 {
      assert a + b == b;
    } else {
      assert (a + b)[1..] == a[1..] + b;
      AgedAppend(a[1..], b, cutoff);
    }
  }

  /** `a` is obtained from `b` by dropping elements. */
  predicate Subsequence<T(==)>(a: seq<T>, b: seq<T>)
    decreases |b|
  {
    |a| == 0 || (|b| > 0 && ((a[0] == b[0] && Subsequence(a[1..], b[1..])) || Subsequence(a, b[1..])))
  }

  /** The objects to delete are a subsequence of the listing. */
  lemma {:induction false} AgedIsSubsequence(objs: seq<S3Object>, cutoff: int)
    ensures Subsequence(AgedObjects(objs, cutoff), objs)
  {
    if |objs| > 0 {
      AgedIsSubsequence(objs[1..], cutoff);
      var aged := AgedObjects(objs, cutoff);
      if Aged(objs[0], cutoff) {
        assert aged[0] == objs[0] && aged[1..] == AgedObjects(objs[1..], cutoff);
      } else {
        assert aged == AgedObjects(objs[1..], cutoff);
      }
    }
  }

  /** An empty listing, or one with nothing old enough, sends no delete request. */
  lemma NothingOldNoDelete(options: CleanupOptions, now: int, list: string -> Listing, delete: seq<string> -> bool,
                           d1: seq<string> -> bool)
    requires var daysOld := if options.daysOld.Some? then options.daysOld.value else DefaultDaysOld;
      var prefix := if options.prefix.Some? then options.prefix.value else ImageUtils.WashesPrefix;
      list(prefix).Listed?
      && (list(prefix).contents.Some? ==> AgedObjects(list(prefix).contents.value, Cutoff(now, daysOld)) == [])
    ensures CleanupOldImages(options, now, list, delete) == CleanupOldImages(options, now, list, d1) == NoDeleteRequest
  {
  }

  /**
   * No reference set is consulted: an old object is deleted even when a
   * wash record's image still points at its key.
   */
  lemma ReferencedKeysNotSpared(o: S3Object, daysOld: int, prefix: string, now: int,
                                list: string -> Listing, delete: seq<string> -> bool, referenced: set<string>)
    requires list(prefix).Listed? && list(prefix).contents.Some? && o in list(prefix).contents.value
    requires Aged(o, Cutoff(now, daysOld)) && o.key in referenced
    ensures var r := CleanupOldImages(CleanupOptions(Some(daysOld), Some(prefix)), now, list, delete);
      r.Threw? || (r.Deleted? && o.key in r.keys)
  {
    var objs := list(prefix).contents.value;
    var aged := AgedObjects(objs, Cutoff(now, daysOld));
    assert o in aged;
    var i :| 0 <= i < |aged| && aged[i] == o;
    assert Keys(aged)[i] == o.key;
  }

  /**
   * A failure of the one listing call, under the given or default prefix,
   * is passed on to the caller, whatever the delete call would do.
   */
  lemma ListErrorRethrown(options: CleanupOptions, now: int, list: string -> Listing, delete: seq<string> -> bool)
    requires list(if options.prefix.Some? then options.prefix.value else ImageUtils.WashesPrefix) == ListFailed
    ensures CleanupOldImages(options, now, list, delete) == Threw
  {
  }
}
