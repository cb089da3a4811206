/**
 * Choosing the schema snapshot file: the configured name, a new timestamped name when
 * writing, or the newest `snapshot_<date>_<time>.json` of the directory when reading.
 *
 * The environment, the current instant and the directory listing are parameters.
 */
module Snapshots {
  import opened Wrappers
  import opened Strings
  import opened Seqs
  import SyncFiles

  /** `str?.toLowerCase()`: `None` for `undefined` or `null`, the lower-cased string otherwise. */
  function LowerOpt(str: Option<string>): Option<string> {
    if str.None? then None else Some(Lower(str.value))
  }

  /** The list `[undefined, null, "", "0", "no", "false"]`, with both absent values as `None`. */
  const FalsyValues: seq<Option<string>> := [None, None, Some(""), Some("0"), Some("no"), Some("false")]

  /**
   * This file's own `isStringTruthy`: membership of the lower-cased value in the list of
   * falsy values, negated. It accepts exactly what the rights helpers' version accepts.
   */
  function IsStringTruthy(str: Option<string>): (r: bool)
    ensures r == SyncFiles.IsStringTruthy(str)
    ensures !r <==> str.None? || str.value == "" || str.value == "0"
                    || SyncFiles.IsCasingOf(str.value, "no") || SyncFiles.IsCasingOf(str.value, "false")
  {
    var isFalsey := LowerOpt(str) in FalsyValues;
    SyncFiles.LowerIsCasing(str);
    !isFalsey
  }

  /**
   * The test `/^snapshot_\d{8}_\d{6}\.json$/` as written (`corrected` false), or with the `T`
   * that the write path puts between date and time (`corrected` true).
   */
  predicate IsSnapshotName(n: string, corrected: bool) {
    && |n| == 29
    && n[..9] == "snapshot_"
    && AllDigits(n[9..17]) && n[17] == (if corrected then 'T' else '_') && AllDigits(n[18..24])
    && n[24..] == ".json"
  }

  const DefaultSnapshotDir := "/directus/autosync-config"

  /**
   * `getSnapshotFilepath(setCurrentTimeStamp)`, as a directory and a file name. `now` is the
   * instant `new Date()` would read; `listing` is the content of the directory; `corrected`
   * selects the read filter.
   */
  function SnapshotFilepath(env: SyncFiles.Env, setCurrentTimeStamp: bool, now: SyncFiles.Instant,
                            listing: seq<string>, corrected: bool): (p: SyncFiles.SyncPath)
    requires SyncFiles.ValidInstant(now)
    ensures p.dir == SyncFiles.EnvOr(SyncFiles.EnvVar(env, "AUTOSYNC_FILE_PATH"), DefaultSnapshotDir)
    ensures var name := SyncFiles.EnvVar(env, "AUTOSYNC_FILE_NAME");
            name.Some? && name.value != "" ==> p.name == name.value
    ensures var name := SyncFiles.EnvVar(env, "AUTOSYNC_FILE_NAME");
            (name.None? || name.value == "") && setCurrentTimeStamp ==>
              p.name == "snapshot_" + SyncFiles.GetCurrentTimestamp(now) + ".json"
    ensures var name := SyncFiles.EnvVar(env, "AUTOSYNC_FILE_NAME");
            (name.None? || name.value == "") && !setCurrentTimeStamp ==>
              if exists n :: n in listing && IsSnapshotName(n, corrected) then
                && p.name in listing && IsSnapshotName(p.name, corrected)
                && forall n :: n in listing && IsSnapshotName(n, corrected) ==> LessEq(n, p.name)
              else p.name == "snapshot.json"
  {
    var dir := SyncFiles.EnvOr(SyncFiles.EnvVar(env, "AUTOSYNC_FILE_PATH"), DefaultSnapshotDir);
    var configured := SyncFiles.EnvVar(env, "AUTOSYNC_FILE_NAME");
    var filename :=
      if configured.Some? && configured.value != "" then configured.value
      else if setCurrentTimeStamp then "snapshot_" + SyncFiles.GetCurrentTimestamp(now) + ".json"
      else NewestSnapshot(listing, corrected);
    SyncFiles.SyncPath(dir, filename)
  }

  /** `files.length > 0 ? files.sort().reverse()[0] : 'snapshot.json'` over the matching names. */
  function NewestSnapshot(listing: seq<string>, corrected: bool): (name: string)
    ensures if exists n :: n in listing && IsSnapshotName(n, corrected) then
              && name in listing && IsSnapshotName(name, corrected)
              && forall n :: n in listing && IsSnapshotName(n, corrected) ==> LessEq(n, name)
            else name == "snapshot.json"
  {
    var files := Filter(listing, n => IsSnapshotName(n, corrected));
    var newestFirst := Reverse(Sort(files));
    if |files| > 0 then
      SyncFiles.SortedLastIsGreatest(files, Sort(files));
      assert newestFirst[0] == Sort(files)[|files| - 1];
      newestFirst[0]
    else
      assert forall n :: n in listing && IsSnapshotName(n, corrected) ==> n in files;
      "snapshot.json"
  }

  /**
   * A name the write path produces is never picked up by the read path: the timestamp holds
   * a `T` where the read pattern expects digits or `_`.
   */
  lemma WrittenSnapshotIsNeverListed(now: SyncFiles.Instant)
    requires SyncFiles.ValidInstant(now)
    ensures !IsSnapshotName("snapshot_" + SyncFiles.GetCurrentTimestamp(now) + ".json", false)
  {
    var ts := SyncFiles.GetCurrentTimestamp(now);
    var n := "snapshot_" + ts + ".json";
    var i :| 0 <= i < |ts| && ts[i] == 'T';
    assert n[9 + i] == 'T';
    if |n| == 29 {
      if i < 8 {
        assert n[9..17][i] == 'T';
      } else if i > 8 {
        assert n[18..24][i - 9] == 'T';
      }
    }
  }

  /** Hence, with no configured name, a snapshot written and then read back is never the one written. */
  lemma SnapshotReadIgnoresWrittenName(env: SyncFiles.Env, now: SyncFiles.Instant, listing: seq<string>)
    requires SyncFiles.ValidInstant(now)
    requires SyncFiles.EnvVar(env, "AUTOSYNC_FILE_NAME").None?
    ensures SnapshotFilepath(env, false, now, listing, false).name != SnapshotFilepath(env, true, now, listing, false).name
  {
    WrittenSnapshotIsNeverListed(now);
    var written := SnapshotFilepath(env, true, now, listing, false).name;
    var read := SnapshotFilepath(env, false, now, listing, false).name;
    assert read == "snapshot.json" || IsSnapshotName(read, false);
    assert |written| >= 10 + 5;
    assert written[..9] == "snapshot_";
  }

  /** With the `T` in the filter, every name written for a four-digit year is listed. */
  lemma WrittenSnapshotIsListed(now: SyncFiles.Instant)
    requires SyncFiles.ValidInstant(now) && 0 <= now.year <= 9999
    ensures IsSnapshotName("snapshot_" + SyncFiles.GetCurrentTimestamp(now) + ".json", true)
  {
    var ts := SyncFiles.GetCurrentTimestamp(now);
    var n := "snapshot_" + ts + ".json";
    assert n[..9] == "snapshot_";
    assert n[9..17] == ts[..8];
    assert n[18..24] == ts[9..];
    assert n[24..] == ".json";
  }

  /**
   * With the `T` in the filter and no configured name, a snapshot written and then read back
   * from a directory where it is the newest snapshot is the one written.
   */
  lemma SnapshotReadFindsWrittenName(env: SyncFiles.Env, now: SyncFiles.Instant, listing: seq<string>)
    requires SyncFiles.ValidInstant(now) && 0 <= now.year <= 9999
    requires SyncFiles.EnvVar(env, "AUTOSYNC_FILE_NAME").None?
    requires var written := "snapshot_" + SyncFiles.GetCurrentTimestamp(now) + ".json";
             && written in listing
             && forall n :: n in listing && IsSnapshotName(n, true) ==> LessEq(n, written)
    ensures SnapshotFilepath(env, false, now, listing, true).name == SnapshotFilepath(env, true, now, listing, true).name
  {
    WrittenSnapshotIsListed(now);
    var written := SnapshotFilepath(env, true, now, listing, true).name;
    var read := SnapshotFilepath(env, false, now, listing, true).name;
    assert IsSnapshotName(written, true);
    if read != written {
      assert Less(written, read) && Less(read, written);
      LessTransitive(read, written, read);
      LessIrreflexive(read);
    }
  }
}
