/**
 * Naming and choosing sync files (`rights`, `translations`, `snapshot`, ...) in the
 * autosync directory, in single-file or multi-file mode.
 *
 * The environment, the working directory, the directory listing and the current time are
 * parameters; nothing here reads the file system or the clock.
 */
module SyncFiles {
  import opened Wrappers
  import opened Strings
  import opened Seqs

  /** The process environment and the working directory. */
  datatype Env = Env(vars: map<string, string>, cwd: string)

  function EnvVar(env: Env, name: string): Option<string> {
    if name in env.vars then Some(env.vars[name]) else None
  }

  /** `process.env.X || fallback`: the variable when it is set to a non-empty string. */
  function EnvOr(value: Option<string>, fallback: string): (r: string)
    ensures value.Some? && value.value != "" ==> r == value.value
    ensures value.None? || value.value == "" ==> r == fallback
  {
    if value.Some? && value.value != "" then value.value else fallback
  }

  /** The words `isStringTruthy` treats as false once lower-cased. */
  const FalsyWords: seq<string> := ["", "0", "no", "false"]

  /** `s` is the lower-case word `w` written with any mix of capitals. */
  predicate IsCasingOf(s: string, w: string) {
    |s| == |w| && forall i :: 0 <= i < |s| ==> s[i] == w[i] || s[i] as int == w[i] as int - 32
  }

  /**
   * `isStringTruthy(str)`. `None` stands for `undefined` or `null`: `str?.toLowerCase()` is
   * then `undefined`, which the list of falsy values contains.
   */
  function IsStringTruthy(str: Option<string>): (r: bool)
    ensures !r <==> str.None? || str.value == "" || str.value == "0"
                    || IsCasingOf(str.value, "no") || IsCasingOf(str.value, "false")
  {
    var falsy := str.None? || Lower(str.value) in FalsyWords;
    LowerIsCasing(str);
    !falsy
  }

  lemma LowerIsCasing(str: Option<string>)
    ensures str.Some? ==> (Lower(str.value) == "" <==> str.value == "")
    ensures str.Some? ==> (Lower(str.value) == "0" <==> str.value == "0")
    ensures str.Some? ==> (Lower(str.value) == "no" <==> IsCasingOf(str.value, "no"))
    ensures str.Some? ==> (Lower(str.value) == "false" <==> IsCasingOf(str.value, "false"))
  {
    if str.Some? {
      var s := str.value;
      if |s| == 1 && Lower(s) == "0" {
        assert s == [s[0]];
      }
      if IsCasingOf(s, "no") {
        assert Lower(s) == "no";
      }
      if IsCasingOf(s, "false") {
        assert Lower(s) == "false";
      }
    }
  }

  /** Truthiness ignores case, and the usual spellings of "on" are truthy. */
  lemma TruthinessExamples()
    ensures !IsStringTruthy(Some("FALSE")) && !IsStringTruthy(Some("No")) && !IsStringTruthy(None)
    ensures IsStringTruthy(Some("true")) && IsStringTruthy(Some("1")) && IsStringTruthy(Some("yes"))
    ensures IsStringTruthy(Some("off")) && IsStringTruthy(Some(" false"))
  {
    assert !IsCasingOf("true", "false") && !IsCasingOf("yes", "no");
    assert !IsCasingOf("off", "no") && !IsCasingOf(" false", "false");
    assert IsCasingOf("FALSE", "false") && IsCasingOf("No", "no");
  }

  /** `getEnvConfig()`: the configuration the sync helpers read from the environment. */
  datatype EnvConfig = EnvConfig(
    pull: bool,
    push: bool,
    multiFile: bool,
    filePath: string,
    includeRights: bool)

  function GetEnvConfig(env: Env): (c: EnvConfig)
    ensures c.multiFile == IsStringTruthy(EnvVar(env, "AUTOSYNC_MULTIFILE"))
    ensures c.includeRights == IsStringTruthy(EnvVar(env, "AUTOSYNC_INCLUDE_RIGHTS"))
    ensures c.pull == IsStringTruthy(EnvVar(env, "AUTOSYNC_PULL")) && c.push == IsStringTruthy(EnvVar(env, "AUTOSYNC_PUSH"))
    ensures var v := EnvVar(env, "AUTOSYNC_FILE_PATH");
            if v.Some? && v.value != "" then c.filePath == v.value else c.filePath == env.cwd + "/autosync-config"
  {
    EnvConfig(
      pull := IsStringTruthy(EnvVar(env, "AUTOSYNC_PULL")),
      push := IsStringTruthy(EnvVar(env, "AUTOSYNC_PUSH")),
      multiFile := IsStringTruthy(EnvVar(env, "AUTOSYNC_MULTIFILE")),
      filePath := EnvOr(EnvVar(env, "AUTOSYNC_FILE_PATH"), env.cwd + "/autosync-config"),
      includeRights := IsStringTruthy(EnvVar(env, "AUTOSYNC_INCLUDE_RIGHTS")))
  }

  /** `YYYYMMDDTHHMMSS`: eight digits, `T`, six digits. */
  predicate IsTimestamp(t: string) {
    |t| == 15 && AllDigits(t[..8]) && t[8] == 'T' && AllDigits(t[9..])
  }

  /** A regular-expression character: `.` stands for any character but a line terminator. */
  predicate PatternCharMatches(pc: char, c: char) {
    if pc == '.' then c != '\n' && c != '\r' && c != '\U{2028}' && c != '\U{2029}' else c == pc
  }

  /** The name has the shape `<prefix><timestamp>.json`, with the prefix compared by `matches`. */
  predicate HasTimestampedShape(prefix: string, name: string, literal: bool) {
    && |name| == |prefix| + 20
    && (if literal then name[..|prefix|] == prefix
        else forall i :: 0 <= i < |prefix| ==> PatternCharMatches(prefix[i], name[i]))
    && IsTimestamp(name[|prefix|..|prefix| + 15])
    && name[|prefix| + 15..] == ".json"
  }

  /**
   * The test `new RegExp(`^${file}_${version}_\d{8}T\d{6}\.json$`)` as written: `file` and
   * `version` are interpolated without escaping, so a `.` in them (every dotted version
   * number has some) matches any character.
   */
  predicate IsSyncFileNameAsWritten(file: string, version: string, name: string) {
    HasTimestampedShape(file + "_" + version + "_", name, false)
  }

  /** The evidently intended test: `file` and `version` taken literally. */
  predicate IsSyncFileName(file: string, version: string, name: string) {
    HasTimestampedShape(file + "_" + version + "_", name, true)
  }

  /** The listing filter: as written when `literal` is false, as intended when it is true. */
  predicate Accepts(literal: bool, file: string, version: string, name: string) {
    if literal then IsSyncFileName(file, version, name) else IsSyncFileNameAsWritten(file, version, name)
  }

  /** The literal test accepts exactly the names `file_version_<timestamp>.json`. */
  lemma SyncFileNameShape(file: string, version: string, name: string)
    ensures IsSyncFileName(file, version, name) <==>
              exists ts :: IsTimestamp(ts) && name == file + "_" + version + "_" + ts + ".json"
  {
    var prefix := file + "_" + version + "_";
    if IsSyncFileName(file, version, name) {
      var ts := name[|prefix|..|prefix| + 15];
      assert name == prefix + ts + ".json";
    }
    if exists ts :: IsTimestamp(ts) && name == prefix + ts + ".json" {
      var ts :| IsTimestamp(ts) && name == prefix + ts + ".json";
      assert name[..|prefix|] == prefix;
      assert name[|prefix|..|prefix| + 15] == ts;
      assert name[|prefix| + 15..] == ".json";
    }
  }

  /** Every name the intended test accepts, the test as written accepts too. */
  lemma IntendedMatchIsAcceptedAsWritten(file: string, version: string, name: string)
    requires IsSyncFileName(file, version, name)
    ensures IsSyncFileNameAsWritten(file, version, name)
  {
    var prefix := file + "_" + version + "_";
    forall i | 0 <= i < |prefix| ensures PatternCharMatches(prefix[i], name[i]) {
      assert name[..|prefix|][i] == name[i];
    }
  }

  /** As written, a file of another version is taken for version `11.1.0`. */
  lemma VersionDotMatchesAnyCharacter()
    ensures IsSyncFileNameAsWritten("rights", "11.1.0", "rights_11x1x0_20240101T000000.json")
    ensures !IsSyncFileName("rights", "11.1.0", "rights_11x1x0_20240101T000000.json")
  {
    var prefix := "rights_11.1.0_";
    var ts := "20240101T000000";
    var name := prefix[9 := 'x'][11 := 'x'] + ts + ".json";
    DottedName();
    assert "rights" + "_" + "11.1.0" + "_" == prefix;
    assert name[..|prefix|] == prefix[9 := 'x'][11 := 'x'];
    assert name[|prefix|..|prefix| + 15] == ts;
    assert name[|prefix| + 15..] == ".json";
    assert name[..|prefix|][9] != prefix[9];
    ExampleTimestamp();
    assert HasTimestampedShape(prefix, name, false);
  }

  lemma DottedName()
    ensures "rights_11.1.0_"[9 := 'x'][11 := 'x'] + "20240101T000000" + ".json" == "rights_11x1x0_20240101T000000.json"
  {
  }

  lemma ExampleTimestamp()
    ensures IsTimestamp("20240101T000000")
  {
    var ts := "20240101T000000";
    assert ts[..8] == "20240101";
    assert ts[9..] == "000000";
  }

  /** A name written with a timestamp of the right shape passes the listing filter, as written or intended. */
  lemma TimestampedNameIsListed(file: string, version: string, ts: string, literal: bool)
    requires IsTimestamp(ts)
    ensures Accepts(literal, file, version, file + "_" + version + "_" + ts + ".json")
  {
    SyncFileNameShape(file, version, file + "_" + version + "_" + ts + ".json");
    if !literal {
      IntendedMatchIsAcceptedAsWritten(file, version, file + "_" + version + "_" + ts + ".json");
    }
  }

  /**
   * `getSyncFilesForVersion(file, version, sortDir)` over the given directory listing, with
   * the filter as written (`literal` false) or as intended.
   */
  function GetSyncFilesForVersion(file: string, version: string, listing: seq<string>, sortDir: string,
                                  literal: bool): (r: seq<string>)
    ensures forall n :: n in r ==> n in listing && Accepts(literal, file, version, n)
    ensures forall n :: n in listing && Accepts(literal, file, version, n) ==> n in r
    ensures sortDir == "DESC" ==> forall i, j :: 0 <= i < j < |r| ==> LessEq(r[j], r[i])
    ensures sortDir != "DESC" ==> Sorted(r)
  {
    var matching := Filter(listing, (n: string) => Accepts(literal, file, version, n));
    var files := Sort(matching);
    SortKeepsMembers(matching);
    ReverseKeepsMembers(files);
    if sortDir == "DESC" then Reverse(files) else files
  }

  lemma SortKeepsMembers(s: seq<string>)
    ensures forall n :: n in Sort(s) <==> n in s
  {
    forall n ensures n in Sort(s) <==> n in s {
      assert n in Sort(s) <==> n in multiset(Sort(s));
    }
  }

  /** The last name of a sorted permutation of `s` is a member, and no member sorts after it. */
  lemma SortedLastIsGreatest(s: seq<string>, sorted: seq<string>)
    requires s != [] && Sorted(sorted) && multiset(sorted) == multiset(s)
    ensures |sorted| == |s| && sorted[|s| - 1] in s
    ensures forall n :: n in s ==> LessEq(n, sorted[|s| - 1])
  {
    assert |sorted| == |multiset(sorted)| == |multiset(s)| == |s|;
    SameMembers(sorted, s);
    LastOfSorted(sorted);
  }

  /** Permutations have the same members. */
  lemma SameMembers(a: seq<string>, b: seq<string>)
    requires multiset(a) == multiset(b)
    ensures forall n :: n in a <==> n in b
  {
    forall n ensures n in a <==> n in b {
      assert n in a <==> n in multiset(a);
      assert n in b <==> n in multiset(b);
    }
  }

  /** No member of a sorted list sorts after its last name. */
  lemma LastOfSorted(t: seq<string>)
    requires t != [] && Sorted(t)
    ensures t[|t| - 1] in t
    ensures forall n :: n in t ==> LessEq(n, t[|t| - 1])
  {
    forall n | n in t ensures LessEq(n, t[|t| - 1]) {
      var j :| 0 <= j < |t| && t[j] == n;
      if j < |t| - 1 {
        assert LessEq(t[j], t[|t| - 1]);
      }
    }
  }

  lemma ReverseKeepsMembers(s: seq<string>)
    ensures forall n :: n in Reverse(s) <==> n in s
  {
    forall n | n in s ensures n in Reverse(s) {
      var j :| 0 <= j < |s| && s[j] == n;
      assert Reverse(s)[|s| - 1 - j] == n;
    }
  }

  /** The directory and the file name that `path.join(dir, filename)` combines. */
  datatype SyncPath = SyncPath(dir: string, name: string)

  /**
   * `getSyncFilePath(file, version, timestamp)`. `None` stands for an omitted argument,
   * which takes the default value (`"unknown"`, `""`). `literal` selects the listing filter.
   */
  function GetSyncFilePath(env: Env, file: string, version: Option<string>, timestamp: Option<string>,
                           listing: seq<string>, literal: bool): (p: SyncPath)
    ensures p.dir == GetEnvConfig(env).filePath
    ensures !GetEnvConfig(env).multiFile ==> p.name == file + ".json"
    ensures GetEnvConfig(env).multiFile && timestamp.Some? && timestamp.value != "" ==>
              p.name == file + "_" + version.GetOr("unknown") + "_" + timestamp.value + ".json"
    ensures GetEnvConfig(env).multiFile && (timestamp.None? || timestamp.value == "") ==>
              var v := version.GetOr("unknown");
              if exists n :: n in listing && Accepts(literal, file, v, n) then
                && p.name in listing && Accepts(literal, file, v, p.name)
                && forall n :: n in listing && Accepts(literal, file, v, n) ==> LessEq(n, p.name)
              else p.name == file + "_" + v + ".json"
  {
    var config := GetEnvConfig(env);
    var v := version.GetOr("unknown");
    var ts := timestamp.GetOr("");
    var name :=
      if !config.multiFile then file + ".json"
      else if ts != "" then file + "_" + v + "_" + ts + ".json"
      else
        var names := GetSyncFilesForVersion(file, v, listing, "DESC", literal);
        assert forall n :: n in listing && Accepts(literal, file, v, n) ==> LessEq(n, names[0]) by {
          forall n | n in listing && Accepts(literal, file, v, n) ensures LessEq(n, names[0]) {
            var j :| 0 <= j < |names| && names[j] == n;
          }
        }
        if |names| > 0 then names[0] else file + "_" + v + ".json";
    SyncPath(config.filePath, name)
  }

  /**
   * In multi-file mode, a file written with a timestamp is the one read back when no
   * timestamp is given, provided no other name the filter accepts sorts after it. With the
   * filter as written that includes names of other versions, which
   * `AsWrittenReadsAnotherVersion` shows can happen.
   */
  lemma NewestWrittenFileIsReadBack(env: Env, file: string, version: string, ts: string, listing: seq<string>,
                                    literal: bool)
    requires GetEnvConfig(env).multiFile && IsTimestamp(ts)
    requires GetSyncFilePath(env, file, Some(version), Some(ts), listing, literal).name in listing
    requires forall n :: n in listing && Accepts(literal, file, version, n) ==>
               LessEq(n, file + "_" + version + "_" + ts + ".json")
    ensures GetSyncFilePath(env, file, Some(version), None, listing, literal)
            == GetSyncFilePath(env, file, Some(version), Some(ts), listing, literal)
  {
    var written := file + "_" + version + "_" + ts + ".json";
    TimestampedNameIsListed(file, version, ts, literal);
    var read := GetSyncFilePath(env, file, Some(version), None, listing, literal).name;
    assert LessEq(written, read) && LessEq(read, written);
    if read != written {
      LessTransitive(read, written, read);
      LessIrreflexive(read);
    }
  }

  /** A file of version `11.1.0`, and one of another version whose name differs only where the dots are. */
  const DottedVersionFile := "rights" + "_" + "11.1.0" + "_" + "20240101T000000" + ".json"
  const OtherVersionFile := "rights_11x1x0_20240101T000000.json"

  /** Without a timestamp, the greatest listed name the filter accepts is read. */
  lemma ReadPicksGreatest(env: Env, file: string, version: string, listing: seq<string>, literal: bool, n: string)
    requires GetEnvConfig(env).multiFile
    requires n in listing && Accepts(literal, file, version, n)
    requires forall m :: m in listing && Accepts(literal, file, version, m) ==> LessEq(m, n)
    ensures GetSyncFilePath(env, file, Some(version), None, listing, literal).name == n
  {
    var read := GetSyncFilePath(env, file, Some(version), None, listing, literal).name;
    assert LessEq(n, read) && LessEq(read, n);
    if read != n {
      LessTransitive(read, n, read);
      LessIrreflexive(read);
    }
  }

  /** Both files pass the filter as written; only the file of the version passes the literal one. */
  lemma ExampleFilesAccepted()
    ensures Accepts(false, "rights", "11.1.0", OtherVersionFile) && !Accepts(true, "rights", "11.1.0", OtherVersionFile)
    ensures Accepts(false, "rights", "11.1.0", DottedVersionFile) && Accepts(true, "rights", "11.1.0", DottedVersionFile)
    ensures Less(DottedVersionFile, OtherVersionFile)
  {
    OtherFileAccepted();
    DottedFileAccepted(false);
    DottedFileAccepted(true);
    DottedBeforeOther();
  }

  lemma OtherFileAccepted()
    ensures Accepts(false, "rights", "11.1.0", OtherVersionFile) && !Accepts(true, "rights", "11.1.0", OtherVersionFile)
  {
    VersionDotMatchesAnyCharacter();
  }

  lemma DottedFileAccepted(literal: bool)
    ensures Accepts(literal, "rights", "11.1.0", DottedVersionFile)
  {
    ExampleTimestamp();
    TimestampedNameIsListed("rights", "11.1.0", "20240101T000000", literal);
  }

  lemma DottedBeforeOther()
    ensures Less(DottedVersionFile, OtherVersionFile)
  {
    assert DottedVersionFile[..9] == OtherVersionFile[..9];
    LessAtFirstDifference(DottedVersionFile, OtherVersionFile, 9);
  }

  /** Of two listed names, the greater is read when the filter accepts it, and the lesser otherwise. */
  lemma ReadOfPair(env: Env, file: string, version: string, lo: string, hi: string, literal: bool)
    requires GetEnvConfig(env).multiFile
    requires Less(lo, hi) && Accepts(literal, file, version, lo)
    ensures GetSyncFilePath(env, file, Some(version), None, [hi, lo], literal).name
            == if Accepts(literal, file, version, hi) then hi else lo
  {
    var listing := [hi, lo];
    assert forall m :: m in listing ==> m == hi || m == lo;
    if Accepts(literal, file, version, hi) {
      ReadPicksGreatest(env, file, version, listing, literal, hi);
    } else {
      ReadPicksGreatest(env, file, version, listing, literal, lo);
    }
  }

  /**
   * With both files listed, the read without a timestamp picks the other version's file as
   * written, and the file of the version with the literal filter.
   */
  lemma AsWrittenReadsAnotherVersion(env: Env)
    requires GetEnvConfig(env).multiFile
    ensures var listing := [OtherVersionFile, DottedVersionFile];
            && GetSyncFilePath(env, "rights", Some("11.1.0"), None, listing, false).name == OtherVersionFile
            && GetSyncFilePath(env, "rights", Some("11.1.0"), None, listing, true).name == DottedVersionFile
  {
    ExampleFilesAccepted();
    ReadOfPair(env, "rights", "11.1.0", DottedVersionFile, OtherVersionFile, false);
    ReadOfPair(env, "rights", "11.1.0", DottedVersionFile, OtherVersionFile, true);
  }

  /** A calendar instant, as a `Date` holds it in UTC. */
  datatype Instant = Instant(year: int, month: nat, day: nat,
                             hour: nat, minute: nat, second: nat, millisecond: nat)

  /** The range of instants a `Date` can hold. */
  predicate ValidInstant(t: Instant) {
    && -271821 <= t.year <= 275760
    && 1 <= t.month <= 12 && 1 <= t.day <= 31
    && 0 <= t.hour < 24 && 0 <= t.minute < 60 && 0 <= t.second < 60
    && 0 <= t.millisecond < 1000
  }

  function Pow10(n: nat): (p: nat)
    ensures p >= 1
  {
    if n == 0 then 1 else 10 * Pow10(n - 1)
  }

  /** `n` written in decimal with exactly `width` digits (zero-padded, higher digits dropped). */
  function Pad(n: nat, width: nat): (s: string)
    ensures |s| == width && AllDigits(s)
  {
    if width == 0 then "" else Pad(n / 10, width - 1) + [('0' as int + n % 10) as char]
  }

  /** The number a string of digits denotes. */
  function DigitsValue(s: string): nat
    requires AllDigits(s)
  {
    if s == [] then 0 else 10 * DigitsValue(s[..|s| - 1]) + (s[|s| - 1] as int - '0' as int)
  }

  /** Reading back a padded number gives the number, when it fits in the width. */
  lemma {:induction false} PadRoundTrip(n: nat, width: nat)
    requires n < Pow10(width)
    ensures DigitsValue(Pad(n, width)) == n
  {
    if width > 0 {
      var q, d := n / 10, n % 10;
      assert n == 10 * q + d && 0 <= d < 10;
      assert q < Pow10(width - 1);
      PadRoundTrip(q, width - 1);
      var s := Pad(n, width);
      assert s == Pad(q, width - 1) + [('0' as int + d) as char];
      assert s[..|s| - 1] == Pad(q, width - 1);
      assert s[|s| - 1] as int - '0' as int == d;
    }
  }

  /** The year as `toISOString` writes it: four digits, or a sign and six digits. */
  function IsoYear(y: int): string {
    if 0 <= y <= 9999 then Pad(y, 4)
    else if y < 0 then "-" + Pad(-y, 6)
    else "+" + Pad(y, 6)
  }

  /** `YYYY-MM-DD` */
  function IsoDate(t: Instant): string {
    IsoYear(t.year) + "-" + Pad(t.month, 2) + "-" + Pad(t.day, 2)
  }

  /** `HH:mm:ss` */
  function IsoTime(t: Instant): string {
    Pad(t.hour, 2) + ":" + Pad(t.minute, 2) + ":" + Pad(t.second, 2)
  }

  /** `date.toISOString()`: `YYYY-MM-DDTHH:mm:ss.sssZ`. */
  function ToIsoString(t: Instant): string {
    IsoDate(t) + "T" + IsoTime(t) + "." + Pad(t.millisecond, 3) + "Z"
  }

  /** `s.replace(/[-:]/g, "")`. */
  function StripSeparators(s: string): (r: string)
    ensures forall i :: 0 <= i < |r| ==> r[i] != '-' && r[i] != ':'
  {
    if s == [] then ""
    else if s[0] == '-' || s[0] == ':' then StripSeparators(s[1..])
    else [s[0]] + StripSeparators(s[1..])
  }

  lemma {:induction false} StripSeparatorsAppend(a: string, b: string)
    ensures StripSeparators(a + b) == StripSeparators(a) + StripSeparators(b)
  {
    if a == [] {
      assert a + b == b;
    } else {
      assert (a + b)[0] == a[0];
      assert (a + b)[1..] == a[1..] + b;
      StripSeparatorsAppend(a[1..], b);
      if a[0] != '-' && a[0] != ':' {
        assert [a[0]] + StripSeparators(a[1..]) + StripSeparators(b)
               == [a[0]] + (StripSeparators(a[1..]) + StripSeparators(b));
      }
    }
  }

  lemma {:induction false} StripSeparatorsDigits(s: string)
    requires AllDigits(s)
    ensures StripSeparators(s) == s
  {
    if s != [] {
      StripSeparatorsDigits(s[1..]);
    }
  }

  /** Stripping `x`, one character `c`, then digits `y`. */
  lemma StripStep(x: string, c: char, y: string)
    requires AllDigits(y)
    ensures StripSeparators(x + [c] + y)
            == StripSeparators(x) + (if c == '-' || c == ':' then "" else [c]) + y
  {
    assert x + [c] + y == x + ([c] + y);
    StripSeparatorsAppend(x, [c] + y);
    assert ([c] + y)[0] == c && ([c] + y)[1..] == y;
    StripSeparatorsDigits(y);
  }

  /** `s.split(".")[0]`: everything before the first `.`. */
  function BeforeFirstDot(s: string): (r: string)
    ensures |r| <= |s| && r == s[..|r|]
    ensures '.' !in r
  {
    if s == [] || s[0] == '.' then "" else [s[0]] + BeforeFirstDot(s[1..])
  }

  lemma {:induction false} BeforeFirstDotAppend(a: string, b: string)
    requires '.' !in a
    ensures BeforeFirstDot(a + b) == a + BeforeFirstDot(b)
  {
    if a == [] {
      assert a + b == b;
    } else {
      assert (a + b)[0] == a[0];
      assert (a + b)[1..] == a[1..] + b;
      BeforeFirstDotAppend(a[1..], b);
      assert [a[0]] + a[1..] == a;
    }
  }

  /** The year without its sign, as digits. */
  function YearDigits(y: int): (s: string)
    ensures AllDigits(s)
  {
    if 0 <= y <= 9999 then Pad(y, 4) else if y < 0 then Pad(-y, 6) else Pad(y, 6)
  }

  lemma StripIsoYear(y: int)
    ensures StripSeparators(IsoYear(y)) == (if y > 9999 then "+" else "") + YearDigits(y)
  {
    StripSeparatorsDigits(YearDigits(y));
    if !(0 <= y <= 9999) {
      var sign := if y < 0 then '-' else '+';
      assert IsoYear(y) == [] + [sign] + YearDigits(y);
      StripStep([], sign, YearDigits(y));
    }
  }

  /** `YYYYMMDD`, the year written with its sign and six digits outside 0..9999. */
  function CompactDate(t: Instant): string {
    (if t.year > 9999 then "+" else "") + YearDigits(t.year) + Pad(t.month, 2) + Pad(t.day, 2)
  }

  /** `HHMMSS` */
  function CompactTime(t: Instant): string {
    Pad(t.hour, 2) + Pad(t.minute, 2) + Pad(t.second, 2)
  }

  /** `YYYYMMDD` `T` `HHMMSS`. */
  function CompactTimestamp(t: Instant): string {
    CompactDate(t) + "T" + CompactTime(t)
  }

  /**
   * `getCurrentTimestamp()` at instant `t`: the ISO string without its separators and its
   * fraction. It always contains the `T`; for a four-digit year it has the `YYYYMMDDTHHMMSS`
   * shape and its digit groups read back as the instant's fields.
   */
  function GetCurrentTimestamp(t: Instant): (r: string)
    requires ValidInstant(t)
    ensures 'T' in r
    ensures 0 <= t.year <= 9999 ==>
              && IsTimestamp(r)
              && DigitsValue(r[..4]) == t.year && DigitsValue(r[4..6]) == t.month
              && DigitsValue(r[6..8]) == t.day && DigitsValue(r[9..11]) == t.hour
              && DigitsValue(r[11..13]) == t.minute && DigitsValue(r[13..15]) == t.second
  {
    TimestampLayout(t);
    CompactTimestampHasT(t);
    if 0 <= t.year <= 9999 then
      TimestampFields(t);
      BeforeFirstDot(StripSeparators(ToIsoString(t)))
    else
      BeforeFirstDot(StripSeparators(ToIsoString(t)))
  }

  lemma StripIsoDate(t: Instant)
    ensures StripSeparators(IsoDate(t)) == CompactDate(t)
  {
    var y := IsoYear(t.year);
    var s1 := y + "-" + Pad(t.month, 2);
    StripStep(y, '-', Pad(t.month, 2));
    StripStep(s1, '-', Pad(t.day, 2));
    StripIsoYear(t.year);
  }

  lemma StripIsoTime(t: Instant)
    ensures StripSeparators(IsoTime(t)) == CompactTime(t)
  {
    var s1 := Pad(t.hour, 2) + ":" + Pad(t.minute, 2);
    StripStep(Pad(t.hour, 2), ':', Pad(t.minute, 2));
    StripSeparatorsDigits(Pad(t.hour, 2));
    StripStep(s1, ':', Pad(t.second, 2));
  }

  lemma StripIsoHead(t: Instant)
    ensures StripSeparators(IsoDate(t) + "T" + IsoTime(t)) == CompactTimestamp(t)
  {
    var date, time := IsoDate(t), IsoTime(t);
    StripSeparatorsAppend(date + "T", time);
    StripSeparatorsAppend(date, "T");
    assert StripSeparators("T") == "T";
    StripIsoDate(t);
    StripIsoTime(t);
  }

  lemma StripIsoTail(ms: string)
    requires AllDigits(ms)
    ensures StripSeparators("." + ms + "Z") == "." + ms + "Z"
  {
    StripSeparatorsAppend("." + ms, "Z");
    StripSeparatorsAppend(".", ms);
    StripSeparatorsDigits(ms);
  }

  lemma CompactTimestampHasNoDot(t: Instant)
    ensures '.' !in CompactTimestamp(t)
  {
    var y, mo, d := YearDigits(t.year), Pad(t.month, 2), Pad(t.day, 2);
    var h, mi, sec := Pad(t.hour, 2), Pad(t.minute, 2), Pad(t.second, 2);
    assert '.' !in y && '.' !in mo && '.' !in d && '.' !in h && '.' !in mi && '.' !in sec;
  }

  /** How the ISO string collapses: the separators go, the fraction is cut off. */
  lemma TimestampLayout(t: Instant)
    requires ValidInstant(t)
    ensures BeforeFirstDot(StripSeparators(ToIsoString(t))) == CompactTimestamp(t)
  {
    var head, tail := IsoDate(t) + "T" + IsoTime(t), "." + Pad(t.millisecond, 3) + "Z";
    assert ToIsoString(t) == head + tail;
    StripSeparatorsAppend(head, tail);
    StripIsoHead(t);
    StripIsoTail(Pad(t.millisecond, 3));
    CompactTimestampHasNoDot(t);
    BeforeFirstDotAppend(CompactTimestamp(t), tail);
  }

  /** Three padded numbers laid side by side read back one by one. */
  lemma {:induction false} ThreeGroups(x: nat, wx: nat, y: nat, wy: nat, z: nat, wz: nat)
    requires x < Pow10(wx) && y < Pow10(wy) && z < Pow10(wz)
    ensures var g := Pad(x, wx) + Pad(y, wy) + Pad(z, wz);
            && DigitsValue(g[..wx]) == x
            && DigitsValue(g[wx..wx + wy]) == y
            && DigitsValue(g[wx + wy..]) == z
  {
    var a, b, c := Pad(x, wx), Pad(y, wy), Pad(z, wz);
    var g := a + b + c;
    assert g[..wx] == a && g[wx..wx + wy] == b && g[wx + wy..] == c;
    PadRoundTrip(x, wx);
    PadRoundTrip(y, wy);
    PadRoundTrip(z, wz);
  }

  /** Where the groups of a `date` `T` `time` string sit. */
  lemma SplitAtT(date: string, time: string)
    requires |date| == 8 && |time| == 6
    ensures var c := date + "T" + time;
            && |c| == 15 && c[8] == 'T' && c[..8] == date && c[9..] == time
            && c[..4] == date[..4] && c[4..6] == date[4..6] && c[6..8] == date[6..]
            && c[9..11] == time[..2] && c[11..13] == time[2..4] && c[13..15] == time[4..]
  {
  }

  lemma CompactTimestampHasT(t: Instant)
    ensures 'T' in CompactTimestamp(t)
  {
    assert CompactTimestamp(t)[|CompactDate(t)|] == 'T';
  }

  /** For a four-digit year the date part is the three padded fields. */
  lemma CompactDateFourDigits(t: Instant)
    requires 0 <= t.year <= 9999
    ensures CompactDate(t) == Pad(t.year, 4) + Pad(t.month, 2) + Pad(t.day, 2)
  {
    assert "" + YearDigits(t.year) == Pad(t.year, 4);
  }

  /** For a four-digit year the digit groups of the timestamp read back as the instant's fields. */
  lemma TimestampFields(t: Instant)
    requires ValidInstant(t) && 0 <= t.year <= 9999
    ensures var c := CompactTimestamp(t);
            && IsTimestamp(c)
            && DigitsValue(c[..4]) == t.year && DigitsValue(c[4..6]) == t.month
            && DigitsValue(c[6..8]) == t.day && DigitsValue(c[9..11]) == t.hour
            && DigitsValue(c[11..13]) == t.minute && DigitsValue(c[13..15]) == t.second
  {
    var date, time := CompactDate(t), CompactTime(t);
    CompactDateFourDigits(t);
    ThreeGroups(t.year, 4, t.month, 2, t.day, 2);
    ThreeGroups(t.hour, 2, t.minute, 2, t.second, 2);
    SplitAtT(date, time);
  }
}
