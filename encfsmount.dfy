// `EncFS_mount`: the decisions behind mounting an encrypted folder with encfs.
// The file system is a map from path to content, the backup folder a map from
// file name to content, md5 an abstract hash and the clock a time-stamp string.

module EncFSMount {
  import opened Results
  import opened Strings

  /** The name encfs gives its configuration file. */
  const ConfigName: string := ".encfs6.xml"
  /** The environment variable that points encfs at its configuration file. */
  const ConfigVar: string := "ENCFS6_CONFIG"

  /** The `MountException`s raised here, one per message. */
  datatype MountError =
    | EncfsNotFound
    | NotInFuseGroup(user: string)
    | BuggyReverse
    | ConfigNotFound
    | Cancelled
    | PasswordMismatch
    | CantMount(command: seq<string>, output: string)

  // ---------------------------------------------------------------------------
  // get_config_file, get_env

  /** `get_config_file`: `.encfs6.xml` inside `config_path`, or inside `path` when there is none. */
  function ConfigFile(path: string, configPath: Option<string>): (r: string)
    ensures var dir := if configPath.Some? then configPath.value else path;
      && (r == dir + ConfigName <==> dir == "" || dir[|dir| - 1] == '/')
      && (r == dir + "/" + ConfigName <==> dir != "" && dir[|dir| - 1] != '/')
  {
    PathJoin(if configPath.Some? then configPath.value else path, ConfigName)
  }

  /** `os.path.basename`: what follows the last separator. */
  function Basename(p: string): (r: string)
    ensures '/' !in r && EndsWith(p, r)
  {
    if p == "" || p[|p| - 1] == '/' then ""
    else
      var b := Basename(p[..|p| - 1]);
      assert p[..|p| - 1][|p| - 1 - |b|..] == b;
      assert p[|p| - |b| - 1..] == p[..|p| - 1][|p| - 1 - |b|..] + [p[|p| - 1]];
      b + [p[|p| - 1]]
  }

  lemma {:induction false} BasenameAfterSep(dir: string, name: string)
    requires dir == "" || dir[|dir| - 1] == '/'
    requires '/' !in name
    ensures Basename(dir + name) == name
    decreases |name|
  {
    if name != "" {
      var p := dir + name;
      var last := name[|name| - 1];
      var shorter := name[..|name| - 1];
      assert p[|p| - 1] == last && last != '/';
      assert p[..|p| - 1] == dir + shorter;
      assert Basename(p) == Basename(dir + shorter) + [last];
      BasenameAfterSep(dir, shorter);
      assert name == shorter + [last];
    } else {
      assert dir + name == dir;
    }
  }

  /** The backup file's name always starts with `.encfs6.xml`, whichever directory holds the config. */
  lemma ConfigFileBasename(path: string, configPath: Option<string>)
    ensures Basename(ConfigFile(path, configPath)) == ConfigName
  {
    var dir := if configPath.Some? then configPath.value else path;
    if dir == "" || dir[|dir| - 1] == '/' {
      BasenameAfterSep(dir, ConfigName);
    } else {
      assert dir + "/" + ConfigName == (dir + "/") + ConfigName;
      BasenameAfterSep(dir + "/", ConfigName);
    }
  }

  /** `get_env`: the caller's environment with `ENCFS6_CONFIG` set to the config file
      when that file exists, and nothing else changed. */
  function GetEnv(environ: map<string, string>, files: map<string, string>, cfg: string): (r: map<string, string>)
    ensures cfg in files ==> ConfigVar in r && r[ConfigVar] == cfg
    ensures cfg !in files ==> r == environ
    ensures forall k :: k != ConfigVar ==> (k in r <==> k in environ)
    ensures forall k :: k != ConfigVar && k in r ==> r[k] == environ[k]
  {
    if cfg in files then environ[ConfigVar := cfg] else environ
  }

  // ---------------------------------------------------------------------------
  // is_configured, check_fuse, check_version

  /** `is_configured`: an existing config is fine. A missing one is an error unless this
      is a temporary mount from the settings dialog, where the user is asked whether to
      create one (`createAnswer`) and to type the password again (`confirmation`);
      `Ok(false)` then tells `_mount` to create a new config. */
  function IsConfigured(cfgExists: bool, tmpMount: bool, createAnswer: bool, password: string, confirmation: string): (r: Result<bool, MountError>)
    ensures r == Ok(true) <==> cfgExists
    ensures r == Ok(false) <==> !cfgExists && tmpMount && createAnswer && password == confirmation
    ensures !cfgExists && !tmpMount ==> r == Err(ConfigNotFound)
    ensures !cfgExists && tmpMount && !createAnswer ==> r == Err(Cancelled)
    ensures !cfgExists && tmpMount && createAnswer && password != confirmation ==> r == Err(PasswordMismatch)
  {
    if cfgExists then Ok(true)
    else if !tmpMount then Err(ConfigNotFound)
    else if !createAnswer then Err(Cancelled)
    else if password == confirmation then Ok(false)
    else Err(PasswordMismatch)
  }

  /** `EncFS_mount.CHECK_FUSE_GROUP`. */
  const CheckFuseGroup: bool := true

  /** `check_fuse`: encfs must be installed, and when the group `fuse` exists
      (`fuseMembers` is its member list) the user must belong to it. */
  function CheckFuse(hasEncfs: bool, checkGroup: bool, fuseMembers: Option<seq<string>>, user: string): (r: Result<(), MountError>)
    ensures r.Ok? <==> hasEncfs && (!checkGroup || fuseMembers.None? || user in fuseMembers.value)
    ensures !hasEncfs ==> r == Err(EncfsNotFound)
    ensures hasEncfs && r.Err? ==> r == Err(NotInFuseGroup(user))
  {
    if !hasEncfs then Err(EncfsNotFound)
    else if !checkGroup then Ok(())
    else if fuseMembers.None? then Ok(())
    else if user !in fuseMembers.value then Err(NotInFuseGroup(user))
    else Ok(())
  }

  /** A `StrictVersion` of three components. */
  datatype Version = Version(major: nat, minor: nat, patch: nat)

  /** `StrictVersion(a) <= StrictVersion(b)`: the components compared in order. */
  predicate VersionLe(a: Version, b: Version)
  {
    a.major < b.major
    || (a.major == b.major && (a.minor < b.minor || (a.minor == b.minor && a.patch <= b.patch)))
  }

  /** The last encfs release whose `--reverse` writes corrupt files. */
  const LastBuggy: Version := Version(1, 7, 2)

  /** `\d\.\d\.\d` matches at `k`. */
  predicate VersionAt(s: string, k: nat)
  {
    k + 5 <= |s| && IsDigit(s[k]) && s[k + 1] == '.' && IsDigit(s[k + 2]) && s[k + 3] == '.' && IsDigit(s[k + 4])
  }

  /** `re.search(r'(\d\.\d\.\d)', s)` from `i`: the leftmost match. */
  function VersionSearch(s: string, i: nat): (r: Option<nat>)
    requires i <= |s|
    ensures r.Some? ==> i <= r.value && VersionAt(s, r.value)
    ensures r.Some? ==> forall k :: i <= k < r.value ==> !VersionAt(s, k)
    ensures r.None? ==> forall k :: i <= k ==> !VersionAt(s, k)
    decreases |s| - i
  {
    if VersionAt(s, i) then Some(i)
    else if i == |s| then None
    else VersionSearch(s, i + 1)
  }

  function DigitValue(c: char): nat
    requires IsDigit(c)
  {
    c as int - '0' as int
  }

  /** The version whose three digits `VersionAt` found at `k`. */
  function VersionOf(s: string, k: nat): (v: Version)
    requires VersionAt(s, k)
    ensures v.major < 10 && v.minor < 10 && v.patch < 10
  {
    Version(DigitValue(s[k]), DigitValue(s[k + 2]), DigitValue(s[k + 4]))
  }

  /** `check_version` given what `encfs --version` printed: only a reverse mount is
      checked, and it is refused exactly when the first `d.d.d` in the output is at
      most 1.7.2. Output without such a version passes. */
  function CheckVersion(reverse: bool, output: string): (r: Result<(), MountError>)
    ensures r.Err? <==> (reverse && VersionSearch(output, 0).Some?
                         && VersionLe(VersionOf(output, VersionSearch(output, 0).value), LastBuggy))
    ensures r.Err? ==> r.error == BuggyReverse
  {
    if !reverse then Ok(())
    else
      match VersionSearch(output, 0)
      case None => Ok(())
      case Some(k) => if VersionLe(VersionOf(output, k), LastBuggy) then Err(BuggyReverse) else Ok(())
  }

  /** The search stops at the first match. */
  lemma {:induction false} SearchFinds(s: string, i: nat, k: nat)
    requires i <= k && VersionAt(s, k)
    requires forall x :: i <= x < k ==> !VersionAt(s, x)
    ensures VersionSearch(s, i) == Some(k)
    decreases k - i
  {
    if i < k {
      assert !VersionAt(s, i);
      SearchFinds(s, i + 1, k);
    }
  }

  /** A release after 1.7.2 is never refused, and neither is any output when the
      mount is not a reverse one. */
  lemma FixedVersionAccepted(reverse: bool, output: string, k: nat)
    requires VersionAt(output, k)
    requires forall x :: 0 <= x < k ==> !VersionAt(output, x)
    requires VersionLe(Version(1, 7, 3), VersionOf(output, k))
    ensures CheckVersion(reverse, output) == Ok(())
  {
    SearchFinds(output, 0, k);
  }

  /** The first `d.d.d` decides: a buggy release found there is refused for a reverse mount. */
  lemma BuggyVersionRefused(output: string, k: nat)
    requires VersionAt(output, k)
    requires forall x :: 0 <= x < k ==> !VersionAt(output, x)
    requires VersionLe(VersionOf(output, k), LastBuggy)
    ensures CheckVersion(true, output) == Err(BuggyReverse)
  {
    SearchFinds(output, 0, k);
  }

  // ---------------------------------------------------------------------------
  // backup_config: `old_backups.sort(reverse = True)` puts the greatest name first.

  /** Python's `<=` on strings: code points compared in order, a prefix first. */
  predicate LexLe(a: string, b: string)
    decreases |a|
  {
    a == [] || (b != [] && (a[0] < b[0] || (a[0] == b[0] && LexLe(a[1..], b[1..]))))
  }

  lemma {:induction false} LexTotal(a: string, b: string)
    ensures LexLe(a, b) || LexLe(b, a)
    decreases |a|
  {
    if a != [] && b != [] && a[0] == b[0] {
      LexTotal(a[1..], b[1..]);
    }
  }

  lemma {:induction false} LexTrans(a: string, b: string, c: string)
    requires LexLe(a, b) && LexLe(b, c)
    ensures LexLe(a, c)
    decreases |a|
  {
    if a != [] && a[0] == b[0] && b[0] == c[0] {
      LexTrans(a[1..], b[1..], c[1..]);
    }
  }

  lemma {:induction false} LexAntisym(a: string, b: string)
    requires LexLe(a, b) && LexLe(b, a)
    ensures a == b
    decreases |a|
  {
    if a != [] {
      LexAntisym(a[1..], b[1..]);
      assert a == [a[0]] + a[1..] && b == [b[0]] + b[1..];
    }
  }

  /** The greatest name in a non-empty set. */
  ghost function Latest(names: set<string>): (m: string)
    requires names != {}
    ensures m in names && forall y :: y in names ==> LexLe(y, m)
    decreases names
  {
    var x :| x in names;
    if names == {x} then LexTotal(x, x); x
    else
      var m := Latest(names - {x});
      LatestStep(names, x, m);
      if LexLe(x, m) then m else x
  }

  lemma LatestStep(names: set<string>, x: string, m: string)
    requires x in names && m in names
    requires forall y :: y in names - {x} ==> LexLe(y, m)
    ensures LexLe(x, m) ==> forall y :: y in names ==> LexLe(y, m)
    ensures !LexLe(x, m) ==> forall y :: y in names ==> LexLe(y, x)
  {
    if !LexLe(x, m) {
      LexTotal(x, m);
      forall y | y in names ensures LexLe(y, x) {
        if y == x {
          LexTotal(x, x);
        } else {
          LexTrans(y, m, x);
        }
      }
    }
  }

  /** A name that is at least every name in the set and belongs to it is the greatest. */
  lemma LatestIsGreatest(names: set<string>, n: string)
    requires n in names && forall y :: y in names ==> LexLe(y, n)
    ensures Latest(names) == n
  {
    LexAntisym(Latest(names), n);
  }

  /** `backup_config`'s decision: the name of the backup to write, or `None` when the
      config is missing or has the same md5 as the greatest-named existing backup. */
  ghost function BackupChoice(files: map<string, string>, backups: map<string, string>, cfg: string,
                              md5: string -> string, stamp: string): (r: Option<string>)
    ensures r.Some? <==> cfg in files && (backups == map[] || md5(files[cfg]) != md5(backups[Latest(backups.Keys)]))
    ensures r.Some? ==> r.value == Basename(cfg) + "." + stamp
  {
    if cfg !in files then None
    else if backups != map[] && md5(files[cfg]) == md5(backups[Latest(backups.Keys)]) then None
    else Some(Basename(cfg) + "." + stamp)
  }

  /** The backup folder after `backup_config`. */
  ghost function BackupAfter(files: map<string, string>, backups: map<string, string>, cfg: string,
                             md5: string -> string, stamp: string): map<string, string>
  {
    match BackupChoice(files, backups, cfg, md5, stamp)
    case None => backups
    case Some(name) => backups[name := files[cfg]]
  }

  /** A backup never loses or alters another backup, and one that is written holds the config. */
  lemma BackupKeepsOthers(files: map<string, string>, backups: map<string, string>, cfg: string,
                          md5: string -> string, stamp: string)
    ensures var after := BackupAfter(files, backups, cfg, md5, stamp);
      && (forall k :: k in backups && k != Basename(cfg) + "." + stamp ==> k in after && after[k] == backups[k])
      && after.Keys <= backups.Keys + {Basename(cfg) + "." + stamp}
      && (after != backups ==> cfg in files && after[Basename(cfg) + "." + stamp] == files[cfg])
  {
  }

  /** Once a backup has been written under a name no smaller than the old ones, a
      second run on the same files writes nothing, whatever the new time stamp. */
  lemma BackupIdempotent(files: map<string, string>, backups: map<string, string>, cfg: string,
                         md5: string -> string, stamp: string, later: string)
    requires BackupChoice(files, backups, cfg, md5, stamp).Some?
    requires forall k :: k in backups ==> LexLe(k, Basename(cfg) + "." + stamp)
    ensures BackupChoice(files, BackupAfter(files, backups, cfg, md5, stamp), cfg, md5, later) == None
  {
    var name := Basename(cfg) + "." + stamp;
    var after := BackupAfter(files, backups, cfg, md5, stamp);
    assert after == backups[name := files[cfg]];
    forall y | y in after.Keys ensures LexLe(y, name) {
      if y == name {
        LexTotal(name, name);
      }
    }
    LatestIsGreatest(after.Keys, name);
  }

  // ---------------------------------------------------------------------------
  // _mount

  /** The options `_mount` puts between `--extpass` and the two paths. */
  function MountOptions(reverse: bool, configured: bool, readOnly: bool): (o: seq<string>)
    ensures |o| == (if reverse then 1 else 0) + (if configured then 0 else 1) + (if readOnly then 2 else 0)
    ensures "--reverse" in o <==> reverse
    ensures "--standard" in o <==> !configured
    ensures "-o" in o <==> readOnly
    ensures "ro" in o <==> readOnly
    ensures readOnly ==> o[|o| - 2..] == ["-o", "ro"]
    ensures reverse ==> o[0] == "--reverse"
  {
    var a := if reverse then ["--reverse"] else [];
    var b := if configured then [] else ["--standard"];
    var c := if readOnly then ["-o", "ro"] else [];
    assert forall x :: x in a + b + c <==> x in a || x in b || x in c;
    a + b + c
  }

  /** The encfs command line `_mount` builds. */
  function MountCommand(reverse: bool, configured: bool, readOnly: bool, path: string, mountpoint: string): (cmd: seq<string>)
    ensures |cmd| >= 4 && cmd[..2] == ["encfs", "--extpass=backintime-askpass"]
    ensures cmd[|cmd| - 2..] == [path, mountpoint]
    ensures cmd[2..|cmd| - 2] == MountOptions(reverse, configured, readOnly)
  {
    var o := MountOptions(reverse, configured, readOnly);
    var cmd := ["encfs", "--extpass=backintime-askpass"] + o + [path, mountpoint];
    assert cmd[2..|cmd| - 2] == o;
    cmd
  }

  /** What `_mount` does that the model can observe. */
  datatype MountEvent =
    | PasswordThreadStart
    | Spawn(command: seq<string>, env: map<string, string>)
    | BackupWritten(name: string)
    | PasswordThreadStop

  class EncFSMount {
    const path: string
    const mountpoint: string
    const reverse: bool
    const readOnly: bool
    const configPath: Option<string>
    const tmpMount: bool
    const password: string
    /** The file system: path to content. */
    var files: map<string, string>
    /** The config backup folder: file name to content. */
    var backups: map<string, string>
    var events: seq<MountEvent>

    constructor (path: string, mountpoint: string, reverse: bool, readOnly: bool, configPath: Option<string>,
                 tmpMount: bool, password: string, files: map<string, string>, backups: map<string, string>)
      ensures this.path == path && this.mountpoint == mountpoint && this.reverse == reverse
      ensures this.readOnly == readOnly && this.configPath == configPath && this.tmpMount == tmpMount
      ensures this.password == password && this.files == files && this.backups == backups && events == []
    {
      this.path := path;
      this.mountpoint := mountpoint;
      this.reverse := reverse;
      this.readOnly := readOnly;
      this.configPath := configPath;
      this.tmpMount := tmpMount;
      this.password := password;
      this.files := files;
      this.backups := backups;
      events := [];
    }

    /** `self.get_config_file()`. */
    function Config(): string
    {
      ConfigFile(path, configPath)
    }

    /** The `encfs` list of `_mount`, built by appending. */
    method BuildCommand(configured: bool) returns (cmd: seq<string>)
      ensures cmd == MountCommand(reverse, configured, readOnly, path, mountpoint)
    {
      cmd := ["encfs", "--extpass=backintime-askpass"];
      if reverse {
        cmd := cmd + ["--reverse"];
      }
      if !configured {
        cmd := cmd + ["--standard"];
      }
      if readOnly {
        cmd := cmd + ["-o", "ro"];
      }
      cmd := cmd + [path, mountpoint];
      ghost var a := if reverse then ["--reverse"] else [];
      ghost var b := if configured then [] else ["--standard"];
      ghost var c := if readOnly then ["-o", "ro"] else [];
      assert cmd == ["encfs", "--extpass=backintime-askpass"] + (a + b + c) + [path, mountpoint];
    }

    /** `backup_config`: `:|` picks the greatest existing name, which is what sorting
        the listing in reverse and taking its head gives. */
    method BackupConfig(md5: string -> string, stamp: string) returns (written: Option<string>)
      modifies this
      ensures written == BackupChoice(files, old(backups), Config(), md5, stamp)
      ensures backups == BackupAfter(files, old(backups), Config(), md5, stamp)
      ensures files == old(files) && events == old(events)
    {
      var cfg := Config();
      if cfg !in files {
        return None;
      }
      if backups != map[] {
        ghost var names := backups.Keys;
        assert Latest(names) in names;
        var last :| last in backups && forall y :: y in backups ==> LexLe(y, last);
        LatestIsGreatest(backups.Keys, last);
        if md5(files[cfg]) == md5(backups[last]) {
          return None;
        }
      }
      var name := Basename(cfg) + "." + stamp;
      backups := backups[name := files[cfg]];
      return Some(name);
    }

    /** `_mount`: the password thread is started first; a failing `is_configured` leaves
        it running. encfs runs with `filesAfter` as the file system it leaves behind
        (a new config when `--standard` was given). The config is backed up BEFORE the
        return code is looked at, and the password thread is stopped only on success. */
    method Mount(environ: map<string, string>, createAnswer: bool, confirmation: string,
                 filesAfter: map<string, string>, returncode: int, output: string,
                 md5: string -> string, stamp: string) returns (r: Result<(), MountError>)
      modifies this
      ensures var configured := IsConfigured(Config() in old(files), tmpMount, createAnswer, password, confirmation);
        configured.Err? ==>
          && r == Err(configured.error)
          && events == old(events) + [PasswordThreadStart]
          && files == old(files) && backups == old(backups)
      ensures var configured := IsConfigured(Config() in old(files), tmpMount, createAnswer, password, confirmation);
        var cmd := MountCommand(reverse, configured.Ok? && configured.value, readOnly, path, mountpoint);
        configured.Ok? ==>
          && files == filesAfter
          && backups == BackupAfter(filesAfter, old(backups), Config(), md5, stamp)
          && events == old(events) + MountTrace(cmd, GetEnv(environ, old(files), Config()),
                                                BackupChoice(filesAfter, old(backups), Config(), md5, stamp), returncode)
          && (r.Ok? <==> returncode == 0)
          && (r.Err? ==> r.error == CantMount(cmd, output))
    {
      var env := GetEnv(environ, files, Config());
      events := events + [PasswordThreadStart];
      var configured := IsConfigured(Config() in files, tmpMount, createAnswer, password, confirmation);
      if configured.Err? {
        return Err(configured.error);
      }
      ghost var e1 := events;
      ghost var b0 := backups;
      ghost var f0 := files;
      r := RunEncfs(configured.value, env, filesAfter, returncode, output, md5, stamp);
      ghost var cmd := MountCommand(reverse, configured.value, readOnly, path, mountpoint);
      ghost var t := EncfsTrace(cmd, env, BackupChoice(filesAfter, b0, Config(), md5, stamp), returncode);
      assert events == e1 + t;
      MountTraceSplit(old(events), cmd, env, BackupChoice(filesAfter, b0, Config(), md5, stamp), returncode);
    }

    /** The part of `_mount` after `is_configured`. */
    method RunEncfs(configured: bool, env: map<string, string>, filesAfter: map<string, string>,
                    returncode: int, output: string, md5: string -> string, stamp: string) returns (r: Result<(), MountError>)
      modifies this
      ensures files == filesAfter
      ensures backups == BackupAfter(filesAfter, old(backups), Config(), md5, stamp)
      ensures events == old(events) + EncfsTrace(MountCommand(reverse, configured, readOnly, path, mountpoint), env,
                                                 BackupChoice(filesAfter, old(backups), Config(), md5, stamp), returncode)
      ensures r.Ok? <==> returncode == 0
      ensures r.Err? ==> r.error == CantMount(MountCommand(reverse, configured, readOnly, path, mountpoint), output)
    {
      var cmd := BuildCommand(configured);
      events := events + [Spawn(cmd, env)];
      files := filesAfter;
      var written := BackupConfig(md5, stamp);
      events := events + (if written.Some? then [BackupWritten(written.value)] else []);
      EncfsTraceSteps(old(events), cmd, env, written, returncode);
      if returncode != 0 {
        return Err(CantMount(cmd, output));
      }
      events := events + [PasswordThreadStop];
      r := Ok(());
    }
  }

  /** The events of a `_mount` that got past `is_configured`. */
  function MountTrace(cmd: seq<string>, env: map<string, string>, written: Option<string>, returncode: int): (t: seq<MountEvent>)
    ensures |t| >= 2 && t[0] == PasswordThreadStart && t[1] == Spawn(cmd, env)
  {
    [PasswordThreadStart] + EncfsTrace(cmd, env, written, returncode)
  }

  lemma MountTraceSplit(e: seq<MountEvent>, cmd: seq<string>, env: map<string, string>, written: Option<string>, returncode: int)
    ensures (e + [PasswordThreadStart]) + EncfsTrace(cmd, env, written, returncode) == e + MountTrace(cmd, env, written, returncode)
  {
  }

  lemma EncfsTraceSteps(e: seq<MountEvent>, cmd: seq<string>, env: map<string, string>, written: Option<string>, returncode: int)
    ensures var e1 := (e + [Spawn(cmd, env)]) + (if written.Some? then [BackupWritten(written.value)] else []);
      && (returncode != 0 ==> e1 == e + EncfsTrace(cmd, env, written, returncode))
      && (returncode == 0 ==> e1 + [PasswordThreadStop] == e + EncfsTrace(cmd, env, written, returncode))
  {
  }

  /** From running encfs on. */
  function EncfsTrace(cmd: seq<string>, env: map<string, string>, written: Option<string>, returncode: int): (t: seq<MountEvent>)
  {
    [Spawn(cmd, env)]
    + (if written.Some? then [BackupWritten(written.value)] else [])
    + (if returncode == 0 then [PasswordThreadStop] else [])
  }

  /** The backup is decided on and written whatever encfs returned, and always after encfs ran. */
  lemma BackupBeforeReturnCode(cmd: seq<string>, env: map<string, string>, name: string, returncode: int)
    ensures var t := MountTrace(cmd, env, Some(name), returncode);
      |t| >= 3 && t[1] == Spawn(cmd, env) && t[2] == BackupWritten(name)
  {
  }

  /** The password thread is stopped exactly when encfs succeeded, and as the last step. */
  lemma ThreadStoppedOnlyOnSuccess(cmd: seq<string>, env: map<string, string>, written: Option<string>, returncode: int)
    ensures var t := MountTrace(cmd, env, written, returncode);
      && (PasswordThreadStop in t <==> returncode == 0)
      && (returncode == 0 ==> t[|t| - 1] == PasswordThreadStop)
  {
    var t := MountTrace(cmd, env, written, returncode);
    if returncode != 0 {
      assert forall k :: 0 <= k < |t| ==> t[k] != PasswordThreadStop;
    }
  }

  /** `pre_mount_check` of one encfs mount: `check_fuse` always, `check_version` on a
      first run. */
  function PreMountCheck(fuse: Result<(), MountError>, firstRun: bool, reverse: bool, versionOutput: string): (r: Result<bool, MountError>)
    ensures r.Ok? ==> r.value
    ensures r.Err? <==> fuse.Err? || (firstRun && CheckVersion(reverse, versionOutput).Err?)
    ensures fuse.Err? ==> r == Err(fuse.error)
  {
    if fuse.Err? then Err(fuse.error)
    else if firstRun && CheckVersion(reverse, versionOutput).Err? then Err(CheckVersion(reverse, versionOutput).error)
    else Ok(true)
  }
}
