// `EncFS_SSH`: an sshfs mount, an `encfs --reverse` view of `/` and an encfs mount
// of the remote folder, mounted and unmounted in a fixed order. Each sub-mount is
// one step that either succeeds or raises; which steps raise is a parameter.

module EncFSSSH {
  import opened Results
  import opened EncFSMount

  /** A keyword argument's value: text, a flag, or an object passed through untouched
      (the config, the parent window, a profile id). */
  datatype Arg = Text(s: string) | Flag(b: bool) | Obj(name: string)

  /** The three mount classes `split_kwargs` prepares arguments for. */
  datatype Role = Ssh | Encfs | EncfsReverse

  /** The keys `split_kwargs` sets for every role. */
  const Common: set<string> := {"cfg", "profile_id", "mode", "parent"}
  /** The keys the `ssh` role reads or writes besides the common ones. */
  const SshKeys: set<string> := {"path", "ssh_path", "password", "ssh_password", "hash_id"}
  /** The keys the `encfs` role reads or writes besides the common ones. */
  const EncfsKeys: set<string> := {"path", "hash_id_1", "hash_id_2", "password", "encfs_password"}
  /** The keys the `encfs_reverse` role reads or writes besides the common ones. */
  const ReverseKeys: set<string> := {"reverse", "path", "config_path", "password", "encfs_password", "hash_id"}

  /** The keys a role may touch. */
  function Touched(role: Role): set<string>
  {
    Common + match role
      case Ssh => SshKeys
      case Encfs => EncfsKeys
      case EncfsReverse => ReverseKeys
  }

  /** One step of mounting or unmounting. */
  datatype Step =
    | MountSsh | MountTemp | UmountTemp | CopyConfig | MountRevRoot | MountEncfs
    | CloseEncode | UmountEncfs | UmountRevRoot | UmountSsh

  /** `config.ENCODE`: the dummy translator, or an `Encode` bound to this mount. */
  datatype Translator = Bouncing | Encoding

  /** The steps `mount` takes when none of them raises. When the config does not exist
      yet, a temporary folder is mounted with `--reverse` first so that encfs creates
      a config, which is copied into place when the temporary mount produced one. */
  function MountPlan(configExists: bool, tmpConfigFound: bool): (p: seq<Step>)
    ensures |p| >= 3 && p[0] == MountSsh
    ensures p[|p| - 2] == MountRevRoot && p[|p| - 1] == MountEncfs
    ensures configExists ==> p == [MountSsh, MountRevRoot, MountEncfs]
    ensures !configExists ==> p[1] == MountTemp && p[2] == UmountTemp
    ensures CopyConfig in p <==> !configExists && tmpConfigFound
  {
    [MountSsh]
    + (if configExists then [] else [MountTemp, UmountTemp] + (if tmpConfigFound then [CopyConfig] else []))
    + [MountRevRoot, MountEncfs]
  }

  /** The steps `umount` takes when none of them raises: the translator is closed
      first, then the mounts are taken down in the reverse of their mounting order. */
  const UmountPlan: seq<Step> := [CloseEncode, UmountEncfs, UmountRevRoot, UmountSsh]

  /** What running `plan` does when the steps in `fails` raise: the steps up to and
      including the first that raises. */
  function Run(plan: seq<Step>, fails: set<Step>): seq<Step>
  {
    if plan == [] then []
    else if plan[0] in fails then [plan[0]]
    else [plan[0]] + Run(plan[1..], fails)
  }

  /** Every step taken is the plan's next one, it is taken only after every earlier
      step succeeded, and the run stops early only at a step that raised. */
  lemma {:induction false} RunIsPrefix(plan: seq<Step>, fails: set<Step>)
    ensures var t := Run(plan, fails);
      && |t| <= |plan| && t == plan[..|t|]
      && (forall k :: 0 <= k < |t| - 1 ==> t[k] !in fails)
      && (|t| < |plan| ==> t != [] && t[|t| - 1] in fails)
  {
    if plan != [] && plan[0] !in fails {
      RunIsPrefix(plan[1..], fails);
      var t := Run(plan, fails);
      var rest := Run(plan[1..], fails);
      assert t == [plan[0]] + rest;
      assert forall k :: 0 < k < |t| ==> t[k] == rest[k - 1];
      assert plan == [plan[0]] + plan[1..];
      assert t[..1] == plan[..1] && t[1..] == rest;
    }
  }

  /** When none of its steps raises, the whole plan is taken. */
  lemma {:induction false} RunWhole(plan: seq<Step>, fails: set<Step>)
    requires forall k :: 0 <= k < |plan| ==> plan[k] !in fails
    ensures Run(plan, fails) == plan
  {
    if plan != [] {
      assert plan[0] !in fails;
      assert forall k :: 0 <= k < |plan| - 1 ==> plan[1..][k] == plan[k + 1];
      RunWhole(plan[1..], fails);
      assert plan == [plan[0]] + plan[1..];
    }
  }

  lemma RunNext(e: seq<Step>, step: Step, todo: seq<Step>, fails: set<Step>, target: seq<Step>)
    requires todo != [] && todo[0] == step && e + Run(todo, fails) == target
    ensures step !in fails ==> (e + [step]) + Run(todo[1..], fails) == target
    ensures step in fails ==> e + [step] == target
  {
    var rest := Run(todo[1..], fails);
    if step !in fails {
      assert Run(todo, fails) == [step] + rest;
      assert e + ([step] + rest) == (e + [step]) + rest;
    } else {
      assert Run(todo, fails) == [step];
    }
  }

  /** The steps of a mount plan, each named. */
  lemma PlanSteps(configExists: bool, tmpConfigFound: bool)
    ensures var p := MountPlan(configExists, tmpConfigFound);
      && MountSsh in p && MountRevRoot in p && MountEncfs in p
      && (!configExists ==> MountTemp in p && UmountTemp in p)
      && (forall k :: 0 <= k < |p| ==>
            p[k] in {MountSsh, MountRevRoot, MountEncfs}
            || (!configExists && p[k] in {MountTemp, UmountTemp})
            || (!configExists && tmpConfigFound && p[k] == CopyConfig))
  {
    var p := MountPlan(configExists, tmpConfigFound);
    assert p[|p| - 1] == MountEncfs && p[|p| - 2] == MountRevRoot;
    if !configExists {
      assert p[1] == MountTemp && p[2] == UmountTemp;
    }
  }

  /** No mount is attempted before the sshfs mount has succeeded, and the encfs mount
      of the remote folder only after the reverse mount of `/` has. */
  lemma MountOrder(configExists: bool, tmpConfigFound: bool, fails: set<Step>)
    ensures var t := Run(MountPlan(configExists, tmpConfigFound), fails);
      && t[0] == MountSsh
      && (|t| > 1 ==> MountSsh !in fails)
      && (MountEncfs in t ==> t[|t| - 2] == MountRevRoot && MountRevRoot !in fails && MountEncfs == t[|t| - 1])
  {
    var p := MountPlan(configExists, tmpConfigFound);
    RunIsPrefix(p, fails);
    var t := Run(p, fails);
    assert t[0] == MountSsh;
    if MountEncfs in t {
      var k :| 0 <= k < |t| && t[k] == MountEncfs;
      assert p[k] == MountEncfs;
      assert k == |p| - 1 by {
        assert forall j :: 0 <= j < |p| - 1 ==> p[j] != MountEncfs;
      }
      assert |t| == |p|;
    }
  }

  class EncFSSSH {
    const config: Arg
    const profileId: Arg
    const mode: Arg
    const parent: Arg
    /** `self.kwargs`: the keyword arguments the object was made with. */
    const kwargs: map<string, Arg>
    /** `self.ssh.mountpoint` and `self.ssh.hash_id`. */
    const sshMountpoint: string
    const sshHashId: Arg
    /** `self.rev_root.hash_id`. */
    const revRootHashId: Arg
    /** What `config.get_password` answers for the ssh login and for the encfs folder. */
    const sshPassword: Arg
    const encfsPassword: Arg
    var encode: Translator
    var events: seq<Step>

    constructor (config: Arg, profileId: Arg, mode: Arg, parent: Arg, kwargs: map<string, Arg>,
                 sshMountpoint: string, sshHashId: Arg, revRootHashId: Arg, sshPassword: Arg, encfsPassword: Arg)
      ensures this.config == config && this.profileId == profileId && this.mode == mode && this.parent == parent
      ensures this.kwargs == kwargs && this.sshMountpoint == sshMountpoint
      ensures this.sshHashId == sshHashId && this.revRootHashId == revRootHashId
      ensures this.sshPassword == sshPassword && this.encfsPassword == encfsPassword
      ensures encode == Bouncing && events == []
    {
      this.config := config;
      this.profileId := profileId;
      this.mode := mode;
      this.parent := parent;
      this.kwargs := kwargs;
      this.sshMountpoint := sshMountpoint;
      this.sshHashId := sshHashId;
      this.revRootHashId := revRootHashId;
      this.sshPassword := sshPassword;
      this.encfsPassword := encfsPassword;
      encode := Bouncing;
      events := [];
    }

    /** `split_kwargs`: a copy of `kwargs` remapped for one role; `kwargs` itself is a
        constant and is not touched. */
    method SplitKwargs(role: Role) returns (d: map<string, Arg>)
      ensures Common <= d.Keys
      ensures d["cfg"] == config && d["profile_id"] == profileId && d["mode"] == mode && d["parent"] == parent
      ensures Keeps(kwargs, d, Touched(role))
      ensures role == Ssh ==> SshArgs(d)
      ensures role == Encfs ==> EncfsArgs(d)
      ensures role == EncfsReverse ==> ReverseArgs(d)
    {
      var c := kwargs;
      c := c["cfg" := config];
      c := c["profile_id" := profileId];
      c := c["mode" := mode];
      c := c["parent" := parent];
      assert Keeps(kwargs, c, Common);
      match role
      case Ssh =>
        d := SplitSsh(c);
      case Encfs =>
        d := SplitEncfs(c);
      case EncfsReverse =>
        d := SplitReverse(c);
    }

    /** Every key outside `touched` is as in `kwargs`. */
    ghost predicate Keeps(kwargs: map<string, Arg>, d: map<string, Arg>, touched: set<string>)
    {
      && (forall k :: k !in touched ==> (k in d <==> k in kwargs))
      && (forall k :: k !in touched && k in d ==> d[k] == kwargs[k])
    }

    /** The `ssh` role: `ssh_path` becomes `path` (an old `path` is dropped), `ssh_password`
        becomes `password` (else the configured one), and `hash_id_2` is copied to `hash_id`
        (an old `hash_id` is dropped, `hash_id_2` stays). */
    ghost predicate SshArgs(d: map<string, Arg>)
    {
      && ("path" in d <==> "ssh_path" in kwargs)
      && ("ssh_path" in kwargs ==> d["path"] == kwargs["ssh_path"])
      && "ssh_path" !in d && "ssh_password" !in d
      && "password" in d && d["password"] == (if "ssh_password" in kwargs then kwargs["ssh_password"] else sshPassword)
      && ("hash_id" in d <==> "hash_id_2" in kwargs)
      && ("hash_id_2" in kwargs ==> d["hash_id"] == kwargs["hash_id_2"])
    }

    /** The `encfs` role: the sshfs mountpoint as `path`, both hash ids set, and the
        encfs password. */
    ghost predicate EncfsArgs(d: map<string, Arg>)
    {
      && "path" in d && d["path"] == Text(sshMountpoint)
      && "hash_id_1" in d && d["hash_id_1"] == revRootHashId
      && "hash_id_2" in d && d["hash_id_2"] == sshHashId
      && "encfs_password" !in d
      && "password" in d && d["password"] == (if "encfs_password" in kwargs then kwargs["encfs_password"] else encfsPassword)
    }

    /** The `encfs_reverse` role: always `reverse`, `/` as `path` and the sshfs mountpoint
        as `config_path`; `hash_id_1` is copied to `hash_id`. */
    ghost predicate ReverseArgs(d: map<string, Arg>)
    {
      && "reverse" in d && d["reverse"] == Flag(true)
      && "path" in d && d["path"] == Text("/")
      && "config_path" in d && d["config_path"] == Text(sshMountpoint)
      && "encfs_password" !in d
      && "password" in d && d["password"] == (if "encfs_password" in kwargs then kwargs["encfs_password"] else encfsPassword)
      && ("hash_id" in d <==> "hash_id_1" in kwargs)
      && ("hash_id_1" in kwargs ==> d["hash_id"] == kwargs["hash_id_1"])
    }

    method SplitSsh(c: map<string, Arg>) returns (d: map<string, Arg>)
      requires Keeps(kwargs, c, Common) && Common <= c.Keys
      ensures Common <= d.Keys && forall k :: k in Common ==> d[k] == c[k]
      ensures Keeps(kwargs, d, Touched(Ssh)) && SshArgs(d)
    {
      d := SshPath(c);
      d := SshLogin(d);
    }

    /** `ssh_path` replaces `path`. */
    method SshPath(c: map<string, Arg>) returns (d: map<string, Arg>)
      requires Keeps(kwargs, c, Common) && Common <= c.Keys
      ensures Common <= d.Keys && forall k :: k in Common ==> d[k] == c[k]
      ensures Keeps(kwargs, d, Common + {"path", "ssh_path"})
      ensures ("path" in d <==> "ssh_path" in kwargs) && ("ssh_path" in kwargs ==> d["path"] == kwargs["ssh_path"])
      ensures "ssh_path" !in d
    {
      d := c;
      if "path" in d {
        d := d - {"path"};
      }
      if "ssh_path" in d {
        d := d["path" := d["ssh_path"]] - {"ssh_path"};
      }
    }

    /** The ssh password and the second hash id. */
    method SshLogin(c: map<string, Arg>) returns (d: map<string, Arg>)
      requires Common <= c.Keys
      requires Keeps(kwargs, c, Common + {"path", "ssh_path"})
      ensures Common <= d.Keys && forall k :: k in Common + {"path", "ssh_path"} ==> (k in d <==> k in c) && (k in d ==> d[k] == c[k])
      ensures Keeps(kwargs, d, Touched(Ssh))
      ensures "ssh_password" !in d
      ensures "password" in d && d["password"] == (if "ssh_password" in kwargs then kwargs["ssh_password"] else sshPassword)
      ensures ("hash_id" in d <==> "hash_id_2" in kwargs) && ("hash_id_2" in kwargs ==> d["hash_id"] == kwargs["hash_id_2"])
    {
      d := c;
      if "ssh_password" in d {
        d := d["password" := d["ssh_password"]] - {"ssh_password"};
      } else {
        d := d["password" := sshPassword];
      }
      if "hash_id" in d {
        d := d - {"hash_id"};
      }
      if "hash_id_2" in d {
        d := d["hash_id" := d["hash_id_2"]];
      }
    }

    method SplitEncfs(c: map<string, Arg>) returns (d: map<string, Arg>)
      requires Keeps(kwargs, c, Common) && Common <= c.Keys
      ensures Common <= d.Keys && forall k :: k in Common ==> d[k] == c[k]
      ensures Keeps(kwargs, d, Touched(Encfs)) && EncfsArgs(d)
    {
      d := c;
      d := d["path" := Text(sshMountpoint)];
      d := d["hash_id_1" := revRootHashId];
      d := d["hash_id_2" := sshHashId];
      if "encfs_password" in d {
        d := d["password" := d["encfs_password"]] - {"encfs_password"};
      } else {
        d := d["password" := encfsPassword];
      }
    }

    method SplitReverse(c: map<string, Arg>) returns (d: map<string, Arg>)
      requires Keeps(kwargs, c, Common) && Common <= c.Keys
      ensures Common <= d.Keys && forall k :: k in Common ==> d[k] == c[k]
      ensures Keeps(kwargs, d, Touched(EncfsReverse)) && ReverseArgs(d)
    {
      d := c;
      d := d["reverse" := Flag(true)];
      d := d["path" := Text("/")];
      d := d["config_path" := Text(sshMountpoint)];
      d := ReverseLogin(d);
    }

    /** The encfs password and the first hash id. */
    method ReverseLogin(c: map<string, Arg>) returns (d: map<string, Arg>)
      requires Common <= c.Keys
      requires Keeps(kwargs, c, Common + {"reverse", "path", "config_path"})
      ensures Common <= d.Keys
      ensures forall k :: k in Common + {"reverse", "path", "config_path"} ==> (k in d <==> k in c) && (k in d ==> d[k] == c[k])
      ensures Keeps(kwargs, d, Touched(EncfsReverse))
      ensures "encfs_password" !in d
      ensures "password" in d && d["password"] == (if "encfs_password" in kwargs then kwargs["encfs_password"] else encfsPassword)
      ensures ("hash_id" in d <==> "hash_id_1" in kwargs) && ("hash_id_1" in kwargs ==> d["hash_id"] == kwargs["hash_id_1"])
    {
      d := c;
      if "encfs_password" in d {
        d := d["password" := d["encfs_password"]] - {"encfs_password"};
      } else {
        d := d["password" := encfsPassword];
      }
      if "hash_id" in d {
        d := d - {"hash_id"};
      }
      if "hash_id_1" in d {
        d := d["hash_id" := d["hash_id_1"]];
      }
    }

    /** One sub-mount or sub-unmount, the next step of `todo`: recorded, and reported as
        raising when it is in `fails`. `target` is the whole run's trace. */
    method Do(step: Step, fails: set<Step>, ghost todo: seq<Step>, ghost target: seq<Step>) returns (ok: bool)
      requires todo != [] && todo[0] == step && events + Run(todo, fails) == target
      modifies this
      ensures ok == (step !in fails)
      ensures events == old(events) + [step] && encode == old(encode)
      ensures ok ==> events + Run(todo[1..], fails) == target
      ensures !ok ==> events == target
    {
      RunNext(events, step, todo, fails, target);
      events := events + [step];
      ok := step !in fails;
    }

    /** `mount`: sshfs, then (without a config) the temporary reverse mount, then the
        reverse mount of `/`, then encfs; `config.ENCODE` is switched to `Encode` only
        when all of them succeeded. */
    method Mount(configExists: bool, tmpConfigFound: bool, fails: set<Step>) returns (r: Result<(), Step>)
      modifies this
      ensures events == old(events) + Run(MountPlan(configExists, tmpConfigFound), fails)
      ensures r.Ok? <==> forall k :: 0 <= k < |MountPlan(configExists, tmpConfigFound)| ==> MountPlan(configExists, tmpConfigFound)[k] !in fails
      ensures r.Err? ==> r.error in fails
      ensures encode == (if r.Ok? then Encoding else old(encode))
    {
      ghost var plan := MountPlan(configExists, tmpConfigFound);
      ghost var target := old(events) + Run(plan, fails);
      r := MountSteps(configExists, tmpConfigFound, fails, plan, target);
    }

    method MountSteps(configExists: bool, tmpConfigFound: bool, fails: set<Step>, ghost plan: seq<Step>, ghost target: seq<Step>)
      returns (r: Result<(), Step>)
      requires plan == MountPlan(configExists, tmpConfigFound) && target == events + Run(plan, fails)
      modifies this
      ensures events == target
      ensures r.Ok? ==> forall k :: 0 <= k < |plan| ==> plan[k] !in fails
      ensures r.Err? ==> r.error in fails && r.error in plan
      ensures encode == (if r.Ok? then Encoding else old(encode))
    {
      var ok := Do(MountSsh, fails, plan, target);
      if !ok {
        return Err(MountSsh);
      }
      PlanSteps(configExists, tmpConfigFound);
      if !configExists {
        r := TempSteps(tmpConfigFound, fails, plan[1..], target);
        if r.Err? {
          return;
        }
      } else {
        assert plan[1..] == [MountRevRoot, MountEncfs];
      }
      r := LastSteps(fails, target);
    }

    /** The temporary reverse mount that makes encfs create a config, and the copy of
        that config when there is one. */
    method TempSteps(tmpConfigFound: bool, fails: set<Step>, ghost todo: seq<Step>, ghost target: seq<Step>)
      returns (r: Result<(), Step>)
      requires todo == [MountTemp, UmountTemp] + (if tmpConfigFound then [CopyConfig] else []) + [MountRevRoot, MountEncfs]
      requires events + Run(todo, fails) == target
      modifies this
      ensures encode == old(encode)
      ensures r.Ok? ==> MountTemp !in fails && UmountTemp !in fails && (tmpConfigFound ==> CopyConfig !in fails)
      ensures r.Ok? ==> events + Run([MountRevRoot, MountEncfs], fails) == target
      ensures r.Err? ==> events == target && r.error in fails
      ensures r.Err? ==> r.error in {MountTemp, UmountTemp} || (tmpConfigFound && r.error == CopyConfig)
    {
      var ok := Do(MountTemp, fails, todo, target);
      if !ok {
        return Err(MountTemp);
      }
      ok := Do(UmountTemp, fails, todo[1..], target);
      if !ok {
        return Err(UmountTemp);
      }
      if tmpConfigFound {
        ok := Do(CopyConfig, fails, todo[2..], target);
        if !ok {
          return Err(CopyConfig);
        }
        assert todo[3..] == [MountRevRoot, MountEncfs];
      } else {
        assert todo[2..] == [MountRevRoot, MountEncfs];
      }
      r := Ok(());
    }

    /** The reverse mount of `/`, then encfs; the translator becomes `Encode` when both
        succeeded. */
    method LastSteps(fails: set<Step>, ghost target: seq<Step>) returns (r: Result<(), Step>)
      requires events + Run([MountRevRoot, MountEncfs], fails) == target
      modifies this
      ensures events == target
      ensures r.Ok? ==> MountRevRoot !in fails && MountEncfs !in fails
      ensures r.Err? ==> r.error in fails && r.error in {MountRevRoot, MountEncfs}
      ensures encode == (if r.Ok? then Encoding else old(encode))
    {
      var ok := Do(MountRevRoot, fails, [MountRevRoot, MountEncfs], target);
      if !ok {
        return Err(MountRevRoot);
      }
      ok := Do(MountEncfs, fails, [MountEncfs], target);
      if !ok {
        return Err(MountEncfs);
      }
      encode := Encoding;
      r := Ok(());
    }

    /** `umount`: the translator is closed and replaced by `Bounce` before anything is
        unmounted; then encfs, the reverse mount and sshfs, in that order. */
    method Umount(fails: set<Step>) returns (r: Result<(), Step>)
      modifies this
      ensures events == old(events) + Run(UmountPlan, fails)
      ensures r.Ok? <==> forall k :: 0 <= k < |UmountPlan| ==> UmountPlan[k] !in fails
      ensures r.Err? ==> r.error in fails
      ensures CloseEncode !in fails ==> encode == Bouncing
      ensures CloseEncode in fails ==> encode == old(encode)
    {
      ghost var target := old(events) + Run(UmountPlan, fails);
      r := UmountSteps(fails, target);
    }

    method UmountSteps(fails: set<Step>, ghost target: seq<Step>) returns (r: Result<(), Step>)
      requires target == events + Run(UmountPlan, fails)
      modifies this
      ensures events == target
      ensures r.Ok? ==> forall k :: 0 <= k < |UmountPlan| ==> UmountPlan[k] !in fails
      ensures r.Err? ==> r.error in fails && r.error in UmountPlan
      ensures CloseEncode !in fails ==> encode == Bouncing
      ensures CloseEncode in fails ==> encode == old(encode)
    {
      ghost var todo := UmountPlan;
      var ok := Do(CloseEncode, fails, todo, target);
      if !ok {
        return Err(CloseEncode);
      }
      encode := Bouncing;
      todo := todo[1..];
      ok := Do(UmountEncfs, fails, todo, target);
      if !ok {
        return Err(UmountEncfs);
      }
      todo := todo[1..];
      ok := Do(UmountRevRoot, fails, todo, target);
      if !ok {
        return Err(UmountRevRoot);
      }
      todo := todo[1..];
      ok := Do(UmountSsh, fails, todo, target);
      if !ok {
        return Err(UmountSsh);
      }
      r := Ok(());
    }

    /** `pre_mount_check`: the ssh check, then the reverse mount's, then this mount's,
        each only when the one before passed. A failing ssh check gives a false value
        (the source falls off the end and returns `None`). */
    function PreMountCheckAll(sshOk: bool, fuse: Result<(), MountError>, firstRun: bool, versionOutput: string): (r: Result<bool, MountError>)
      ensures r == Ok(false) <==> !sshOk
      ensures r == Ok(true) <==> sshOk && fuse.Ok? && !(firstRun && CheckVersion(true, versionOutput).Err?)
      ensures sshOk && fuse.Err? ==> r == Err(fuse.error)
      ensures sshOk && fuse.Ok? && firstRun && CheckVersion(true, versionOutput).Err? ==> r == Err(BuggyReverse)
    {
      if !sshOk then Ok(false)
      else
        match PreMountCheck(fuse, firstRun, true, versionOutput)
        case Err(e) => Err(e)
        case Ok(_) => PreMountCheck(fuse, firstRun, false, versionOutput)
    }
  }
}
