// `get_rsync_caps` and `get_rsync_prefix` of `common/tools.py`: what the installed
// rsync can do, read off its `--version` text, and the rsync command line (without
// filters, source and destination) that a profile's settings call for.

module Rsync {
  import opened Results
  import opened Strings

  // ---------------------------------------------------------------------------
  // The version probe: re.match(r'rsync\s*version\s*(\d\.\d)', data)
  // ---------------------------------------------------------------------------

  /** `\s` on ASCII text: space, tab, newline, return, vertical tab, form feed. */
  predicate IsSpace(ch: char)
  {
    ch == ' ' || ch == '\t' || ch == '\n' || ch == '\r' || ch == '\U{000B}' || ch == '\U{000C}'
  }

  /** Where a greedy `\s*` that starts at `i` stops. */
  function SkipSpaces(s: string, i: nat): (j: nat)
    requires i <= |s|
    ensures i <= j <= |s|
    ensures forall k :: i <= k < j ==> IsSpace(s[k])
    ensures j < |s| ==> !IsSpace(s[j])
    decreases |s| - i
  {
    if i < |s| && IsSpace(s[i]) then SkipSpaces(s, i + 1) else i
  }

  /** The digit pair `(\d\.\d)` the version pattern captures, if it matches at the
      start of `s`. Each `\s*` is followed by a letter or a digit, which is never
      whitespace, so the greedy run is the only one that can succeed. */
  function VersionMatch(s: string): (r: Option<(nat, nat)>)
    ensures r.Some? ==> StartsWith(s, "rsync") && r.value.0 <= 9 && r.value.1 <= 9
  {
    if !StartsWith(s, "rsync") then None
    else
      var i := SkipSpaces(s, 5);
      if !(i + 7 <= |s| && s[i..i + 7] == "version") then None
      else
        var j := SkipSpaces(s, i + 7);
        if j + 3 <= |s| && IsDigit(s[j]) && s[j + 1] == '.' && IsDigit(s[j + 2])
        then Some((s[j] as int - '0' as int, s[j + 2] as int - '0' as int))
        else None
  }

  /** `StrictVersion(m.group(1)) >= StrictVersion('3.1')`. */
  predicate HasProgress2(s: string)
  {
    var m := VersionMatch(s);
    m.Some? && (m.value.0 > 3 || (m.value.0 == 3 && m.value.1 >= 1))
  }

  /** Skipping a run of whitespace that is followed by a non-space character. */
  lemma {:induction false} SkipOver(s: string, i: nat, w: string)
    requires i + |w| < |s| && s[i..i + |w|] == w
    requires forall k :: 0 <= k < |w| ==> IsSpace(w[k])
    requires !IsSpace(s[i + |w|])
    ensures SkipSpaces(s, i) == i + |w|
    decreases |w|
  {
    if w != [] {
      assert s[i] == w[0];
      assert s[i + 1..i + |w|] == w[1..];
      SkipOver(s, i + 1, w[1..]);
    }
  }

  /** Every text read as `rsync`, whitespace, `version`, whitespace, `d.d` is matched,
      with the two digits captured. */
  lemma VersionMatchExact(w1: string, w2: string, d1: char, d2: char, rest: string)
    requires forall k :: 0 <= k < |w1| ==> IsSpace(w1[k])
    requires forall k :: 0 <= k < |w2| ==> IsSpace(w2[k])
    requires IsDigit(d1) && IsDigit(d2)
    ensures VersionMatch("rsync" + w1 + "version" + w2 + [d1, '.', d2] + rest)
         == Some((d1 as int - '0' as int, d2 as int - '0' as int))
  {
    var s := "rsync" + w1 + "version" + w2 + [d1, '.', d2] + rest;
    var i := 5 + |w1|;
    assert s[..5] == "rsync";
    assert s[5..i] == w1;
    assert s[i] == 'v';
    SkipOver(s, 5, w1);
    assert s[i..i + 7] == "version";
    var j := i + 7 + |w2|;
    assert s[i + 7..j] == w2;
    assert s[j] == d1 && s[j + 1] == '.' && s[j + 2] == d2;
    SkipOver(s, i + 7, w2);
  }

  // ---------------------------------------------------------------------------
  // The capabilities block: re.match(r'.*Capabilities:(.+)\n\n.*', data, re.DOTALL)
  // ---------------------------------------------------------------------------

  const Label: string := "Capabilities:"

  predicate LabelAt(s: string, a: nat)
  {
    a + |Label| <= |s| && s[a..a + |Label|] == Label
  }

  predicate BlankAt(s: string, q: nat)
  {
    q + 1 < |s| && s[q] == '\n' && s[q + 1] == '\n'
  }

  /** One way the pattern can match `s`: the label at `a`, a non-empty group, the
      blank line at `q`. With DOTALL every character may stand in the `.*`s. */
  predicate Decomposes(s: string, a: nat, q: nat)
  {
    LabelAt(s, a) && a + |Label| < q && BlankAt(s, q)
  }

  /** The last blank line that starts before `k`. */
  function LastBlankBelow(s: string, k: nat): (r: Option<nat>)
    ensures r.Some? ==> r.value < k && BlankAt(s, r.value)
    ensures r.Some? ==> forall q: nat :: r.value < q < k ==> !BlankAt(s, q)
    ensures r.None? ==> forall q: nat :: q < k ==> !BlankAt(s, q)
  {
    if k == 0 then None
    else if BlankAt(s, k - 1) then Some(k - 1)
    else LastBlankBelow(s, k - 1)
  }

  /** The last label that starts before `k`. */
  function LastLabelBelow(s: string, k: nat): (r: Option<nat>)
    ensures r.Some? ==> r.value < k && LabelAt(s, r.value)
    ensures r.Some? ==> forall a: nat :: r.value < a < k ==> !LabelAt(s, a)
    ensures r.None? ==> forall a: nat :: a < k ==> !LabelAt(s, a)
  {
    if k == 0 then None
    else if LabelAt(s, k - 1) then Some(k - 1)
    else LastLabelBelow(s, k - 1)
  }

  /** The match the backtracking engine settles on: the greedy leading `.*` takes
      the last label that still leaves room for the group, and the greedy group then
      runs to the last blank line. */
  function CapsSpan(s: string): (r: Option<(nat, nat)>)
    ensures r.Some? ==> Decomposes(s, r.value.0, r.value.1)
    ensures r.Some? ==> forall a: nat, q: nat :: Decomposes(s, a, q) ==>
      a < r.value.0 || (a == r.value.0 && q <= r.value.1)
    ensures r.None? ==> forall a: nat, q: nat :: !Decomposes(s, a, q)
  {
    match LastBlankBelow(s, |s|)
    case None => None
    case Some(q) =>
      if q <= |Label| then None
      else
        match LastLabelBelow(s, q - |Label|)
        case None => None
        case Some(a) => Some((a, q))
  }

  /** `m.group(1)`, or nothing when the pattern does not match. */
  function CapsBlock(s: string): (r: Option<string>)
  {
    match CapsSpan(s)
    case None => None
    case Some((a, q)) => Some(s[a + |Label|..q])
  }

  // ---------------------------------------------------------------------------
  // Splitting the block into capability names
  // ---------------------------------------------------------------------------

  /** The characters `strip(' \n')` removes. */
  predicate Blank(ch: char)
  {
    ch == ' ' || ch == '\n'
  }

  function StripLeftBlank(s: string): (r: string)
    ensures |r| <= |s| && r == s[|s| - |r|..]
    ensures r == "" || !Blank(r[0])
  {
    if |s| > 0 && Blank(s[0]) then StripLeftBlank(s[1..]) else s
  }

  function StripRightBlank(s: string): (r: string)
    ensures |r| <= |s| && r == s[..|r|]
    ensures r == "" || !Blank(r[|r| - 1])
  {
    if |s| > 0 && Blank(s[|s| - 1]) then StripRightBlank(s[..|s| - 1]) else s
  }

  /** `s.strip(' \n')`: a piece of `s` with no space or newline at either end. */
  function StripBlank(s: string): (r: string)
    ensures r == "" || (!Blank(r[0]) && !Blank(r[|r| - 1]))
  {
    StripRightBlank(StripLeftBlank(s))
  }

  /** Stripping only takes characters away from the ends. */
  lemma StripKeepsOut(s: string, ch: char)
    requires ch !in s
    ensures ch !in StripBlank(s)
  {
    var l := StripLeftBlank(s);
    assert ch !in s[|s| - |l|..];
    assert ch !in l[..|StripRightBlank(l)|];
  }

  /** `[i.strip(' \n') for i in parts if i.strip(' \n')]`. */
  function Kept(parts: seq<string>): seq<string>
  {
    if parts == [] then []
    else
      var t := StripBlank(parts[0]);
      (if t != "" then [t] else []) + Kept(parts[1..])
  }

  /** The names the loop collects from the block's lines, in order. */
  function LineCaps(lines: seq<string>): seq<string>
  {
    if lines == [] then [] else Kept(Split(lines[0], ',')) + LineCaps(lines[1..])
  }

  /** The capabilities `get_rsync_caps` reports for the `--version` text `s`. */
  function Caps(s: string): seq<string>
  {
    (if HasProgress2(s) then ["progress2"] else [])
    + (match CapsBlock(s) case None => [] case Some(g) => LineCaps(Split(g, '\n')))
  }

  /** A capability name as the parser hands it on. */
  predicate CleanName(c: string)
  {
    c != "" && ',' !in c && !Blank(c[0]) && !Blank(c[|c| - 1])
  }

  lemma {:induction false} KeptClean(parts: seq<string>)
    requires forall k :: 0 <= k < |parts| ==> ',' !in parts[k]
    ensures forall k :: 0 <= k < |Kept(parts)| ==> CleanName(Kept(parts)[k])
  {
    if parts != [] {
      KeptClean(parts[1..]);
      StripKeepsOut(parts[0], ',');
    }
  }

  lemma {:induction false} LineCapsClean(lines: seq<string>)
    ensures forall k :: 0 <= k < |LineCaps(lines)| ==> CleanName(LineCaps(lines)[k])
  {
    if lines != [] {
      KeptClean(Split(lines[0], ','));
      LineCapsClean(lines[1..]);
    }
  }

  /** Every capability is a non-empty name with no comma and no space or newline
      at either end; `progress2` is put first when the version is 3.1 or later, and
      without a capabilities block nothing else is reported. */
  lemma CapsClean(s: string)
    ensures forall k :: 0 <= k < |Caps(s)| ==> CleanName(Caps(s)[k])
    ensures HasProgress2(s) ==> Caps(s)[0] == "progress2"
    ensures CapsBlock(s).None? ==> Caps(s) == (if HasProgress2(s) then ["progress2"] else [])
  {
    match CapsBlock(s)
    case None =>
    case Some(g) => LineCapsClean(Split(g, '\n'));
  }

  /** `get_rsync_caps(data)`: `installed` is what `rsync --version` prints, read
      only when `data` is empty. */
  method GetRsyncCaps(data: string, installed: string) returns (caps: seq<string>)
    ensures caps == Caps(if data == "" then installed else data)
  {
    var d := if data == "" then installed else data;
    caps := [];
    if HasProgress2(d) {
      caps := caps + ["progress2"];
    }
    var block := CapsBlock(d);
    if block.None? {
      return;
    }
    var items := BlockCaps(Split(block.value, '\n'));
    caps := caps + items;
  }

  /** The loop of `get_rsync_caps` over the lines of the capabilities block: each
      line split at commas, the stripped non-empty names kept in order. */
  method BlockCaps(lines: seq<string>) returns (caps: seq<string>)
    ensures caps == LineCaps(lines)
  {
    caps := [];
    var k := 0;
    while k < |lines|
      invariant 0 <= k <= |lines|
      invariant caps + LineCaps(lines[k..]) == LineCaps(lines)
    {
      assert lines[k..][1..] == lines[k + 1..];
      var items := Kept(Split(lines[k], ','));
      assert LineCaps(lines[k..]) == items + LineCaps(lines[k + 1..]);
      Assoc(caps, items, LineCaps(lines[k + 1..]));
      caps := caps + items;
      k := k + 1;
    }
    assert lines[|lines|..] == [];
  }

  // ---------------------------------------------------------------------------
  // get_rsync_prefix
  // ---------------------------------------------------------------------------

  /** The profile settings `get_rsync_prefix` consults. */
  datatype Config = Config(
    nocacheLocal: bool,
    useChecksum: bool,
    forceUseChecksum: bool,
    copyUnsafeLinks: bool,
    copyLinks: bool,
    preserveAcl: bool,
    preserveXattr: bool,
    rsyncOptionsEnabled: bool,
    rsyncOptions: string,
    mode: string,
    sshPort: int,
    sshCipher: string,
    sshPrivateKeyFile: string,
    bwlimitEnabled: bool,
    bwlimit: int,
    niceRemote: bool,
    ioniceRemote: bool,
    nocacheRemote: bool)

  /** `str(n)` / `'%d' % n`. */
  function IntText(n: int): (r: string)
    ensures n >= 0 ==> IsDigits(r) && DecimalValue(r) == n
    ensures n < 0 ==> |r| >= 2 && r[0] == '-' && IsDigits(r[1..]) && DecimalValue(r[1..]) == -n
  {
    if n < 0 then "-" + NatText(-n) else NatText(n)
  }

  /** The decimal digits of `n`, without leading zeros. */
  function NatText(n: nat): (r: string)
    ensures IsDigits(r) && DecimalValue(r) == n
  {
    var d := [('0' as int + n % 10) as char];
    if n < 10 then d
    else
      var r := NatText(n / 10) + d;
      assert r[..|r| - 1] == NatText(n / 10);
      r
  }

  const NoPermsFlags: string := " --no-p --no-g --no-o"
  const PermsFlags: string := " -pEgo"

  predicate AclOn(c: Config, caps: seq<string>)
  {
    c.preserveAcl && "ACLs" in caps
  }

  predicate XattrOn(c: Config, caps: seq<string>)
  {
    c.preserveXattr && "xattrs" in caps
  }

  /** Permissions are synced unless the caller asked not to AND neither ACLs nor
      extended attributes are being kept. */
  predicate KeepPerms(c: Config, caps: seq<string>, noPerms: bool)
  {
    !noPerms || AclOn(c, caps) || XattrOn(c, caps)
  }

  /** The ssh arguments apply: the mode is an ssh mode the caller asked for. */
  predicate Remote(c: Config, useModes: seq<string>)
  {
    (c.mode == "ssh" || c.mode == "ssh_encfs") && c.mode in useModes
  }

  function Launcher(c: Config): string
  {
    if c.nocacheLocal then "nocache " else ""
  }

  function LinkOptions(c: Config): string
  {
    (if c.useChecksum || c.forceUseChecksum then " --checksum" else "")
    + (if c.copyUnsafeLinks then " --copy-unsafe-links" else "")
    + (if c.copyLinks then " --copy-links" else " --links")
  }

  function PermOptions(c: Config, caps: seq<string>, noPerms: bool): string
  {
    (if AclOn(c, caps) then " -A" else "")
    + (if XattrOn(c, caps) then " -X" else "")
    + (if KeepPerms(c, caps, noPerms) then PermsFlags else NoPermsFlags)
  }

  function ProgressOption(caps: seq<string>): string
  {
    if "progress2" in caps then " --info=progress2 --no-i-r" else ""
  }

  function UserOptions(c: Config): string
  {
    if c.rsyncOptionsEnabled then " " + c.rsyncOptions else ""
  }

  /** `' --rsh="ssh -p %s %s %s"'` filled with the port, the cipher option (empty for
      the default cipher) and the private-key option. */
  function RshArg(c: Config): string
  {
    var cipher := if c.sshCipher == "default" then "" else "-c " + c.sshCipher;
    var key := "-o IdentityFile=" + c.sshPrivateKeyFile;
    " --rsh=\"ssh -p " + IntText(c.sshPort) + " " + cipher + " " + key + "\""
  }

  function BwArg(c: Config): string
  {
    if c.bwlimitEnabled then " --bwlimit=" + IntText(c.bwlimit) else ""
  }

  /** The `--rsync-path` wrapper when any of nice, ionice or nocache is to run on
      the remote side, in that order. */
  function PathArg(c: Config): string
  {
    if c.niceRemote || c.ioniceRemote || c.nocacheRemote
    then " --rsync-path=\""
         + (if c.niceRemote then "nice -n 19 " else "")
         + (if c.ioniceRemote then "ionice -c2 -n7 " else "")
         + (if c.nocacheRemote then "nocache " else "")
         + "rsync\""
    else ""
  }

  /** The arguments an ssh mode adds. */
  function SshArgs(c: Config): string
  {
    RshArg(c) + BwArg(c) + PathArg(c)
  }

  function RemoteOptions(c: Config, useModes: seq<string>): string
  {
    if Remote(c, useModes) then SshArgs(c) else ""
  }

  /** The whole command: launcher, fixed options, the options the settings and the
      capabilities call for, and the separator further arguments follow. */
  function RsyncPrefix(c: Config, caps: seq<string>, noPerms: bool, useModes: seq<string>): string
  {
    Launcher(c) + "rsync -rtDHh" + LinkOptions(c) + PermOptions(c, caps, noPerms)
    + ProgressOption(caps) + UserOptions(c) + RemoteOptions(c, useModes) + " "
  }

  /** `get_rsync_prefix(config, no_perms, use_modes)` with `caps` the result of
      `get_rsync_caps()`. */
  method GetRsyncPrefix(config: Config, caps: seq<string>, noPerms: bool, useModes: seq<string>)
    returns (cmd: string)
    ensures cmd == RsyncPrefix(config, caps, noPerms, useModes)
    ensures StartsWith(cmd, Launcher(config) + "rsync -rtDHh")
    ensures cmd[|cmd| - 1] == ' '
  {
    cmd := LocalOptions(config, caps, noPerms);
    ghost var c0 := cmd;
    var mode := config.mode;
    if (mode == "ssh" || mode == "ssh_encfs") && mode in useModes {
      cmd := AppendSsh(cmd, config);
    }
    assert cmd == c0 + RemoteOptions(config, useModes);
    cmd := cmd + " ";
    PrefixShape(config, caps, noPerms, useModes);
  }

  /** The part of `get_rsync_prefix` before the ssh block. */
  method LocalOptions(config: Config, caps: seq<string>, noPerms: bool) returns (cmd: string)
    ensures cmd == Launcher(config) + "rsync -rtDHh" + LinkOptions(config) + PermOptions(config, caps, noPerms)
      + ProgressOption(caps) + UserOptions(config)
  {
    cmd := "";
    if config.nocacheLocal {
      cmd := cmd + "nocache ";
    }
    assert cmd == Launcher(config);
    cmd := cmd + "rsync";
    cmd := cmd + " -rtDHh";
    Assoc(Launcher(config), "rsync", " -rtDHh");
    assert "rsync" + " -rtDHh" == "rsync -rtDHh";
    cmd := AppendLinkOptions(cmd, config);
    cmd := AppendPermOptions(cmd, config, caps, noPerms);
    ghost var c1 := cmd;
    if "progress2" in caps {
      cmd := cmd + " --info=progress2 --no-i-r";
    }
    ghost var c2 := cmd;
    assert c2 == c1 + ProgressOption(caps);
    if config.rsyncOptionsEnabled {
      cmd := cmd + (" " + config.rsyncOptions);
    }
  }

  /** The checksum and link options of `get_rsync_prefix`, appended to `cmd`. */
  method AppendLinkOptions(cmd: string, config: Config) returns (r: string)
    ensures r == cmd + LinkOptions(config)
  {
    r := cmd;
    if config.useChecksum || config.forceUseChecksum {
      r := r + " --checksum";
    }
    ghost var r1 := r;
    if config.copyUnsafeLinks {
      r := r + " --copy-unsafe-links";
    }
    ghost var r2 := r;
    if config.copyLinks {
      r := r + " --copy-links";
    } else {
      r := r + " --links";
    }
    ghost var a := if config.useChecksum || config.forceUseChecksum then " --checksum" else "";
    ghost var b := if config.copyUnsafeLinks then " --copy-unsafe-links" else "";
    ghost var c := if config.copyLinks then " --copy-links" else " --links";
    assert r1 == cmd + a && r2 == r1 + b && r == r2 + c;
    Assoc(cmd, a, b);
    Assoc(cmd, a + b, c);
  }

  /** The ACL, extended-attribute and permission options of `get_rsync_prefix`,
      appended to `cmd`; keeping either attribute kind turns `no_perms` off. */
  method AppendPermOptions(cmd: string, config: Config, caps: seq<string>, noPerms: bool) returns (r: string)
    ensures r == cmd + PermOptions(config, caps, noPerms)
  {
    var perms := noPerms;
    r := cmd;
    if config.preserveAcl && "ACLs" in caps {
      r := r + " -A";
      perms := false;
    }
    ghost var r1 := r;
    if config.preserveXattr && "xattrs" in caps {
      r := r + " -X";
      perms := false;
    }
    ghost var r2 := r;
    assert perms == !KeepPerms(config, caps, noPerms);
    if perms {
      r := r + NoPermsFlags;
    } else {
      r := r + PermsFlags;
    }
    ghost var a := if AclOn(config, caps) then " -A" else "";
    ghost var b := if XattrOn(config, caps) then " -X" else "";
    ghost var c := if KeepPerms(config, caps, noPerms) then PermsFlags else NoPermsFlags;
    assert r1 == cmd + a && r2 == r1 + b && r == r2 + c;
    Assoc(cmd, a, b);
    Assoc(cmd, a + b, c);
  }

  /** The ssh block of `get_rsync_prefix`, appended to `cmd`. */
  method AppendSsh(cmd: string, config: Config) returns (r: string)
    ensures r == cmd + SshArgs(config)
  {
    var cipher := if config.sshCipher == "default" then "" else "-c " + config.sshCipher;
    var key := "-o IdentityFile=" + config.sshPrivateKeyFile;
    r := cmd + (" --rsh=\"ssh -p " + IntText(config.sshPort) + " " + cipher + " " + key + "\"");
    assert r == cmd + RshArg(config);
    if config.bwlimitEnabled {
      r := r + (" --bwlimit=" + IntText(config.bwlimit));
    }
    assert r == cmd + RshArg(config) + BwArg(config);
    if config.niceRemote || config.ioniceRemote || config.nocacheRemote {
      r := AppendRemotePath(r, config);
    }
    assert r == cmd + RshArg(config) + BwArg(config) + PathArg(config);
    Assoc(cmd, RshArg(config), BwArg(config));
    Assoc(cmd, RshArg(config) + BwArg(config), PathArg(config));
  }

  /** The `--rsync-path` part of the ssh block, appended to `cmd` piece by piece. */
  method AppendRemotePath(cmd: string, config: Config) returns (r: string)
    requires config.niceRemote || config.ioniceRemote || config.nocacheRemote
    ensures r == cmd + PathArg(config)
  {
    ghost var added := " --rsync-path=\"";
    r := cmd + " --rsync-path=\"";
    if config.niceRemote {
      Assoc(cmd, added, "nice -n 19 ");
      r := r + "nice -n 19 ";
      added := added + "nice -n 19 ";
    }
    if config.ioniceRemote {
      Assoc(cmd, added, "ionice -c2 -n7 ");
      r := r + "ionice -c2 -n7 ";
      added := added + "ionice -c2 -n7 ";
    }
    if config.nocacheRemote {
      Assoc(cmd, added, "nocache ");
      r := r + "nocache ";
      added := added + "nocache ";
    }
    Assoc(cmd, added, "rsync\"");
    r := r + "rsync\"";
  }

  /** The command starts with the launcher and the fixed options and ends with the
      separator the caller's further arguments follow. */
  lemma PrefixShape(c: Config, caps: seq<string>, noPerms: bool, useModes: seq<string>)
    ensures var r := RsyncPrefix(c, caps, noPerms, useModes);
      StartsWith(r, Launcher(c) + "rsync -rtDHh") && r[|r| - 1] == ' '
  {
    var s0 := Launcher(c) + "rsync -rtDHh";
    var s1 := s0 + LinkOptions(c);
    var s2 := s1 + PermOptions(c, caps, noPerms);
    var s3 := s2 + ProgressOption(caps);
    var s4 := s3 + UserOptions(c);
    var s5 := s4 + RemoteOptions(c, useModes);
    StartsWithExtend(s0, s0, LinkOptions(c));
    StartsWithExtend(s1, s0, PermOptions(c, caps, noPerms));
    StartsWithExtend(s2, s0, ProgressOption(caps));
    StartsWithExtend(s3, s0, UserOptions(c));
    StartsWithExtend(s4, s0, RemoteOptions(c, useModes));
    StartsWithExtend(s5, s0, " ");
  }

  /** A prefix stays a prefix when more is appended. */
  lemma StartsWithExtend(s: string, prefix: string, more: string)
    requires s == prefix || StartsWith(s, prefix)
    ensures StartsWith(s + more, prefix)
  {
    assert (s + more)[..|prefix|] == s[..|prefix|];
  }

  /** Keeping ACLs or extended attributes overrides `no_perms`: the command is the
      same whichever way the caller asked, and syncs permissions. */
  lemma PermsOverridden(c: Config, caps: seq<string>, useModes: seq<string>)
    requires AclOn(c, caps) || XattrOn(c, caps)
    ensures RsyncPrefix(c, caps, true, useModes) == RsyncPrefix(c, caps, false, useModes)
    ensures EndsWith(PermOptions(c, caps, true), PermsFlags)
  {
  }

  /** The permission options end in exactly one of the two choices, and in
      `--no-p --no-g --no-o` exactly when it was asked for and neither ACLs nor
      extended attributes are kept. */
  lemma PermsChoice(c: Config, caps: seq<string>, noPerms: bool)
    ensures EndsWith(PermOptions(c, caps, noPerms), NoPermsFlags)
        <==> noPerms && !AclOn(c, caps) && !XattrOn(c, caps)
    ensures EndsWith(PermOptions(c, caps, noPerms), PermsFlags) <==> KeepPerms(c, caps, noPerms)
  {
    var head := (if AclOn(c, caps) then " -A" else "") + (if XattrOn(c, caps) then " -X" else "");
    var p := PermOptions(c, caps, noPerms);
    assert NoPermsFlags[|NoPermsFlags| - |PermsFlags|..] != PermsFlags;
    if KeepPerms(c, caps, noPerms) {
      assert p == head + PermsFlags;
      assert p[|p| - |PermsFlags|..] == PermsFlags;
      assert p[|p| - |PermsFlags|] != NoPermsFlags[|NoPermsFlags| - |PermsFlags|];
    } else {
      assert p == head + NoPermsFlags;
      assert p[|p| - |NoPermsFlags|..] == NoPermsFlags;
      assert p[|p| - |PermsFlags|..] == NoPermsFlags[|NoPermsFlags| - |PermsFlags|..];
    }
  }

  /** Outside the requested ssh modes the ssh settings play no part: any two
      profiles that differ only there give the same command. */
  lemma LocalIgnoresSsh(c: Config, d: Config, caps: seq<string>, noPerms: bool, useModes: seq<string>)
    requires !Remote(c, useModes)
    requires SameLocal(c, d)
    ensures RsyncPrefix(c, caps, noPerms, useModes) == RsyncPrefix(d, caps, noPerms, useModes)
    ensures RemoteOptions(c, useModes) == ""
  {
  }

  /** Two profiles that agree on everything but the ssh settings. */
  predicate SameLocal(c: Config, d: Config)
  {
    && c.nocacheLocal == d.nocacheLocal && c.useChecksum == d.useChecksum
    && c.forceUseChecksum == d.forceUseChecksum && c.copyUnsafeLinks == d.copyUnsafeLinks
    && c.copyLinks == d.copyLinks && c.preserveAcl == d.preserveAcl
    && c.preserveXattr == d.preserveXattr && c.rsyncOptionsEnabled == d.rsyncOptionsEnabled
    && c.rsyncOptions == d.rsyncOptions && c.mode == d.mode
  }

  lemma Assoc<T>(a: seq<T>, b: seq<T>, c: seq<T>)
    ensures a + b + c == a + (b + c)
  {
  }
}
