/** The regular expressions `Decode` of common/encfstools.py compiles, written out as
    matchers. A regex `.` stops at a newline, so every gap below stays on one line.
    Each lazy gap `.*?` takes its first choice: in these patterns whatever follows a
    gap can only fail later on the same line if it failed at the first choice, so the
    backtracking of the regex engine never finds a different match. */
module LogMatch {
  import opened Results
  import opened Strings

  /** `t` occurs in `s` at `x`. */
  predicate OccursAt(s: string, t: string, x: nat)
  {
    x <= |s| && StartsWith(s[x..], t)
  }

  /** The first `i >= m` at which `t` starts, with no newline in `s[m..i]`. */
  function FindFrom(s: string, t: string, m: nat): (r: Option<nat>)
    requires m <= |s|
    ensures r.Some? ==> m <= r.value <= |s| && StartsWith(s[r.value..], t)
    ensures r.Some? ==> forall x :: m <= x < r.value ==> s[x] != '\n'
    ensures r.Some? ==> forall x :: m <= x < r.value ==> !OccursAt(s, t, x)
    ensures r.None? ==> forall x :: m <= x <= LineEnd(s, m) ==> !OccursAt(s, t, x)
    decreases |s| - m
  {
    if StartsWith(s[m..], t) then Some(m)
    else if m < |s| && s[m] != '\n' then FindFrom(s, t, m + 1)
    else None
  }

  /** The first `j >= m` holding one of `cs`, with no newline in `s[m..j]`. */
  function CloserFrom(s: string, cs: seq<char>, m: nat): (r: Option<nat>)
    requires m <= |s|
    ensures r.Some? ==> m <= r.value < |s| && s[r.value] in cs
    ensures r.Some? ==> forall x :: m <= x < r.value ==> s[x] != '\n' && s[x] !in cs
    decreases |s| - m
  {
    if m < |s| && s[m] in cs then Some(m)
    else if m < |s| && s[m] != '\n' then CloserFrom(s, cs, m + 1)
    else None
  }

  /** A piece of a pattern: literal text, one `.`, or `.*?` followed by literal text. */
  datatype Tok = Lit(t: string) | Any | Until(u: string)

  /** Where `tok` ends when matched at `k`. */
  function MatchTok(tok: Tok, s: string, k: nat): (r: Option<nat>)
    requires k <= |s|
    ensures r.Some? ==> k <= r.value <= |s|
    ensures r.Some? && tok.Lit? ==> r.value == k + |tok.t| && s[k..r.value] == tok.t
    ensures r.Some? && tok.Any? ==> r.value == k + 1 && s[k] != '\n'
  {
    match tok
    case Lit(t) => if StartsWith(s[k..], t) then Some(k + |t|) else None
    case Any => if k < |s| && s[k] != '\n' then Some(k + 1) else None
    case Until(t) =>
      match FindFrom(s, t, k)
      case None => None
      case Some(m) => Some(m + |t|)
  }

  /** Where a sequence of pieces ends when matched from `k`. */
  function MatchToks(toks: seq<Tok>, s: string, k: nat): (r: Option<nat>)
    requires k <= |s|
    ensures r.Some? ==> k <= r.value <= |s|
    decreases |toks|
  {
    if toks == [] then Some(k)
    else
      match MatchTok(toks[0], s, k)
      case None => None
      case Some(k') => MatchToks(toks[1..], s, k')
  }

  /** Some alternative matches at `k` (a match test, so the choice does not matter). */
  predicate AnyAlt(alts: seq<seq<Tok>>, s: string, k: nat)
    requires k <= |s|
  {
    exists a :: 0 <= a < |alts| && MatchToks(alts[a], s, k).Some?
  }

  /** `(?:A|B|...)(.*?)(C.*)` from `k`, where C is one of the characters `cs`: the first
      alternative, in order, after which a closing character occurs on the line. Gives
      the end of the alternative and the position of the closing character. */
  function AltThenCloser(alts: seq<seq<Tok>>, s: string, k: nat, cs: seq<char>): (r: Option<(nat, nat)>)
    requires k <= |s|
    ensures r.Some? ==> k <= r.value.0 <= r.value.1 < |s| && s[r.value.1] in cs
    ensures r.Some? ==> forall x :: r.value.0 <= x < r.value.1 ==> s[x] != '\n' && s[x] !in cs
    ensures r.Some? ==> exists a :: 0 <= a < |alts| && MatchToks(alts[a], s, k) == Some(r.value.0)
    decreases |alts|
  {
    if alts == [] then None
    else
      match MatchToks(alts[0], s, k)
      case None => AltThenCloser(alts[1..], s, k, cs)
      case Some(q) =>
        match CloserFrom(s, cs, q)
        case None => AltThenCloser(alts[1..], s, k, cs)
        case Some(j) => Some((q, j))
  }

  // ---------------------------------------------------------------------------
  // The patterns (common/encfstools.py:566-632), with the English banner.

  const TakeSnapshot: string := "Take snapshot"

  /** `self.re_include_exclude`: `(--(?:ex|in)clude=")(.*?)(")`. */
  const IncludeExcludeOpens: seq<string> := ["--exclude=\"", "--include=\""]
  /** `self.re_remote_path`: `('USER@HOST:"PATH)(.*?)("')`. */
  function RemoteOpen(user: string, host: string, path: string): string
  {
    "'" + user + "@" + host + ":\"" + path
  }
  const RemoteClose: string := "\"'"
  /** `self.re_link_dest`: `(--link-dest="\.\./\.\./)(.*?)(")`. */
  const LinkDestOpen: string := "--link-dest=\"../../"
  const Quote: string := "\""

  /** `self.re_change`: `(^\[C\] .{11} )(.*)`; the first group is always 16 characters. */
  predicate IsChange(line: string)
  {
    |line| >= 16 && StartsWith(line, "[C] ") && line[15] == ' '
    && forall x :: 4 <= x < 15 ==> line[x] != '\n'
  }

  /** `self.re_skip`, after `[I] Take snapshot (rsync: `. */
  const SkipPrefix: string := "[I] " + TakeSnapshot + " (rsync: "
  const SkipAlts: seq<seq<Tok>> := [
    [Lit("sending incremental file list")],
    [Lit("building file list "), Any, Any, Any, Lit(" done")],
    [Lit("sent "), Until(" received")],
    [Lit("total size is "), Until(" speedup is")],
    [Lit("rsync error: some files/attrs were not transferred")],
    [Lit("rsync warning: some files vanished before they could be transferred")]
  ]

  predicate IsSkip(line: string)
  {
    StartsWith(line, SkipPrefix) && AnyAlt(SkipAlts, line, |SkipPrefix|)
  }

  /** `self.re_info`, after `[I] Take snapshot (rsync:`; closed by `)` or `"`. */
  const InfoPrefix: string := "[I] " + TakeSnapshot + " (rsync:"
  const InfoAlts: seq<seq<Tok>> := [
    [Lit(" BACKINTIME: "), Any, Any, Any, Any, Any, Any, Any, Any, Any, Any, Any, Lit(" ")],
    [Lit(" deleting ")],
    [Lit(" rsync: readlink_stat(\""), Until("mountpoint/")],
    [Lit(" rsync: send_files failed to open \""), Until("mountpoint/")],
    [Lit(" file has vanished: \""), Until("mountpoint/")],
    [Lit(" ")]
  ]

  /** `self.re_error`, after `[E] Error:`; closed by `"`. */
  const ErrorPrefix: string := "[E] Error:"
  const ErrorAlts: seq<seq<Tok>> := [
    [Lit(" rsync: readlink_stat(\""), Until("mountpoint/")],
    [Lit(" rsync: send_files failed to open \""), Until("mountpoint/")],
    [Lit(" rsync: recv_generator: failed to stat \""), Until("mountpoint/")],
    [Lit(" rsync: "), Until("\""), Until("mountpoint/")]
  ]

  /** `self.re_info_cp`: `(^\[I\] .*? cp -aRl "PATH/)(.*?)("\* "PATH/)(.*?)(")`. */
  function CopyHead(path: string): seq<Tok>
  {
    [Lit("[I] "), Until(" cp -aRl \"" + path + "/")]
  }
  function CopyMiddle(path: string): string
  {
    "\"* \"" + path + "/"
  }

  /** What a log line is, with the group boundaries of the pattern that matched. */
  datatype LineClass =
    | RsyncCommand
    | Change
    | Skip
    | Info(q: nat, j: nat)
    | Error(q: nat, j: nat)
    | Copy(q1: nat, m2: nat, q3: nat, m4: nat)
    | Other

  function MatchInfo(line: string): Option<(nat, nat)>
  {
    if StartsWith(line, InfoPrefix) then AltThenCloser(InfoAlts, line, |InfoPrefix|, [')', '"']) else None
  }

  function MatchError(line: string): Option<(nat, nat)>
  {
    if StartsWith(line, ErrorPrefix) then AltThenCloser(ErrorAlts, line, |ErrorPrefix|, ['"']) else None
  }

  function MatchCopy(line: string, path: string): (r: Option<(nat, nat, nat, nat)>)
    ensures r.Some? ==> r.value.0 <= r.value.1 && r.value.1 + |CopyMiddle(path)| == r.value.2
    ensures r.Some? ==> r.value.2 <= r.value.3 < |line| && line[r.value.3] == '"'
    ensures r.Some? ==> line[r.value.1..r.value.2] == CopyMiddle(path)
  {
    match MatchToks(CopyHead(path), line, 0)
    case None => None
    case Some(q1) =>
      match FindFrom(line, CopyMiddle(path), q1)
      case None => None
      case Some(m2) =>
        var q3 := m2 + |CopyMiddle(path)|;
        match FindFrom(line, Quote, q3)
        case None => None
        case Some(m4) => Some((q1, m2, q3, m4))
  }

  /** The order in which `Decode.log` tries its patterns. */
  function Classify(line: string, path: string): (c: LineClass)
    ensures c.Info? ==> c.q <= c.j < |line|
    ensures c.Error? ==> c.q <= c.j < |line| && line[c.j] == '"'
    ensures c.Copy? ==> c.q1 <= c.m2 <= c.q3 <= c.m4 < |line|
  {
    if StartsWith(line, "[I] rsync") || StartsWith(line, "[I] nocache rsync") then RsyncCommand
    else if IsChange(line) then Change
    else if IsSkip(line) then Skip
    else if MatchInfo(line).Some? then Info(MatchInfo(line).value.0, MatchInfo(line).value.1)
    else if MatchError(line).Some? then Error(MatchError(line).value.0, MatchError(line).value.1)
    else if MatchCopy(line, path).Some? then
      var m := MatchCopy(line, path).value;
      Copy(m.0, m.1, m.2, m.3)
    else Other
  }
}
