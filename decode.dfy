/** `Decode` of common/encfstools.py: encrypted paths, path lists and whole lines of
    the snapshot log turned back into plaintext through `encfsctl decode`. */
module Decoding {
  import opened Results
  import opened Strings
  import opened LogMatch
  import opened Channel

  function DecodeCommand(encfsPath: string): seq<string>
  {
    ["encfsctl", "decode", "--extpass=backintime-askpass", encfsPath]
  }

  /** A decoded text and the queries sent to the tool to produce it, in order. */
  datatype Decoded = Decoded(text: string, asked: seq<string>)

  function Then(a: Decoded, b: Decoded): Decoded
  {
    Decoded(a.text + b.text, a.asked + b.asked)
  }

  /** Text that is copied without asking the tool. */
  function Verbatim(t: string): Decoded
  {
    Decoded(t, [])
  }

  lemma ThenAssoc(a: Decoded, b: Decoded, c: Decoded)
    ensures Then(Then(a, b), c) == Then(a, Then(b, c))
  {
    assert (a.text + b.text) + c.text == a.text + (b.text + c.text);
    assert (a.asked + b.asked) + c.asked == a.asked + (b.asked + c.asked);
  }

  lemma ThenEmpty(a: Decoded)
    ensures Then(Verbatim(""), a) == a && Then(a, Verbatim("")) == a
  {
    assert "" + a.text == a.text && a.text + "" == a.text;
    assert [] + a.asked == a.asked && a.asked + [] == a.asked;
  }

  /** What `Decode.path` returns for `query` when the tool answers `answer`: the answer
      without surrounding newlines, or the query itself when nothing is left. */
  function DecodeAnswer(answer: string, query: string): string
  {
    var ret := Strip(answer, '\n');
    if ret != "" then ret else query
  }

  /** One call of `Decode.path`. */
  function One(tool: string -> string, q: string): Decoded
  {
    Decoded(DecodeAnswer(tool(q), q), [q])
  }

  // ---------------------------------------------------------------------------
  // path_with_arrow: `(.*?)((?: [-=]> )+)(.*)` with `match`.

  /** ` -> ` or ` => ` starts at `i`. */
  predicate ArrowUnitAt(s: string, i: nat)
  {
    i + 4 <= |s| && s[i] == ' ' && (s[i + 1] == '-' || s[i + 1] == '=') && s[i + 2] == '>' && s[i + 3] == ' '
  }

  /** The lazy first group: the first arrow on the first line. */
  function ArrowFrom(s: string, i: nat): (r: Option<nat>)
    requires i <= |s|
    ensures r.Some? ==> i <= r.value && ArrowUnitAt(s, r.value)
    ensures r.Some? ==> forall x :: i <= x < r.value ==> s[x] != '\n' && !ArrowUnitAt(s, x)
    decreases |s| - i
  {
    if ArrowUnitAt(s, i) then Some(i)
    else if i < |s| && s[i] != '\n' then ArrowFrom(s, i + 1)
    else None
  }

  /** The greedy second group: as many arrows in a row as there are. */
  function ArrowRunEnd(s: string, j: nat): (r: nat)
    requires j <= |s|
    ensures j <= r <= |s| && !ArrowUnitAt(s, r)
    decreases |s| - j
  {
    if ArrowUnitAt(s, j) then ArrowRunEnd(s, j + 4) else j
  }

  /** `Decode.path_with_arrow`. */
  function ArrowSpec(tool: string -> string, p: string): Decoded
  {
    match ArrowFrom(p, 0)
    case None => One(tool, p)
    case Some(i) =>
      var j := ArrowRunEnd(p, i);
      EndsSpec(tool, p[..i], p[i..j], p[j..LineEnd(p, j)])
  }

  /** `self.path(a) + arrow + self.path(b)`. */
  function EndsSpec(tool: string -> string, a: string, arrow: string, b: string): Decoded
  {
    Then(One(tool, a), Then(Verbatim(arrow), One(tool, b)))
  }

  lemma EndsSpecForm(tool: string -> string, a: string, arrow: string, b: string)
    ensures EndsSpec(tool, a, arrow, b) == Decoded(DecodeAnswer(tool(a), a) + (arrow + DecodeAnswer(tool(b), b)), [a] + [b])
  {
    assert [a] + ([] + [b]) == [a] + [b];
  }

  // ---------------------------------------------------------------------------
  // replace: `re_all_except_asterisk.sub(self.path_m, ...)`, then re-rooting.

  /** End of the run of characters other than `*` that starts at `k`. */
  function NonStarEnd(s: string, k: nat): (j: nat)
    requires k <= |s|
    ensures k <= j <= |s| && (j == |s| || s[j] == '*')
    ensures forall x :: k <= x < j ==> s[x] != '*'
    decreases |s| - k
  {
    if k < |s| && s[k] != '*' then NonStarEnd(s, k + 1) else k
  }

  /** Every maximal run of non-asterisks from `i` on decoded by one call, asterisks kept. */
  function RunsFrom(tool: string -> string, s: string, i: nat): Decoded
    requires i <= |s|
    decreases |s| - i
  {
    if i == |s| then Verbatim("")
    else if s[i] == '*' then Then(Verbatim("*"), RunsFrom(tool, s, i + 1))
    else
      var j := NonStarEnd(s, i);
      Then(One(tool, s[i..j]), RunsFrom(tool, s, j))
  }

  /** `Decode.replace` on the groups of a match. */
  function ReplaceSpec(tool: string -> string, g1: string, g2: string, g3: string): Decoded
  {
    var d := RunsFrom(tool, g2, 0);
    var decrypt := if IsAbs(g2) then PathJoin("/", d.text) else d.text;
    Decoded(g1 + decrypt + g3, d.asked)
  }

  // ---------------------------------------------------------------------------
  // `re.sub(self.replace, line)` for `(OPEN)(.*?)(CLOSE)`.

  /** The first alternative of the opening group that matches at `i`. */
  function OpenAt(opens: seq<string>, s: string, i: nat): (r: Option<string>)
    requires i <= |s|
    ensures r.Some? ==> r.value != "" && StartsWith(s[i..], r.value) && i + |r.value| <= |s|
  {
    if opens == [] then None
    else if opens[0] != "" && StartsWith(s[i..], opens[0]) then Some(opens[0])
    else OpenAt(opens[1..], s, i)
  }

  /** The match of `(OPEN)(.*?)(CLOSE)` at `i`: the opening text and where the closing text starts. */
  function MatchAt(opens: seq<string>, close: string, s: string, i: nat): (r: Option<(string, nat)>)
    requires i <= |s|
    ensures r.Some? ==> r.value.0 != "" && i + |r.value.0| <= r.value.1 && r.value.1 + |close| <= |s|
    ensures r.Some? ==> s[i..i + |r.value.0|] == r.value.0 && s[r.value.1..r.value.1 + |close|] == close
    ensures r.Some? ==> forall x :: i + |r.value.0| <= x < r.value.1 ==> s[x] != '\n'
  {
    match OpenAt(opens, s, i)
    case None => None
    case Some(o) =>
      assert s[i..i + |o|] == s[i..][..|o|];
      match FindFrom(s, close, i + |o|)
      case None => None
      case Some(j) =>
        assert s[j..j + |close|] == s[j..][..|close|];
        Some((o, j))
  }

  /** Where the search goes on after a match at `i`: just past its closing text. */
  function MatchNext(opens: seq<string>, close: string, s: string, i: nat): (k: nat)
    requires i <= |s| && MatchAt(opens, close, s, i).Some?
    ensures i < k <= |s|
  {
    MatchAt(opens, close, s, i).value.1 + |close|
  }

  /** `re.sub(pattern, repl, s)` for `(OPEN)(.*?)(CLOSE)`, from position `i` on: each
      match is replaced by what `repl` makes of its three groups, every other character
      is copied. */
  function SubFrom(repl: (string, string, string) -> Decoded, opens: seq<string>, close: string, s: string, i: nat): Decoded
    requires i <= |s|
    decreases |s| - i
  {
    if i == |s| then Verbatim("")
    else if MatchAt(opens, close, s, i).None? then Then(Verbatim([s[i]]), SubFrom(repl, opens, close, s, i + 1))
    else
      var m := MatchAt(opens, close, s, i).value;
      Then(repl(m.0, s[i + |m.0|..m.1], close), SubFrom(repl, opens, close, s, MatchNext(opens, close, s, i)))
  }

  /** The bound method `self.replace` handed to `re.sub`. */
  function Replacer(tool: string -> string): (string, string, string) -> Decoded
  {
    (g1, g2, g3) => ReplaceSpec(tool, g1, g2, g3)
  }

  function IncludeExcludeSub(tool: string -> string, s: string): Decoded
  {
    SubFrom(Replacer(tool), IncludeExcludeOpens, Quote, s, 0)
  }

  function RemoteSub(tool: string -> string, user: string, host: string, path: string, s: string): Decoded
  {
    SubFrom(Replacer(tool), [RemoteOpen(user, host, path)], RemoteClose, s, 0)
  }

  function LinkDestSub(tool: string -> string, s: string): Decoded
  {
    SubFrom(Replacer(tool), [LinkDestOpen], Quote, s, 0)
  }

  /** The three substitutions of an rsync command line, each on the output of the last. */
  function RsyncSpec(tool: string -> string, user: string, host: string, path: string, line: string): Decoded
  {
    var d1 := IncludeExcludeSub(tool, line);
    var d2 := RemoteSub(tool, user, host, path, d1.text);
    var d3 := LinkDestSub(tool, d2.text);
    Decoded(d3.text, d1.asked + d2.asked + d3.asked)
  }

  /** A `[C] ` line: the first 16 characters are kept, the rest of the line is a path
      or a symlink report. */
  function ChangeSpec(tool: string -> string, line: string): Decoded
    requires |line| >= 16
  {
    Then(Verbatim(line[..16]), ArrowSpec(tool, line[16..LineEnd(line, 16)]))
  }

  /** A line whose groups 1 and 3 are kept and whose group 2, `line[q..j]`, is decoded by `part`. */
  function AroundSpec(part: Decoded, line: string, q: nat, j: nat): Decoded
    requires q <= j <= |line|
  {
    Then(Verbatim(line[..q]), Then(part, Verbatim(line[j..LineEnd(line, j)])))
  }

  /** A `cp -aRl` line: both quoted paths decoded, the text between them kept. */
  function CopySpec(tool: string -> string, line: string, q1: nat, m2: nat, q3: nat, m4: nat): Decoded
    requires q1 <= m2 <= q3 <= m4 <= |line|
  {
    Then(Verbatim(line[..q1]), Then(One(tool, line[q1..m2]),
      Then(Verbatim(line[m2..q3]), Then(One(tool, line[q3..m4]), Verbatim(Quote)))))
  }

  lemma CopySpecForm(tool: string -> string, line: string, q1: nat, m2: nat, q3: nat, m4: nat)
    requires q1 <= m2 <= q3 <= m4 <= |line|
    ensures CopySpec(tool, line, q1, m2, q3, m4) == Decoded(
      line[..q1] + (One(tool, line[q1..m2]).text + (line[m2..q3] + (One(tool, line[q3..m4]).text + Quote))),
      [line[q1..m2]] + [line[q3..m4]])
  {
    var g1, g3 := line[q1..m2], line[q3..m4];
    assert [] + ([g1] + ([] + ([g3] + []))) == [g1] + [g3];
  }

  /** `Decode.log`. */
  function LogSpec(tool: string -> string, user: string, host: string, path: string, line: string): Decoded
  {
    match Classify(line, path)
    case RsyncCommand => RsyncSpec(tool, user, host, path, line)
    case Change => ChangeSpec(tool, line)
    case Skip => Verbatim(line)
    case Info(q, j) => AroundSpec(ArrowSpec(tool, line[q..j]), line, q, j)
    case Error(q, j) => AroundSpec(One(tool, line[q..j]), line, q, j)
    case Copy(q1, m2, q3, m4) => CopySpec(tool, line, q1, m2, q3, m4)
    case Other => Verbatim(line)
  }

  // ---------------------------------------------------------------------------
  // Framing: with a tool that answers every query with the query itself, decoding
  // gives every one-line log line back unchanged, so the text around the paths is
  // neither lost nor duplicated.

  ghost predicate Echo(tool: string -> string)
  {
    forall q :: tool(q) == q
  }

  lemma OneEcho(tool: string -> string, q: string)
    requires Echo(tool) && '\n' !in q
    ensures One(tool, q).text == q
  {
    StripFree(q, '\n');
    assert tool(q) == q;
  }

  // Slicing facts, kept as lemmas so that each proof that uses them sees only the
  // instance it needs.
  lemma Split2(p: string, i: nat, j: nat)
    requires i <= j <= |p|
    ensures p[i..] == p[i..j] + p[j..]
  {
  }

  lemma Regroup4(a: string, b: string, c: string, d: string)
    ensures (a + b + c) + d == a + (b + (c + d))
  {
  }

  lemma Split3(p: string, i: nat, j: nat)
    requires i <= j <= |p|
    ensures p == p[..i] + (p[i..j] + p[j..])
  {
  }

  lemma LineEndOfOneLine(s: string, j: nat)
    requires j <= |s|
    ensures LineEnd(s, j) == |s| || '\n' in s
  {
    var e := LineEnd(s, j);
    if e < |s| {
      assert s[e] == '\n';
    }
  }

  lemma NoNewlineSlice(s: string, a: nat, b: nat)
    requires a <= b <= |s| && '\n' !in s
    ensures '\n' !in s[a..b]
  {
    assert forall x :: 0 <= x < b - a ==> s[a..b][x] == s[a + x];
  }

  lemma ArrowEcho(tool: string -> string, p: string)
    requires Echo(tool) && '\n' !in p
    ensures ArrowSpec(tool, p).text == p
  {
    match ArrowFrom(p, 0)
    case None => OneEcho(tool, p);
    case Some(i) =>
      var j := ArrowRunEnd(p, i);
      LineEndOfOneLine(p, j);
      NoNewlineSlice(p, 0, i);
      NoNewlineSlice(p, j, |p|);
      assert LineEnd(p, j) == |p|;
      assert p[j..LineEnd(p, j)] == p[j..];
      OneEcho(tool, p[..i]);
      OneEcho(tool, p[j..]);
      Split3(p, i, j);
  }

  lemma {:induction false} RunsEcho(tool: string -> string, s: string, i: nat)
    requires Echo(tool) && '\n' !in s && i <= |s|
    ensures RunsFrom(tool, s, i).text == s[i..]
    decreases |s| - i
  {
    if i < |s| {
      if s[i] == '*' {
        RunsEcho(tool, s, i + 1);
        Split2(s, i, i + 1);
        assert s[i..i + 1] == "*";
      } else {
        var j := NonStarEnd(s, i);
        RunsEcho(tool, s, j);
        NoNewlineSlice(s, i, j);
        OneEcho(tool, s[i..j]);
        Split2(s, i, j);
      }
    }
  }

  lemma ReplaceEcho(tool: string -> string, g1: string, g2: string, g3: string)
    requires Echo(tool) && '\n' !in g2
    ensures ReplaceSpec(tool, g1, g2, g3).text == g1 + g2 + g3
  {
    RunsEcho(tool, g2, 0);
    assert g2[0..] == g2;
  }

  /** A replacement callback that gives every one-line match back as it was. */
  ghost predicate EchoRepl(repl: (string, string, string) -> Decoded)
  {
    forall g1, g2, g3 :: '\n' !in g2 ==> repl(g1, g2, g3).text == g1 + g2 + g3
  }

  lemma ReplacerEcho(tool: string -> string)
    requires Echo(tool)
    ensures EchoRepl(Replacer(tool))
  {
    forall g1, g2, g3 | '\n' !in g2
      ensures Replacer(tool)(g1, g2, g3).text == g1 + g2 + g3
    {
      ReplaceEcho(tool, g1, g2, g3);
    }
  }

  /** One step of `re.sub` over a match at `i`. */
  lemma SubMatchStep(repl: (string, string, string) -> Decoded, opens: seq<string>, close: string, s: string, i: nat)
    requires i < |s| && MatchAt(opens, close, s, i).Some?
    ensures var m := MatchAt(opens, close, s, i).value;
      SubFrom(repl, opens, close, s, i)
      == Then(repl(m.0, s[i + |m.0|..m.1], close), SubFrom(repl, opens, close, s, MatchNext(opens, close, s, i)))
  {
  }

  lemma SubEchoMatch(repl: (string, string, string) -> Decoded, opens: seq<string>, close: string, s: string, i: nat)
    requires EchoRepl(repl) && '\n' !in s && i < |s| && MatchAt(opens, close, s, i).Some?
    requires SubFrom(repl, opens, close, s, MatchNext(opens, close, s, i)).text == s[MatchNext(opens, close, s, i)..]
    ensures SubFrom(repl, opens, close, s, i).text == s[i..]
  {
    var m := MatchAt(opens, close, s, i).value;
    var o, j := m.0, m.1;
    var k, e := i + |o|, MatchNext(opens, close, s, i);
    var mid := s[k..j];
    SubMatchText(repl, opens, close, s, i, o, j);
    NoNewlineSlice(s, k, j);
    EchoAt(repl, o, mid, close);
    Split4(s, i, k, j, e);
    Regroup4(o, mid, close, s[e..]);
  }

  /** The text of one step of `re.sub` over a match at `i`. */
  lemma SubMatchText(repl: (string, string, string) -> Decoded, opens: seq<string>, close: string, s: string, i: nat, o: string, j: nat)
    requires i < |s| && MatchAt(opens, close, s, i) == Some((o, j))
    ensures i + |o| <= j && j + |close| == MatchNext(opens, close, s, i) <= |s|
    ensures s[i..i + |o|] == o && s[j..j + |close|] == close
    ensures SubFrom(repl, opens, close, s, i).text
      == repl(o, s[i + |o|..j], close).text + SubFrom(repl, opens, close, s, MatchNext(opens, close, s, i)).text
  {
    var m := MatchAt(opens, close, s, i).value;
    assert m.0 == o && m.1 == j;
    SubMatchStep(repl, opens, close, s, i);
  }

  lemma EchoAt(repl: (string, string, string) -> Decoded, g1: string, g2: string, g3: string)
    requires EchoRepl(repl) && '\n' !in g2
    ensures repl(g1, g2, g3).text == g1 + g2 + g3
  {
  }

  lemma Split4(s: string, i: nat, k: nat, j: nat, e: nat)
    requires i <= k <= j <= e <= |s|
    ensures s[i..] == s[i..k] + (s[k..j] + (s[j..e] + s[e..]))
  {
    Split2(s, i, k);
    Split2(s, k, j);
    Split2(s, j, e);
  }

  lemma SubEchoCopy(repl: (string, string, string) -> Decoded, opens: seq<string>, close: string, s: string, i: nat)
    requires i < |s| && MatchAt(opens, close, s, i).None?
    requires SubFrom(repl, opens, close, s, i + 1).text == s[i + 1..]
    ensures SubFrom(repl, opens, close, s, i).text == s[i..]
  {
    Split2(s, i, i + 1);
    assert s[i..i + 1] == [s[i]];
  }

  lemma {:induction false} SubEcho(repl: (string, string, string) -> Decoded, opens: seq<string>, close: string, s: string, i: nat)
    requires EchoRepl(repl) && '\n' !in s && i <= |s|
    ensures SubFrom(repl, opens, close, s, i).text == s[i..]
    decreases |s| - i
  {
    if i < |s| {
      if MatchAt(opens, close, s, i).Some? {
        SubEcho(repl, opens, close, s, MatchNext(opens, close, s, i));
        SubEchoMatch(repl, opens, close, s, i);
      } else {
        SubEcho(repl, opens, close, s, i + 1);
        SubEchoCopy(repl, opens, close, s, i);
      }
    }
  }

  lemma RsyncEcho(tool: string -> string, user: string, host: string, path: string, line: string)
    requires Echo(tool) && '\n' !in line
    ensures RsyncSpec(tool, user, host, path, line).text == line
  {
    ReplacerEcho(tool);
    SubEcho(Replacer(tool), IncludeExcludeOpens, Quote, line, 0);
    SubEcho(Replacer(tool), [RemoteOpen(user, host, path)], RemoteClose, line, 0);
    SubEcho(Replacer(tool), [LinkDestOpen], Quote, line, 0);
    assert line[0..] == line;
  }

  lemma ChangeEcho(tool: string -> string, line: string)
    requires Echo(tool) && '\n' !in line && |line| >= 16
    ensures ChangeSpec(tool, line).text == line
  {
    LineEndOfOneLine(line, 16);
    assert LineEnd(line, 16) == |line|;
    var rest := line[16..];
    assert line[16..LineEnd(line, 16)] == rest;
    NoNewlineSlice(line, 16, |line|);
    ArrowEcho(tool, rest);
    assert ChangeSpec(tool, line).text == line[..16] + ArrowSpec(tool, rest).text;
    assert line == line[..16] + rest;
  }

  lemma AroundEcho(part: Decoded, line: string, q: nat, j: nat)
    requires '\n' !in line && q <= j <= |line| && part.text == line[q..j]
    ensures AroundSpec(part, line, q, j).text == line
  {
    LineEndOfOneLine(line, j);
    assert line == line[..q] + line[q..j] + line[j..];
  }

  lemma Slices5(s: string, a: nat, b: nat, c: nat, d: nat)
    requires a <= b <= c <= d < |s| && s[d] == '"'
    ensures s[..d + 1] == s[..a] + (s[a..b] + (s[b..c] + (s[c..d] + Quote)))
  {
    assert s[d..d + 1] == Quote;
    assert s[..d + 1] == s[..a] + s[a..b] + s[b..c] + s[c..d] + s[d..d + 1];
  }

  lemma CopyEcho(tool: string -> string, line: string, q1: nat, m2: nat, q3: nat, m4: nat)
    requires Echo(tool) && '\n' !in line && q1 <= m2 <= q3 <= m4 < |line| && line[m4] == '"'
    ensures CopySpec(tool, line, q1, m2, q3, m4).text == line[..m4 + 1]
  {
    NoNewlineSlice(line, q1, m2);
    NoNewlineSlice(line, q3, m4);
    OneEcho(tool, line[q1..m2]);
    OneEcho(tool, line[q3..m4]);
    Slices5(line, q1, m2, q3, m4);
  }

  /** Decoding a one-line log line with a tool that echoes its queries gives the line
      back: all of it, except after the closing quote of a `cp -aRl` line, where the
      match (and so the output) ends. */
  lemma LogEcho(tool: string -> string, user: string, host: string, path: string, line: string)
    requires Echo(tool) && '\n' !in line
    ensures Classify(line, path).Copy? ==>
      LogSpec(tool, user, host, path, line).text == line[..Classify(line, path).m4 + 1]
    ensures !Classify(line, path).Copy? ==> LogSpec(tool, user, host, path, line).text == line
  {
    match Classify(line, path)
    case RsyncCommand => RsyncEcho(tool, user, host, path, line);
    case Change => ChangeEcho(tool, line);
    case Skip =>
    case Info(q, j) => InfoEcho(tool, user, host, path, line, q, j);
    case Error(q, j) => ErrorEcho(tool, user, host, path, line, q, j);
    case Copy(q1, m2, q3, m4) => CopyEcho(tool, line, q1, m2, q3, m4);
    case Other =>
  }

  lemma InfoEcho(tool: string -> string, user: string, host: string, path: string, line: string, q: nat, j: nat)
    requires Echo(tool) && '\n' !in line && Classify(line, path) == Info(q, j)
    ensures LogSpec(tool, user, host, path, line).text == line
  {
    NoNewlineSlice(line, q, j);
    ArrowEcho(tool, line[q..j]);
    AroundEcho(ArrowSpec(tool, line[q..j]), line, q, j);
  }

  lemma ErrorEcho(tool: string -> string, user: string, host: string, path: string, line: string, q: nat, j: nat)
    requires Echo(tool) && '\n' !in line && Classify(line, path) == Error(q, j)
    ensures LogSpec(tool, user, host, path, line).text == line
  {
    NoNewlineSlice(line, q, j);
    OneEcho(tool, line[q..j]);
    AroundEcho(One(tool, line[q..j]), line, q, j);
  }

  // ---------------------------------------------------------------------------
  // What `Decode.path` and `Decode.log` promise.

  /** `Decode.path` never fails: an empty or all-newline answer gives the query back
      unchanged, a one-line answer is returned as it is, and any other result is the
      stripped answer. */
  lemma PathFallback(answer: string, query: string)
    ensures DecodeAnswer(answer, query) == "" ==> query == ""
    ensures (forall k :: 0 <= k < |answer| ==> answer[k] == '\n') ==> DecodeAnswer(answer, query) == query
    ensures '\n' !in answer && answer != "" ==> DecodeAnswer(answer, query) == answer
    ensures DecodeAnswer(answer, query) != query ==>
      DecodeAnswer(answer, query) == Strip(answer, '\n') != ""
  {
    if forall k :: 0 <= k < |answer| ==> answer[k] == '\n' {
      StripLeftAll(answer, '\n');
    }
    if '\n' !in answer {
      StripFree(answer, '\n');
    }
  }

  lemma PrefixOfPrefix(s: string, a: string, b: string)
    requires StartsWith(s, a) && StartsWith(a, b)
    ensures StartsWith(s, b)
  {
    assert s[..|b|] == s[..|a|][..|b|];
  }

  lemma NotPrefix(s: string, a: string, k: nat)
    requires k < |a| && k < |s| && s[k] != a[k]
    ensures !StartsWith(s, a)
  {
  }

  /** A line that starts with none of the markers `[I] `, `[C] ` and `[E] ` matches no
      pattern and is returned unchanged, without asking the tool. */
  lemma UnmarkedLinesUnchanged(tool: string -> string, user: string, host: string, path: string, line: string)
    requires !StartsWith(line, "[I] ") && !StartsWith(line, "[C] ") && !StartsWith(line, "[E] ")
    ensures Classify(line, path) == Other
    ensures LogSpec(tool, user, host, path, line) == Verbatim(line)
  {
    if StartsWith(line, "[I] rsync") { PrefixOfPrefix(line, "[I] rsync", "[I] "); }
    if StartsWith(line, "[I] nocache rsync") { PrefixOfPrefix(line, "[I] nocache rsync", "[I] "); }
    if StartsWith(line, SkipPrefix) { PrefixOfPrefix(line, SkipPrefix, "[I] "); }
    if StartsWith(line, InfoPrefix) { PrefixOfPrefix(line, InfoPrefix, "[I] "); }
    if StartsWith(line, ErrorPrefix) { PrefixOfPrefix(line, ErrorPrefix, "[E] "); }
    assert MatchTok(Lit("[I] "), line, 0).None? by {
      assert line[0..] == line;
    }
    assert MatchToks(CopyHead(path), line, 0).None?;
  }

  /** A `[C] ` line keeps its first 16 characters (`[C] `, the 11-character change
      summary and a space); only the rest of the line goes to `path_with_arrow`. */
  lemma ChangeFrame(tool: string -> string, user: string, host: string, path: string, line: string)
    requires Classify(line, path) == Change
    ensures |line| >= 16 && |LogSpec(tool, user, host, path, line).text| >= 16
    ensures LogSpec(tool, user, host, path, line).text[..16] == line[..16]
    ensures LogSpec(tool, user, host, path, line).asked == ArrowSpec(tool, line[16..LineEnd(line, 16)]).asked
  {
    assert IsChange(line);
    var d := ArrowSpec(tool, line[16..LineEnd(line, 16)]);
    assert LogSpec(tool, user, host, path, line) == Then(Verbatim(line[..16]), d);
    assert (line[..16] + d.text)[..16] == line[..16];
  }

  lemma {:induction false} ArrowFromFinds(s: string, i: nat, k: nat)
    requires i <= k && ArrowUnitAt(s, k)
    requires forall x :: i <= x < k ==> s[x] != '\n' && !ArrowUnitAt(s, x)
    ensures ArrowFrom(s, i) == Some(k)
    decreases k - i
  {
    if i < k {
      ArrowFromFinds(s, i + 1, k);
    }
  }

  lemma ArrowSlices(a: string, arrow: string, c: string)
    requires |arrow| == 4
    ensures var p := a + arrow + c;
      && p[..|a|] == a && p[|a|..|a| + 4] == arrow && p[|a| + 4..] == c
      && (forall x :: 0 <= x < |a| ==> p[x] == a[x])
      && (forall x :: 0 <= x < |c| ==> p[|a| + 4 + x] == c[x])
  {
  }

  /** A symlink report `a -> c` (or `a => c`): both ends are decoded, each by its own
      call and `a` first, and the arrow is kept. */
  lemma ArrowSymlink(tool: string -> string, a: string, arrow: string, c: string)
    requires arrow == " -> " || arrow == " => "
    requires '\n' !in a && '\n' !in c && !ArrowUnitAt(c, 0)
    requires forall x :: 0 <= x < |a| ==> !ArrowUnitAt(a + arrow + c, x)
    ensures ArrowSpec(tool, a + arrow + c) == Then(One(tool, a), Then(Verbatim(arrow), One(tool, c)))
  {
    var p := a + arrow + c;
    var k := |a|;
    ArrowSlices(a, arrow, c);
    assert ArrowUnitAt(p, k);
    ArrowFromFinds(p, 0, k);
    assert ArrowUnitAt(p, k + 4) == ArrowUnitAt(c, 0);
    assert ArrowRunEnd(p, k + 4) == k + 4;
    assert ArrowRunEnd(p, k) == k + 4;
    assert '\n' !in p;
    LineEndOfOneLine(p, k + 4);
    assert p[k + 4..|p|] == c;
  }

  /** A `[C] ` line reporting a symlink: the 16-character frame, then both ends decoded
      separately around the kept arrow. */
  lemma ChangeSymlink(tool: string -> string, user: string, host: string, path: string,
                      head: string, a: string, arrow: string, c: string)
    requires |head| == 16 && StartsWith(head, "[C] ") && head[15] == ' ' && '\n' !in head
    requires arrow == " -> " || arrow == " => "
    requires '\n' !in a && '\n' !in c && !ArrowUnitAt(c, 0)
    requires forall x :: 0 <= x < |a| ==> !ArrowUnitAt(a + arrow + c, x)
    ensures LogSpec(tool, user, host, path, head + (a + arrow + c))
         == Then(Verbatim(head), Then(One(tool, a), Then(Verbatim(arrow), One(tool, c))))
  {
    var rest := a + arrow + c;
    var line := head + rest;
    assert line[..16] == head && line[16..] == rest;
    assert forall x :: 0 <= x < 16 ==> line[x] == head[x];
    assert head[..4] == "[C] ";
    assert IsChange(line);
    NotPrefix(line, "[I] rsync", 1);
    NotPrefix(line, "[I] nocache rsync", 1);
    assert Classify(line, path) == Change;
    assert '\n' !in rest;
    assert '\n' !in line;
    LineEndOfOneLine(line, 16);
    assert line[16..LineEnd(line, 16)] == rest;
    ArrowSymlink(tool, a, arrow, c);
  }

  /** The progress line rsync prints first is skipped: returned as it is, nothing asked. */
  lemma SkipExample(tool: string -> string, user: string, host: string, path: string)
    ensures var line := SkipPrefix + "sending incremental file list";
      LogSpec(tool, user, host, path, line) == Verbatim(line)
  {
    var rest := "sending incremental file list";
    var line := SkipPrefix + rest;
    assert line[..|SkipPrefix|] == SkipPrefix && line[|SkipPrefix|..] == rest;
    assert line[1] == 'I' && line[4] == 'T';
    NotPrefix(line, "[I] rsync", 4);
    NotPrefix(line, "[I] nocache rsync", 4);
    NotPrefix(line, "[C] ", 1);
    assert MatchTok(SkipAlts[0][0], line, |SkipPrefix|) == Some(|line|) by {
      assert line[|SkipPrefix|..][..|rest|] == rest;
    }
    assert SkipAlts[0][1..] == [];
    assert MatchToks(SkipAlts[0], line, |SkipPrefix|).Some?;
    assert IsSkip(line);
  }

  lemma ChangeExampleLine(path: string)
    ensures var line := "[C] >f+++++++++ " + "secret";
      Classify(line, path) == Change && line[..16] == "[C] >f+++++++++ " && line[16..LineEnd(line, 16)] == "secret"
  {
    var head, name := "[C] >f+++++++++ ", "secret";
    var line := head + name;
    assert line[..16] == head && line[16..] == name;
    assert line[1] == 'C';
    NotPrefix(line, "[I] rsync", 1);
    NotPrefix(line, "[I] nocache rsync", 1);
    assert forall x :: 0 <= x < 16 ==> line[x] == head[x];
    assert IsChange(line);
    assert '\n' !in line;
    LineEndOfOneLine(line, 16);
  }

  lemma PlainAnswer(tool: string -> string)
    requires tool("secret") == "plain\n"
    ensures One(tool, "secret") == Decoded("plain", ["secret"])
  {
    assert StripLeft("plain\n", '\n') == "plain\n";
    assert "plain\n"[..5] == "plain";
  }

  /** A changed file whose encrypted name is `secret` and which the tool decodes to
      `plain`: the change summary is kept and the name replaced. */
  lemma ChangeExample(tool: string -> string, user: string, host: string, path: string)
    requires tool("secret") == "plain\n"
    ensures LogSpec(tool, user, host, path, "[C] >f+++++++++ " + "secret")
         == Decoded("[C] >f+++++++++ " + "plain", ["secret"])
  {
    var line := "[C] >f+++++++++ " + "secret";
    ChangeExampleLine(path);
    assert LogSpec(tool, user, host, path, line) == Then(Verbatim("[C] >f+++++++++ "), ArrowSpec(tool, "secret"));
    assert ArrowFrom("secret", 0) == None;
    PlainAnswer(tool);
  }

  // ---------------------------------------------------------------------------
  // The `Decode` object.

  /** `Decode.path` as a function of the query alone. */
  function PathAnswer(tool: string -> string): string -> string
  {
    q => DecodeAnswer(tool(q), q)
  }

  /** `Decode.list`: `f` applied to each path, in order. */
  function ListSpec(f: string -> string, qs: seq<string>): (r: seq<string>)
    ensures |r| == |qs|
  {
    if qs == [] then []
    else ListSpec(f, qs[..|qs| - 1]) + [f(qs[|qs| - 1])]
  }

  /** Each path of the list is decoded on its own. */
  lemma {:induction false} ListSpecIndex(f: string -> string, qs: seq<string>)
    ensures forall k :: 0 <= k < |qs| ==> ListSpec(f, qs)[k] == f(qs[k])
  {
    if qs != [] {
      var front := qs[..|qs| - 1];
      ListSpecIndex(f, front);
      assert forall k :: 0 <= k < |front| ==> front[k] == qs[k];
    }
  }

  lemma SnocSlice<T>(s: seq<T>, k: nat)
    requires k < |s|
    ensures s[..k] + [s[k]] == s[..k + 1]
  {
  }

  class Decoder {
    const pipe: Pipe
    /** `self.encfs.path`: the encrypted directory `encfsctl decode` reads its key from. */
    const encfsPath: string
    /** The user, host and path that `self.re_remote_path` is built from. */
    const user: string
    const host: string
    const sshPath: string
    /** `self.remote_path`: the snapshots path on the remote host, with a trailing separator. */
    const remotePath: string

    ghost predicate Valid()
    {
      pipe.command == DecodeCommand(encfsPath) && EndsWith(remotePath, "/")
    }

    /** An empty snapshots path on the remote host becomes `./`. */
    constructor (tool: string -> string, encfsPath: string, user: string, host: string, sshPath: string, snapshotsPathSsh: string)
      ensures Valid()
      ensures fresh(pipe) && pipe.tool == tool && pipe.proc == Absent && pipe.events == []
      ensures this.encfsPath == encfsPath && this.user == user && this.host == host && this.sshPath == sshPath
      ensures remotePath == WithTrailingSep(if snapshotsPathSsh == "" then "./" else snapshotsPathSsh)
    {
      pipe := new Pipe(tool, DecodeCommand(encfsPath));
      this.encfsPath := encfsPath;
      this.user := user;
      this.host := host;
      this.sshPath := sshPath;
      remotePath := WithTrailingSep(if snapshotsPathSsh == "" then "./" else snapshotsPathSsh);
    }

    /** `Decode.path`: never fails; an answer that strips to nothing gives the query back. */
    method Path(path: string) returns (r: string)
      modifies pipe
      ensures Strip(pipe.tool(path), '\n') != "" ==> r == Strip(pipe.tool(path), '\n')
      ensures Strip(pipe.tool(path), '\n') == "" ==> r == path
      ensures One(pipe.tool, path) == Decoded(r, [path])
      ensures pipe.events == old(pipe.events) + Launch(pipe.command, old(pipe.proc)) + [Write(path), Read(pipe.tool(path))]
      ensures pipe.Answered(old(pipe.events), old(pipe.proc), [path])
    {
      var line := pipe.Exchange(path);
      var ret := Strip(line, '\n');
      if ret != "" {
        return ret;
      }
      return path;
    }

    /** One more call of `Path`, folded into what the pipe has answered so far. */
    method Step(q: string, ghost e0: seq<Event>, ghost p0: Proc, ghost asked: seq<string>) returns (r: string)
      requires pipe.Answered(e0, p0, asked)
      modifies pipe
      ensures One(pipe.tool, q) == Decoded(r, [q])
      ensures pipe.Answered(e0, p0, asked + [q])
    {
      ghost var e1, p1 := pipe.events, pipe.proc;
      r := Path(q);
      Chain(pipe.tool, pipe.command, e0, p0, asked, e1, p1, [q], pipe.events, pipe.proc);
    }

    /** `Decode.list`: every path decoded by its own call, in order. */
    method List(paths: seq<string>) returns (output: seq<string>)
      modifies pipe
      ensures output == ListSpec(PathAnswer(pipe.tool), paths)
      ensures |output| == |paths|
      ensures forall k :: 0 <= k < |paths| ==> output[k] == DecodeAnswer(pipe.tool(paths[k]), paths[k])
      ensures pipe.Answered(old(pipe.events), old(pipe.proc), paths)
    {
      ghost var tool := pipe.tool;
      output := [];
      var k := 0;
      while k < |paths|
        invariant k <= |paths|
        invariant output == ListSpec(PathAnswer(tool), paths[..k])
        invariant pipe.Answered(old(pipe.events), old(pipe.proc), paths[..k])
      {
        var r := Step(paths[k], old(pipe.events), old(pipe.proc), paths[..k]);
        SnocSlice(paths, k);
        assert paths[..k + 1][..k] == paths[..k];
        output := output + [r];
        k := k + 1;
      }
      assert paths[..k] == paths;
      ListSpecIndex(PathAnswer(tool), paths);
    }

    /** `Decode.path_with_arrow`: `a -> b` decoded as its two ends, anything else as one path. */
    method PathWithArrow(path: string) returns (r: string)
      modifies pipe
      ensures r == ArrowSpec(pipe.tool, path).text
      ensures pipe.Answered(old(pipe.events), old(pipe.proc), ArrowSpec(pipe.tool, path).asked)
    {
      match ArrowFrom(path, 0)
      case None =>
        r := Path(path);
      case Some(i) =>
        var j := ArrowRunEnd(path, i);
        r := Ends(path[..i], path[i..j], path[j..LineEnd(path, j)]);
    }

    /** `self.path(a) + arrow + self.path(b)`: both ends decoded, in order, the arrow kept. */
    method Ends(a: string, arrow: string, b: string) returns (r: string)
      modifies pipe
      ensures r == EndsSpec(pipe.tool, a, arrow, b).text
      ensures pipe.Answered(old(pipe.events), old(pipe.proc), EndsSpec(pipe.tool, a, arrow, b).asked)
    {
      EndsSpecForm(pipe.tool, a, arrow, b);
      var x := Step(a, old(pipe.events), old(pipe.proc), []);
      assert [] + [a] == [a];
      var y := Step(b, old(pipe.events), old(pipe.proc), [a]);
      r := x + (arrow + y);
    }

    /** `self.re_all_except_asterisk.sub(self.path_m, s)`: every maximal run of characters
        other than `*` decoded by one call of `path_m`, the asterisks copied. */
    method DecodeRuns(s: string) returns (r: string)
      modifies pipe
      ensures r == RunsFrom(pipe.tool, s, 0).text
      ensures pipe.Answered(old(pipe.events), old(pipe.proc), RunsFrom(pipe.tool, s, 0).asked)
    {
      ghost var tool := pipe.tool;
      ghost var spec := RunsFrom(tool, s, 0);
      ghost var asked: seq<string> := [];
      r := "";
      var i := 0;
      ThenEmpty(spec);
      while i < |s|
        invariant i <= |s|
        invariant Then(Decoded(r, asked), RunsFrom(tool, s, i)) == spec
        invariant pipe.Answered(old(pipe.events), old(pipe.proc), asked)
        decreases |s| - i
      {
        if s[i] == '*' {
          ThenAssoc(Decoded(r, asked), Verbatim("*"), RunsFrom(tool, s, i + 1));
          assert asked + [] == asked;
          r := r + "*";
          i := i + 1;
        } else {
          var j := NonStarEnd(s, i);
          var x := Step(s[i..j], old(pipe.events), old(pipe.proc), asked);
          ThenAssoc(Decoded(r, asked), One(tool, s[i..j]), RunsFrom(tool, s, j));
          r := r + x;
          asked := asked + [s[i..j]];
          i := j;
        }
      }
      ThenEmpty(Decoded(r, asked));
    }

    /** `Decode.replace` on the three groups of a match. */
    method Replace(g1: string, g2: string, g3: string) returns (r: string)
      modifies pipe
      ensures r == ReplaceSpec(pipe.tool, g1, g2, g3).text
      ensures pipe.Answered(old(pipe.events), old(pipe.proc), ReplaceSpec(pipe.tool, g1, g2, g3).asked)
    {
      var decrypt := DecodeRuns(g2);
      if IsAbs(g2) {
        decrypt := PathJoin("/", decrypt);
      }
      r := g1 + decrypt + g3;
    }

    /** One more call of `Replace`, folded into what the pipe has answered so far. */
    method ReplaceStep(g1: string, g2: string, g3: string, ghost e0: seq<Event>, ghost p0: Proc, ghost asked: seq<string>) returns (r: string)
      requires pipe.Answered(e0, p0, asked)
      modifies pipe
      ensures r == Replacer(pipe.tool)(g1, g2, g3).text
      ensures pipe.Answered(e0, p0, asked + Replacer(pipe.tool)(g1, g2, g3).asked)
    {
      ghost var e1, p1 := pipe.events, pipe.proc;
      r := Replace(g1, g2, g3);
      Chain(pipe.tool, pipe.command, e0, p0, asked, e1, p1, ReplaceSpec(pipe.tool, g1, g2, g3).asked, pipe.events, pipe.proc);
    }

    /** One match of the loop of `Sub`: its groups handed to `Replace`, the search
        resumed after its closing text. */
    method SubMatch(opens: seq<string>, close: string, s: string, i: nat, r: string, ghost asked: seq<string>,
                    ghost e0: seq<Event>, ghost p0: Proc, ghost spec: Decoded)
      returns (r': string, ghost asked': seq<string>, i': nat)
      requires i < |s| && MatchAt(opens, close, s, i).Some?
      requires Then(Decoded(r, asked), SubFrom(Replacer(pipe.tool), opens, close, s, i)) == spec
      requires pipe.Answered(e0, p0, asked)
      modifies pipe
      ensures i < i' <= |s|
      ensures Then(Decoded(r', asked'), SubFrom(Replacer(pipe.tool), opens, close, s, i')) == spec
      ensures pipe.Answered(e0, p0, asked')
    {
      ghost var repl := Replacer(pipe.tool);
      var m := MatchAt(opens, close, s, i);
      var o, j := m.value.0, m.value.1;
      i' := MatchNext(opens, close, s, i);
      SubMatchStep(repl, opens, close, s, i);
      ghost var piece := repl(o, s[i + |o|..j], close);
      var x := ReplaceStep(o, s[i + |o|..j], close, e0, p0, asked);
      ThenAssoc(Decoded(r, asked), piece, SubFrom(repl, opens, close, s, i'));
      r' := r + x;
      asked' := asked + piece.asked;
    }

    /** `re.sub(pattern, self.replace, s)` for `(OPEN)(.*?)(CLOSE)`. */
    method Sub(opens: seq<string>, close: string, s: string) returns (r: string)
      modifies pipe
      ensures r == SubFrom(Replacer(pipe.tool), opens, close, s, 0).text
      ensures pipe.Answered(old(pipe.events), old(pipe.proc), SubFrom(Replacer(pipe.tool), opens, close, s, 0).asked)
    {
      ghost var repl := Replacer(pipe.tool);
      ghost var spec := SubFrom(repl, opens, close, s, 0);
      ghost var asked: seq<string> := [];
      r := "";
      var i := 0;
      ThenEmpty(spec);
      while i < |s|
        invariant i <= |s|
        invariant Then(Decoded(r, asked), SubFrom(repl, opens, close, s, i)) == spec
        invariant pipe.Answered(old(pipe.events), old(pipe.proc), asked)
        decreases |s| - i
      {
        var m := MatchAt(opens, close, s, i);
        if m.Some? {
          r, asked, i := SubMatch(opens, close, s, i, r, asked, old(pipe.events), old(pipe.proc), spec);
        } else {
          ThenAssoc(Decoded(r, asked), Verbatim([s[i]]), SubFrom(repl, opens, close, s, i + 1));
          assert asked + [] == asked;
          r := r + [s[i]];
          i := i + 1;
        }
      }
      ThenEmpty(Decoded(r, asked));
    }

    /** `Decode.log`: the line classified once, and only its embedded paths sent to the tool. */
    method Log(line: string) returns (r: string)
      modifies pipe
      ensures r == LogSpec(pipe.tool, user, host, sshPath, line).text
      ensures pipe.Answered(old(pipe.events), old(pipe.proc), LogSpec(pipe.tool, user, host, sshPath, line).asked)
    {
      match Classify(line, sshPath)
      case RsyncCommand =>
        r := RsyncLine(line);
      case Change =>
        r := ChangeLine(line);
      case Skip =>
        r := line;
        assert pipe.Answered(old(pipe.events), old(pipe.proc), []);
      case Info(q, j) =>
        r := InfoLine(line, q, j);
      case Error(q, j) =>
        r := ErrorLine(line, q, j);
      case Copy(q1, m2, q3, m4) =>
        r := CopyLine(line, q1, m2, q3, m4);
      case Other =>
        r := line;
        assert pipe.Answered(old(pipe.events), old(pipe.proc), []);
    }

    /** An rsync command line: the include/exclude, remote-path and link-dest
        substitutions, each applied to the output of the one before. */
    method RsyncLine(line: string) returns (r: string)
      modifies pipe
      ensures r == RsyncSpec(pipe.tool, user, host, sshPath, line).text
      ensures pipe.Answered(old(pipe.events), old(pipe.proc), RsyncSpec(pipe.tool, user, host, sshPath, line).asked)
    {
      ghost var d1 := IncludeExcludeSub(pipe.tool, line);
      var l1 := Sub(IncludeExcludeOpens, Quote, line);
      ghost var e1, p1 := pipe.events, pipe.proc;
      ghost var d2 := RemoteSub(pipe.tool, user, host, sshPath, l1);
      var l2 := Sub([RemoteOpen(user, host, sshPath)], RemoteClose, l1);
      Chain(pipe.tool, pipe.command, old(pipe.events), old(pipe.proc), d1.asked, e1, p1, d2.asked, pipe.events, pipe.proc);
      ghost var e2, p2 := pipe.events, pipe.proc;
      ghost var d3 := LinkDestSub(pipe.tool, l2);
      r := Sub([LinkDestOpen], Quote, l2);
      Chain(pipe.tool, pipe.command, old(pipe.events), old(pipe.proc), d1.asked + d2.asked, e2, p2, d3.asked, pipe.events, pipe.proc);
    }

    /** A `[C] ` line: the 16-character frame kept, the rest decoded with `PathWithArrow`. */
    method ChangeLine(line: string) returns (r: string)
      requires IsChange(line)
      modifies pipe
      ensures r == ChangeSpec(pipe.tool, line).text
      ensures pipe.Answered(old(pipe.events), old(pipe.proc), ChangeSpec(pipe.tool, line).asked)
    {
      var x := PathWithArrow(line[16..LineEnd(line, 16)]);
      ghost var part := ArrowSpec(pipe.tool, line[16..LineEnd(line, 16)]);
      assert [] + part.asked == part.asked;
      r := line[..16] + x;
    }

    /** An information line: group 2 decoded with `PathWithArrow`, groups 1 and 3 kept. */
    method InfoLine(line: string, q: nat, j: nat) returns (r: string)
      requires q <= j <= |line|
      modifies pipe
      ensures r == AroundSpec(ArrowSpec(pipe.tool, line[q..j]), line, q, j).text
      ensures pipe.Answered(old(pipe.events), old(pipe.proc), AroundSpec(ArrowSpec(pipe.tool, line[q..j]), line, q, j).asked)
    {
      var x := PathWithArrow(line[q..j]);
      ghost var part := ArrowSpec(pipe.tool, line[q..j]);
      assert [] + (part.asked + []) == part.asked;
      r := line[..q] + (x + line[j..LineEnd(line, j)]);
    }

    /** An error line: group 2 decoded with `Path`, groups 1 and 3 kept. */
    method ErrorLine(line: string, q: nat, j: nat) returns (r: string)
      requires q <= j <= |line|
      modifies pipe
      ensures r == AroundSpec(One(pipe.tool, line[q..j]), line, q, j).text
      ensures pipe.Answered(old(pipe.events), old(pipe.proc), AroundSpec(One(pipe.tool, line[q..j]), line, q, j).asked)
    {
      var x := Path(line[q..j]);
      assert [] + ([line[q..j]] + []) == [line[q..j]];
      r := line[..q] + (x + line[j..LineEnd(line, j)]);
    }

    /** A `cp -aRl` line: both quoted paths decoded, in order. */
    method CopyLine(line: string, q1: nat, m2: nat, q3: nat, m4: nat) returns (r: string)
      requires q1 <= m2 <= q3 <= m4 <= |line|
      modifies pipe
      ensures r == CopySpec(pipe.tool, line, q1, m2, q3, m4).text
      ensures pipe.Answered(old(pipe.events), old(pipe.proc), CopySpec(pipe.tool, line, q1, m2, q3, m4).asked)
    {
      var g1, g3 := line[q1..m2], line[q3..m4];
      CopySpecForm(pipe.tool, line, q1, m2, q3, m4);
      var a := Step(g1, old(pipe.events), old(pipe.proc), []);
      assert [] + [g1] == [g1];
      var c := Step(g3, old(pipe.events), old(pipe.proc), [g1]);
      r := line[..q1] + (a + (line[m2..q3] + (c + Quote)));
    }

    /** `Decode.remote`: the first `len(remote_path)` characters cut off (they are not
        checked to be that prefix), the rest decoded, and the prefix joined back on. */
    method Remote(path: string) returns (r: string)
      requires Valid()
      modifies pipe
      ensures var q := Drop(path, |remotePath|);
        && pipe.Answered(old(pipe.events), old(pipe.proc), [q])
        && r == PathJoin(remotePath, DecodeAnswer(pipe.tool(q), q))
        && (!IsAbs(DecodeAnswer(pipe.tool(q), q)) ==> r == remotePath + DecodeAnswer(pipe.tool(q), q))
    {
      var x := Path(Drop(path, |remotePath|));
      JoinAfterSep(remotePath, x);
      r := PathJoin(remotePath, x);
    }

    /** `Decode.close`. */
    method Close()
      modifies pipe
      ensures pipe.proc == (if old(pipe.proc) == Running then Exited else old(pipe.proc))
      ensures pipe.events == old(pipe.events) + (if old(pipe.proc) == Running then [Finish] else [])
    {
      pipe.Close();
    }
  }
}
