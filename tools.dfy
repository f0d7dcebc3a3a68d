// Small string and list utilities of `common/tools.py`: `prepare_path`,
// `check_cron_pattern`, `wrap_line` and `splitCommands`.

module Tools {
  import opened Results
  import opened Strings

  // ---------------------------------------------------------------- prepare_path

  /** `prepare_path`: every leading and trailing `/` is dropped and one `/` is put in front. */
  function PreparePath(path: string): (r: string)
    ensures |r| >= 1 && r[0] == '/'
    ensures r == "/" || r[|r| - 1] != '/'
    ensures |r| == 1 || r[1] != '/'
  {
    "/" + Strip(path, '/')
  }

  /** Only slashes at either end are removed: the input is the result's inner part
      framed by two runs of `/`. */
  lemma PreparePathOnlySlashes(path: string) returns (i: nat, j: nat)
    ensures path == Repeat('/', i) + PreparePath(path)[1..] + Repeat('/', j)
  {
    i, j := StripFrames(path, '/');
    assert PreparePath(path)[1..] == Strip(path, '/');
  }

  /** A prepared path is left as it is by `prepare_path`. */
  lemma {:induction false} PreparePathIdempotent(path: string)
    ensures PreparePath(PreparePath(path)) == PreparePath(path)
  {
    var x := Strip(path, '/');
    var p := "/" + x;
    assert p[1..] == x;
    StripSlashFront(x);
    assert Strip(p, '/') == x;
  }

  /** Putting one `/` in front of a stripped string is undone by stripping. */
  lemma StripSlashFront(x: string)
    requires x == "" || (x[0] != '/' && x[|x| - 1] != '/')
    ensures StripLeft("/" + x, '/') == x && StripRight(x, '/') == x
  {
    var p := "/" + x;
    assert p[0] == '/' && p[1..] == x;
    assert StripLeft(p, '/') == StripLeft(x, '/');
  }

  // ---------------------------------------------------------- check_cron_pattern

  /** One item of an hour list: decimal digits for a number not above 24. */
  predicate CronItem(item: string)
  {
    IsDigits(item) && DecimalValue(item) <= 24
  }

  /** The `for i in s.split(',')` loop: every item passes. */
  function AllCronItems(items: seq<string>): (r: bool)
    ensures r <==> forall k :: 0 <= k < |items| ==> CronItem(items[k])
  {
    if items == [] then true else CronItem(items[0]) && AllCronItems(items[1..])
  }

  /** `check_cron_pattern`: no space anywhere; then either a step (an asterisk, a
      slash and a valid hour count) or a comma-separated list of valid hours. */
  function CheckCronPattern(s: string): (r: bool)
    ensures ' ' in s ==> !r
    ensures ' ' !in s && StartsWith(s, "*/") ==> (r <==> CronItem(s[2..]))
    ensures ' ' !in s && !StartsWith(s, "*/") && (forall k :: 0 <= k < |Split(s, ',')| ==> CronItem(Split(s, ',')[k])) ==> r
    ensures r && !StartsWith(s, "*/") ==> forall k :: 0 <= k < |Split(s, ',')| ==> CronItem(Split(s, ',')[k])
  {
    if ' ' in s then false
    else if StartsWith(s, "*/") then CronItem(s[2..])
    else
      AllCronItems(Split(s, ','))
  }

  /** Joining digit strings with `c` gives a string of digits and `c`. */
  lemma {:induction false} JoinDigits(parts: seq<string>, c: char)
    requires forall k :: 0 <= k < |parts| ==> IsDigits(parts[k])
    ensures forall i :: 0 <= i < |JoinWith(parts, c)| ==> IsDigit(JoinWith(parts, c)[i]) || JoinWith(parts, c)[i] == c
  {
    if |parts| > 1 {
      JoinDigits(parts[1..], c);
      var rest := JoinWith(parts[1..], c);
      assert JoinWith(parts, c) == parts[0] + [c] + rest;
      forall i | 0 <= i < |JoinWith(parts, c)|
        ensures IsDigit(JoinWith(parts, c)[i]) || JoinWith(parts, c)[i] == c
      {
        if i > |parts[0]| {
          assert JoinWith(parts, c)[i] == rest[i - |parts[0]| - 1];
        }
      }
    }
  }

  /** An accepted list pattern is made of digits and commas only, and an accepted
      step pattern has only digits after its first two characters. */
  lemma CronAcceptedAlphabet(s: string)
    requires CheckCronPattern(s)
    ensures StartsWith(s, "*/") ==> forall i :: 2 <= i < |s| ==> IsDigit(s[i])
    ensures !StartsWith(s, "*/") ==> forall i :: 0 <= i < |s| ==> IsDigit(s[i]) || s[i] == ','
  {
    if !StartsWith(s, "*/") {
      JoinDigits(Split(s, ','), ',');
      JoinSplit(s, ',');
    } else {
      assert forall i :: 2 <= i < |s| ==> s[i] == s[2..][i - 2];
    }
  }

  /** The empty pattern is rejected, and so is an hour or a step above 24. */
  lemma CronRejects()
    ensures !CheckCronPattern("")
    ensures !CheckCronPattern("25") && !CheckCronPattern("*/25") && !CheckCronPattern("*/")
    ensures !CheckCronPattern("1, 2")
  {
    SplitNone("", ',');
    SplitNone("25", ',');
    assert !StartsWith("25", "*/");
    assert DecimalValue("25") == 25;
    assert ("*/25")[2..] == "25" && ("*/")[2..] == "";
    assert ' ' in "1, 2";
  }

  /** The patterns the documentation gives as examples are accepted. */
  lemma CronAcceptsStep()
    ensures CheckCronPattern("*/6")
  {
    assert ("*/6")[2..] == "6";
  }

  lemma CronAcceptsList()
    ensures CheckCronPattern("0,10,23")
  {
    var items := CronListSplit();
    CronListItems();
    assert AllCronItems(items);
    assert !StartsWith("0,10,23", "*/");
  }

  lemma CronListSplit() returns (items: seq<string>)
    ensures items == Split("0,10,23", ',') && items == ["0", "10", "23"]
  {
    SplitNone("23", ',');
    assert "10,23" == "10" + [','] + "23";
    SplitFirst("10", ',', "23");
    assert "0,10,23" == "0" + [','] + "10,23";
    SplitFirst("0", ',', "10,23");
    items := ["0", "10", "23"];
  }

  lemma CronListItems()
    ensures CronItem("0") && CronItem("10") && CronItem("23")
  {
    assert DecimalValue("10") == 10 by {
      assert ("10")[..1] == "1";
    }
    assert DecimalValue("23") == 23 by {
      assert ("23")[..1] == "2";
    }
  }

  // --------------------------------------------------------------------- wrap_line

  /** The continuation marker `wrap_line` really puts in front of every later line:
      none when it would not leave room on a line. */
  function Indicator(size: nat, indicator: string): (e: string)
    ensures e == "" || e == indicator
    ensures size >= 1 ==> WrapArgs(size, e)
  {
    if |indicator| >= size - 1 then "" else indicator
  }

  predicate WrapArgs(size: nat, e: string)
  {
    size >= 1 && (e == "" || |e| < size - 1)
  }

  /** The `for look in range(look, low, -1)` search: the highest position in
      `(low, look]` holding a delimiter. */
  function FindDelimiter(msg: string, delimiters: string, look: int, low: nat): (r: Option<nat>)
    requires look < |msg|
    ensures r.Some? ==> low < r.value <= look && msg[r.value] in delimiters
    ensures r.Some? ==> forall l :: r.value < l <= look ==> msg[l] !in delimiters
    ensures r.None? ==> forall l :: low < l <= look ==> msg[l] !in delimiters
    decreases look - low
  {
    if look <= low then None
    else if msg[look] in delimiters then Some(look)
    else FindDelimiter(msg, delimiters, look - 1, low)
  }

  /** Where the source cuts a message longer than `size`: just after the last delimiter
      in the upper half of the first `size` characters, else after `size` characters. */
  function CutAsWritten(msg: string, size: nat, delimiters: string): (c: nat)
    requires size < |msg|
    ensures size / 2 + 1 < c <= size || c == size
  {
    match FindDelimiter(msg, delimiters, size - 1, size / 2)
    case Some(look) => look + 1
    case None => size
  }

  /** `wrap_line`'s step as written: the line it yields and the message it goes on with. */
  function StepAsWritten(msg: string, size: nat, delimiters: string, e: string): (string, string)
    requires size < |msg|
  {
    var c := CutAsWritten(msg, size, delimiters);
    (msg[..c], e + msg[c..])
  }

  /** With the default indicator and `size` 12, a message that starts with the
      indicator and has no delimiter at positions 10 and 11 is cut just after the
      indicator's own space and handed back unchanged: the generator yields
      `CONTINUE: ` for ever. A plain 15-character word reaches that message in one step. */
  lemma WrapLineLoopsForever()
    ensures var e := Indicator(12, "CONTINUE: ");
      && StepAsWritten("aaaaaaaaaaaaaaa", 12, "\t ", e) == ("aaaaaaaaaaaa", "CONTINUE: aaa")
      && |"CONTINUE: aaa"| > 12
      && StepAsWritten("CONTINUE: aaa", 12, "\t ", e) == ("CONTINUE: ", "CONTINUE: aaa")
  {
    var e := Indicator(12, "CONTINUE: ");
    assert e == "CONTINUE: ";
    var w := "aaaaaaaaaaaaaaa";
    assert FindDelimiter(w, "\t ", 6, 6) == None;
    assert FindDelimiter(w, "\t ", 7, 6) == None;
    assert FindDelimiter(w, "\t ", 8, 6) == None;
    assert FindDelimiter(w, "\t ", 9, 6) == None;
    assert FindDelimiter(w, "\t ", 10, 6) == None;
    assert FindDelimiter(w, "\t ", 11, 6) == None;
    assert CutAsWritten(w, 12, "\t ") == 12;
    assert w[..12] == "aaaaaaaaaaaa" && w[12..] == "aaa";
    assert e + w[12..] == "CONTINUE: aaa";
    var m := "CONTINUE: aaa";
    assert m[11] !in "\t " && m[10] !in "\t " && m[9] in "\t ";
    assert FindDelimiter(m, "\t ", 11, 6) == Some(9);
    assert m[..10] == "CONTINUE: " && m[10..] == "aaa";
  }

  /** With `size` 0 the source never ends on a non-empty message: the indicator is
      dropped, the search range is empty, and each step yields `''` and goes on with
      the whole message. */
  lemma WrapLineSizeZeroStuck(msg: string, delimiters: string, indicator: string)
    requires msg != ""
    ensures Indicator(0, indicator) == ""
    ensures StepAsWritten(msg, 0, delimiters, Indicator(0, indicator)) == ("", msg)
  {
    assert msg[..0] == "" && "" + msg[0..] == msg;
  }

  /** The lines the source's generator yields, when it stops within `fuel` turns. */
  function WrapAsWritten(msg: string, size: nat, delimiters: string, e: string, fuel: nat): (r: Option<seq<string>>)
    ensures r.Some? ==> (r.value == [] <==> msg == "")
    ensures r.Some? ==> forall k :: 0 <= k < |r.value| ==> |r.value[k]| <= size
    decreases fuel
  {
    if msg == "" then Some([])
    else if |msg| <= size then Some([msg])
    else if fuel == 0 then None
    else
      var step := StepAsWritten(msg, size, delimiters, e);
      match WrapAsWritten(step.1, size, delimiters, e, fuel - 1)
      case Some(rest) => Some([step.0] + rest)
      case None => None
  }

  /** A line the source never gets past: the message starts with the indicator, is
      still too long, and the source's cut falls inside the indicator. */
  predicate Stuck(msg: string, size: nat, delimiters: string, e: string)
  {
    WrapArgs(size, e) && size < |msg| && StartsWith(msg, e) && CutAsWritten(msg, size, delimiters) <= |e|
  }

  /** A stuck message is rebuilt at least as long and stuck again: the delimiter the
      source cut after is still in the indicator, and what follows it in the searched
      range came from the delimiter-free part the source searched last time. */
  lemma StuckStep(msg: string, size: nat, delimiters: string, e: string)
    requires Stuck(msg, size, delimiters, e)
    ensures Stuck(StepAsWritten(msg, size, delimiters, e).1, size, delimiters, e)
    ensures |StepAsWritten(msg, size, delimiters, e).1| >= |msg|
  {
    var c := CutAsWritten(msg, size, delimiters);
    var look := c - 1;
    assert FindDelimiter(msg, delimiters, size - 1, size / 2) == Some(look);
    var next := e + msg[c..];
    assert next == StepAsWritten(msg, size, delimiters, e).1;
    assert next[look] == msg[..|e|][look] == msg[look];
    forall l | |e| <= l <= size - 1
      ensures next[l] !in delimiters
    {
      assert next[l] == msg[c + l - |e|];
    }
    assert next[..|e|] == e;
  }

  /** From a stuck message the source yields lines for ever. */
  lemma {:induction false} StuckNeverEnds(msg: string, size: nat, delimiters: string, e: string, fuel: nat)
    requires Stuck(msg, size, delimiters, e)
    ensures WrapAsWritten(msg, size, delimiters, e, fuel) == None
    decreases fuel
  {
    if fuel > 0 {
      StuckStep(msg, size, delimiters, e);
      StuckNeverEnds(StepAsWritten(msg, size, delimiters, e).1, size, delimiters, e, fuel - 1);
    }
  }

  /** The plain 15-character word of `WrapLineLoopsForever` is never wrapped to the end. */
  lemma WrapLineNeverEnds(fuel: nat)
    ensures WrapAsWritten("aaaaaaaaaaaaaaa", 12, "\t ", Indicator(12, "CONTINUE: "), fuel) == None
  {
    WrapLineLoopsForever();
    var e := Indicator(12, "CONTINUE: ");
    var m := "CONTINUE: aaa";
    assert StepAsWritten(m, 12, "\t ", e).0 == m[..CutAsWritten(m, 12, "\t ")];
    assert CutAsWritten(m, 12, "\t ") == 10;
    assert m[..|e|] == e;
    if fuel > 0 {
      StuckNeverEnds(m, 12, "\t ", e, fuel - 1);
    }
  }

  /** The corrected cut: the source's, except on a message that starts with the
      indicator when the source would cut inside it; there it cuts at `size`. */
  function Cut(msg: string, size: nat, delimiters: string, e: string): (c: nat)
    requires 1 <= size < |msg| && |e| < size
    ensures 1 <= c <= size
    ensures StartsWith(msg, e) ==> |e| < c
    ensures !Stuck(msg, size, delimiters, e) && WrapArgs(size, e) ==> c == CutAsWritten(msg, size, delimiters)
  {
    var c := CutAsWritten(msg, size, delimiters);
    if StartsWith(msg, e) && c <= |e| then size else c
  }

  /** The two cuts agree whenever the indicator fits in half a line, as the default
      one (10 characters on 950) does. */
  lemma CutAgrees(msg: string, size: nat, delimiters: string, e: string)
    requires 1 <= size < |msg| && |e| < size && |e| <= size / 2 + 1
    ensures Cut(msg, size, delimiters, e) == CutAsWritten(msg, size, delimiters)
  {
    var c := CutAsWritten(msg, size, delimiters);
    assert c > |e|;
  }

  /** The lines `wrap_line` yields, with the corrected cut. */
  function Wrap(msg: string, size: nat, delimiters: string, e: string): seq<string>
    requires WrapArgs(size, e)
    decreases if StartsWith(msg, e) then 0 else 1, |msg|
  {
    if msg == "" then []
    else if |msg| <= size then [msg]
    else
      var c := Cut(msg, size, delimiters, e);
      assert (e + msg[c..])[..|e|] == e;
      [msg[..c]] + Wrap(e + msg[c..], size, delimiters, e)
  }

  /** Wherever the source's generator ends, the corrected one yields the same lines. */
  lemma {:induction false} WrapAgrees(msg: string, size: nat, delimiters: string, e: string, fuel: nat)
    requires WrapArgs(size, e)
    ensures var r := WrapAsWritten(msg, size, delimiters, e, fuel);
      r.Some? ==> r.value == Wrap(msg, size, delimiters, e)
    decreases fuel
  {
    if |msg| <= size {
      AgreeShort(msg, size, delimiters, e, fuel);
    } else if fuel > 0 {
      WrapAgrees(StepAsWritten(msg, size, delimiters, e).1, size, delimiters, e, fuel - 1);
      AgreeFromRest(msg, size, delimiters, e, fuel);
    }
  }

  /** One step of `WrapAgrees`: agreement on the rest gives agreement on the message;
      a stuck message never ends. */
  lemma AgreeFromRest(msg: string, size: nat, delimiters: string, e: string, fuel: nat)
    requires WrapArgs(size, e) && size < |msg| && fuel > 0
    requires var step := StepAsWritten(msg, size, delimiters, e);
      var r := WrapAsWritten(step.1, size, delimiters, e, fuel - 1);
      r.Some? ==> r.value == Wrap(step.1, size, delimiters, e)
    ensures var r := WrapAsWritten(msg, size, delimiters, e, fuel);
      r.Some? ==> r.value == Wrap(msg, size, delimiters, e)
  {
    if Stuck(msg, size, delimiters, e) {
      StuckNeverEnds(msg, size, delimiters, e, fuel);
    } else {
      var step := StepAsWritten(msg, size, delimiters, e);
      AsWrittenStep(msg, size, delimiters, e, fuel);
      AgreeStep(msg, size, delimiters, e);
      JoinStep(WrapAsWritten(msg, size, delimiters, e, fuel), WrapAsWritten(step.1, size, delimiters, e, fuel - 1),
               step.0, Wrap(msg, size, delimiters, e), Wrap(step.1, size, delimiters, e));
    }
  }

  /** Where the message is not stuck, the corrected step is the source's step. */
  lemma AgreeStep(msg: string, size: nat, delimiters: string, e: string)
    requires WrapArgs(size, e) && size < |msg| && !Stuck(msg, size, delimiters, e)
    ensures var step := StepAsWritten(msg, size, delimiters, e);
      Wrap(msg, size, delimiters, e) == [step.0] + Wrap(step.1, size, delimiters, e)
  {
    WrapStep(msg, size, delimiters, e);
  }

  /** A message that fits is one line, or none when empty, in both versions. */
  lemma AgreeShort(msg: string, size: nat, delimiters: string, e: string, fuel: nat)
    requires WrapArgs(size, e) && |msg| <= size
    ensures WrapAsWritten(msg, size, delimiters, e, fuel) == Some(Wrap(msg, size, delimiters, e))
  {
  }

  /** The same line in front of both versions' remaining lines. */
  lemma JoinStep(x: Option<seq<string>>, r: Option<seq<string>>, line: string, w: seq<string>, rest: seq<string>)
    requires x == if r.Some? then Some([line] + r.value) else None
    requires r.Some? ==> r.value == rest
    requires w == [line] + rest
    ensures x.Some? ==> x.value == w
  {
  }

  /** One turn of the source's generator on a message longer than `size`. */
  lemma AsWrittenStep(msg: string, size: nat, delimiters: string, e: string, fuel: nat)
    requires size < |msg| && fuel > 0
    ensures var step := StepAsWritten(msg, size, delimiters, e);
      var r := WrapAsWritten(step.1, size, delimiters, e, fuel - 1);
      WrapAsWritten(msg, size, delimiters, e, fuel) == if r.Some? then Some([step.0] + r.value) else None
  {
  }

  /** An indicator longer than half a line: the source's first cut is not past the
      indicator's width, yet the source ends, and the corrected lines are the same. */
  lemma WrapLongIndicatorExample()
    ensures WrapAsWritten("xxxx yyyy", 7, "\t ", "abcde", 2) == Some(["xxxx ", "abcdeyy", "abcdeyy"])
    ensures Wrap("xxxx yyyy", 7, "\t ", "abcde") == ["xxxx ", "abcdeyy", "abcdeyy"]
  {
    var m0, m1 := "xxxx yyyy", "abcdeyyyy";
    assert m0[4] == ' ' && FindDelimiter(m0, "\t ", 6, 3) == Some(4);
    assert m0[..5] == "xxxx " && "abcde" + m0[5..] == m1;
    assert m1[6] !in "\t " && m1[5] !in "\t " && m1[4] !in "\t ";
    assert FindDelimiter(m1, "\t ", 6, 3) == None;
    assert m1[..7] == "abcdeyy" && "abcde" + m1[7..] == "abcdeyy";
    assert StepAsWritten(m0, 7, "\t ", "abcde") == ("xxxx ", m1);
    assert StepAsWritten(m1, 7, "\t ", "abcde") == ("abcdeyy", "abcdeyy");
    assert WrapAsWritten("abcdeyy", 7, "\t ", "abcde", 0) == Some(["abcdeyy"]);
    assert ["abcdeyy"] + ["abcdeyy"] == ["abcdeyy", "abcdeyy"];
    assert ["xxxx "] + ["abcdeyy", "abcdeyy"] == ["xxxx ", "abcdeyy", "abcdeyy"];
    assert WrapAsWritten(m1, 7, "\t ", "abcde", 1) == Some(["abcdeyy", "abcdeyy"]);
    assert WrapAsWritten(m0, 7, "\t ", "abcde", 2) == Some(["xxxx ", "abcdeyy", "abcdeyy"]);
    WrapAgrees(m0, 7, "\t ", "abcde", 2);
  }

  /** Every yielded line is non-empty and at most `size` long. */
  lemma {:induction false} WrapBounds(msg: string, size: nat, delimiters: string, e: string)
    requires WrapArgs(size, e)
    ensures forall k :: 0 <= k < |Wrap(msg, size, delimiters, e)| ==> 0 < |Wrap(msg, size, delimiters, e)[k]| <= size
    decreases if StartsWith(msg, e) then 0 else 1, |msg|
  {
    if |msg| > size {
      var c := Cut(msg, size, delimiters, e);
      assert (e + msg[c..])[..|e|] == e;
      WrapBounds(e + msg[c..], size, delimiters, e);
    }
  }

  /** What a reader recovers from the lines: every line after the first without its
      leading indicator. */
  function Unwrap(lines: seq<string>, e: string): string
  {
    if lines == [] then "" else lines[0] + Tails(lines[1..], e)
  }

  function Tails(lines: seq<string>, e: string): string
  {
    if lines == [] then "" else Drop(lines[0], |e|) + Tails(lines[1..], e)
  }

  /** The first line of a message that starts with the indicator starts with it too. */
  lemma WrapFirst(msg: string, size: nat, delimiters: string, e: string)
    requires WrapArgs(size, e) && StartsWith(msg, e) && msg != ""
    ensures StartsWith(Wrap(msg, size, delimiters, e)[0], e)
  {
    if |msg| > size {
      var c := Cut(msg, size, delimiters, e);
      assert msg[..c][..|e|] == msg[..|e|];
    }
  }

  /** Every line after the first starts with the indicator, and taking it off again
      gives back the message. */
  lemma {:induction false} WrapRejoin(msg: string, size: nat, delimiters: string, e: string)
    requires WrapArgs(size, e)
    ensures var w := Wrap(msg, size, delimiters, e);
      && Unwrap(w, e) == msg
      && forall k :: 0 < k < |w| ==> StartsWith(w[k], e)
    decreases if StartsWith(msg, e) then 0 else 1, |msg|
  {
    if |msg| > size {
      var c := Cut(msg, size, delimiters, e);
      var m := e + msg[c..];
      var w := Wrap(m, size, delimiters, e);
      assert m[..|e|] == e;
      WrapRejoin(m, size, delimiters, e);
      assert Wrap(msg, size, delimiters, e) == [msg[..c]] + w;
      if w != [] {
        assert m[..|e|] == e;
        WrapFirst(m, size, delimiters, e);
      }
      RejoinStep(msg, c, e, w);
    }
  }

  /** One more line in front: the cut-off piece, then the rest recovered without its
      indicator. */
  lemma RejoinStep(msg: string, c: nat, e: string, w: seq<string>)
    requires c <= |msg| && Unwrap(w, e) == e + msg[c..]
    requires forall k :: 0 <= k < |w| ==> StartsWith(w[k], e)
    ensures Unwrap([msg[..c]] + w, e) == msg
    ensures forall k :: 0 < k < |[msg[..c]] + w| ==> StartsWith(([msg[..c]] + w)[k], e)
  {
    assert ([msg[..c]] + w)[1..] == w;
    if w == [] {
      assert msg[..c] == msg;
    } else {
      var d := Drop(w[0], |e|);
      assert w[0] == e + d;
      assert e + (d + Tails(w[1..], e)) == e + msg[c..];
      assert (e + (d + Tails(w[1..], e)))[|e|..] == d + Tails(w[1..], e);
      assert Tails(w, e) == msg[c..];
      assert msg == msg[..c] + msg[c..];
    }
  }

  /** Without an indicator the lines are plain pieces of the message. */
  lemma {:induction false} TailsPlain(lines: seq<string>)
    ensures Tails(lines, "") == Concat(lines)
  {
    if lines != [] {
      TailsPlain(lines[1..]);
    }
  }

  /** What `WrapLine` promises about the lines, gathered. */
  lemma WrapProperties(msg: string, size: nat, delimiters: string, e: string)
    requires WrapArgs(size, e)
    ensures var w := Wrap(msg, size, delimiters, e);
      && (forall k :: 0 <= k < |w| ==> 0 < |w[k]| <= size)
      && Unwrap(w, e) == msg
      && (e == "" ==> Concat(w) == msg)
  {
    var w := Wrap(msg, size, delimiters, e);
    WrapBounds(msg, size, delimiters, e);
    WrapRejoin(msg, size, delimiters, e);
    if e == "" && w != [] {
      TailsPlain(w[1..]);
    }
  }

  /** The inner `for look` loop and its fallback, then the correction: where to cut. */
  method FindCut(msg: string, size: nat, delimiters: string, e: string) returns (c: nat)
    requires 1 <= size < |msg| && |e| < size
    ensures c == Cut(msg, size, delimiters, e)
  {
    var low := size / 2;
    var look := size - 1;
    c := size;
    while look > low
      invariant low <= look <= size - 1 && c == size
      invariant FindDelimiter(msg, delimiters, look, low) == FindDelimiter(msg, delimiters, size - 1, low)
      decreases look
    {
      if msg[look] in delimiters {
        c := look + 1;
        break;
      }
      look := look - 1;
    }
    assert c == CutAsWritten(msg, size, delimiters);
    if StartsWith(msg, e) && c <= |e| {
      c := size;
    }
  }

  /** `wrap_line` (the generator's yields, in order), with the corrected cut. */
  method WrapLine(msg: string, size: nat, delimiters: string, newLineIndicator: string) returns (lines: seq<string>)
    requires size >= 1
    ensures lines == Wrap(msg, size, delimiters, Indicator(size, newLineIndicator))
    ensures forall k :: 0 <= k < |lines| ==> 0 < |lines[k]| <= size
    ensures Unwrap(lines, Indicator(size, newLineIndicator)) == msg
    ensures newLineIndicator == "" ==> Concat(lines) == msg
  {
    var e := Indicator(size, newLineIndicator);
    var m := msg;
    lines := [];
    while m != ""
      invariant lines + Wrap(m, size, delimiters, e) == Wrap(msg, size, delimiters, e)
      decreases if StartsWith(m, e) then 0 else 1, |m|
    {
      if |m| <= size {
        lines := lines + [m];
        break;
      }
      var c := FindCut(m, size, delimiters, e);
      WrapStep(m, size, delimiters, e);
      lines := lines + [m[..c]];
      m := e + m[c..];
    }
    WrapProperties(msg, size, delimiters, e);
  }

  /** One turn of the loop: the line cut off, and a rebuilt message that starts with
      the indicator and is shorter whenever the old one started with it too. */
  lemma WrapStep(m: string, size: nat, delimiters: string, e: string)
    requires WrapArgs(size, e) && |m| > size
    ensures var c := Cut(m, size, delimiters, e);
      && Wrap(m, size, delimiters, e) == [m[..c]] + Wrap(e + m[c..], size, delimiters, e)
      && StartsWith(e + m[c..], e)
      && (StartsWith(m, e) ==> |e + m[c..]| < |m|)
  {
    var c := Cut(m, size, delimiters, e);
    assert (e + m[c..])[..|e|] == e;
  }

  // ----------------------------------------------------------------- splitCommands

  /** The list object the caller hands to `splitCommands`, which pops from it. */
  class CommandList {
    var items: seq<string>

    constructor (items: seq<string>)
      ensures this.items == items
    {
      this.items := items;
    }
  }

  /** The inner loop's test: `cmd` still fits after `s` (always, without a length limit). */
  predicate Fits(s: string, cmd: string, tail: string, maxLength: int, additionalChars: int)
  {
    |s + cmd + tail| + additionalChars <= maxLength || maxLength == 0
  }

  /** What the source needs to end: each command fits on a chunk of its own. */
  predicate EachFits(cmds: seq<string>, head: string, tail: string, maxLength: int, additionalChars: int)
  {
    forall k :: 0 <= k < |cmds| ==> Fits(head, cmds[k], tail, maxLength, additionalChars)
  }

  /** How many commands the inner loop pops when the chunk so far is `s`. */
  function Take(cmds: seq<string>, s: string, tail: string, maxLength: int, additionalChars: int): (n: nat)
    ensures n <= |cmds|
    ensures n >= 1 <==> cmds != [] && Fits(s, cmds[0], tail, maxLength, additionalChars)
  {
    if cmds != [] && Fits(s, cmds[0], tail, maxLength, additionalChars)
    then 1 + Take(cmds[1..], s + cmds[0], tail, maxLength, additionalChars)
    else 0
  }

  /** The commands each yielded chunk holds, in order. */
  function Groups(cmds: seq<string>, head: string, tail: string, maxLength: int, additionalChars: int): seq<seq<string>>
    requires EachFits(cmds, head, tail, maxLength, additionalChars)
    decreases |cmds|
  {
    if cmds == [] then []
    else
      var n := Take(cmds, head, tail, maxLength, additionalChars);
      assert Fits(head, cmds[0], tail, maxLength, additionalChars);
      [cmds[..n]] + Groups(cmds[n..], head, tail, maxLength, additionalChars)
  }

  function Flatten(groups: seq<seq<string>>): seq<string>
  {
    if groups == [] then [] else groups[0] + Flatten(groups[1..])
  }

  /** The chunks hold every command once, in the original order, and none is empty. */
  lemma {:induction false} GroupsPartition(cmds: seq<string>, head: string, tail: string, maxLength: int, additionalChars: int)
    requires EachFits(cmds, head, tail, maxLength, additionalChars)
    ensures var g := Groups(cmds, head, tail, maxLength, additionalChars);
      && Flatten(g) == cmds
      && forall k :: 0 <= k < |g| ==> g[k] != []
    decreases |cmds|
  {
    if cmds != [] {
      var n := Take(cmds, head, tail, maxLength, additionalChars);
      assert Fits(head, cmds[0], tail, maxLength, additionalChars);
      GroupsPartition(cmds[n..], head, tail, maxLength, additionalChars);
      assert cmds == cmds[..n] + cmds[n..];
    }
  }

  /** The last command taken still fitted, so the whole chunk does. */
  lemma {:induction false} TakeFits(cmds: seq<string>, s: string, tail: string, maxLength: int, additionalChars: int)
    requires maxLength != 0
    requires cmds != [] && Fits(s, cmds[0], tail, maxLength, additionalChars)
    ensures var n := Take(cmds, s, tail, maxLength, additionalChars);
      |s + Concat(cmds[..n]) + tail| + additionalChars <= maxLength
    decreases |cmds|
  {
    var n := Take(cmds, s, tail, maxLength, additionalChars);
    var rest := cmds[1..];
    var s' := s + cmds[0];
    assert cmds[..n] == [cmds[0]] + rest[..n - 1];
    if n == 1 {
      assert Concat(cmds[..n]) == cmds[0];
    } else {
      TakeFits(rest, s', tail, maxLength, additionalChars);
      assert Concat(cmds[..n]) == cmds[0] + Concat(rest[..n - 1]);
      assert s + Concat(cmds[..n]) == s' + Concat(rest[..n - 1]);
    }
  }

  /** The inner loop packs greedily: when it stops before the end, the next command does not fit after the chunk so far. */
  lemma {:induction false} TakeMaximal(cmds: seq<string>, s: string, tail: string, maxLength: int, additionalChars: int)
    ensures var n := Take(cmds, s, tail, maxLength, additionalChars);
      n < |cmds| ==> !Fits(s + Concat(cmds[..n]), cmds[n], tail, maxLength, additionalChars)
    decreases |cmds|
  {
    var n := Take(cmds, s, tail, maxLength, additionalChars);
    if n == 0 {
      assert cmds[..n] == [];
      assert s + Concat(cmds[..n]) == s;
    } else if n < |cmds| {
      var rest := cmds[1..];
      var s' := s + cmds[0];
      TakeMaximal(rest, s', tail, maxLength, additionalChars);
      assert cmds[..n] == [cmds[0]] + rest[..n - 1];
      assert Concat(cmds[..n]) == cmds[0] + Concat(rest[..n - 1]);
      assert s + Concat(cmds[..n]) == s' + Concat(rest[..n - 1]);
      assert cmds[n] == rest[n - 1];
    }
  }

  /** With a length limit, every chunk (head, commands and tail, plus the extra
      characters) is within it. */
  lemma {:induction false} ChunksWithinLimit(cmds: seq<string>, head: string, tail: string, maxLength: int, additionalChars: int)
    requires EachFits(cmds, head, tail, maxLength, additionalChars) && maxLength != 0
    ensures var g := Groups(cmds, head, tail, maxLength, additionalChars);
      forall k :: 0 <= k < |g| ==> |head + Concat(g[k]) + tail| + additionalChars <= maxLength
    decreases |cmds|
  {
    if cmds != [] {
      var n := Take(cmds, head, tail, maxLength, additionalChars);
      assert Fits(head, cmds[0], tail, maxLength, additionalChars);
      TakeFits(cmds, head, tail, maxLength, additionalChars);
      ChunksWithinLimit(cmds[n..], head, tail, maxLength, additionalChars);
      assert Groups(cmds, head, tail, maxLength, additionalChars)
          == [cmds[..n]] + Groups(cmds[n..], head, tail, maxLength, additionalChars);
    }
  }

  /** Without a limit everything goes into one chunk. */
  lemma {:induction false} TakeAll(cmds: seq<string>, s: string, tail: string, additionalChars: int)
    ensures Take(cmds, s, tail, 0, additionalChars) == |cmds|
    decreases |cmds|
  {
    if cmds != [] {
      TakeAll(cmds[1..], s + cmds[0], tail, additionalChars);
    }
  }

  lemma NoLimitOneChunk(cmds: seq<string>, head: string, tail: string, additionalChars: int)
    requires cmds != []
    ensures Groups(cmds, head, tail, 0, additionalChars) == [cmds]
  {
    TakeAll(cmds, head, tail, additionalChars);
    assert cmds[..|cmds|] == cmds && cmds[|cmds|..] == [];
    assert Groups(cmds[|cmds|..], head, tail, 0, additionalChars) == [];
  }

  /** `splitCommands`: the chunks it yields, in order; the caller's list ends empty. */
  method SplitCommands(cmds: CommandList, head: string, tail: string, maxLength: int, additionalChars: int)
    returns (chunks: seq<string>)
    requires EachFits(cmds.items, head, tail, maxLength, additionalChars)
    modifies cmds
    ensures cmds.items == []
    ensures var g := Groups(old(cmds.items), head, tail, maxLength, additionalChars);
      |chunks| == |g| && forall k :: 0 <= k < |g| ==> chunks[k] == head + Concat(g[k]) + tail
  {
    ghost var all := cmds.items;
    ghost var done: seq<seq<string>> := [];
    chunks := [];
    while cmds.items != []
      invariant EachFits(cmds.items, head, tail, maxLength, additionalChars)
      invariant done + Groups(cmds.items, head, tail, maxLength, additionalChars) == Groups(all, head, tail, maxLength, additionalChars)
      invariant |chunks| == |done| && forall k :: 0 <= k < |done| ==> chunks[k] == head + Concat(done[k]) + tail
      decreases |cmds.items|
    {
      ghost var before := cmds.items;
      var s := NextChunk(cmds, head, tail, maxLength, additionalChars);
      ghost var n := Take(before, head, tail, maxLength, additionalChars);
      GroupsStep(before, head, tail, maxLength, additionalChars);
      done := done + [before[..n]];
      chunks := chunks + [s];
    }
  }

  /** The first chunk of a non-empty list is what the inner loop takes; the rest still fit. */
  lemma GroupsStep(cmds: seq<string>, head: string, tail: string, maxLength: int, additionalChars: int)
    requires cmds != [] && EachFits(cmds, head, tail, maxLength, additionalChars)
    ensures var n := Take(cmds, head, tail, maxLength, additionalChars);
      && 1 <= n
      && EachFits(cmds[n..], head, tail, maxLength, additionalChars)
      && Groups(cmds, head, tail, maxLength, additionalChars)
         == [cmds[..n]] + Groups(cmds[n..], head, tail, maxLength, additionalChars)
  {
    assert Fits(head, cmds[0], tail, maxLength, additionalChars);
  }

  /** As written, a command that does not fit even after `head` alone is never popped:
      the outer loop's turn yields `head + tail` and leaves the list as it was, so the
      source yields that chunk for ever. */
  lemma {:induction false} SplitCommandsStuck(cmds: seq<string>, head: string, tail: string, maxLength: int, additionalChars: int)
    requires cmds != [] && !Fits(head, cmds[0], tail, maxLength, additionalChars)
    ensures var n := Take(cmds, head, tail, maxLength, additionalChars);
      cmds[n..] == cmds && head + Concat(cmds[..n]) + tail == head + tail
  {
    assert cmds[..0] == [];
  }

  /** One turn of the outer loop: pop the commands that fit and close the chunk. */
  method NextChunk(cmds: CommandList, head: string, tail: string, maxLength: int, additionalChars: int)
    returns (s: string)
    modifies cmds
    ensures var n := Take(old(cmds.items), head, tail, maxLength, additionalChars);
      && cmds.items == old(cmds.items)[n..]
      && s == head + Concat(old(cmds.items)[..n]) + tail
    ensures EachFits(old(cmds.items), head, tail, maxLength, additionalChars)
         ==> EachFits(cmds.items, head, tail, maxLength, additionalChars)
  {
    ghost var before := cmds.items;
    ghost var n := 0;
    s := head;
    while cmds.items != [] && Fits(s, cmds.items[0], tail, maxLength, additionalChars)
      invariant n <= |before| && cmds.items == before[n..]
      invariant s == head + Concat(before[..n])
      invariant Take(before, head, tail, maxLength, additionalChars) == n + Take(cmds.items, s, tail, maxLength, additionalChars)
      decreases |cmds.items|
    {
      ConcatAppend(before[..n], [before[n]]);
      assert before[..n + 1] == before[..n] + [before[n]];
      s := s + cmds.items[0];
      cmds.items := cmds.items[1..];
      n := n + 1;
    }
    s := s + tail;
    assert forall k :: 0 <= k < |before[n..]| ==> before[n..][k] == before[n + k];
  }
}
