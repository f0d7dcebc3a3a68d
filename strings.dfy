/** String helpers with the meaning of the Python built-ins the source uses. */
module Strings {

  predicate StartsWith(s: string, prefix: string)
  {
    |prefix| <= |s| && s[..|prefix|] == prefix
  }

  predicate EndsWith(s: string, suffix: string)
  {
    |suffix| <= |s| && s[|s| - |suffix|..] == suffix
  }

  /** `os.path.isabs` on POSIX. */
  predicate IsAbs(s: string)
  {
    |s| > 0 && s[0] == '/'
  }

  /** `os.path.join(a, b)` on POSIX: an absolute `b` discards `a`, otherwise
      a single separator is put between them unless `a` is empty or already ends with one. */
  function PathJoin(a: string, b: string): (r: string)
    ensures IsAbs(b) ==> r == b
    ensures !IsAbs(b) && (a == "" || a[|a| - 1] == '/') ==> r == a + b
    ensures !IsAbs(b) && a != "" && a[|a| - 1] != '/' ==> r == a + "/" + b
  {
    if IsAbs(b) then b
    else if a == "" || a[|a| - 1] == '/' then a + b
    else a + "/" + b
  }

  /** The joined path always ends with `b`; a relative `b` is appended to `a`, with
      at most one separator added between them. */
  lemma PathJoinShape(a: string, b: string)
    ensures EndsWith(PathJoin(a, b), b)
    ensures !IsAbs(b) ==> StartsWith(PathJoin(a, b), a)
    ensures !IsAbs(b) ==> |a| + |b| <= |PathJoin(a, b)| <= |a| + |b| + 1
  {
    var r := PathJoin(a, b);
    if !IsAbs(b) && a != "" && a[|a| - 1] != '/' {
      assert r == a + "/" + b;
      assert r[..|a|] == a && r[|r| - |b|..] == b;
    } else if !IsAbs(b) {
      assert r == a + b;
      assert r[..|a|] == a && r[|r| - |b|..] == b;
    } else {
      assert r[|r| - |b|..] == b;
    }
  }

  /** Joining onto a directory that ends with a separator is plain concatenation. */
  lemma JoinAfterSep(a: string, b: string)
    requires EndsWith(a, "/")
    ensures a != "" && a[|a| - 1] == '/'
    ensures !IsAbs(b) ==> PathJoin(a, b) == a + b
  {
    assert a[|a| - 1] == a[|a| - 1..][0];
  }

  /** `s.lstrip(c)` for a single character. */
  function StripLeft(s: string, c: char): (r: string)
    ensures |r| <= |s| && r == s[|s| - |r|..]
    ensures r == "" || r[0] != c
    ensures forall i :: 0 <= i < |s| - |r| ==> s[i] == c
  {
    if |s| > 0 && s[0] == c then
      var r := StripLeft(s[1..], c);
      assert s[1..][|s| - 1 - |r|..] == s[|s| - |r|..];
      assert forall i :: 1 <= i < |s| - |r| ==> s[i] == s[1..][i - 1];
      r
    else s
  }

  /** `s.rstrip(c)` for a single character. */
  function StripRight(s: string, c: char): (r: string)
    ensures |r| <= |s| && r == s[..|r|]
    ensures r == "" || r[|r| - 1] != c
    ensures forall i :: |r| <= i < |s| ==> s[i] == c
  {
    if |s| > 0 && s[|s| - 1] == c then StripRight(s[..|s| - 1], c) else s
  }

  /** `s.strip(c)` for a single character: drops every leading and trailing `c`. */
  function Strip(s: string, c: char): (r: string)
    ensures r == "" || (r[0] != c && r[|r| - 1] != c)
  {
    StripRight(StripLeft(s, c), c)
  }

  /** A string made of `n` copies of `c`. */
  function Repeat(c: char, n: nat): (r: string)
    ensures |r| == n && forall i :: 0 <= i < n ==> r[i] == c
  {
    if n == 0 then "" else [c] + Repeat(c, n - 1)
  }

  /** A string all of whose characters are `c` is a run of `c`. */
  lemma RunOf(s: string, c: char)
    requires forall i :: 0 <= i < |s| ==> s[i] == c
    ensures s == Repeat(c, |s|)
  {
  }

  /** What `Strip` removed: `s` is the result framed by a run of `i` and a run of `j` copies of `c`. */
  lemma StripFrames(s: string, c: char) returns (i: nat, j: nat)
    ensures s == Repeat(c, i) + Strip(s, c) + Repeat(c, j)
  {
    var l := StripLeft(s, c);
    var r := StripRight(l, c);
    i, j := |s| - |l|, |l| - |r|;
    FrontRun(s, c);
    BackRun(l, c);
    SplitAt(l, |r|);
    SplitAt(s, i);
    Concat3(s, Repeat(c, i), l, r, Repeat(c, j));
  }

  lemma FrontRun(s: string, c: char)
    ensures s[..|s| - |StripLeft(s, c)|] == Repeat(c, |s| - |StripLeft(s, c)|)
  {
    var front := s[..|s| - |StripLeft(s, c)|];
    assert forall k :: 0 <= k < |front| ==> front[k] == c;
    RunOf(front, c);
  }

  lemma BackRun(l: string, c: char)
    ensures l[|StripRight(l, c)|..] == Repeat(c, |l| - |StripRight(l, c)|)
  {
    var r := StripRight(l, c);
    var back := l[|r|..];
    assert forall k :: 0 <= k < |back| ==> back[k] == l[|r| + k];
    RunOf(back, c);
  }

  lemma SplitAt(s: string, k: nat)
    requires k <= |s|
    ensures s == s[..k] + s[k..]
  {
  }

  lemma Concat3(s: string, front: string, l: string, r: string, back: string)
    requires l == r + back && s == front + l
    ensures s == front + r + back
  {
  }

  /** A string made only of `c` is all stripped away. */
  lemma {:induction false} StripLeftAll(s: string, c: char)
    requires forall k :: 0 <= k < |s| ==> s[k] == c
    ensures StripLeft(s, c) == ""
    decreases |s|
  {
    if |s| > 0 {
      assert s[0] == c;
      assert forall k :: 0 <= k < |s| - 1 ==> s[1..][k] == s[k + 1];
      StripLeftAll(s[1..], c);
    }
  }

  /** Stripping a string that contains no `c` at all leaves it unchanged. */
  lemma StripFree(s: string, c: char)
    requires c !in s
    ensures Strip(s, c) == s
  {
  }

  /** `s.split(c)`: the pieces between occurrences of `c` (always at least one). */
  function Split(s: string, c: char): (r: seq<string>)
    ensures |r| >= 1
    ensures forall k :: 0 <= k < |r| ==> c !in r[k]
  {
    if |s| == 0 then [""]
    else
      var rest := Split(s[1..], c);
      if s[0] == c then [""] + rest else [[s[0]] + rest[0]] + rest[1..]
  }

  /** `c.join(parts)`. */
  function JoinWith(parts: seq<string>, c: char): string
  {
    if |parts| == 0 then ""
    else if |parts| == 1 then parts[0]
    else parts[0] + [c] + JoinWith(parts[1..], c)
  }

  lemma {:induction false} JoinSplit(s: string, c: char)
    ensures JoinWith(Split(s, c), c) == s
  {
    if |s| > 0 {
      JoinSplit(s[1..], c);
      var rest := Split(s[1..], c);
      if s[0] == c {
        assert s == [c] + s[1..];
      } else {
        var parts := [[s[0]] + rest[0]] + rest[1..];
        if |rest| > 1 {
          assert parts[1..] == rest[1..];
          assert JoinWith(rest, c) == rest[0] + [c] + JoinWith(rest[1..], c);
        }
        assert s == [s[0]] + s[1..];
      }
    }
  }

  lemma {:induction false} SplitJoin(parts: seq<string>, c: char)
    requires |parts| >= 1
    requires forall k :: 0 <= k < |parts| ==> c !in parts[k]
    ensures Split(JoinWith(parts, c), c) == parts
    decreases |parts|, |parts[0]|
  {
    var s := JoinWith(parts, c);
    if parts[0] == "" {
      if |parts| == 1 {
      } else {
        assert s == [c] + JoinWith(parts[1..], c);
        assert s[1..] == JoinWith(parts[1..], c);
        SplitJoin(parts[1..], c);
        assert parts == [""] + parts[1..];
      }
    } else {
      var head := parts[0];
      var shorter := [head[1..]] + parts[1..];
      assert shorter[1..] == parts[1..];
      assert forall k :: 0 <= k < |shorter| ==> c !in shorter[k] by {
        forall k | 0 <= k < |shorter| ensures c !in shorter[k] {
          if k == 0 { assert forall x :: x in head[1..] ==> x in head; }
        }
      }
      SplitJoin(shorter, c);
      if |parts| == 1 {
        assert s == head;
      } else {
        assert s == head + [c] + JoinWith(parts[1..], c);
        assert JoinWith(shorter, c) == head[1..] + [c] + JoinWith(parts[1..], c);
      }
      assert s[0] == head[0] && s[1..] == JoinWith(shorter, c);
      assert head == [head[0]] + head[1..];
    }
  }

  predicate IsDigit(ch: char)
  {
    '0' <= ch <= '9'
  }

  /** `str.isdigit()` on ASCII text: non-empty and all decimal digits. */
  predicate IsDigits(s: string)
  {
    |s| > 0 && forall i :: 0 <= i < |s| ==> IsDigit(s[i])
  }

  /** `int(s)` for a string of decimal digits (leading zeros allowed). */
  function DecimalValue(s: string): (n: nat)
    requires forall i :: 0 <= i < |s| ==> IsDigit(s[i])
  {
    if |s| == 0 then 0
    else
      assert IsDigit(s[|s| - 1]);
      DecimalValue(s[..|s| - 1]) * 10 + (s[|s| - 1] as int - '0' as int)
  }

  /** Where the line holding index `i` starts: just after the last newline before `i`. */
  function LineStart(s: string, i: nat): (k: nat)
    requires i <= |s|
    ensures k <= i
    ensures forall j :: k <= j < i ==> s[j] != '\n'
    ensures k > 0 ==> s[k - 1] == '\n'
  {
    if i > 0 && s[i - 1] != '\n' then LineStart(s, i - 1) else i
  }

  /** Where the line holding index `j` ends: the first newline at or after `j`, else `|s|`.
      A regex `.` never crosses that point. */
  function LineEnd(s: string, j: nat): (e: nat)
    requires j <= |s|
    ensures j <= e <= |s|
    ensures forall k :: j <= k < e ==> s[k] != '\n'
    ensures e < |s| ==> s[e] == '\n'
    decreases |s| - j
  {
    if j < |s| && s[j] != '\n' then LineEnd(s, j + 1) else j
  }

  /** `s[n:]` in Python: empty once `n` passes the end. */
  function Drop(s: string, n: nat): (r: string)
    ensures n <= |s| ==> r == s[n..]
    ensures n > |s| ==> r == ""
    ensures n <= |s| ==> s == s[..n] + r && |r| == |s| - n
  {
    if n <= |s| then s[n..] else ""
  }

  /** The constructors' `if not p[-1] == os.sep: p += os.sep` on a non-empty string. */
  function WithTrailingSep(s: string): (r: string)
    requires |s| > 0
    ensures EndsWith(r, "/") && StartsWith(r, s) && |r| <= |s| + 1
  {
    if s[|s| - 1] == '/' then s else s + "/"
  }

  /** `''.join(parts)`. */
  function Concat(parts: seq<string>): string
  {
    if parts == [] then "" else parts[0] + Concat(parts[1..])
  }

  /** Joining two lists of pieces is joining each and putting the results together. */
  lemma {:induction false} ConcatAppend(a: seq<string>, b: seq<string>)
    ensures Concat(a + b) == Concat(a) + Concat(b)
  {
    if a == [] {
      assert a + b == b;
    } else {
      assert (a + b)[0] == a[0] && (a + b)[1..] == a[1..] + b;
      ConcatAppend(a[1..], b);
      assert Concat(a + b) == a[0] + (Concat(a[1..]) + Concat(b));
    }
  }

  /** Splitting at the first separator: the piece before it, then the rest split. */
  lemma {:induction false} SplitFirst(a: string, c: char, b: string)
    requires c !in a
    ensures Split(a + [c] + b, c) == [a] + Split(b, c)
  {
    var s := a + [c] + b;
    if a == [] {
      assert s[1..] == b;
    } else {
      assert s[1..] == a[1..] + [c] + b;
      SplitFirst(a[1..], c, b);
      assert [a[0]] + a[1..] == a;
    }
  }

  /** A string with no separator is one piece. */
  lemma {:induction false} SplitNone(a: string, c: char)
    requires c !in a
    ensures Split(a, c) == [a]
  {
    if a != [] {
      SplitNone(a[1..], c);
      assert [a[0]] + a[1..] == a;
    }
  }
}
