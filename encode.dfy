/** `Encode` of common/encfstools.py: plaintext paths and rsync filter patterns
    turned into their encrypted form through `encfsctl encode`. */
module Encoding {
  import opened Results
  import opened Strings
  import opened Wildcard
  import opened Channel

  /** `EncodeValueError`: the tool answered an empty line to a non-empty query. */
  datatype EncodeError = EncodeValueError

  const EncodeCommand: seq<string> := ["encfsctl", "encode", "--extpass=backintime-askpass", "/"]

  /** What `Encode.path` returns for `query` when the tool answers `tool(query)`. */
  function EncodePath(tool: string -> string, query: string): Result<string, EncodeError>
  {
    var ret := Strip(tool(query), '\n');
    if |ret| == 0 && |query| > 0 then Err(EncodeValueError) else Ok(ret)
  }

  /** The groups of `re_separate_asterisk` = `(.*?)(\*+)(.*)` found by `search`. */
  datatype StarMatch = StarMatch(before: string, stars: string, after: string)

  /** Index of the first asterisk at or after `k`, or `|s|`. */
  function FirstStar(s: string, k: nat): (i: nat)
    requires k <= |s|
    ensures k <= i <= |s|
    ensures i < |s| ==> s[i] == '*'
    ensures forall j :: k <= j < i ==> s[j] != '*'
    decreases |s| - k
  {
    if k < |s| && s[k] != '*' then FirstStar(s, k + 1) else k
  }

  /** `re_separate_asterisk.search(s)`: the leftmost match starts on the line of the
      first asterisk (a regex `.` does not cross a newline), takes the whole run of
      asterisks, and ends where that line ends. */
  function SeparateAsterisk(s: string): (m: Option<StarMatch>)
    ensures m.None? <==> '*' !in s
    ensures m.Some? ==> StarFree(m.value.before) && '\n' !in m.value.before
    ensures m.Some? ==> m.value.stars != "" && AllStars(m.value.stars)
    ensures m.Some? ==> (m.value.after == "" || m.value.after[0] != '*') && '\n' !in m.value.after
    ensures m.Some? ==> |m.value.after| < |s|
    ensures m.Some? && '\n' !in s ==> m.value.before + m.value.stars + m.value.after == s
  {
    var i := FirstStar(s, 0);
    if i == |s| then None
    else
      var k := LineStart(s, i);
      var j := RunEnd(s, i);
      var e := LineEnd(s, j);
      GroupsShape(s, k, i, j, e);
      Some(StarMatch(s[k..i], s[i..j], s[j..e]))
  }

  /** The three groups cut out of `s` around its first asterisk, at `i`. */
  lemma GroupsShape(s: string, k: nat, i: nat, j: nat, e: nat)
    requires k <= i < j <= e <= |s| && s[i] == '*'
    requires forall x :: k <= x < i ==> s[x] != '*' && s[x] != '\n'
    requires forall x :: i <= x < j ==> s[x] == '*'
    requires forall x :: j <= x < e ==> s[x] != '\n'
    requires k > 0 ==> s[k - 1] == '\n'
    requires e < |s| ==> s[e] == '\n'
    ensures '*' in s
    ensures StarFree(s[k..i]) && '\n' !in s[k..i]
    ensures AllStars(s[i..j])
    ensures '\n' !in s[j..e]
    ensures '\n' !in s ==> s[k..i] + s[i..j] + s[j..e] == s
  {
    var before, stars, after := s[k..i], s[i..j], s[j..e];
    assert forall x :: 0 <= x < |before| ==> before[x] == s[k + x];
    assert forall x :: 0 <= x < |stars| ==> stars[x] == s[i + x];
    assert forall x :: 0 <= x < |after| ==> after[x] == s[j + x];
    if '\n' !in s {
      assert k == 0 && e == |s|;
      assert s == s[..i] + s[i..j] + s[j..];
    }
  }

  /** What `exclude` returns (`None` for untranslatable) and the lines it sent the tool. */
  datatype ExcludeOut = ExcludeOut(result: Result<Option<string>, EncodeError>, asked: seq<string>)

  function Prefixed(asked: seq<string>, o: ExcludeOut): ExcludeOut
  {
    ExcludeOut(o.result, asked + o.asked)
  }

  /** The `while True` loop of `exclude`, from the remaining pattern `rest` and the
      encrypted text `enc` built so far. */
  function ExcludeLoop(tool: string -> string, rest: string, enc: string): ExcludeOut
    decreases |rest|
  {
    match SeparateAsterisk(rest)
    case None => ExcludeOut(Ok(None), [])
    case Some(m) =>
      if m.before != "" && !EndsWith(m.before, "/") then ExcludeOut(Ok(None), [])
      else
        var first := if m.before != "" then EncodePath(tool, m.before) else Ok("");
        var asked := if m.before != "" then [m.before] else [];
        if first.Err? then ExcludeOut(Err(first.error), asked)
        else
          var enc' := PathJoin(if m.before != "" then PathJoin(enc, first.value) else enc, m.stars);
          if m.after == "" then ExcludeOut(Ok(Some(enc')), asked)
          else if !StartsWith(m.after, "/") then ExcludeOut(Ok(None), asked)
          else if '*' !in m.after then
            match EncodePath(tool, m.after)
            case Err(e) => ExcludeOut(Err(e), asked + [m.after])
            case Ok(x) => ExcludeOut(Ok(Some(PathJoin(enc', x))), asked + [m.after])
          else Prefixed(asked, ExcludeLoop(tool, m.after, enc'))
  }

  /** `os.path.join(os.sep, enc)` on a finished translation of an absolute pattern. */
  function Rooted(p: string, o: ExcludeOut): ExcludeOut
  {
    if IsAbs(p) && o.result.Ok? && o.result.value.Some? then
      ExcludeOut(Ok(Some(PathJoin("/", o.result.value.value))), o.asked)
    else o
  }

  /** `Encode.exclude`. */
  function ExcludeSpec(tool: string -> string, p: string): ExcludeOut
  {
    if PatternHasNotEncryptableWildcard(p) then ExcludeOut(Ok(None), [])
    else if '*' in p then Rooted(p, ExcludeLoop(tool, p, ""))
    else
      match EncodePath(tool, p)
      case Err(e) => ExcludeOut(Err(e), [p])
      case Ok(x) => Rooted(p, ExcludeOut(Ok(Some(x)), [p]))
  }

  // ---------------------------------------------------------------------------
  // What exclude does to a pattern, piece by piece.

  /** A piece of a pattern as the loop sees it: literal text or a run of asterisks. */
  datatype Piece = Literal(text: string) | Stars(text: string)

  /** The pieces the loop of `exclude` cuts a pattern into. */
  function Pieces(rest: string): seq<Piece>
    decreases |rest|
  {
    match SeparateAsterisk(rest)
    case None => [Literal(rest)]
    case Some(m) =>
      (if m.before != "" then [Literal(m.before)] else [])
      + [Stars(m.stars)]
      + (if m.after == "" then [] else if '*' !in m.after then [Literal(m.after)] else Pieces(m.after))
  }

  function Texts(ps: seq<Piece>): string
  {
    if ps == [] then "" else ps[0].text + Texts(ps[1..])
  }

  /** The literal pieces, in order: exactly what is sent to the tool. */
  function Literals(ps: seq<Piece>): seq<string>
  {
    if ps == [] then []
    else (if ps[0].Literal? then [ps[0].text] else []) + Literals(ps[1..])
  }

  /** A translation that behaves like a path component: non-empty, no `/` at either end. */
  predicate Clean(r: Result<string, EncodeError>)
  {
    r.Ok? && r.value != "" && !IsAbs(r.value) && !EndsWith(r.value, "/")
  }

  /** The pieces as they appear in the output: literals translated, asterisks as they were. */
  function Shown(tool: string -> string, ps: seq<Piece>): seq<string>
  {
    if ps == [] then [] else [ShownOne(tool, ps[0])] + Shown(tool, ps[1..])
  }

  function ShownOne(tool: string -> string, p: Piece): string
  {
    match p
    case Literal(t) => (var r := EncodePath(tool, t); if r.Ok? then r.value else "")
    case Stars(t) => t
  }

  lemma {:induction false} TextsConcat(a: seq<Piece>, b: seq<Piece>)
    ensures Texts(a + b) == Texts(a) + Texts(b)
  {
    if a != [] {
      assert (a + b)[0] == a[0];
      assert (a + b)[1..] == a[1..] + b;
      TextsConcat(a[1..], b);
      assert Texts(a + b) == a[0].text + (Texts(a[1..]) + Texts(b));
    } else {
      assert a + b == b;
    }
  }

  lemma {:induction false} LiteralsConcat(a: seq<Piece>, b: seq<Piece>)
    ensures Literals(a + b) == Literals(a) + Literals(b)
  {
    if a != [] {
      assert (a + b)[0] == a[0];
      assert (a + b)[1..] == a[1..] + b;
      LiteralsConcat(a[1..], b);
      var h := if a[0].Literal? then [a[0].text] else [];
      assert Literals(a + b) == h + (Literals(a[1..]) + Literals(b));
    } else {
      assert a + b == b;
    }
  }

  lemma {:induction false} ShownConcat(tool: string -> string, a: seq<Piece>, b: seq<Piece>)
    ensures Shown(tool, a + b) == Shown(tool, a) + Shown(tool, b)
    decreases |a|
  {
    if a != [] {
      var ab := a + b;
      assert ab[0] == a[0];
      assert ab[1..] == a[1..] + b;
      ShownConcat(tool, a[1..], b);
      assert Shown(tool, ab) == [ShownOne(tool, a[0])] + Shown(tool, ab[1..]);
      assert Shown(tool, a) == [ShownOne(tool, a[0])] + Shown(tool, a[1..]);
    } else {
      assert a + b == b;
    }
  }

  lemma TextsOne(x: Piece)
    ensures Texts([x]) == x.text
  {
    assert [x][1..] == [];
  }

  /** Cutting a one-line pattern into pieces loses nothing. */
  lemma {:induction false} PiecesCover(p: string)
    requires '*' in p && '\n' !in p
    ensures Texts(Pieces(p)) == p
    decreases |p|
  {
    var m := SeparateAsterisk(p).value;
    var pre := if m.before != "" then [Literal(m.before)] else [];
    var mid := [Stars(m.stars)];
    var post := if m.after == "" then [] else if '*' !in m.after then [Literal(m.after)] else Pieces(m.after);
    assert Pieces(p) == pre + mid + post;
    assert Texts(pre) == m.before by {
      if m.before != "" { TextsOne(Literal(m.before)); }
    }
    TextsOne(Stars(m.stars));
    assert Texts(post) == m.after by {
      if m.after == "" {
      } else if '*' !in m.after {
        TextsOne(Literal(m.after));
      } else {
        PiecesCover(m.after);
      }
    }
    TextsConcat(pre, mid);
    TextsConcat(pre + mid, post);
  }

  /** Every asterisk piece is a run of asterisks, and no literal piece holds one. */
  lemma {:induction false} PiecesShape(p: string)
    requires '*' in p
    ensures forall k :: 0 <= k < |Pieces(p)| ==> PieceOk(Pieces(p)[k])
    decreases |p|
  {
    var m := SeparateAsterisk(p).value;
    var pre := if m.before != "" then [Literal(m.before)] else [];
    var post := if m.after == "" then [] else if '*' !in m.after then [Literal(m.after)] else Pieces(m.after);
    assert Pieces(p) == pre + [Stars(m.stars)] + post;
    assert AllOk(post) by {
      if m.after != "" && '*' in m.after {
        PiecesShape(m.after);
      }
    }
    OkConcat(pre, [Stars(m.stars)]);
    OkConcat(pre + [Stars(m.stars)], post);
  }

  predicate AllOk(ps: seq<Piece>)
  {
    forall k :: 0 <= k < |ps| ==> PieceOk(ps[k])
  }

  lemma OkConcat(a: seq<Piece>, b: seq<Piece>)
    requires AllOk(a) && AllOk(b)
    ensures AllOk(a + b)
  {
    forall k | 0 <= k < |a + b| ensures PieceOk((a + b)[k]) {
      if k >= |a| {
        assert (a + b)[k] == b[k - |a|];
      }
    }
  }

  predicate PieceOk(x: Piece)
  {
    match x
    case Literal(t) => StarFree(t)
    case Stars(t) => t != "" && AllStars(t)
  }

  lemma MixedInside(s: string, a: nat, b: nat)
    requires a <= b <= |s| && !HasMixedPair(s)
    ensures !HasMixedPair(s[a..b])
  {
    var t := s[a..b];
    forall i | 0 <= i < |t| - 1 ensures !Mixed(t[i], t[i + 1]) {
      assert t[i] == s[a + i] && t[i + 1] == s[a + i + 1];
    }
  }

  /** When no asterisk touches an ordinary character, the separator checks inside the
      loop always pass and what is left holds no such asterisk either. */
  lemma MatchEdges(s: string)
    requires '*' in s && !HasMixedPair(s)
    ensures var m := SeparateAsterisk(s).value;
      (m.before == "" || EndsWith(m.before, "/"))
      && (m.after == "" || StartsWith(m.after, "/"))
      && !HasMixedPair(m.after)
  {
    var i := FirstStar(s, 0);
    var k := LineStart(s, i);
    var j := RunEnd(s, i);
    var e := LineEnd(s, j);
    var m := SeparateAsterisk(s).value;
    assert m == StarMatch(s[k..i], s[i..j], s[j..e]);
    if k < i {
      assert !Mixed(s[i - 1], s[i]);
    }
    if j < e {
      assert s[j - 1] == '*';
      assert !Mixed(s[j - 1], s[j]);
    }
    MixedInside(s, j, e);
  }

  /** The separator-joined form of a run of components that behave like path components. */
  predicate Components(done: seq<string>)
  {
    forall k :: 0 <= k < |done| ==> done[k] != "" && !IsAbs(done[k]) && !EndsWith(done[k], "/")
  }

  lemma {:induction false} JoinWithSnoc(done: seq<string>, x: string)
    requires done != []
    ensures JoinWith(done + [x], '/') == JoinWith(done, '/') + "/" + x
  {
    if |done| == 1 {
      assert done + [x] == [done[0], x];
      assert [x][1..] == [];
    } else {
      assert (done + [x])[1..] == done[1..] + [x];
      JoinWithSnoc(done[1..], x);
    }
  }

  lemma {:induction false} JoinWithEnds(done: seq<string>)
    requires done != [] && Components(done)
    ensures var j := JoinWith(done, '/'); j != "" && !IsAbs(j) && !EndsWith(j, "/")
  {
    if |done| > 1 {
      JoinWithEnds(done[1..]);
      var t := JoinWith(done[1..], '/');
      assert JoinWith(done, '/') == done[0] + "/" + t;
      assert EndsWith(JoinWith(done, '/'), "/") ==> EndsWith(t, "/") by {
        var j := JoinWith(done, '/');
        assert j[|j| - 1] == t[|t| - 1];
      }
    } else {
      assert JoinWith(done, '/') == done[0];
    }
  }

  /** `os.path.join` of the text built so far and one more component. */
  lemma JoinStep(done: seq<string>, x: string)
    requires Components(done) && x != "" && !IsAbs(x) && !EndsWith(x, "/")
    ensures PathJoin(JoinWith(done, '/'), x) == JoinWith(done + [x], '/')
    ensures Components(done + [x])
  {
    if done == [] {
      assert done + [x] == [x];
    } else {
      JoinWithEnds(done);
      JoinWithSnoc(done, x);
      var j := JoinWith(done, '/');
      assert j[|j| - 1] != '/' by {
        assert EndsWith(j, "/") <==> j[|j| - 1] == '/';
      }
    }
  }

  predicate AllClean(tool: string -> string, qs: seq<string>)
  {
    forall k :: 0 <= k < |qs| ==> Clean(EncodePath(tool, qs[k]))
  }

  lemma StarsComponent(m: StarMatch)
    requires m.stars != "" && AllStars(m.stars)
    ensures !IsAbs(m.stars) && !EndsWith(m.stars, "/")
  {
    assert m.stars[0] == '*';
    assert m.stars[|m.stars| - 1] == '*';
  }

  function PrePieces(m: StarMatch): seq<Piece>
  {
    if m.before != "" then [Literal(m.before)] else []
  }

  function PostPieces(m: StarMatch): seq<Piece>
  {
    if m.after == "" then [] else if '*' !in m.after then [Literal(m.after)] else Pieces(m.after)
  }

  lemma AllCleanSplit(tool: string -> string, a: seq<string>, b: seq<string>)
    requires AllClean(tool, a + b)
    ensures AllClean(tool, a) && AllClean(tool, b)
  {
    assert forall k :: 0 <= k < |a| ==> (a + b)[k] == a[k];
    assert forall k :: 0 <= k < |b| ==> (a + b)[|a| + k] == b[k];
  }

  /** The pieces of `rest`, split around its first run of asterisks. */
  lemma PiecesAround(tool: string -> string, rest: string)
    requires '*' in rest
    ensures var m := SeparateAsterisk(rest).value;
      && Literals(Pieces(rest)) == Literals(PrePieces(m)) + Literals(PostPieces(m))
      && Shown(tool, Pieces(rest)) == Shown(tool, PrePieces(m)) + [m.stars] + Shown(tool, PostPieces(m))
  {
    var m := SeparateAsterisk(rest).value;
    var pre, mid, post := PrePieces(m), [Stars(m.stars)], PostPieces(m);
    assert Pieces(rest) == pre + mid + post;
    LiteralsConcat(pre, mid);
    LiteralsConcat(pre + mid, post);
    assert Literals(mid) == [] by { assert mid[1..] == []; }
    ShownConcat(tool, pre, mid);
    ShownConcat(tool, pre + mid, post);
    assert Shown(tool, mid) == [m.stars] by { assert mid[1..] == []; }
  }

  /** One turn of the loop of `exclude` when the separator checks pass and the text
      before the asterisks translates. */
  lemma LoopStep(tool: string -> string, rest: string, enc: string)
    requires '*' in rest && !HasMixedPair(rest)
    requires var m := SeparateAsterisk(rest).value; m.before != "" ==> EncodePath(tool, m.before).Ok?
    ensures var m := SeparateAsterisk(rest).value;
      var enc' := PathJoin(if m.before != "" then PathJoin(enc, EncodePath(tool, m.before).value) else enc, m.stars);
      var asked := if m.before != "" then [m.before] else [];
      ExcludeLoop(tool, rest, enc) ==
        if m.after == "" then ExcludeOut(Ok(Some(enc')), asked)
        else if '*' !in m.after then
          (match EncodePath(tool, m.after)
           case Err(e) => ExcludeOut(Err(e), asked + [m.after])
           case Ok(x) => ExcludeOut(Ok(Some(PathJoin(enc', x))), asked + [m.after]))
        else Prefixed(asked, ExcludeLoop(tool, m.after, enc'))
  {
    MatchEdges(rest);
  }

  lemma Regroup<T>(w: seq<T>, a: seq<T>, x: seq<T>, b: seq<T>)
    ensures w + (a + x + b) == w + a + x + b
  {
  }

  lemma Assoc<T>(a: seq<T>, b: seq<T>, c: seq<T>)
    ensures a + (b + c) == (a + b) + c
    ensures a + [] == a && [] + a == a
  {
  }

  /** A lone literal piece: asked for once, shown as its translation, joined as one more component. */
  lemma OneLiteral(tool: string -> string, t: string, done: seq<string>)
    requires Components(done) && AllClean(tool, Literals([Literal(t)]))
    ensures Literals([Literal(t)]) == [t]
    ensures Clean(EncodePath(tool, t)) && Shown(tool, [Literal(t)]) == [EncodePath(tool, t).value]
    ensures PathJoin(JoinWith(done, '/'), EncodePath(tool, t).value) == JoinWith(done + Shown(tool, [Literal(t)]), '/')
    ensures Components(done + Shown(tool, [Literal(t)]))
  {
    var ps := [Literal(t)];
    assert ps[1..] == [];
    assert Literals(ps) == [t];
    assert Clean(EncodePath(tool, t)) by { assert Literals(ps)[0] == t; }
    assert Shown(tool, ps) == [EncodePath(tool, t).value];
    JoinStep(done, EncodePath(tool, t).value);
  }

  lemma {:induction false} LoopPieces(tool: string -> string, rest: string, done: seq<string>)
    requires '*' in rest && !HasMixedPair(rest) && Components(done)
    requires AllClean(tool, Literals(Pieces(rest)))
    ensures ExcludeLoop(tool, rest, JoinWith(done, '/'))
         == ExcludeOut(Ok(Some(JoinWith(done + Shown(tool, Pieces(rest)), '/'))), Literals(Pieces(rest)))
    ensures Components(done + Shown(tool, Pieces(rest)))
    decreases |rest|
  {
    var m := SeparateAsterisk(rest).value;
    MatchEdges(rest);
    StarsComponent(m);
    PiecesAround(tool, rest);
    var pre, post := PrePieces(m), PostPieces(m);
    AllCleanSplit(tool, Literals(pre), Literals(post));
    var done1 := done + Shown(tool, pre);
    if m.before != "" {
      OneLiteral(tool, m.before, done);
    } else {
      assert done1 == done;
    }
    JoinStep(done1, m.stars);
    var done2 := done1 + [m.stars];
    Regroup(done, Shown(tool, pre), [m.stars], Shown(tool, post));
    LoopStep(tool, rest, JoinWith(done, '/'));
    if m.after == "" {
      assert done2 + Shown(tool, post) == done2;
      assert Literals(post) == [];
    } else if '*' !in m.after {
      OneLiteral(tool, m.after, done2);
    } else {
      LoopPieces(tool, m.after, done2);
    }
  }

  /** The translation of a pattern whose asterisks all stand as whole path segments:
      the tool is asked for the literal pieces in order and for nothing else, and the
      result is their translations with the asterisk runs copied unchanged between
      them, under `/` when the pattern is absolute. Stated for a tool whose answers
      behave like path components. */
  lemma ExcludeByPieces(tool: string -> string, p: string)
    requires !PatternHasNotEncryptableWildcard(p) && '*' in p
    requires AllClean(tool, Literals(Pieces(p)))
    ensures var joined := JoinWith(Shown(tool, Pieces(p)), '/');
      ExcludeSpec(tool, p)
      == ExcludeOut(Ok(Some(if IsAbs(p) then "/" + joined else joined)), Literals(Pieces(p)))
  {
    AdjacentForm(p);
    LoopPieces(tool, p, []);
    assert [] + Shown(tool, Pieces(p)) == Shown(tool, Pieces(p));
    JoinWithEnds(Shown(tool, Pieces(p)));
  }

  lemma {:induction false} LoopNeverUntranslatable(tool: string -> string, rest: string, enc: string)
    requires '*' in rest && !HasMixedPair(rest)
    ensures ExcludeLoop(tool, rest, enc).result != Ok(None)
    decreases |rest|
  {
    MatchEdges(rest);
    var m := SeparateAsterisk(rest).value;
    if m.after != "" && '*' in m.after {
      var first := if m.before != "" then EncodePath(tool, m.before) else Ok("");
      if first.Ok? {
        var enc' := PathJoin(if m.before != "" then PathJoin(enc, first.value) else enc, m.stars);
        LoopNeverUntranslatable(tool, m.after, enc');
      }
    }
  }

  /** `exclude` gives up on a pattern (returns `None`) exactly when
      `patternHasNotEncryptableWildcard` holds: the checks inside its loop never fire
      on a pattern that passed that test. */
  lemma UntranslatableIff(tool: string -> string, p: string)
    ensures ExcludeSpec(tool, p).result == Ok(None) <==> PatternHasNotEncryptableWildcard(p)
  {
    AdjacentForm(p);
    if !PatternHasNotEncryptableWildcard(p) && '*' in p {
      LoopNeverUntranslatable(tool, p, "");
    }
  }

  /** A pattern with an asterisk glued to other text in one segment is untranslatable. */
  lemma EmbeddedAsteriskRejected(tool: string -> string, p: string, i: nat)
    requires i < |p| && p[i] == '*'
    requires (i > 0 && Plain(p[i - 1])) || (i + 1 < |p| && Plain(p[i + 1]))
    ensures ExcludeSpec(tool, p) == ExcludeOut(Ok(None), [])
  {
    AdjacentForm(p);
    if i > 0 && Plain(p[i - 1]) {
      assert Mixed(p[i - 1], p[i]);
    } else {
      assert Mixed(p[i], p[i + 1]);
    }
  }

  /** Without an asterisk, `exclude` is `path`, re-rooted when the pattern is absolute,
      unless the pattern holds `[`, `]` or `?`. */
  lemma ExcludeWithoutAsterisk(tool: string -> string, p: string)
    requires '*' !in p
    ensures HasWildcard(p) ==> ExcludeSpec(tool, p) == ExcludeOut(Ok(None), [])
    ensures !HasWildcard(p) ==> ExcludeSpec(tool, p).asked == [p]
    ensures !HasWildcard(p) && EncodePath(tool, p).Err? ==> ExcludeSpec(tool, p).result == Err(EncodeValueError)
    ensures !HasWildcard(p) && EncodePath(tool, p).Ok? ==>
              var x := EncodePath(tool, p).value;
              ExcludeSpec(tool, p).result == Ok(Some(if IsAbs(p) then PathJoin("/", x) else x))
  {
    AdjacentForm(p);
    forall i | 0 <= i < |p| - 1 ensures !Mixed(p[i], p[i + 1]) {
      assert p[i] != '*' && p[i + 1] != '*';
    }
  }

  class Encoder {
    const pipe: Pipe
    /** `self.chroot`: the reverse mount's mountpoint with a trailing separator. */
    const chroot: string
    /** `self.remote_path`: the remote snapshot path with a trailing separator. */
    const remotePath: string

    /** The command the pipe runs, and both stored paths end with a separator. */
    ghost predicate Valid()
    {
      pipe.command == EncodeCommand && EndsWith(chroot, "/") && EndsWith(remotePath, "/")
    }

    constructor (tool: string -> string, revRootMountpoint: string, sshPath: string)
      requires |revRootMountpoint| > 0 && |sshPath| > 0
      ensures Valid()
      ensures fresh(pipe) && pipe.tool == tool && pipe.command == EncodeCommand
      ensures pipe.proc == Absent && pipe.events == []
      ensures chroot == WithTrailingSep(revRootMountpoint)
      ensures remotePath == WithTrailingSep(sshPath)
    {
      pipe := new Pipe(tool, EncodeCommand);
      chroot := WithTrailingSep(revRootMountpoint);
      remotePath := WithTrailingSep(sshPath);
    }

    /** `Encode.path`. */
    method Path(path: string) returns (r: Result<string, EncodeError>)
      modifies pipe
      ensures r.Err? <==> Strip(pipe.tool(path), '\n') == "" && path != ""
      ensures r.Ok? ==> r.value == Strip(pipe.tool(path), '\n')
      ensures r == EncodePath(pipe.tool, path)
      ensures pipe.events == old(pipe.events) + Launch(pipe.command, old(pipe.proc)) + [Write(path), Read(pipe.tool(path))]
      ensures pipe.Answered(old(pipe.events), old(pipe.proc), [path])
    {
      var line := pipe.Exchange(path);
      var ret := Strip(line, '\n');
      if |ret| == 0 && |path| > 0 {
        return Err(EncodeValueError);
      }
      return Ok(ret);
    }

    /** `Encode.exclude`. */
    method Exclude(path: string) returns (r: Result<Option<string>, EncodeError>)
      modifies pipe
      ensures r == ExcludeSpec(pipe.tool, path).result
      ensures pipe.Answered(old(pipe.events), old(pipe.proc), ExcludeSpec(pipe.tool, path).asked)
    {
      var tool := pipe.tool;
      if PatternHasNotEncryptableWildcard(path) {
        return Ok(None);
      }
      var enc := "";
      ghost var asked: seq<string> := [];
      if '*' in path {
        ghost var spec := ExcludeLoop(tool, path, "");
        assert ExcludeSpec(tool, path) == Rooted(path, spec);
        Assoc(spec.asked, [], []);
        var rest := path;
        while true
          invariant Prefixed(asked, ExcludeLoop(tool, rest, enc)) == spec
          invariant pipe.Answered(old(pipe.events), old(pipe.proc), asked)
          decreases |rest|
        {
          ghost var out := ExcludeLoop(tool, rest, enc);
          ghost var asked0 := asked;
          Assoc(asked0, [], []);
          var m := SeparateAsterisk(rest);
          if m.None? {
            assert out == ExcludeOut(Ok(None), []);
            assert spec == ExcludeOut(Ok(None), asked);
            return Ok(None);
          }
          var g := m.value;
          ghost var step: seq<string> := [];
          if g.before != "" {
            if !EndsWith(g.before, "/") {
              assert out == ExcludeOut(Ok(None), []);
              assert spec == ExcludeOut(Ok(None), asked);
              return Ok(None);
            }
            ghost var e0, p0 := pipe.events, pipe.proc;
            var x := Path(g.before);
            Chain(tool, pipe.command, old(pipe.events), old(pipe.proc), asked, e0, p0, [g.before], pipe.events, pipe.proc);
            asked := asked + [g.before];
            step := [g.before];
            if x.Err? {
              assert out == ExcludeOut(Err(x.error), step);
              assert spec == ExcludeOut(Err(x.error), asked);
              return Err(x.error);
            }
            enc := PathJoin(enc, x.value);
          }
          assert asked == asked0 + step;
          enc := PathJoin(enc, g.stars);
          if g.after == "" {
            assert out == ExcludeOut(Ok(Some(enc)), step);
            assert spec == ExcludeOut(Ok(Some(enc)), asked);
            break;
          }
          if !StartsWith(g.after, "/") {
            assert out == ExcludeOut(Ok(None), step);
            assert spec == ExcludeOut(Ok(None), asked);
            return Ok(None);
          }
          if '*' !in g.after {
            ghost var e0, p0 := pipe.events, pipe.proc;
            var y := Path(g.after);
            Chain(tool, pipe.command, old(pipe.events), old(pipe.proc), asked, e0, p0, [g.after], pipe.events, pipe.proc);
            asked := asked + [g.after];
            Assoc(asked0, step, [g.after]);
            if y.Err? {
              assert out == ExcludeOut(Err(y.error), step + [g.after]);
              assert spec == ExcludeOut(Err(y.error), asked);
              return Err(y.error);
            }
            enc := PathJoin(enc, y.value);
            assert out == ExcludeOut(Ok(Some(enc)), step + [g.after]);
            assert spec == ExcludeOut(Ok(Some(enc)), asked);
            break;
          }
          ghost var next := ExcludeLoop(tool, g.after, enc);
          assert out == Prefixed(step, next);
          Assoc(asked0, step, next.asked);
          rest := g.after;
        }
      } else {
        var x := Path(path);
        asked := [path];
        if x.Err? {
          return Err(x.error);
        }
        enc := x.value;
      }
      if IsAbs(path) {
        enc := PathJoin("/", enc);
      }
      return Ok(Some(enc));
    }

    /** `Encode.include`: the translation re-anchored as an absolute pattern. */
    method Include(path: string) returns (r: Result<string, EncodeError>)
      modifies pipe
      ensures r.Err? <==> EncodePath(pipe.tool, path).Err?
      ensures r.Ok? ==> IsAbs(r.value) && r.value == PathJoin("/", EncodePath(pipe.tool, path).value)
      ensures pipe.Answered(old(pipe.events), old(pipe.proc), [path])
    {
      var x := Path(path);
      if x.Err? {
        return Err(x.error);
      }
      return Ok(PathJoin("/", x.value));
    }

    /** `Encode.remote`: the first `len(remote_path)` characters are cut off (they are
        not checked to be that prefix), the rest is translated, and the untranslated
        prefix is joined back on. */
    method Remote(path: string) returns (r: Result<string, EncodeError>)
      requires Valid()
      modifies pipe
      ensures var q := Drop(path, |remotePath|);
        && pipe.Answered(old(pipe.events), old(pipe.proc), [q])
        && (r.Err? <==> EncodePath(pipe.tool, q).Err?)
        && (r.Ok? ==> r.value == PathJoin(remotePath, EncodePath(pipe.tool, q).value))
        && (r.Ok? && !IsAbs(EncodePath(pipe.tool, q).value) ==> r.value == remotePath + EncodePath(pipe.tool, q).value)
      ensures StartsWith(path, remotePath) ==> Drop(path, |remotePath|) == path[|remotePath|..]
    {
      var x := Path(Drop(path, |remotePath|));
      if x.Err? {
        return Err(x.error);
      }
      JoinAfterSep(remotePath, x.value);
      return Ok(PathJoin(remotePath, x.value));
    }

    /** `Encode.close`. */
    method Close()
      modifies pipe
      ensures pipe.proc == (if old(pipe.proc) == Running then Exited else old(pipe.proc))
      ensures pipe.events == old(pipe.events) + (if old(pipe.proc) == Running then [Finish] else [])
    {
      pipe.Close();
    }
  }
}
