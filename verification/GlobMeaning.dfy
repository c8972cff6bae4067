/** What a glob pattern matches, said of the strings themselves: every pattern is cut into
    pieces, each piece stands for certain strings, and the pattern matches exactly the joins
    of strings its pieces stand for. */
module GlobMeaning {
  import opened Octets
  import opened Paths
  import opened Glob

  // ----- what a piece stands for -----

  /** Names, each with a slash behind it. */
  function Slashed(names: seq<string>): string {
    if names == [] then "" else names[0] + "/" + Slashed(names[1..])
  }

  ghost predicate Directories(s: string) { exists names: seq<string> :: Names(names) && s == Slashed(names) }

  /** A bracket and its contents, which hold no other closing bracket. */
  predicate Bracket(q: string) { |q| >= 2 && q[0] == '[' && q[|q| - 1] == ']' && ']' !in q[1..|q| - 1] }

  /** `**` and a slash: directories, or none. `**`: anything on one line. `*`: anything inside
      a component. `?`: any character but a slash. A bracket: one of its characters, or with
      `!` one of the others. Anything else: itself. */
  ghost predicate Meaning(cl: Classes, q: string, s: string) {
    if q == "**/" then Directories(s)
    else if q == "**" then '\n' !in s
    else if q == "*" then '/' !in s
    else if q == "?" then |s| == 1 && s[0] != '/'
    else if Bracket(q) then
      |s| == 1 && if q[1] == '!' then !cl(q[2..|q| - 1], s[0]) else cl(q[1..|q| - 1], s[0])
    else s == q
  }

  /** One piece of a pattern and what follows it: as many stars as there are, a slash with
      two of them, a bracket to its first closing one, or a single character. */
  ghost predicate Piece(q: string, rest: string) {
    || q == "**/"
    || (q == "**" && !("/" <= rest))
    || (q == "*" && !("*" <= rest))
    || q == "?"
    || Bracket(q)
    || (q == "[" && ']' !in rest)
    || (|q| == 1 && q[0] !in "*?[")
  }

  function Joined(pieces: seq<string>): string {
    if pieces == [] then "" else pieces[0] + Joined(pieces[1..])
  }

  ghost predicate Pieces(pieces: seq<string>) {
    pieces != [] ==> Piece(pieces[0], Joined(pieces[1..])) && Pieces(pieces[1..])
  }

  /** A string that is a join of strings the pieces stand for. */
  ghost predicate Denotes(cl: Classes, pieces: seq<string>, s: string)
    decreases |pieces|
  {
    if pieces == [] then s == ""
    else exists k | 0 <= k <= |s| :: Meaning(cl, pieces[0], s[..k]) && Denotes(cl, pieces[1..], s[k..])
  }

  // ----- the same of tokens -----

  ghost predicate Means(cl: Classes, t: Token, s: string) {
    match t
    case Dirs => Directories(s)
    case Any => OneLine(s)
    case Star => NoSlash(s)
    case One => |s| == 1 && s[0] != '/'
    case Class(negated, body) => |s| == 1 && cl(body, s[0]) != negated
    case Lit(c) => s == [c]
  }

  lemma FirstOne(cl: Classes, t: Token, ts: seq<Token>, s: string)
    requires t.Lit? || t.One? || t.Class?
    ensures Matches(cl, [t] + ts, s) <==> exists k | 0 <= k <= |s| :: Means(cl, t, s[..k]) && Matches(cl, ts, s[k..])
  {
    assert ([t] + ts)[1..] == ts;
    assert Matches(cl, [t] + ts, s) <==> s != "" && Means(cl, t, s[..1]) && Matches(cl, ts, s[1..]);
    hide Matches;
    forall k | 0 <= k <= |s| && Means(cl, t, s[..k]) ensures k == 1 { assert |s[..k]| == k; }
    if s != "" && Means(cl, t, s[..1]) && Matches(cl, ts, s[1..]) {
      assert 0 <= 1 <= |s|;
    }
  }

  lemma FirstRun(cl: Classes, t: Token, ts: seq<Token>, s: string)
    requires t == Star || t == Any
    ensures Matches(cl, [t] + ts, s) <==> exists k | 0 <= k <= |s| :: Means(cl, t, s[..k]) && Matches(cl, ts, s[k..])
  {
    assert ([t] + ts)[0] == t && ([t] + ts)[1..] == ts;
  }

  lemma SlashedFirst(names: seq<string>, name: string)
    requires Names(names) && Name(name)
    ensures Names([name] + names) && Slashed([name] + names) == name + "/" + Slashed(names)
  {
    assert ([name] + names)[1..] == names;
  }

  /** Directories begin with a name and its slash, or there are none. */
  lemma DirectoriesIff(s: string)
    ensures Directories(s) <==>
            s == "" || exists k | 0 < k < |s| :: s[k] == '/' && NoSlash(s[..k]) && Directories(s[k + 1..])
  {
    if names: seq<string> :| Names(names) && s == Slashed(names) {
      if names != [] { DirectoriesCut(names, s); }
    }
    if s == "" { assert Names([]) && Slashed([]) == ""; }
    if k :| 0 < k < |s| && s[k] == '/' && NoSlash(s[..k]) && Directories(s[k + 1..]) {
      DirectoriesJoin(s, k);
    }
  }

  lemma DirectoriesCut(names: seq<string>, s: string)
    requires Names(names) && names != [] && s == Slashed(names)
    ensures var k := |names[0]|; 0 < k < |s| && s[k] == '/' && NoSlash(s[..k]) && Directories(s[k + 1..])
  {
    var k, rest := |names[0]|, Slashed(names[1..]);
    assert Name(names[0]) && Names(names[1..]);
    assert s == names[0] + "/" + rest;
    assert Directories(rest);
    hide Directories, Slashed;
    assert s[..k] == names[0] && s[k + 1..] == rest;
  }

  lemma DirectoriesJoin(s: string, k: nat)
    requires 0 < k < |s| && s[k] == '/' && NoSlash(s[..k]) && Directories(s[k + 1..])
    ensures Directories(s)
  {
    var names: seq<string> :| Names(names) && s[k + 1..] == Slashed(names);
    SlashedFirst(names, s[..k]);
    hide Slashed;
    assert s == s[..k] + "/" + s[k + 1..];
  }

  lemma {:induction false} FirstDirs(cl: Classes, ts: seq<Token>, s: string)
    ensures Matches(cl, [Dirs] + ts, s) <==>
            exists k | 0 <= k <= |s| :: Directories(s[..k]) && Matches(cl, ts, s[k..])
    decreases |s|
  {
    hide Directories;
    var all := [Dirs] + ts;
    DirsUnfold(cl, ts, s);
    hide Matches;
    if Matches(cl, ts, s) {
      DirectoriesIff("");
      assert s[..0] == "" && s[0..] == s;
    } else if j :| 0 < j < |s| && s[j] == '/' && NoSlash(s[..j]) && Matches(cl, all, s[j + 1..]) {
      var rest := s[j + 1..];
      FirstDirs(cl, ts, rest);
      var k :| 0 <= k <= |rest| && Directories(rest[..k]) && Matches(cl, ts, rest[k..]);
      DirsLonger(s, j, k);
      assert s[j + 1 + k..] == rest[k..];
    }
    if k :| 0 <= k <= |s| && Directories(s[..k]) && Matches(cl, ts, s[k..]) {
      DirectoriesIff(s[..k]);
      if k == 0 {
        assert s[0..] == s;
      } else {
        var j :| 0 < j < k && s[..k][j] == '/' && NoSlash(s[..k][..j]) && Directories(s[..k][j + 1..]);
        var rest := s[j + 1..];
        assert s[..k][..j] == s[..j] && s[..k][j + 1..] == rest[..k - j - 1] && s[k..] == rest[k - j - 1..];
        FirstDirs(cl, ts, rest);
      }
    }
  }

  lemma DirsUnfold(cl: Classes, ts: seq<Token>, s: string)
    ensures Matches(cl, [Dirs] + ts, s) <==>
            || Matches(cl, ts, s)
            || exists k | 0 < k < |s| :: s[k] == '/' && NoSlash(s[..k]) && Matches(cl, [Dirs] + ts, s[k + 1..])
  {
    assert ([Dirs] + ts)[0] == Dirs && ([Dirs] + ts)[1..] == ts;
  }

  lemma DirsLonger(s: string, j: nat, k: nat)
    requires 0 < j < |s| && s[j] == '/' && NoSlash(s[..j]) && k <= |s| - j - 1 && Directories(s[j + 1..][..k])
    ensures Directories(s[..j + 1 + k])
  {
    hide Directories;
    var t := s[..j + 1 + k];
    assert t[j] == '/' && t[..j] == s[..j] && t[j + 1..] == s[j + 1..][..k];
    DirectoriesIff(t);
  }

  /** The first token takes a front of the string, and the others the rest. */
  lemma FirstToken(cl: Classes, t: Token, ts: seq<Token>, s: string)
    ensures Matches(cl, [t] + ts, s) <==> exists k | 0 <= k <= |s| :: Means(cl, t, s[..k]) && Matches(cl, ts, s[k..])
  {
    hide Matches, Directories;
    if t == Dirs {
      FirstDirs(cl, ts, s);
      DirsMeans(cl, s);
    } else if t == Star || t == Any {
      FirstRun(cl, t, ts, s);
    } else {
      FirstOne(cl, t, ts, s);
    }
  }

  lemma DirsMeans(cl: Classes, s: string)
    ensures forall k | 0 <= k <= |s| :: Means(cl, Dirs, s[..k]) <==> Directories(s[..k])
  {
  }

  // ----- pieces and tokens -----

  lemma {:induction false} CloseIs(q: string, rest: string)
    requires |q| >= 2 && q[|q| - 1] == ']' && ']' !in q[1..|q| - 1]
    ensures Close(q + rest) == |q| - 1
    decreases |q|
  {
    var p := q + rest;
    if |q| > 2 {
      assert q[1] in q[1..|q| - 1] && p[1] == q[1] && p[1..] == q[1..] + rest;
      assert q[1..][1..|q| - 2] == q[2..|q| - 1] && q[1..|q| - 1] == [q[1]] + q[2..|q| - 1];
      CloseIs(q[1..], rest);
    }
  }

  lemma {:induction false} CloseNone(p: string)
    requires p != "" && ']' !in p[1..]
    ensures Close(p) == |p|
    decreases |p|
  {
    if |p| > 1 {
      assert p[1] in p[1..];
      assert forall c | c in p[1..][1..] :: c in p[1..];
      CloseNone(p[1..]);
    }
  }

  /** The token of a piece. */
  function TokenOf(q: string): Token
    requires q != ""
  {
    if q == "**/" then Dirs
    else if q == "**" then Any
    else if q == "*" then Star
    else if q == "?" then One
    else if Bracket(q) then
      if q[1] == '!' then Class(true, q[2..|q| - 1]) else Class(false, q[1..|q| - 1])
    else Lit(q[0])
  }

  lemma PieceHead(q: string, rest: string)
    requires Piece(q, rest)
    ensures q != "" && Head(q + rest) == (TokenOf(q), |q|)
  {
    var p := q + rest;
    if Bracket(q) {
      CloseIs(q, rest);
      BracketHeadIs(q, rest);
    } else if q == "[" {
      assert p[1..] == rest;
      CloseNone(p);
      assert p[0] == '[' && !("**" <= p) && !("**/" <= p);
    } else {
      StarsHead(q, rest);
    }
  }

  lemma BracketHeadIs(q: string, rest: string)
    requires Bracket(q) && Close(q + rest) == |q| - 1
    ensures Head(q + rest) == (TokenOf(q), |q|)
  {
    hide Close;
    var p := q + rest;
    assert p[0] == '[' && !("**" <= p) && !("**/" <= p);
    var body := p[1..|q| - 1];
    assert body == q[1..|q| - 1];
    if q[1] == '!' {
      assert body[0] == '!' && body[1..] == q[2..|q| - 1];
    } else if body != "" {
      assert body[0] == q[1];
    }
  }

  lemma StarsHead(q: string, rest: string)
    requires Piece(q, rest) && !Bracket(q) && q != "["
    ensures Head(q + rest) == (TokenOf(q), |q|)
  {
    var p := q + rest;
    assert forall i | 0 <= i < |q| :: p[i] == q[i];
    assert rest != "" ==> p[|q|] == rest[0];
  }

  lemma MeaningIs(cl: Classes, q: string, rest: string, s: string)
    requires Piece(q, rest)
    ensures q != "" && (Means(cl, TokenOf(q), s) <==> Meaning(cl, q, s))
  {
  }

  /** A pattern cut into pieces matches exactly the joins of what its pieces stand for. */
  lemma {:induction false} MatchesAre(cl: Classes, pieces: seq<string>, s: string)
    requires Pieces(pieces)
    ensures Matches(cl, Tokens(Joined(pieces)), s) <==> Denotes(cl, pieces, s)
    decreases |pieces|
  {
    if pieces == [] {
      assert Tokens("") == [];
    } else {
      hide Matches, Head, Piece, Meaning, Means, TokenOf;
      var q, rest := pieces[0], Joined(pieces[1..]);
      PieceHead(q, rest);
      assert (q + rest)[|q|..] == rest;
      assert Tokens(q + rest) == [TokenOf(q)] + Tokens(rest);
      FirstToken(cl, TokenOf(q), Tokens(rest), s);
      forall k | 0 <= k <= |s|
        ensures Means(cl, TokenOf(q), s[..k]) <==> Meaning(cl, q, s[..k])
        ensures Matches(cl, Tokens(rest), s[k..]) <==> Denotes(cl, pieces[1..], s[k..])
      {
        MeaningIs(cl, q, rest, s[..k]);
        MatchesAre(cl, pieces[1..], s[k..]);
      }
    }
  }

  /** And every pattern can be cut into pieces. */
  lemma {:induction false} EveryPattern(p: string) returns (pieces: seq<string>)
    ensures Pieces(pieces) && Joined(pieces) == p
    decreases |p|
  {
    if p == "" {
      pieces := [];
    } else {
      var width := Head(p).1;
      var q, rest := p[..width], p[width..];
      assert p == q + rest;
      HeadPiece(p);
      hide Head, Piece;
      var more := EveryPattern(rest);
      pieces := [q] + more;
      assert pieces[1..] == more;
    }
  }

  lemma {:induction false} CloseFinds(p: string)
    requires p != "" && Close(p) < |p|
    ensures ']' !in p[1..Close(p)]
    decreases |p|
  {
    if |p| > 1 && p[1] != ']' {
      CloseFinds(p[1..]);
      var n := Close(p);
      assert p[1..][1..n - 1] == p[2..n];
      assert p[1..n] == [p[1]] + p[2..n];
    }
  }

  lemma {:induction false} CloseMisses(p: string)
    requires p != "" && Close(p) == |p|
    ensures ']' !in p[1..]
    decreases |p|
  {
    if |p| > 1 {
      CloseMisses(p[1..]);
      assert p[1..] == [p[1]] + p[1..][1..];
    }
  }

  lemma HeadPiece(p: string)
    requires p != ""
    ensures Piece(p[..Head(p).1], p[Head(p).1..])
  {
    var width := Head(p).1;
    var q, rest := p[..width], p[width..];
    assert forall i | 0 <= i < width :: q[i] == p[i];
    assert rest != "" ==> rest[0] == p[width];
    if "**/" <= p {
      assert q == "**/";
    } else if "**" <= p {
      assert q == "**" && p == "**" + rest;
    } else if p[0] == '*' {
      assert q == "*";
    } else if p[0] == '?' {
      assert q == "?";
    } else if p[0] == '[' && Close(p) < |p| {
      CloseFinds(p);
      assert q[1..|q| - 1] == p[1..Close(p)] && q[|q| - 1] == ']';
    } else if p[0] == '[' {
      CloseMisses(p);
      assert q == "[";
    }
  }

  /** So what is wanted of a namespace is what a full walk comes by and the pieces denote. */
  lemma WantedAre(cl: Classes, tree: Node, cs: seq<string>, pieces: seq<string>, p: string)
    requires Pieces(pieces) && Joined(pieces) == PathOf(cs)
    ensures Wanted(cl, tree, cs, p) <==> ComesBy(tree, [], p) && Denotes(cl, pieces, p)
  {
    hide Matches, Tokens, Denotes, Pieces, ComesBy;
    MatchesAre(cl, pieces, p);
  }
}
