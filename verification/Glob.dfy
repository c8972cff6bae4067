/** Glob patterns over a namespace (`client/filesystem.py`: `_glob_regex`, `_literal_prefix`,
    `glob`). */
module Glob {
  import opened Octets
  import opened Paths

  // ----- patterns -----

  /** `Dirs` is zero or more directories, `Any` anything on one line, `Star` and `One` stay
      inside a component, `Class` is a bracket and its contents. */
  datatype Token = Dirs | Any | Star | One | Class(negated: bool, body: string) | Lit(c: char)

  /** The first closing bracket from the second character on, or the length. */
  function Close(p: string): (end: nat)
    requires p != ""
    ensures 1 <= end <= |p| && (end < |p| ==> p[end] == ']')
  {
    if |p| == 1 || p[1] == ']' then 1 else Close(p[1..]) + 1
  }

  /** The token a pattern begins with, and how many of its characters that takes; an unclosed
      bracket is a literal one. */
  function Head(p: string): (Token, nat)
    requires p != ""
    ensures 0 < Head(p).1 <= |p|
  {
    if "**/" <= p then (Dirs, 3)
    else if "**" <= p then (Any, 2)
    else if p[0] == '*' then (Star, 1)
    else if p[0] == '?' then (One, 1)
    else if p[0] == '[' && Close(p) < |p| then
      var body := p[1..Close(p)];
      (if body != "" && body[0] == '!' then Class(true, body[1..]) else Class(false, body), Close(p) + 1)
    else (Lit(p[0]), 1)
  }

  function Tokens(p: string): seq<Token>
    decreases |p|
  {
    if p == "" then [] else [Head(p).0] + Tokens(p[Head(p).1..])
  }

  /** The cursor loop of `_glob_regex`. */
  method GlobRegex(p: string) returns (ts: seq<Token>)
    ensures ts == Tokens(p)
  {
    hide Head;
    ts := [];
    var i := 0;
    assert p[0..] == p;
    while i < |p|
      invariant i <= |p| && ts + Tokens(p[i..]) == Tokens(p)
    {
      var rest := p[i..];
      var (token, width) := Head(rest);
      assert p[i + width..] == rest[width..];
      assert ts + [token] + Tokens(rest[width..]) == ts + Tokens(rest);
      ts, i := ts + [token], i + width;
    }
    assert p[i..] == "";
  }

  predicate OneLine(s: string) { '\n' !in s }

  /** Which characters the contents of a bracket stand for. */
  type Classes = (string, char) -> bool

  /** Whether the whole of a string matches, as the regular expression says it. */
  predicate Matches(cl: Classes, ts: seq<Token>, s: string)
    decreases |ts|, |s|
  {
    if ts == [] then s == ""
    else
      match ts[0]
      case Lit(c) => s != "" && s[0] == c && Matches(cl, ts[1..], s[1..])
      case One => s != "" && s[0] != '/' && Matches(cl, ts[1..], s[1..])
      case Class(negated, body) => s != "" && cl(body, s[0]) != negated && Matches(cl, ts[1..], s[1..])
      case Star => exists k | 0 <= k <= |s| :: NoSlash(s[..k]) && Matches(cl, ts[1..], s[k..])
      case Any => exists k | 0 <= k <= |s| :: OneLine(s[..k]) && Matches(cl, ts[1..], s[k..])
      case Dirs =>
        Matches(cl, ts[1..], s) ||
        exists k | 0 < k < |s| :: s[k] == '/' && NoSlash(s[..k]) && Matches(cl, ts, s[k + 1..])
  }

  predicate Magic(s: string) { '*' in s || '?' in s || '[' in s }

  function Lits(s: string): seq<Token> { if s == "" then [] else [Lit(s[0])] + Lits(s[1..]) }

  lemma HeadPlain(p: string)
    requires p != "" && p[0] != '*' && p[0] != '?' && p[0] != '['
    ensures Head(p) == (Lit(p[0]), 1)
  {
  }

  lemma PlainFirst(p: string)
    requires p != "" && !Magic(p)
    ensures p[0] != '*' && p[0] != '?' && p[0] != '[' && !Magic(p[1..])
  {
    assert p[0] in p;
    assert forall c | c in p[1..] :: c in p;
  }

  lemma {:induction false} TokensPrefix(p: string, rest: string)
    requires !Magic(p)
    ensures Tokens(p + rest) == Lits(p) + Tokens(rest)
    decreases |p|
  {
    hide Head, Magic;
    if p == "" {
      assert p + rest == rest;
    } else {
      var whole := p + rest;
      PlainFirst(p);
      assert whole[0] == p[0] && whole[1..] == p[1..] + rest;
      HeadPlain(whole);
      TokensPrefix(p[1..], rest);
      assert [Lit(p[0])] + (Lits(p[1..]) + Tokens(rest)) == [Lit(p[0])] + Lits(p[1..]) + Tokens(rest);
    }
  }

  lemma {:induction false} MatchesPrefix(cl: Classes, p: string, ts: seq<Token>, s: string)
    ensures Matches(cl, Lits(p) + ts, s) <==> p <= s && Matches(cl, ts, s[|p|..])
    decreases |p|
  {
    var all := Lits(p) + ts;
    if p == "" {
      assert all == ts && s[0..] == s;
    } else {
      assert all[0] == Lit(p[0]) && all[1..] == Lits(p[1..]) + ts;
      if s != "" {
        MatchesPrefix(cl, p[1..], ts, s[1..]);
        assert p == [p[0]] + p[1..] && s == [s[0]] + s[1..];
        if p <= s { assert s[1..][|p| - 1..] == s[|p|..]; }
      }
    }
  }

  predicate HasDouble(s: string) { exists i | 0 <= i < |s| - 1 :: s[i] == '*' && s[i + 1] == '*' }

  /** No bracket of a pattern lets a slash through. */
  ghost predicate SlashSafe(cl: Classes, ts: seq<Token>) {
    forall i | 0 <= i < |ts| && ts[i].Class? :: cl(ts[i].body, '/') == ts[i].negated
  }

  /** A component without `**`, and whose brackets keep slashes out, matches inside a
      component. */
  lemma {:induction false} StaysInside(cl: Classes, q: string, s: string)
    requires NoSlash(q) && !HasDouble(q) && SlashSafe(cl, Tokens(q)) && Matches(cl, Tokens(q), s)
    ensures NoSlash(s)
    decreases |q|
  {
    if q != "" {
      var (token, width) := Head(q);
      var rest, ts := q[width..], Tokens(q);
      assert ts[0] == token && ts[1..] == Tokens(rest);
      RestInside(cl, q, width);
      if token == Star {
        var k :| 0 <= k <= |s| && NoSlash(s[..k]) && Matches(cl, ts[1..], s[k..]);
        StaysInside(cl, rest, s[k..]);
        assert s == s[..k] + s[k..];
      } else {
        StaysInside(cl, rest, s[1..]);
        assert s == [s[0]] + s[1..];
      }
    }
  }

  lemma RestInside(cl: Classes, q: string, width: nat)
    requires q != "" && width == Head(q).1 && NoSlash(q) && !HasDouble(q) && SlashSafe(cl, Tokens(q))
    ensures NoSlash(q[width..]) && !HasDouble(q[width..]) && SlashSafe(cl, Tokens(q[width..]))
    ensures Head(q).0 != Dirs && Head(q).0 != Any && Head(q).0 != Lit('/')
    ensures Head(q).0.Class? ==> cl(Head(q).0.body, '/') == Head(q).0.negated
  {
    DoubleStart(q);
    DoubleEnds(q, width);
    assert q[0] in q;
    var ts := Tokens(q);
    assert ts[0] == Head(q).0 && ts[1..] == Tokens(q[width..]);
    assert forall i | 0 <= i < |ts| - 1 :: ts[1..][i] == ts[i + 1];
  }

  lemma DoubleStart(q: string)
    ensures "**" <= q ==> HasDouble(q)
  {
    if "**" <= q { assert q[0] == "**"[0] && q[1] == "**"[1]; }
  }

  lemma DoubleEnds(q: string, n: nat)
    requires n <= |q|
    ensures HasDouble(q[n..]) ==> HasDouble(q)
  {
    if HasDouble(q[n..]) {
      var i :| 0 <= i < |q[n..]| - 1 && q[n..][i] == '*' && q[n..][i + 1] == '*';
      assert q[n + i] == '*' && q[n + i + 1] == '*';
    }
  }

  // ----- where to start -----

  function KeepLiteral(parts: seq<string>): seq<string> {
    if parts == [] || Magic(parts[0]) then [] else [parts[0]] + KeepLiteral(parts[1..])
  }

  function OrRoot(s: string): string { if s == "" then "/" else s }

  /** The deepest directory of a pattern that holds no wildcard. */
  method LiteralPrefix(p: string) returns (start: string)
    ensures start == OrRoot(JoinSlash(KeepLiteral(Split(p)[..|Split(p)| - 1])))
  {
    var parts := Split(p)[..|Split(p)| - 1];
    var keep := [];
    var i := 0;
    assert parts[0..] == parts;
    while i < |parts|
      invariant i <= |parts| && keep + KeepLiteral(parts[i..]) == KeepLiteral(parts)
    {
      if Magic(parts[i]) { break; }
      assert parts[i..][1..] == parts[i + 1..];
      keep := keep + [parts[i]];
      i := i + 1;
    }
    assert i < |parts| ==> Magic(parts[i..][0]);
    assert KeepLiteral(parts[i..]) == [] && keep == KeepLiteral(parts);
    start := OrRoot(JoinSlash(keep));
  }

  /** How many leading components of a pattern, short of its last, hold no wildcard. */
  function Lead(cs: seq<string>): (k: nat)
    ensures k <= |cs| && (cs != [] ==> k < |cs|)
  {
    if |cs| <= 1 || Magic(cs[0]) then 0 else 1 + Lead(cs[1..])
  }

  lemma {:induction false} LeadPlain(cs: seq<string>)
    ensures forall i | 0 <= i < Lead(cs) :: !Magic(cs[i])
    ensures KeepLiteral(cs[..if cs == [] then 0 else |cs| - 1]) == cs[..Lead(cs)]
    decreases |cs|
  {
    if |cs| > 1 {
      var front := cs[..|cs| - 1];
      assert front[0] == cs[0] && front[1..] == cs[1..][..|cs| - 2];
      if !Magic(cs[0]) {
        LeadPlain(cs[1..]);
        assert cs[..Lead(cs)] == [cs[0]] + cs[1..][..Lead(cs) - 1];
        assert forall i | 0 < i < Lead(cs) :: cs[i] == cs[1..][i - 1];
      }
    }
  }

  /** All the components of a pattern but its last. */
  function Front(cs: seq<string>): seq<string> { cs[..if cs == [] then 0 else |cs| - 1] }

  lemma PartsOf(cs: seq<string>)
    requires Names(cs)
    ensures var parts := Split(PathOf(cs)); parts[..|parts| - 1] == [""] + Front(cs)
  {
    var parts := Split(PathOf(cs));
    if cs == [] {
      SplitFirst("", "");
      SplitWhole("");
      assert "" + "/" + "" == "/";
      assert parts == [""] + [""] && parts[..1] == [""];
    } else {
      SplitTail("", cs);
      assert "" + Tail(cs) == Tail(cs);
      hide Split, Tail;
      assert ([""] + cs)[..|cs|] == [""] + cs[..|cs| - 1];
    }
  }

  lemma LiteralPrefixIs(cs: seq<string>)
    requires Names(cs)
    ensures OrRoot(JoinSlash(KeepLiteral(Split(PathOf(cs))[..|Split(PathOf(cs))| - 1]))) == PathOf(cs[..Lead(cs)])
  {
    PartsOf(cs);
    LeadPlain(cs);
    KeepFirst(Front(cs));
    var a := cs[..Lead(cs)];
    if a != [] { TailLong(a); }
    hide Split, KeepLiteral, Lead;
    assert ([""] + a)[1..] == a && "" + Tail(a) == Tail(a);
  }

  lemma KeepFirst(front: seq<string>)
    ensures KeepLiteral([""] + front) == [""] + KeepLiteral(front)
  {
    assert ([""] + front)[1..] == front;
  }

  // ----- the directory and the last component of a path -----

  /** `p.rfind("/")`. */
  function LastSlash(p: string): (i: int)
    ensures -1 <= i < |p|
  {
    if p == "" then -1 else if p[|p| - 1] == '/' then |p| - 1 else LastSlash(p[..|p| - 1])
  }

  function StripSlashes(s: string): string {
    if s != "" && s[|s| - 1] == '/' then StripSlashes(s[..|s| - 1]) else s
  }

  function Basename(p: string): string { p[LastSlash(p) + 1..] }

  function Dirname(p: string): string {
    var head := p[..LastSlash(p) + 1];
    if StripSlashes(head) == "" then head else StripSlashes(head)
  }

  lemma {:induction false} LastSlashIs(x: string, last: string)
    requires NoSlash(last)
    ensures LastSlash(x + "/" + last) == |x|
    decreases |last|
  {
    var p := x + "/" + last;
    if last != "" {
      var n := |last| - 1;
      assert last[n] in last && NoSlash(last[..n]);
      assert p[|p| - 1] == last[n] && p[..|p| - 1] == x + "/" + last[..n];
      LastSlashIs(x, last[..n]);
    }
  }

  lemma StripOne(x: string)
    requires x == "" || x[|x| - 1] != '/'
    ensures StripSlashes(x + "/") == x
  {
    var head := x + "/";
    assert head[..|head| - 1] == x;
    assert StripSlashes(head) == StripSlashes(x);
  }

  /** The directory and last component of a path in two parts. */
  lemma TwoParts(x: string, last: string)
    requires NoSlash(last) && (x == "" || x[|x| - 1] != '/')
    ensures Dirname(x + "/" + last) == OrRoot(x) && Basename(x + "/" + last) == last
  {
    var p := x + "/" + last;
    LastSlashIs(x, last);
    assert p[|x| + 1..] == last && p[..|x| + 1] == x + "/";
    StripOne(x);
    hide StripSlashes, LastSlash;
  }

  lemma DirnameIs(cs: seq<string>)
    requires Names(cs)
    ensures Dirname(PathOf(cs)) == PathOf(if cs == [] then [] else cs[..|cs| - 1])
    ensures Basename(PathOf(cs)) == if cs == [] then "" else cs[|cs| - 1]
  {
    hide Dirname, Basename;
    if cs == [] {
      TwoParts("", "");
      assert "" + "/" + "" == "/";
    } else {
      var a, last := cs[..|cs| - 1], cs[|cs| - 1];
      assert cs == a + [last] && Name(last) && Names(a);
      TailConcat(a, [last]);
      TailOne(last);
      assert PathOf(cs) == Tail(a) + "/" + last;
      if a != [] { TailEnds(a); }
      TwoParts(Tail(a), last);
    }
  }


  // ----- the components of a path the server is asked for -----

  function Components(p: string): seq<string> { Clean(Split(p)) }

  function Clean(parts: seq<string>): seq<string> {
    if parts == [] then [] else (if parts[0] == "" then [] else [parts[0]]) + Clean(parts[1..])
  }

  lemma {:induction false} CleanNames(cs: seq<string>)
    requires Names(cs)
    ensures Clean(cs) == cs
    decreases |cs|
  {
    if cs != [] {
      assert Name(cs[0]);
      CleanNames(cs[1..]);
    }
  }

  lemma ComponentsIs(cs: seq<string>)
    requires Names(cs)
    ensures Components(PathOf(cs)) == cs
  {
    if cs == [] {
      SplitFirst("", "");
      assert "" + "/" + "" == "/";
      assert Split("/") == ["", ""];
      assert ["", ""][1..] == [""] && [""][1..] == [];
    } else {
      SplitTail("", cs);
      assert "" + Tail(cs) == Tail(cs);
      CleanNames(cs);
      assert ([""] + cs)[1..] == cs;
    }
  }

  // ----- what a pattern can reach -----

  /** The literal start of a pattern, up to and with its last slash. */
  lemma {:induction false} PlainTail(a: seq<string>)
    requires forall i | 0 <= i < |a| :: !Magic(a[i])
    ensures !Magic(Tail(a))
    decreases |a|
  {
    if a != [] { PlainTail(a[1..]); }
  }

  lemma MatchesFrom(cl: Classes, cs: seq<string>, k: nat, s: string)
    requires k < |cs| && (forall i | 0 <= i < k :: !Magic(cs[i])) && Matches(cl, Tokens(Tail(cs)), s)
    ensures var p := Tail(cs[..k]) + "/";
            p <= s && Matches(cl, Tokens(cs[k] + Tail(cs[k + 1..])), s[|p|..])
  {
    var a, rest := cs[..k], cs[k] + Tail(cs[k + 1..]);
    PlainTail(a);
    var p := Tail(a) + "/";
    assert !Magic(p);
    TailFrom(cs, k);
    TokensPrefix(p, rest);
    MatchesPrefix(cl, p, Tokens(rest), s);
  }

  lemma TailFrom(cs: seq<string>, k: nat)
    requires k < |cs|
    ensures Tail(cs) == Tail(cs[..k]) + "/" + (cs[k] + Tail(cs[k + 1..]))
  {
    hide Tail;
    var a, back := cs[..k], cs[k..];
    assert cs == a + back && back[0] == cs[k] && back[1..] == cs[k + 1..];
    TailConcat(a, back);
    TailCons(back);
    assert Tail(a) + ("/" + cs[k] + Tail(cs[k + 1..])) == Tail(a) + "/" + (cs[k] + Tail(cs[k + 1..]));
  }

  lemma TailCons(cs: seq<string>)
    requires cs != []
    ensures Tail(cs) == "/" + cs[0] + Tail(cs[1..])
  {
  }

  /** A path that matches lies below the pattern's literal start. */
  lemma MatchBelow(cl: Classes, cs: seq<string>, ds: seq<string>)
    requires Names(cs) && Names(ds) && cs != [] && ds != [] && Matches(cl, Tokens(PathOf(cs)), PathOf(ds))
    ensures cs[..Lead(cs)] <= ds && Lead(cs) < |ds|
  {
    LeadPlain(cs);
    MatchesFrom(cl, cs, Lead(cs), Tail(ds));
    Below(cs[..Lead(cs)], ds);
  }

  /** Wildcards only in the last component, and no `**`: what `glob` makes one listing of. */
  ghost predicate Single(cs: seq<string>) { cs != [] && Lead(cs) == |cs| - 1 && !HasDouble(cs[|cs| - 1]) }

  /** Then a match lies just below, unless a bracket lets a slash through. */
  lemma MatchJustBelow(cl: Classes, cs: seq<string>, ds: seq<string>)
    requires Names(cs) && Names(ds) && cs != [] && ds != [] && Matches(cl, Tokens(PathOf(cs)), PathOf(ds))
    requires Single(cs) && SlashSafe(cl, Tokens(cs[|cs| - 1]))
    ensures |ds| == |cs|
  {
    var k := |cs| - 1;
    LeadPlain(cs);
    MatchBelow(cl, cs, ds);
    var p := Tail(cs[..k]) + "/";
    MatchesFrom(cl, cs, k, Tail(ds));
    assert cs[k + 1..] == [] && ds[..k] == cs[..k];
    TailFrom(ds, k);
    var inside := ds[k] + Tail(ds[k + 1..]);
    LastPart(cs[k], cs[k + 1..]);
    hide Tail, Matches, Tokens, Magic, HasDouble, NoSlash, SlashSafe;
    assert Tail(ds)[|p|..] == inside;
    StaysInside(cl, cs[k], inside);
    if ds[k + 1..] != [] { HasMore(ds[k], ds[k + 1..]); }
  }

  lemma LastPart(x: string, rest: seq<string>)
    requires rest == []
    ensures x + Tail(rest) == x
  {
  }

  lemma HasMore(x: string, rest: seq<string>)
    requires rest != []
    ensures !NoSlash(x + Tail(rest))
  {
    assert (x + Tail(rest))[|x|] == '/';
  }

  /** Only the root directory's path is matched by the pattern `/`. */
  lemma RootMatchesNothing(cl: Classes, ds: seq<string>)
    requires Names(ds) && ds != []
    ensures !Matches(cl, Tokens("/"), PathOf(ds))
  {
    TailLong(ds);
    TokensPrefix("/", "");
    assert "/" + "" == "/";
    MatchesPrefix(cl, "/", [], Tail(ds));
    assert Tokens("") == [];
  }

  /** What a full walk from the root comes by, and matches. */
  ghost predicate Wanted(cl: Classes, tree: Node, cs: seq<string>, p: string) {
    ComesBy(tree, [], p) && Matches(cl, Tokens(PathOf(cs)), p)
  }

  /** Everything a full walk would find lies in the part that is walked, if that walk ends; and
      at the pattern's own depth, in the one directory that is listed. */
  lemma Reached(cl: Classes, tree: Node, cs: seq<string>, p: string, depth: nat)
    requires WellFormed(tree) && Normal(cs) && Wanted(cl, tree, cs, p)
    ensures var a := cs[..Lead(cs)];
            var at := Lookup(tree, a);
            && cs != [] && at.Some? && at.value.Dir? && (EndsAt(tree, a, depth) ==> p in Walk(tree, a, depth))
            && (Single(cs) && |Components(p)| == |cs| ==> p in NamesIn(at.value.entries, PathOf(a)))
            && (Single(cs) && SlashSafe(cl, Tokens(cs[|cs| - 1])) ==> |Components(p)| == |cs|)
  {
    hide PathOf, Walk, NamesIn, Matches, HasDouble, WellFormed, Components, SlashSafe, Lookup, Lead, Tokens, Wanted,
      EndsAt;
    var ds := Located(cl, tree, cs, p);
    var k := Lead(cs);
    var a, rest := cs[..k], ds[k..];
    assert ds == a + rest;
    LookupConcat(tree, a, rest);
    WellFormedBelow(tree, a);
    LeadListable(cs);
    if EndsAt(tree, a, depth) { EndedComesBy(tree, a, rest, depth); }
    HasBelow(Lookup(tree, a).value, rest);
    ComponentsIs(ds);
    if Single(cs) && SlashSafe(cl, Tokens(cs[k])) { MatchJustBelow(cl, cs, ds); }
    if Single(cs) && |ds| == |cs| { ListedBelow(Lookup(tree, a).value, a, rest); }
  }

  /** The literal start of a pattern is a directory that can be asked for. */
  lemma LeadListable(cs: seq<string>)
    requires Normal(cs)
    ensures AllListable(cs[..Lead(cs)]) && Names(cs) && Names(cs[..Lead(cs)])
  {
    LeadPlain(cs);
    hide Lead;
  }

  /** Where in the tree a wanted path is. */
  lemma Located(cl: Classes, tree: Node, cs: seq<string>, p: string) returns (ds: seq<string>)
    requires WellFormed(tree) && Names(cs) && Wanted(cl, tree, cs, p)
    ensures Names(ds) && ds != [] && p == PathOf(ds) && Lookup(tree, ds).Some? && AllListable(Parent(ds))
    ensures cs != [] && cs[..Lead(cs)] <= ds && Lead(cs) < |ds| && Matches(cl, Tokens(PathOf(cs)), p)
  {
    hide PathOf, Walk, Matches, WellFormed, Lookup, Lead, Tokens, Parent;
    PathOfNone();
    var depth: nat :| p in Walk(tree, [], depth);
    ds := WalkSound(tree, [], depth, p);
    WellFormedBelow(tree, ds);
    if cs == [] { RootMatchesNothing(cl, ds); }
    MatchBelow(cl, cs, ds);
  }

  lemma ListedBelow(n: Node, a: seq<string>, rest: seq<string>)
    requires WellFormed(n) && Names(a) && |rest| == 1 && Lookup(n, rest).Some?
    ensures n.Dir? && PathOf(a + rest) in NamesIn(n.entries, PathOf(a))
  {
    hide PathOf, NamesIn, WellFormed, PathJoin;
    var i := FirstStep(n, rest);
    hide Lookup;
    assert rest == [rest[0]];
    PathJoinIs(a, rest[0]);
    NamesInHas(n.entries, i, PathOf(a));
  }

  lemma HasBelow(n: Node, rest: seq<string>)
    requires rest != [] && Lookup(n, rest).Some?
    ensures n.Dir?
  {
  }

  lemma PathOfNone()
    ensures PathOf([]) == "/"
  {
  }

  /** And what is walked is part of the full walk. */
  lemma Within(tree: Node, a: seq<string>, p: string, depth: nat)
    requires WellFormed(tree) && AllListable(a) && p in Walk(tree, a, depth)
    ensures ComesBy(tree, [], p)
  {
    hide PathOf, Walk, WellFormed, ComesBy;
    var ds := WalkSound(tree, a, depth, p);
    ComesByIff(tree, ds);
  }

  // ----- glob -----

  /** `TooDeep` is the interpreter's limit on calls within calls. */
  datatype Refusal = NotADirectory | TooDeep

  /** The paths that match among some. */
  method Select(cl: Classes, paths: seq<string>, ts: seq<Token>) returns (r: seq<string>)
    ensures forall p :: p in r <==> p in paths && Matches(cl, ts, p)
  {
    r := [];
    for i := 0 to |paths|
      invariant forall p :: p in r <==> p in paths[..i] && Matches(cl, ts, p)
    {
      assert paths[..i + 1] == paths[..i] + [paths[i]];
      if Matches(cl, ts, paths[i]) { r := r + [paths[i]]; }
    }
    assert paths[..|paths|] == paths;
  }

  /** No component stands for a directory or its parent. */
  predicate Normal(cs: seq<string>) { forall i | 0 <= i < |cs| :: Name(cs[i]) && cs[i] != "." && cs[i] != ".." }

  /** The pruned glob finds exactly the paths that matching over a full walk from the root
      would find, except that a single listing misses those deeper than the pattern, of which
      there are none unless a bracket of its last component lets a slash through. That one
      listing is refused exactly when there is no such directory, and then there was nothing
      to find; a walk is given up exactly when it does not end within the depth allowed, and
      `Paths.WalkEndsIff` says when there is a depth that will do. */
  method Find(cl: Classes, tree: Node, pattern: string, depth: nat, ghost cs: seq<string>)
    returns (r: Result<seq<string>, Refusal>)
    requires WellFormed(tree) && Normal(cs) && pattern == PathOf(cs)
    ensures r.Ok? ==>
              forall p :: p in r.value <==> Wanted(cl, tree, cs, p) && (Single(cs) ==> |Components(p)| == |cs|)
    ensures r.Ok? && (Single(cs) ==> SlashSafe(cl, Tokens(cs[|cs| - 1]))) ==>
              forall p :: p in r.value <==> Wanted(cl, tree, cs, p)
    ensures r == Err(NotADirectory) ==> forall p :: !Wanted(cl, tree, cs, p)
    ensures r == Err(NotADirectory) <==>
              (&& (cs == [] || Single(cs))
               && (Lookup(tree, cs[..Lead(cs)]) == None || Lookup(tree, cs[..Lead(cs)]) == Some(File)))
    ensures r == Err(TooDeep) <==> cs != [] && !Single(cs) && !EndsAt(tree, cs[..Lead(cs)], depth)
  {
    var ts := GlobRegex(pattern);
    var start := LiteralPrefix(pattern);
    Starts(cs);
    hide PathOf, Walk, NamesIn, Matches, HasDouble, WellFormed, Wanted, Dirname, Basename, Components, Lookup, Lead,
      SlashSafe, EndsAt, AskedFor, Normal;
    var deep := HasDouble(Basename(pattern));
    var dir := AskedFor(start);
    var at := Lookup(tree, dir);
    forall p | Wanted(cl, tree, cs, p)
      ensures cs != [] && at.Some? && at.value.Dir? && (EndsAt(tree, dir, depth) ==> p in Walk(tree, dir, depth))
      ensures Single(cs) && SlashSafe(cl, Tokens(cs[|cs| - 1])) ==> |Components(p)| == |cs|
    {
      Reached(cl, tree, cs, p, depth);
    }
    if !deep && start == Dirname(pattern) {
      if at == None || at == Some(File) { return Err(NotADirectory); }
      var found := Select(cl, NamesIn(at.value.entries, start), ts);
      forall p
        ensures p in found <==> Wanted(cl, tree, cs, p) && (Single(cs) ==> |Components(p)| == |cs|)
      {
        if p in found {
          WalkHasNames(tree, dir, p);
          Confirm(cl, tree, cs, p, 1);
          JustBelow(tree, at.value, cs, p);
        }
        if Wanted(cl, tree, cs, p) { Reached(cl, tree, cs, p, depth); WantedMatches(cl, tree, cs, p); }
      }
      return Ok(found);
    }
    if !EndsAt(tree, dir, depth) { return Err(TooDeep); }
    var found := Select(cl, Walk(tree, dir, depth), ts);
    forall p
      ensures p in found <==> Wanted(cl, tree, cs, p)
    {
      if p in found { Confirm(cl, tree, cs, p, depth); }
      if Wanted(cl, tree, cs, p) { WantedMatches(cl, tree, cs, p); }
    }
    r := Ok(found);
  }

  lemma JustBelow(tree: Node, n: Node, cs: seq<string>, p: string)
    requires WellFormed(tree) && Names(cs) && cs != [] && Lookup(tree, cs[..Lead(cs)]) == Some(n) && n.Dir?
    requires Single(cs) && p in NamesIn(n.entries, PathOf(cs[..Lead(cs)]))
    ensures |Components(p)| == |cs|
  {
    var a := cs[..Lead(cs)];
    WellFormedBelow(tree, a);
    NamesInIs(n.entries, PathOf(a));
    var i :| 0 <= i < |n.entries| && p == PathJoin(PathOf(a), n.entries[i].name);
    PathJoinIs(a, n.entries[i].name);
    LookupChild(n, i, []);
    hide PathOf, PathJoin, NamesIn, Components, WellFormed, Lookup;
    ComponentsIs(a + [n.entries[i].name]);
  }

  const SMALL_TREE := Dir([Entry("a", Dir([Entry("b", File)]))])

  /** A bracket that lets a slash through: the full walk finds what the listing does not. */
  lemma BracketMissesDeeper(cl: Classes)
    requires !cl("x", '/')
    ensures WellFormed(SMALL_TREE) && Normal(["a[!x]b"]) && Single(["a[!x]b"])
    ensures Wanted(cl, SMALL_TREE, ["a[!x]b"], "/a/b") && |Components("/a/b")| == 2
  {
    hide Tokens, Matches, ComesBy, WellFormed, Components, Lits, Single, Normal, PathOf, Magic;
    BracketPattern();
    SmallTree();
    TokensPrefix("/a", "[!x]b");
    BracketMatches(cl);
    MatchesPrefix(cl, "/a", Tokens("[!x]b"), "/a/b");
    assert "/a" <= "/a/b" && "/a/b"[2..] == "/b";
  }

  lemma BracketPattern()
    ensures Normal(["a[!x]b"]) && Single(["a[!x]b"]) && PathOf(["a[!x]b"]) == "/a" + "[!x]b" && !Magic("/a")
  {
    TailOne("a[!x]b");
  }

  lemma SmallTree()
    ensures WellFormed(SMALL_TREE) && ComesBy(SMALL_TREE, [], "/a/b") && |Components("/a/b")| == 2
  {
    SmallLookup();
    TailConcat(["a"], ["b"]);
    TailOne("a");
    TailOne("b");
    hide WellFormed, Components, Lookup, Tail, ComesBy;
    assert ["a"] + ["b"] == ["a", "b"];
    assert PathOf(["a", "b"]) == "/a/b";
    assert Parent(["a", "b"]) == ["a"];
    ComesByIff(SMALL_TREE, ["a", "b"]);
    ComponentsIs(["a", "b"]);
  }

  lemma SmallLookup()
    ensures WellFormed(SMALL_TREE) && Lookup(SMALL_TREE, ["a", "b"]) == Some(File)
  {
    var inner := Dir([Entry("b", File)]);
    assert SMALL_TREE.entries[0] == Entry("a", inner) && inner.entries[0] == Entry("b", File);
    assert WellFormed(inner);
    assert WellFormed(SMALL_TREE);
    LookupChild(inner, 0, []);
    LookupChild(SMALL_TREE, 0, ["b"]);
    LookupHere(File);
    hide WellFormed, Lookup;
    assert ["a"] + ["b"] == ["a", "b"] && ["b"] + [] == ["b"];
  }

  lemma TokensCons(p: string)
    requires p != ""
    ensures Tokens(p) == [Head(p).0] + Tokens(p[Head(p).1..])
  {
    hide Head;
  }

  lemma BracketMatches(cl: Classes)
    requires !cl("x", '/')
    ensures Matches(cl, Tokens("[!x]b"), "/b")
  {
    var q, last := "[!x]b", "b";
    BracketHead();
    TokensCons(q);
    TokensCons(last);
    assert q[4..] == last && Head(last) == (Lit('b'), 1) && last[1..] == "";
    hide Head, Tokens;
    assert Tokens("") == [] by { NoTokens(); }
    var ts := [Class(true, "x"), Lit('b')];
    assert Tokens(q) == ts && ts[1..] == [Lit('b')] && [Lit('b')][1..] == [];
    assert "/b"[1..] == last;
    assert Matches(cl, [Lit('b')], last);
  }

  lemma NoTokens()
    ensures Tokens("") == []
  {
  }

  lemma BracketHead()
    ensures Head("[!x]b") == (Class(true, "x"), 4)
  {
    var q, q1, q2 := "[!x]b", "!x]b", "x]b";
    assert q2[1] == ']' && Close(q2) == 1;
    assert q1[1..] == q2 && q1[1] != ']';
    assert Close(q1) == Close(q2) + 1;
    assert q[1..] == q1 && q[1] != ']';
    assert Close(q) == Close(q1) + 1;
    hide Close;
    assert q[1..3] == "!x" && "!x"[1..] == "x";
    assert !("**" <= q) && !("**/" <= q) by { assert q[0] == '['; }
  }

  lemma WantedMatches(cl: Classes, tree: Node, cs: seq<string>, p: string)
    requires Wanted(cl, tree, cs, p)
    ensures Matches(cl, Tokens(PathOf(cs)), p)
  {
  }

  lemma WalkHasNames(tree: Node, dir: seq<string>, p: string)
    requires Lookup(tree, dir).Some? && Lookup(tree, dir).value.Dir?
    requires p in NamesIn(Lookup(tree, dir).value.entries, PathOf(dir))
    ensures p in Walk(tree, dir, 1)
  {
    hide Lookup, NamesIn, WalkInto;
  }

  lemma Confirm(cl: Classes, tree: Node, cs: seq<string>, p: string, depth: nat)
    requires WellFormed(tree) && Normal(cs)
    requires p in Walk(tree, cs[..Lead(cs)], depth) && Matches(cl, Tokens(PathOf(cs)), p)
    ensures Wanted(cl, tree, cs, p)
  {
    hide Walk, WellFormed, Matches, Lead, ComesBy;
    LeadListable(cs);
    Within(tree, cs[..Lead(cs)], p, depth);
  }

  /** Where the search starts, and when a single listing will do. */
  lemma Starts(cs: seq<string>)
    requires Normal(cs)
    ensures var parts := Split(PathOf(cs));
            var start := OrRoot(JoinSlash(KeepLiteral(parts[..|parts| - 1])));
            && Names(cs) && Names(cs[..Lead(cs)])
            && start == PathOf(cs[..Lead(cs)]) && AskedFor(start) == cs[..Lead(cs)]
            && (start == Dirname(PathOf(cs)) <==> Lead(cs) == if cs == [] then 0 else |cs| - 1)
            && (HasDouble(Basename(PathOf(cs))) <==> cs != [] && HasDouble(cs[|cs| - 1]))
  {
    var a := cs[..Lead(cs)];
    var up := if cs == [] then [] else cs[..|cs| - 1];
    LeadListable(cs);
    LiteralPrefixIs(cs);
    AskedForIs(a);
    DirnameIs(cs);
    if PathOf(a) == PathOf(up) { PathOfInjective(a, up); }
    hide PathOf, AskedFor, Dirname, Basename;
    assert Lead(cs) == |up| ==> a == up;
  }
}
