/** Paths and namespace trees, as the namespace client sees them (`client/filesystem.py`). */
module Paths {
  import opened Octets

  // ----- names and paths -----

  predicate NoSlash(s: string) { '/' !in s }

  /** One component of a path: not empty, no separator. */
  predicate Name(s: string) { s != "" && NoSlash(s) }

  predicate Names(cs: seq<string>) { forall i | 0 <= i < |cs| :: Name(cs[i]) }

  /** The components of a path, each behind its slash. */
  function Tail(cs: seq<string>): string {
    if cs == [] then "" else "/" + cs[0] + Tail(cs[1..])
  }

  /** A normalised absolute path. */
  function PathOf(cs: seq<string>): string { if cs == [] then "/" else Tail(cs) }

  lemma {:induction false} TailConcat(a: seq<string>, b: seq<string>)
    ensures Tail(a + b) == Tail(a) + Tail(b)
    decreases |a|
  {
    if a == [] {
      assert a + b == b;
    } else {
      assert (a + b)[0] == a[0] && (a + b)[1..] == a[1..] + b;
      TailConcat(a[1..], b);
    }
  }

  /** `posixpath.join` of a normalised path and a name. */
  function PathJoin(base: string, name: string): string {
    if base == "" || base[|base| - 1] == '/' then base + name else base + "/" + name
  }

  lemma {:induction false} TailEnds(cs: seq<string>)
    requires Names(cs) && cs != []
    ensures Tail(cs) != "" && Tail(cs)[0] == '/' && Tail(cs)[|Tail(cs)| - 1] != '/'
    decreases |cs|
  {
    var c := cs[0];
    assert Name(c);
    if |cs| == 1 {
      assert cs[1..] == [];
      assert Tail(cs)[|Tail(cs)| - 1] == c[|c| - 1];
      assert c[|c| - 1] in c;
    } else {
      assert Names(cs[1..]);
      TailEnds(cs[1..]);
    }
  }

  lemma TailOne(name: string)
    ensures Tail([name]) == "/" + name
  {
    assert [name][1..] == [] && Tail([]) == "";
  }

  lemma PathJoinIs(b: seq<string>, name: string)
    requires Names(b)
    ensures PathJoin(PathOf(b), name) == PathOf(b + [name])
  {
    TailConcat(b, [name]);
    TailOne(name);
    if b == [] {
      assert b + [name] == [name];
    } else {
      TailEnds(b);
      hide Tail;
      assert Tail(b) + ("/" + name) == Tail(b) + "/" + name;
    }
  }

  // ----- splitting on slashes -----

  /** `s.split("/")`. */
  function Split(s: string): (r: seq<string>)
    ensures r != []
  {
    if s == "" then [""]
    else
      var rest := Split(s[1..]);
      if s[0] == '/' then [""] + rest else [[s[0]] + rest[0]] + rest[1..]
  }

  lemma {:induction false} SplitWhole(x: string)
    requires NoSlash(x)
    ensures Split(x) == [x]
    decreases |x|
  {
    if x != "" {
      assert x[0] in x && NoSlash(x[1..]);
      SplitWhole(x[1..]);
      assert [x[0]] + x[1..] == x;
    }
  }

  lemma {:induction false} SplitFirst(x: string, y: string)
    requires NoSlash(x)
    ensures Split(x + "/" + y) == [x] + Split(y)
    decreases |x|
  {
    var s := x + "/" + y;
    if x == "" {
      assert s[0] == '/' && s[1..] == y;
    } else {
      assert x[0] in x && NoSlash(x[1..]);
      assert s[0] == x[0] && s[1..] == x[1..] + "/" + y;
      SplitFirst(x[1..], y);
      assert [x[0]] + x[1..] == x;
      assert ([x[1..]] + Split(y))[1..] == Split(y);
    }
  }

  lemma {:induction false} SplitTail(x: string, cs: seq<string>)
    requires NoSlash(x) && Names(cs)
    ensures Split(x + Tail(cs)) == [x] + cs
    decreases |cs|
  {
    if cs == [] {
      assert x + Tail(cs) == x;
      SplitWhole(x);
    } else {
      var c, rest := cs[0], cs[1..];
      assert Name(c) && Names(rest);
      assert x + Tail(cs) == x + "/" + (c + Tail(rest));
      SplitFirst(x, c + Tail(rest));
      SplitTail(c, rest);
      assert cs == [c] + rest;
    }
  }

  /** `"/".join(parts)`. */
  function JoinSlash(parts: seq<string>): string {
    if parts == [] then "" else parts[0] + Tail(parts[1..])
  }

  lemma PathOfInjective(a: seq<string>, b: seq<string>)
    requires Names(a) && Names(b) && PathOf(a) == PathOf(b)
    ensures a == b
  {
    SplitTail("", a);
    SplitTail("", b);
    assert "" + Tail(a) == Tail(a) && "" + Tail(b) == Tail(b);
    if a != [] { TailLong(a); }
    if b != [] { TailLong(b); }
    assert ([""] + a)[1..] == a && ([""] + b)[1..] == b;
  }

  lemma TailLong(cs: seq<string>)
    requires Names(cs) && cs != []
    ensures |Tail(cs)| >= 2
  {
    assert Name(cs[0]);
  }

  // ----- what lies below a path -----

  function FirstSlash(s: string): (n: nat)
    ensures n <= |s| && NoSlash(s[..n]) && (n < |s| ==> s[n] == '/')
  {
    if s == "" || s[0] == '/' then 0
    else
      assert s[..FirstSlash(s[1..]) + 1] == [s[0]] + s[1..][..FirstSlash(s[1..])];
      FirstSlash(s[1..]) + 1
  }

  lemma {:induction false} FirstSlashIs(x: string, u: string)
    requires NoSlash(x) && (u == "" || u[0] == '/')
    ensures FirstSlash(x + u) == |x|
    decreases |x|
  {
    if x == "" {
      assert x + u == u;
    } else {
      assert x[0] in x && NoSlash(x[1..]);
      assert (x + u)[0] == x[0] && (x + u)[1..] == x[1..] + u;
      FirstSlashIs(x[1..], u);
    }
  }

  /** Two names, each followed by a slash or by nothing more: one cannot begin the other. */
  lemma SameHead(x: string, u: string, y: string, v: string)
    requires NoSlash(x) && NoSlash(y) && u != "" && u[0] == '/' && (v == "" || v[0] == '/')
    requires x + u <= y + v
    ensures x == y && u <= v
  {
    var l, r := x + u, y + v;
    FirstSlashIs(y, v);
    var rest := r[|x|..];
    assert r == x + rest by { assert x == l[..|x|] == r[..|x|]; }
    assert rest[0] == r[|x|] == l[|x|] == '/';
    FirstSlashIs(x, rest);
    assert x == l[..|x|] && y == r[..|x|];
    assert u == l[|x|..] && v == r[|x|..];
  }

  /** A path that begins with another and a slash lies below it. */
  lemma {:induction false} Below(a: seq<string>, cs: seq<string>)
    requires Names(a) && Names(cs) && Tail(a) + "/" <= Tail(cs)
    ensures a <= cs && |a| < |cs|
    decreases |a|
  {
    if a != [] {
      assert cs != [];
      assert Name(a[0]) && Name(cs[0]) && Names(a[1..]) && Names(cs[1..]);
      var u, v := Tail(a[1..]) + "/", Tail(cs[1..]);
      assert Tail(a) + "/" == "/" + (a[0] + u) && Tail(cs) == "/" + (cs[0] + v);
      assert a[0] + u == (Tail(a) + "/")[1..] && cs[0] + v == Tail(cs)[1..];
      assert a[0] + u <= cs[0] + v;
      if a[1..] != [] { TailEnds(a[1..]); }
      if cs[1..] != [] { TailEnds(cs[1..]); }
      SameHead(a[0], u, cs[0], v);
      Below(a[1..], cs[1..]);
      assert a == [a[0]] + a[1..] && cs == [cs[0]] + cs[1..];
    }
  }

  // ----- trees -----

  datatype Node = File | Dir(entries: seq<Entry>)
  datatype Entry = Entry(name: string, node: Node)

  /** Names are names, and no directory lists one twice. */
  ghost predicate WellFormed(n: Node) {
    n.Dir? ==>
      && (forall i | 0 <= i < |n.entries| :: Name(n.entries[i].name) && WellFormed(n.entries[i].node))
      && (forall i, j | 0 <= i < j < |n.entries| :: n.entries[i].name != n.entries[j].name)
  }

  function Find(entries: seq<Entry>, name: string): Option<Node> {
    if entries == [] then None
    else if entries[0].name == name then Some(entries[0].node) else Find(entries[1..], name)
  }

  /** The node at a path below another. */
  function Lookup(n: Node, cs: seq<string>): Option<Node>
    decreases |cs|
  {
    if cs == [] then Some(n)
    else if n.File? then None
    else
      match Find(n.entries, cs[0])
      case None => None
      case Some(child) => Lookup(child, cs[1..])
  }

  lemma {:induction false} LookupConcat(n: Node, a: seq<string>, b: seq<string>)
    ensures Lookup(n, a + b) == match Lookup(n, a) { case None => None case Some(m) => Lookup(m, b) }
    decreases |a|
  {
    if a == [] {
      assert a + b == b;
    } else {
      assert (a + b)[0] == a[0] && (a + b)[1..] == a[1..] + b;
      if n.Dir? && Find(n.entries, a[0]).Some? { LookupConcat(Find(n.entries, a[0]).value, a[1..], b); }
    }
  }

  lemma {:induction false} FindIs(entries: seq<Entry>, name: string)
    ensures Find(entries, name).Some? <==> exists i | 0 <= i < |entries| :: entries[i].name == name
    ensures Find(entries, name).Some? ==>
              exists i | 0 <= i < |entries| :: entries[i] == Entry(name, Find(entries, name).value)
    decreases |entries|
  {
    if entries != [] {
      FindIs(entries[1..], name);
      assert forall i | 0 < i < |entries| :: entries[i] == entries[1..][i - 1];
    }
  }

  lemma {:induction false} FindEntry(entries: seq<Entry>, i: nat)
    requires i < |entries| && forall k, j | 0 <= k < j < |entries| :: entries[k].name != entries[j].name
    ensures Find(entries, entries[i].name) == Some(entries[i].node)
    decreases |entries|
  {
    if i > 0 {
      assert entries[i] == entries[1..][i - 1];
      assert forall k | 0 < k < |entries| :: entries[k] == entries[1..][k - 1];
      FindEntry(entries[1..], i - 1);
    }
  }

  lemma {:induction false} WellFormedBelow(n: Node, cs: seq<string>)
    requires WellFormed(n) && Lookup(n, cs).Some?
    ensures WellFormed(Lookup(n, cs).value) && Names(cs)
    decreases |cs|
  {
    if cs != [] {
      FindIs(n.entries, cs[0]);
      var child := Find(n.entries, cs[0]).value;
      var i :| 0 <= i < |n.entries| && n.entries[i] == Entry(cs[0], child);
      WellFormedBelow(child, cs[1..]);
      assert cs == [cs[0]] + cs[1..];
    }
  }

  // ----- which directory a child's path asks for -----

  /** What comes before the opaque data. */
  function BeforeQuery(s: string): string {
    if s == "" || s[0] == '?' then "" else [s[0]] + BeforeQuery(s[1..])
  }

  /** `posixpath.normpath`, component by component. */
  function Normalise(parts: seq<string>, kept: seq<string>): seq<string> {
    if parts == [] then kept
    else if parts[0] == "" || parts[0] == "." then Normalise(parts[1..], kept)
    else if parts[0] == ".." then Normalise(parts[1..], if kept == [] then [] else kept[..|kept| - 1])
    else Normalise(parts[1..], kept + [parts[0]])
  }

  /** The directory that is listed when an absolute path is asked for. */
  function AskedFor(path: string): seq<string> { Normalise(Split(BeforeQuery(path)), []) }

  lemma {:induction false} QueryBehind(x: string, y: string)
    requires '?' !in x
    ensures BeforeQuery(x + y) == x + BeforeQuery(y)
    decreases |x|
  {
    if x == "" {
      assert x + y == y;
    } else {
      assert x[0] in x && '?' !in x[1..];
      assert (x + y)[0] == x[0] && (x + y)[1..] == x[1..] + y;
      QueryBehind(x[1..], y);
    }
  }

  lemma {:induction false} QueryCuts(x: string)
    ensures '?' !in BeforeQuery(x) && BeforeQuery(x) <= x
    ensures BeforeQuery(x) == x <==> '?' !in x
    decreases |x|
  {
    if x != "" && x[0] != '?' {
      QueryCuts(x[1..]);
      assert x == [x[0]] + x[1..];
    }
  }

  /** A name that is not `.` or `..` and in which no opaque data begins. */
  predicate Listable(s: string) { Name(s) && s != "." && s != ".." && '?' !in s }

  predicate AllListable(b: seq<string>) { forall i | 0 <= i < |b| :: Listable(b[i]) }

  lemma {:induction false} TailNoQuery(b: seq<string>)
    requires AllListable(b)
    ensures '?' !in Tail(b)
    decreases |b|
  {
    if b != [] {
      assert Listable(b[0]);
      TailNoQuery(b[1..]);
    }
  }

  lemma {:induction false} SplitLast(x: string, b: seq<string>, last: string)
    requires NoSlash(x) && Names(b) && NoSlash(last)
    ensures Split(x + Tail(b) + "/" + last) == [x] + b + [last]
    decreases |b|
  {
    if b == [] {
      assert x + Tail(b) + "/" + last == x + "/" + last;
      SplitFirst(x, last);
      SplitWhole(last);
    } else {
      var c, rest := b[0], b[1..];
      assert Name(c) && Names(rest);
      assert x + Tail(b) + "/" + last == x + "/" + (c + Tail(rest) + "/" + last);
      SplitFirst(x, c + Tail(rest) + "/" + last);
      SplitLast(c, rest, last);
      assert [x] + ([c] + rest + [last]) == [x] + b + [last] by { assert b == [c] + rest; }
    }
  }

  lemma {:induction false} NormaliseKeeps(b: seq<string>, more: seq<string>, kept: seq<string>)
    requires AllListable(b)
    ensures Normalise(b + more, kept) == Normalise(more, kept + b)
    decreases |b|
  {
    if b == [] {
      assert b + more == more && kept + b == kept;
    } else {
      assert Listable(b[0]);
      assert (b + more)[0] == b[0] && (b + more)[1..] == b[1..] + more;
      NormaliseKeeps(b[1..], more, kept + [b[0]]);
      assert kept + [b[0]] + b[1..] == kept + b;
    }
  }

  lemma JoinTail(b: seq<string>, name: string)
    requires Names(b)
    ensures PathJoin(PathOf(b), name) == Tail(b) + "/" + name
  {
    PathJoinIs(b, name);
    TailConcat(b, [name]);
    TailOne(name);
    hide Tail, PathJoin;
    assert Tail(b) + ("/" + name) == Tail(b) + "/" + name;
  }

  lemma NoSlashFront(x: string, name: string)
    requires NoSlash(name) && x <= name
    ensures NoSlash(x)
  {
    assert forall c | c in x :: c in name;
  }

  lemma ChildParts(b: seq<string>, name: string)
    requires AllListable(b) && Name(name)
    ensures Split(BeforeQuery(PathJoin(PathOf(b), name))) == [""] + b + [BeforeQuery(name)]
  {
    hide Split, Tail, PathJoin, BeforeQuery, PathOf;
    var x, front := BeforeQuery(name), Tail(b) + "/";
    QueryCuts(name);
    NoSlashFront(x, name);
    JoinTail(b, name);
    TailNoQuery(b);
    QueryBehind(front, name);
    SplitLast("", b, x);
    assert "" + Tail(b) + "/" + x == front + x;
  }

  /** The directory `walk` asks for when it descends into one it listed. */
  function Child(dir: seq<string>, name: string): seq<string> { AskedFor(PathJoin(PathOf(dir), name)) }

  /** A name taken for the directory itself or its parent: nothing, `.` or `..` before any
      question mark. */
  predicate Stray(name: string) { BeforeQuery(name) in ["", ".", ".."] }

  function Parent(dir: seq<string>): seq<string> { if dir == [] then [] else dir[..|dir| - 1] }

  lemma NormaliseOne(x: string, kept: seq<string>)
    ensures Normalise([x], kept) ==
            if x == "" || x == "." then kept else if x == ".." then Parent(kept) else kept + [x]
  {
    assert [x][1..] == [];
  }

  lemma ChildNormal(dir: seq<string>, name: string)
    requires AllListable(dir) && Name(name)
    ensures Child(dir, name) == Normalise([BeforeQuery(name)], dir)
  {
    hide Split, BeforeQuery, PathJoin, PathOf, Listable, Normalise, Name;
    ChildParts(dir, name);
    NormaliseRooted(dir, [BeforeQuery(name)]);
  }

  lemma NormaliseRooted(dir: seq<string>, more: seq<string>)
    requires AllListable(dir)
    ensures Normalise([""] + dir + more, []) == Normalise(more, dir)
  {
    NormaliseKeeps(dir, more, []);
    var parts := [""] + dir + more;
    assert parts[0] == "" && parts[1..] == dir + more;
    assert Normalise(parts, []) == Normalise(parts[1..], []);
    hide Normalise, Listable;
    assert [] + dir == dir;
  }

  /** A question mark starts opaque data, and `.` and `..` are normalised away. */
  lemma ChildIs(dir: seq<string>, name: string)
    requires AllListable(dir) && Name(name)
    ensures !Stray(name) ==> Child(dir, name) == dir + [BeforeQuery(name)]
    ensures Stray(name) ==> Child(dir, name) == if BeforeQuery(name) == ".." then Parent(dir) else dir
    ensures AllListable(Child(dir, name))
  {
    var x := BeforeQuery(name);
    ChildNormal(dir, name);
    QueryCuts(name);
    NoSlashFront(x, name);
    NormaliseOne(x, dir);
    hide BeforeQuery, Child, Normalise;
  }

  /** `walk` descends into the directory it just listed exactly when the name is listable. */
  lemma ChildAskedIff(dir: seq<string>, name: string)
    requires AllListable(dir) && Name(name)
    ensures Child(dir, name) == dir + [name] <==> Listable(name)
  {
    ChildIs(dir, name);
    QueryCuts(name);
    hide Child, BeforeQuery;
    assert (dir + [BeforeQuery(name)])[|dir|] == BeforeQuery(name) && (dir + [name])[|dir|] == name;
  }

  /** A path asks for its own directory. */
  lemma AskedForIs(dir: seq<string>)
    requires AllListable(dir)
    ensures AskedFor(PathOf(dir)) == dir
  {
    if dir == [] {
      SplitFirst("", "");
      SplitWhole("");
      assert "" + "/" + "" == "/" && BeforeQuery("/") == "/" by { QueryCuts("/"); }
      assert [""] + [""] == ["", ""] && ["", ""][1..] == [""];
      NormaliseOne("", []);
    } else {
      TailNoQuery(dir);
      QueryCuts(Tail(dir));
      SplitTail("", dir);
      assert "" + Tail(dir) == Tail(dir);
      assert ([""] + dir)[1..] == dir && dir + [] == dir && [] + dir == dir;
      NormaliseKeeps(dir, [], []);
    }
  }

  // ----- walking -----

  function NamesIn(entries: seq<Entry>, base: string): seq<string> {
    if entries == [] then [] else [PathJoin(base, entries[0].name)] + NamesIn(entries[1..], base)
  }

  /** Every path `walk` comes by from a directory, top down, when it may call itself so many
      times deep; a file or nothing cannot be listed, and walking it comes by none. */
  function Walk(root: Node, dir: seq<string>, depth: nat): seq<string>
    decreases depth, 0
  {
    if depth == 0 then []
    else
      match Lookup(root, dir)
      case Some(Dir(entries)) => NamesIn(entries, PathOf(dir)) + WalkInto(root, dir, entries, depth - 1)
      case _ => []
  }

  function WalkInto(root: Node, dir: seq<string>, entries: seq<Entry>, depth: nat): seq<string>
    decreases depth, |entries|
  {
    if entries == [] then []
    else
      (if entries[0].node.Dir? then Walk(root, Child(dir, entries[0].name), depth) else []) +
      WalkInto(root, dir, entries[1..], depth)
  }

  /** The walk calls itself no deeper than that. */
  predicate EndsAt(root: Node, dir: seq<string>, depth: nat)
    decreases depth
  {
    depth > 0 &&
    match Lookup(root, dir)
    case Some(Dir(entries)) =>
      forall i | 0 <= i < |entries| && entries[i].node.Dir? :: EndsAt(root, Child(dir, entries[i].name), depth - 1)
    case _ => true
  }

  /** Some call of the walk comes by a path. */
  ghost predicate ComesBy(root: Node, dir: seq<string>, p: string) {
    exists depth: nat :: p in Walk(root, dir, depth)
  }

  lemma {:induction false} NamesInIs(entries: seq<Entry>, base: string)
    ensures forall p ::
              p in NamesIn(entries, base) <==> exists i | 0 <= i < |entries| :: p == PathJoin(base, entries[i].name)
    decreases |entries|
  {
    if entries != [] {
      NamesInIs(entries[1..], base);
      assert forall i | 0 < i < |entries| :: entries[i] == entries[1..][i - 1];
      forall p
        ensures p in NamesIn(entries, base) <==> exists i | 0 <= i < |entries| :: p == PathJoin(base, entries[i].name)
      {
        if p in NamesIn(entries[1..], base) {
          var i :| 0 <= i < |entries| - 1 && p == PathJoin(base, entries[1..][i].name);
          assert p == PathJoin(base, entries[i + 1].name);
        }
        if i :| 0 <= i < |entries| && p == PathJoin(base, entries[i].name) {
          if i > 0 { assert p == PathJoin(base, entries[1..][i - 1].name); }
        }
      }
    }
  }

  lemma NamesInHas(entries: seq<Entry>, i: nat, base: string)
    requires i < |entries|
    ensures PathJoin(base, entries[i].name) in NamesIn(entries, base)
  {
    NamesInIs(entries, base);
  }

  lemma LookupChild(n: Node, i: nat, rest: seq<string>)
    requires WellFormed(n) && n.Dir? && i < |n.entries|
    ensures Lookup(n, [n.entries[i].name] + rest) == Lookup(n.entries[i].node, rest)
    ensures Name(n.entries[i].name) && WellFormed(n.entries[i].node)
  {
    FindEntry(n.entries, i);
    assert ([n.entries[i].name] + rest)[1..] == rest;
  }

  lemma FirstStep(n: Node, cs: seq<string>) returns (i: nat)
    requires WellFormed(n) && cs != [] && Lookup(n, cs).Some?
    ensures n.Dir? && i < |n.entries| && n.entries[i].name == cs[0] && Lookup(n.entries[i].node, cs[1..]).Some?
    ensures Name(cs[0]) && WellFormed(n.entries[i].node)
  {
    FindIs(n.entries, cs[0]);
    i :| 0 <= i < |n.entries| && n.entries[i] == Entry(cs[0], Find(n.entries, cs[0]).value);
  }

  /** Somewhere below, a directory is taken for itself or its parent. */
  ghost predicate Tangled(root: Node, b: seq<string>) { exists cs :: b <= cs && Knot(root, cs) }

  ghost predicate Knot(root: Node, cs: seq<string>) {
    && AllListable(cs) && Lookup(root, cs).Some? && Lookup(root, cs).value.Dir?
    && exists i | 0 <= i < |Lookup(root, cs).value.entries| :: StrayDir(Lookup(root, cs).value.entries[i])
  }

  predicate StrayDir(e: Entry) { e.node.Dir? && Stray(e.name) }

  lemma TangledBelow(root: Node, b: seq<string>, name: string)
    requires Tangled(root, b + [name])
    ensures Tangled(root, b)
  {
    var cs :| b + [name] <= cs && Knot(root, cs);
    assert b <= b + [name];
  }

  lemma LookupEntry(root: Node, dir: seq<string>, i: nat)
    requires WellFormed(root) && Lookup(root, dir).Some? && Lookup(root, dir).value.Dir?
    requires i < |Lookup(root, dir).value.entries|
    ensures var e := Lookup(root, dir).value.entries[i];
            Name(e.name) && Lookup(root, dir + [e.name]) == Some(e.node)
  {
    hide WellFormed;
    var n := Lookup(root, dir).value;
    WellFormedBelow(root, dir);
    LookupConcat(root, dir, [n.entries[i].name]);
    LookupChild(n, i, []);
    assert [n.entries[i].name] + [] == [n.entries[i].name];
  }

  /** Whatever a walk comes by is in the tree, in a directory it can ask for, and below where
      it began unless something there is taken for itself or its parent. */
  lemma {:induction false} WalkSound(root: Node, dir: seq<string>, depth: nat, p: string) returns (cs: seq<string>)
    requires WellFormed(root) && AllListable(dir) && p in Walk(root, dir, depth)
    ensures cs != [] && Lookup(root, cs).Some? && p == PathOf(cs) && AllListable(Parent(cs))
    ensures (dir <= cs && |dir| < |cs|) || Tangled(root, dir)
    decreases depth, 0
  {
    hide PathOf, PathJoin, WalkInto, NamesIn, WellFormed, Lookup, Tangled;
    var entries := Lookup(root, dir).value.entries;
    if p in NamesIn(entries, PathOf(dir)) {
      NamesInIs(entries, PathOf(dir));
      var i :| 0 <= i < |entries| && p == PathJoin(PathOf(dir), entries[i].name);
      cs := dir + [entries[i].name];
      ListableNames(dir);
      PathJoinIs(dir, entries[i].name);
      LookupEntry(root, dir, i);
      assert Parent(cs) == dir;
    } else {
      cs := WalkIntoSound(root, dir, entries, depth - 1, p);
    }
  }

  lemma ListableNames(dir: seq<string>)
    requires AllListable(dir)
    ensures Names(dir)
  {
    forall i | 0 <= i < |dir| ensures Name(dir[i]) { assert Listable(dir[i]); }
  }

  lemma {:induction false} WalkIntoSound(root: Node, dir: seq<string>, entries: seq<Entry>, depth: nat, p: string)
    returns (cs: seq<string>)
    requires WellFormed(root) && AllListable(dir) && Lookup(root, dir).Some? && Lookup(root, dir).value.Dir?
    requires forall i | 0 <= i < |entries| :: entries[i] in Lookup(root, dir).value.entries
    requires p in WalkInto(root, dir, entries, depth)
    ensures cs != [] && Lookup(root, cs).Some? && p == PathOf(cs) && AllListable(Parent(cs))
    ensures (dir <= cs && |dir| < |cs|) || Tangled(root, dir)
    decreases depth, |entries|
  {
    hide PathOf, Walk, WellFormed, Lookup, Child, Parent, Tangled, Stray;
    var e := entries[0];
    assert e in Lookup(root, dir).value.entries;
    if e.node.Dir? && p in Walk(root, Child(dir, e.name), depth) {
      var i :| 0 <= i < |Lookup(root, dir).value.entries| && Lookup(root, dir).value.entries[i] == e;
      LookupEntry(root, dir, i);
      ChildIs(dir, e.name);
      cs := WalkSound(root, Child(dir, e.name), depth, p);
      if Stray(e.name) {
        TangledHere(root, dir, i);
      } else {
        assert dir <= dir + [BeforeQuery(e.name)];
        if Tangled(root, Child(dir, e.name)) { TangledBelow(root, dir, BeforeQuery(e.name)); }
      }
    } else {
      cs := WalkIntoSound(root, dir, entries[1..], depth, p);
    }
  }

  lemma TangledHere(root: Node, dir: seq<string>, i: nat)
    requires AllListable(dir) && Lookup(root, dir).Some? && Lookup(root, dir).value.Dir?
    requires i < |Lookup(root, dir).value.entries| && StrayDir(Lookup(root, dir).value.entries[i])
    ensures Tangled(root, dir)
  {
    assert Knot(root, dir);
  }

  /** The next directory on the way to a path. */
  lemma Toward(root: Node, b: seq<string>, cs: seq<string>) returns (i: nat)
    requires WellFormed(root) && AllListable(b) && cs != [] && Lookup(root, b + cs).Some?
    ensures Lookup(root, b).Some? && Lookup(root, b).value.Dir? && i < |Lookup(root, b).value.entries|
    ensures var e := Lookup(root, b).value.entries[i];
            e.name == cs[0] && (e.node.Dir? <== |cs| > 1) && (Child(b, e.name) == b + [cs[0]] <== Listable(cs[0]))
  {
    hide WellFormed, Child;
    LookupConcat(root, b, cs);
    var n := Lookup(root, b).value;
    WellFormedBelow(root, b);
    i := FirstStep(n, cs);
    ChildAskedIff(b, cs[0]);
  }

  /** And it comes by every path below it whose directories it can ask for. */
  lemma {:induction false} WalkComplete(root: Node, b: seq<string>, cs: seq<string>, depth: nat)
    requires WellFormed(root) && cs != [] && Lookup(root, b + cs).Some? && AllListable(Parent(b + cs))
    requires |cs| <= depth
    ensures PathOf(b + cs) in Walk(root, b, depth)
    decreases |cs|
  {
    hide PathOf, PathJoin, WalkInto, NamesIn, WellFormed, Lookup, Child;
    OnTheWay(b, cs);
    var i := Toward(root, b, cs);
    var entries := Lookup(root, b).value.entries;
    if |cs| == 1 {
      assert cs == [cs[0]];
      ListableNames(b);
      PathJoinIs(b, cs[0]);
      NamesInHas(entries, i, PathOf(b));
    } else {
      assert b + [cs[0]] + cs[1..] == b + cs;
      WalkComplete(root, b + [cs[0]], cs[1..], depth - 1);
      WalkIntoHas(root, b, entries, i, depth - 1, PathOf(b + cs));
    }
  }

  lemma OnTheWay(b: seq<string>, cs: seq<string>)
    requires cs != [] && AllListable(Parent(b + cs))
    ensures AllListable(b) && (|cs| > 1 ==> Listable(cs[0]))
  {
    var up := Parent(b + cs);
    assert forall i | 0 <= i < |b| :: b[i] == up[i];
    if |cs| > 1 { assert up[|b|] == cs[0]; }
  }

  lemma {:induction false} WalkIntoHas(root: Node, b: seq<string>, entries: seq<Entry>, i: nat, depth: nat, p: string)
    requires i < |entries| && entries[i].node.Dir? && p in Walk(root, Child(b, entries[i].name), depth)
    ensures p in WalkInto(root, b, entries, depth)
    decreases |entries|
  {
    hide Walk, Child;
    if i > 0 {
      assert entries[i] == entries[1..][i - 1];
      WalkIntoHas(root, b, entries[1..], i - 1, depth, p);
    }
  }

  /** A walk from the root comes by a path of the tree exactly when every directory on the way
      there has a listable name, whatever the last name is. */
  lemma ComesByIff(root: Node, cs: seq<string>)
    requires WellFormed(root) && cs != [] && Lookup(root, cs).Some?
    ensures ComesBy(root, [], PathOf(cs)) <==> AllListable(Parent(cs))
  {
    hide PathOf, WellFormed, Lookup, Walk;
    WellFormedBelow(root, cs);
    if ComesBy(root, [], PathOf(cs)) {
      var depth: nat :| PathOf(cs) in Walk(root, [], depth);
      var ds := WalkSound(root, [], depth, PathOf(cs));
      WellFormedBelow(root, ds);
      PathOfInjective(ds, cs);
    }
    if AllListable(Parent(cs)) {
      assert [] + cs == cs;
      WalkComplete(root, [], cs, |cs|);
    }
  }

  // ----- when a walk ends -----

  /** The next directory on the way to a knot, which a knot itself has too. */
  lemma TowardKnot(root: Node, b: seq<string>, cs: seq<string>) returns (i: nat)
    requires WellFormed(root) && b <= cs && Knot(root, cs)
    ensures Lookup(root, b).Some? && Lookup(root, b).value.Dir? && i < |Lookup(root, b).value.entries|
    ensures var e := Lookup(root, b).value.entries[i]; e.node.Dir? && Child(b, e.name) <= cs
  {
    hide WellFormed, Child, Stray, Lookup;
    assert AllListable(b);
    if b == cs {
      i :| i < |Lookup(root, cs).value.entries| && StrayDir(Lookup(root, cs).value.entries[i]);
      LookupEntry(root, b, i);
      ChildIs(b, Lookup(root, b).value.entries[i].name);
    } else {
      var rest := cs[|b|..];
      assert cs == b + rest && rest[0] == cs[|b|];
      i := Toward(root, b, rest);
      assert Listable(cs[|b|]);
      if |rest| == 1 { LookupEntry(root, b, i); assert b + [rest[0]] == cs; }
    }
  }

  lemma {:induction false} NeverEnds(root: Node, b: seq<string>, cs: seq<string>, depth: nat)
    requires WellFormed(root) && b <= cs && Knot(root, cs)
    ensures !EndsAt(root, b, depth)
    decreases depth
  {
    hide WellFormed, Child, Lookup, Knot;
    if depth > 0 {
      var i := TowardKnot(root, b, cs);
      NeverEnds(root, Child(b, Lookup(root, b).value.entries[i].name), cs, depth - 1);
    }
  }

  lemma {:induction false} EndsMore(root: Node, b: seq<string>, less: nat, more: nat)
    requires EndsAt(root, b, less) && less <= more
    ensures EndsAt(root, b, more)
    decreases less
  {
    hide Child, Lookup;
    var at := Lookup(root, b);
    if at.Some? && at.value.Dir? {
      var entries := at.value.entries;
      forall i | 0 <= i < |entries| && entries[i].node.Dir?
        ensures EndsAt(root, Child(b, entries[i].name), more - 1)
      {
        EndsMore(root, Child(b, entries[i].name), less - 1, more - 1);
      }
    }
  }

  /** Without a knot the walk only goes down, and the tree is finite. */
  lemma {:induction false} Untangled(root: Node, b: seq<string>, n: Node) returns (depth: nat)
    requires WellFormed(root) && AllListable(b) && !Tangled(root, b) && Lookup(root, b) == Some(n)
    ensures EndsAt(root, b, depth)
    decreases n, 1, 0
  {
    hide WellFormed, Lookup, Tangled, Child;
    depth := 1;
    if n.Dir? {
      var below := UntangledBelow(root, b, n, |n.entries|);
      depth := below + 1;
    }
  }

  lemma {:induction false} UntangledBelow(root: Node, b: seq<string>, n: Node, k: nat) returns (depth: nat)
    requires WellFormed(root) && AllListable(b) && !Tangled(root, b) && Lookup(root, b) == Some(n)
    requires n.Dir? && k <= |n.entries|
    ensures forall i | 0 <= i < k && n.entries[i].node.Dir? :: EndsAt(root, Child(b, n.entries[i].name), depth)
    decreases n, 0, k
  {
    hide WellFormed, Lookup, Tangled, Child, EndsAt;
    depth := 0;
    if k > 0 {
      var before := UntangledBelow(root, b, n, k - 1);
      depth := before;
      if n.entries[k - 1].node.Dir? {
        var last := UntangledChild(root, b, n, k - 1);
        depth := if before <= last then last else before;
        EndsMore(root, Child(b, n.entries[k - 1].name), last, depth);
      }
      forall i | 0 <= i < k && n.entries[i].node.Dir?
        ensures EndsAt(root, Child(b, n.entries[i].name), depth)
      {
        if i < k - 1 { EndsMore(root, Child(b, n.entries[i].name), before, depth); }
      }
    }
  }

  lemma {:induction false} UntangledChild(root: Node, b: seq<string>, n: Node, i: nat) returns (depth: nat)
    requires WellFormed(root) && AllListable(b) && !Tangled(root, b) && Lookup(root, b) == Some(n)
    requires n.Dir? && i < |n.entries| && n.entries[i].node.Dir?
    ensures EndsAt(root, Child(b, n.entries[i].name), depth)
    decreases n, 0, 0
  {
    hide WellFormed, Tangled, Child, Stray;
    var x := BeforeQuery(n.entries[i].name);
    LookupEntry(root, b, i);
    ChildIs(b, n.entries[i].name);
    if Stray(n.entries[i].name) { TangledHere(root, b, i); }
    if Tangled(root, b + [x]) { TangledBelow(root, b, x); }
    LookupConcat(root, b, [x]);
    FindIs(n.entries, x);
    depth := 1;
    if Find(n.entries, x).Some? {
      var child := Find(n.entries, x).value;
      var j :| 0 <= j < |n.entries| && n.entries[j] == Entry(x, child);
      LookupOne(n, x);
      depth := Untangled(root, b + [x], n.entries[j].node);
    }
  }

  lemma LookupOne(n: Node, x: string)
    requires n.Dir?
    ensures Lookup(n, [x]) == Find(n.entries, x)
  {
    assert [x][1..] == [];
  }

  /** A walk ends exactly when no directory it can ask for holds one that is taken for
      itself or its parent. */
  lemma WalkEndsIff(root: Node, b: seq<string>)
    requires WellFormed(root) && AllListable(b)
    ensures (exists depth: nat :: EndsAt(root, b, depth)) <==> !Tangled(root, b)
  {
    hide WellFormed, Lookup, Knot;
    if Tangled(root, b) {
      var cs :| b <= cs && Knot(root, cs);
      forall depth: nat ensures !EndsAt(root, b, depth) { NeverEnds(root, b, cs, depth); }
    } else if Lookup(root, b).Some? {
      var depth := Untangled(root, b, Lookup(root, b).value);
    } else {
      assert EndsAt(root, b, 1);
    }
  }

  /** A walk that ends is as deep as the paths whose directories it can ask for. */
  lemma {:induction false} EndsDeep(root: Node, b: seq<string>, cs: seq<string>, depth: nat)
    requires WellFormed(root) && cs != [] && Lookup(root, b + cs).Some? && AllListable(Parent(b + cs))
    requires EndsAt(root, b, depth)
    ensures |cs| <= depth
    decreases depth
  {
    hide WellFormed, Lookup, Child;
    if |cs| > 1 {
      OnTheWay(b, cs);
      var i := Toward(root, b, cs);
      assert b + [cs[0]] + cs[1..] == b + cs;
      EndsDeep(root, b + [cs[0]], cs[1..], depth - 1);
    }
  }

  /** So a walk that ends came by exactly those. */
  lemma EndedComesBy(root: Node, b: seq<string>, cs: seq<string>, depth: nat)
    requires WellFormed(root) && AllListable(b) && EndsAt(root, b, depth)
    requires cs != [] && Lookup(root, b + cs).Some?
    ensures PathOf(b + cs) in Walk(root, b, depth) <==> AllListable(Parent(b + cs))
  {
    hide PathOf, WellFormed, Lookup, Walk, EndsAt;
    WellFormedBelow(root, b + cs);
    if PathOf(b + cs) in Walk(root, b, depth) {
      var ds := WalkSound(root, b, depth, PathOf(b + cs));
      WellFormedBelow(root, ds);
      PathOfInjective(ds, b + cs);
    }
    if AllListable(Parent(b + cs)) {
      EndsDeep(root, b, cs, depth);
      WalkComplete(root, b, cs, depth);
    }
  }

  // ----- two trees a walk gets wrong -----

  const HIDING_TREE := Dir([Entry("a?b", Dir([Entry("c", File)]))])

  /** What lies in a directory with a question mark in its name is in no walk from the root. */
  lemma QueryHides()
    ensures WellFormed(HIDING_TREE) && Lookup(HIDING_TREE, ["a?b", "c"]) == Some(File)
    ensures ComesBy(HIDING_TREE, [], PathOf(["a?b"])) && !ComesBy(HIDING_TREE, [], PathOf(["a?b", "c"]))
  {
    var inner := Dir([Entry("c", File)]);
    assert HIDING_TREE.entries[0] == Entry("a?b", inner) && inner.entries[0] == Entry("c", File);
    assert WellFormed(inner);
    assert WellFormed(HIDING_TREE);
    LookupChild(inner, 0, []);
    LookupChild(HIDING_TREE, 0, ["c"]);
    LookupChild(HIDING_TREE, 0, []);
    assert ["a?b"] + ["c"] == ["a?b", "c"] && ["c"] + [] == ["c"] && ["a?b"] + [] == ["a?b"];
    hide WellFormed, PathOf, ComesBy, Lookup;
    LookupHere(File);
    LookupHere(inner);
    ComesByIff(HIDING_TREE, ["a?b"]);
    ComesByIff(HIDING_TREE, ["a?b", "c"]);
    assert Parent(["a?b"]) == [] && Parent(["a?b", "c"]) == ["a?b"];
    assert "a?b"[1] == '?';
    assert !Listable(["a?b"][0]);
  }

  lemma LookupHere(n: Node)
    ensures Lookup(n, []) == Some(n)
  {
  }

  const LOOPING_TREE := Dir([Entry("?x", Dir([]))])

  /** A directory whose name begins with a question mark is its parent asked for again. */
  lemma QueryLoops(depth: nat)
    ensures WellFormed(LOOPING_TREE) && !EndsAt(LOOPING_TREE, [], depth)
  {
    var e := Entry("?x", Dir([]));
    assert LOOPING_TREE.entries[0] == e && WellFormed(e.node);
    assert WellFormed(LOOPING_TREE);
    LookupHere(LOOPING_TREE);
    assert StrayDir(e);
    hide WellFormed, EndsAt, Lookup, StrayDir;
    assert Knot(LOOPING_TREE, []);
    NeverEnds(LOOPING_TREE, [], [], depth);
  }
}
