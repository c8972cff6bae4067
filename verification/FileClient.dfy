/** Bulk reads and writes on one open file (`client/file.py`): chunks spread over data
    paths, a three-way fallback when a path does not serve them, recovery of a lost handle. */
module FileClient {
  import opened Octets

  /** Exceptions as the fallbacks tell them apart: a lost connection, any other refusal
      (`XRootDError` or `ValueError`), anything else, which no fallback catches, and the refusal
      to read more than the configuration allows. */
  datatype Fault = Transient | Declined | Foreign | TooLarge

  /** One operation on the handle. */
  datatype Op = ReadOp(at: nat, length: nat) | WriteOp(at: nat, body: bytes) | StatOp

  /** How an attempt goes out: whole on a data path, the request on the control link with its
      bytes on a data path, or all on the control link. */
  datatype Way = Arriving(path: nat) | Split(path: nat) | Control

  function Rank(w: Way): nat { match w case Arriving(_) => 0 case Split(_) => 1 case Control => 2 }

  /** Attempts that only ever fall back, none of them further than `rank`. */
  ghost predicate FallsBack(ways: seq<Way>, from: nat, rank: nat) {
    && from <= |ways|
    && (forall i | from <= i < |ways| :: Rank(ways[i]) <= rank)
    && (forall i, j | from <= i <= j < |ways| :: Rank(ways[i]) <= Rank(ways[j]))
  }

  /** No attempt, one, or two with a recovery between, all the same way. */
  predicate Tried(before: seq<Way>, after: seq<Way>, way: Way) {
    after == before || after == before + [way] || after == before + [way, way]
  }

  lemma Nowhere(ways: seq<Way>)
    ensures FallsBack(ways, |ways|, 0)
  {
  }

  lemma FallsNoFurther(ways: seq<Way>, from: nat, rank: nat)
    requires FallsBack(ways, from, rank) && rank <= 2
    ensures FallsBack(ways, from, 2)
  {
    hide Rank;
  }

  lemma TriedOnce(before: seq<Way>, after: seq<Way>, way: Way)
    requires after == before || after == before + [way]
    ensures Tried(before, after, way) && |after| <= |before| + 1
  {
  }

  lemma FallsFurther(before: seq<Way>, after: seq<Way>, from: nat, rank: nat, way: Way)
    requires FallsBack(before, from, rank) && rank <= Rank(way) && Tried(before, after, way)
    ensures FallsBack(after, from, Rank(way)) && before <= after && |after| <= |before| + 2
    ensures after != before ==> after[|after| - 1] == way
  {
    hide Rank;
  }

  /** A write that was given up on and may still reach the file. */
  datatype Straggler = Straggler(at: nat, body: bytes)

  /** What the outside world does at one point of the call. An attempt that fails may have
      been applied in part (`applied`), and may still be applied later (`late`); `landing`
      names the stragglers that reach the file just before. A read may be answered with more
      than was asked for (`surplus`), an open may volunteer the file's size (`sized`); `bound`
      is the path id a bind gets, and `arrives` what the session has come to know about
      arrival routing. */
  datatype Outcome = Outcome(
    fault: Option<Fault>, applied: nat, late: bool, landing: seq<nat>, surplus: bytes, sized: bool,
    bound: Option<nat>, arrives: Option<bool>)

  // ----- writes at an offset -----

  lemma SpliceAt(file: bytes, at: nat, data: bytes, j: nat)
    requires data != [] && j < |Splice(file, at, data)|
    ensures Splice(file, at, data)[j] ==
            if at <= j < at + |data| then data[j - at] else if j < |file| then file[j] else 0
  {
    SpliceIs(file, at, data);
    if at <= j < at + |data| {
      assert Splice(file, at, data)[at..at + |data|][j - at] == data[j - at];
    }
  }

  /** A straggler whose bytes the file already holds. */
  ghost predicate Settled(file: bytes, s: Straggler) {
    s.body != [] && s.at + |s.body| <= |file| && file[s.at..s.at + |s.body|] == s.body
  }

  lemma SettledAt(file: bytes, s: Straggler, j: nat)
    requires Settled(file, s) && s.at <= j < s.at + |s.body|
    ensures file[j] == s.body[j - s.at]
  {
    assert file[s.at..s.at + |s.body|][j - s.at] == s.body[j - s.at];
  }

  /** A straggler that lands changes nothing exactly when it is settled. */
  lemma LandsQuietlyIff(file: bytes, s: Straggler)
    requires s.body != []
    ensures Splice(file, s.at, s.body) == file <==> Settled(file, s)
  {
    SpliceIs(file, s.at, s.body);
    if Settled(file, s) {
      var a := Splice(file, s.at, s.body);
      forall j: nat | j < |file|
        ensures a[j] == file[j]
      {
        SpliceAt(file, s.at, s.body, j);
        if s.at <= j < s.at + |s.body| { SettledAt(file, s, j); }
      }
    }
  }

  ghost predicate AllSettled(file: bytes, limbo: seq<Straggler>) {
    forall i | 0 <= i < |limbo| :: Settled(file, limbo[i])
  }

  /** A file that differs from the one it is to become only from `lo` to `hi`, or in not
      reaching so far yet. */
  ghost predicate Near(file: bytes, final: bytes, lo: nat, hi: nat) {
    && |file| <= |final|
    && (|file| < |final| ==> |final| <= hi)
    && (forall j | 0 <= j < |final| && !(lo <= j < hi) :: final[j] == if j < |file| then file[j] else 0)
  }

  /** The stretch from `lo` to `mid` is as it is to become. */
  ghost predicate Held(file: bytes, final: bytes, lo: nat, mid: nat) {
    lo < mid ==> mid <= |file| && mid <= |final| && forall j | lo <= j < mid :: file[j] == final[j]
  }

  /** Where a call is taking the file: to `final`, which differs from `lo` to `hi`, and is
      there already up to `mid`. */
  datatype Goal = Goal(final: bytes, lo: nat, hi: nat, mid: nat)

  /** On the way: and no straggler can write anything but the final bytes. */
  ghost predicate Toward(g: Goal, file: bytes, limbo: seq<Straggler>) {
    Near(file, g.final, g.lo, g.hi) && Held(file, g.final, g.lo, g.mid) && AllSettled(g.final, limbo)
  }

  /** Whatever writes final bytes, whole or in part, in time or late, keeps the file on its way. */
  lemma SettledKeeps(g: Goal, file: bytes, limbo: seq<Straggler>, s: Straggler)
    requires Toward(g, file, limbo) && Settled(g.final, s)
    ensures Toward(g, Splice(file, s.at, s.body), limbo) && Settled(Splice(file, s.at, s.body), s)
  {
    var now := Splice(file, s.at, s.body);
    SpliceIs(file, s.at, s.body);
    forall j: nat | j < |g.final| && (!(g.lo <= j < g.hi) || g.lo <= j < g.mid)
      ensures g.final[j] == if j < |now| then now[j] else 0
    {
      if j < |now| {
        SpliceAt(file, s.at, s.body, j);
        if s.at <= j < s.at + |s.body| { SettledAt(g.final, s, j); }
      }
    }
  }

  /** At the end of the way. */
  lemma Arrived(g: Goal, file: bytes, limbo: seq<Straggler>)
    requires Toward(g, file, limbo) && g.mid == g.hi && (g.lo < g.hi || g.hi == 0)
    ensures file == g.final
  {
  }

  /** A write's goal, from the file it finds. */
  lemma Sets(file: bytes, offset: nat, data: bytes, limbo: seq<Straggler>)
    requires data != [] && AllSettled(Splice(file, offset, data), limbo)
    ensures Toward(Goal(Splice(file, offset, data), offset, offset + |data|, offset), file, limbo)
  {
    SpliceIs(file, offset, data);
  }

  /** From anywhere on the way, doing the whole write gets there. */
  lemma Again(g: Goal, file: bytes, limbo: seq<Straggler>, data: bytes)
    requires Toward(g, file, limbo) && data != [] && g.hi == g.lo + |data| && Settled(g.final, Straggler(g.lo, data))
    ensures Splice(file, g.lo, data) == g.final
  {
    var a := Splice(file, g.lo, data);
    forall j: nat | j < |g.final|
      ensures a[j] == g.final[j]
    {
      SpliceAt(file, g.lo, data, j);
      if g.lo <= j < g.hi { SettledAt(g.final, Straggler(g.lo, data), j); }
    }
  }

  /** A chunk of the data is among the final bytes. */
  lemma ChunkSettled(final: bytes, offset: nat, data: bytes, n: nat, end: nat)
    requires n < end <= |data| && Settled(final, Straggler(offset, data))
    ensures Settled(final, Straggler(offset + n, data[n..end]))
  {
    assert final[offset + n..offset + end] == final[offset..offset + |data|][n..end];
  }

  /** What an operation may do on the way: a read or stat asks for nothing to change. */
  ghost predicate Fits(op: Op, g: Goal) {
    match op
    case WriteOp(at, body) => Settled(g.final, Straggler(at, body))
    case _ => g.hi == 0 && g.mid == 0
  }

  /** The operation took effect; a read was answered, perhaps with more than asked for. */
  ghost predicate Achieved(op: Op, g: Goal, file: bytes, data: bytes) {
    match op
    case ReadOp(at, length) => data == Slice(g.final, at, at + length) || |data| > length
    case WriteOp(at, body) => Settled(file, Straggler(at, body))
    case StatOp => true
  }

  /** A list without the first occurrence of an element it holds. */
  function RemoveFirst(paths: seq<nat>, pathid: nat): (r: seq<nat>)
    requires pathid in paths
    ensures |r| == |paths| - 1 && (forall i | 0 <= i < |r| :: r[i] in paths)
    ensures multiset(r) == multiset(paths) - multiset{pathid}
  {
    assert paths == [paths[0]] + paths[1..];
    if paths[0] == pathid then paths[1..] else [paths[0]] + RemoveFirst(paths[1..], pathid)
  }

  // ----- the file -----

  class File {
    const chunkSize: nat
    const dataStreams: nat
    const maxRead: nat
    const recoverable: bool
    const world: nat -> Outcome

    /** How much of the world has happened, the file on the server, and its stragglers. */
    var tick: nat
    var content: bytes
    var limbo: seq<Straggler>
    /** How each attempt so far went out, and what came of it. */
    var ways: seq<Way>
    var faults: seq<Option<Fault>>

    var isOpen: bool
    var pathid: nat
    var dataPaths: seq<nat>
    var rr: nat
    var multistream: bool
    var arrives: Option<bool>
    var sizeHint: nat
    var statKnown: bool

    ghost predicate Valid()
      reads this
    {
      chunkSize > 0 && |faults| == |ways| && forall i | 0 <= i < |dataPaths| :: dataPaths[i] > 0
    }

    /** Nothing fails from some time on, and no read is answered with too much. */
    ghost predicate Fine(from: nat) { forall t: nat | t >= from :: world(t).fault == None && world(t).surplus == [] }

    /** The way the first attempt at an operation goes: to the next data path, wholly unless
        that is known not to work, or without data paths to the file's own. */
    function FirstWay(): Way
      requires Valid()
      reads this
    {
      if multistream && dataPaths != [] then
        var path := dataPaths[rr % |dataPaths|];
        if arrives != Some(false) then Arriving(path) else Split(path)
      else if pathid == 0 then Control else Split(pathid)
    }

    method Next() returns (o: Outcome)
      modifies this`tick
      ensures o == world(old(tick)) && tick == old(tick) + 1
    {
      o := world(tick);
      tick := tick + 1;
    }

    /** Tops the data paths up to the configured number; a refused bind ends it quietly. */
    method BindDataStreams()
      requires Valid()
      modifies this`tick, this`dataPaths
      ensures Valid() && old(dataPaths) <= dataPaths && tick >= old(tick)
      ensures |dataPaths| <= if |old(dataPaths)| < dataStreams then dataStreams else |old(dataPaths)|
    {
      var missing := if |dataPaths| < dataStreams then dataStreams - |dataPaths| else 0;
      for n := 0 to missing
        invariant Valid() && old(dataPaths) <= dataPaths && |dataPaths| <= |old(dataPaths)| + n && tick >= old(tick)
      {
        var o := Next();
        if o.bound == None || o.bound.value == 0 { break; }
        dataPaths := dataPaths + [o.bound.value];
      }
    }

    /** The data paths in turn; none once the file has fallen back to the control link. */
    method NextPath() returns (path: nat)
      requires Valid()
      modifies this`rr
      ensures path == 0 <==> !multistream || dataPaths == []
      ensures path != 0 ==> path in dataPaths && path == dataPaths[old(rr) % |dataPaths|] && rr == old(rr) + 1
    {
      if !multistream || dataPaths == [] { return 0; }
      path := dataPaths[rr % |dataPaths|];
      rr := rr + 1;
    }

    method Land(which: seq<nat>, ghost g: Goal)
      requires Toward(g, content, limbo)
      modifies this`content
      ensures Toward(g, content, limbo)
    {
      hide Near, Held;
      for n := 0 to |which|
        invariant Toward(g, content, limbo)
      {
        if which[n] < |limbo| {
          var s := limbo[which[n]];
          SettledKeeps(g, content, limbo, s);
          content := Splice(content, s.at, s.body);
        }
      }
    }

    /** One attempt at the operation, on whichever link. */
    method Attempt(op: Op, way: Way, ghost g: Goal) returns (fault: Option<Fault>, data: bytes)
      requires Toward(g, content, limbo) && Fits(op, g)
      modifies this`tick, this`content, this`limbo, this`ways, this`faults, this`arrives
      ensures Toward(g, content, limbo)
      ensures fault == None ==> Achieved(op, g, content, data)
      ensures ways == old(ways) + [way] && faults == old(faults) + [fault]
      ensures fault == world(old(tick)).fault && tick == old(tick) + 1
      ensures op.ReadOp? && world(old(tick)).surplus == [] ==> |data| <= op.length
    {
      hide Near, Held;
      var o := Next();
      ways, faults := ways + [way], faults + [o.fault];
      Land(o.landing, g);
      arrives := o.arrives;
      fault, data := o.fault, [];
      match op
      case ReadOp(at, length) =>
        Arrived(g, content, limbo);
        if fault == None { data := if |o.surplus| > length then o.surplus else Slice(content, at, at + length); }
      case WriteOp(at, body) =>
        var whole := Straggler(at, body);
        if fault == None {
          SettledKeeps(g, content, limbo, whole);
          content := Splice(content, at, body);
        } else {
          var k := Min(o.applied, |body|);
          if k > 0 {
            PartSettled(g.final, whole, k);
            SettledKeeps(g, content, limbo, Straggler(at, body[..k]));
            content := Splice(content, at, body[..k]);
          }
          if o.late { limbo := limbo + [whole]; }
        }
      case StatOp =>
    }

    /** Gets the handle back on a fresh connection, with fresh data paths. */
    method Reopen() returns (fault: Option<Fault>)
      requires Valid()
      modifies this`tick, this`isOpen, this`pathid, this`dataPaths, this`rr, this`multistream, this`statKnown,
               this`sizeHint
      ensures Valid() && (isOpen <==> fault == None) && (statKnown ==> sizeHint == |content|)
      ensures tick > old(tick)
    {
      isOpen, statKnown, pathid, dataPaths, rr, multistream := false, false, 0, [], 0, true;
      var o := Next();
      fault := o.fault;
      if fault == None {
        isOpen := true;
        if o.sized { statKnown, sizeHint := true, |content|; }
        BindDataStreams();
      }
    }

    method Execute(op: Op, way: Way, ghost g: Goal) returns (fault: Option<Fault>, data: bytes)
      requires Valid() && Toward(g, content, limbo) && Fits(op, g)
      modifies this`tick, this`content, this`limbo, this`ways, this`faults, this`arrives, this`isOpen, this`pathid,
               this`dataPaths, this`rr, this`multistream, this`statKnown, this`sizeHint
      ensures Valid() && Toward(g, content, limbo)
      ensures !recoverable ==> sizeHint == old(sizeHint)
      ensures fault == None ==> Achieved(op, g, content, data)
      ensures Tried(old(ways), ways, way)
      ensures isOpen ==> ways != old(ways)
      ensures !old(isOpen) ==> fault == Some(Declined) && ways == old(ways) && !isOpen
      ensures old(isOpen) ==>
                && |ways| > |old(ways)| && ways[|old(ways)|] == way && old(faults) <= faults && tick > old(tick)
                && faults[|old(ways)|] == world(old(tick)).fault
                && (isOpen ==> fault == faults[|ways| - 1])
                && (isOpen && |ways| == |old(ways)| + 1 ==>
                      faults[|old(ways)|] != Some(Transient) || !recoverable)
                && (|ways| > |old(ways)| + 1 || !isOpen ==> faults[|old(ways)|] == Some(Transient) && recoverable)
                && (!isOpen ==> fault != None)
      ensures old(isOpen) && world(old(tick)).fault == None ==>
                ways == old(ways) + [way] && isOpen && dataPaths == old(dataPaths)
      ensures op.ReadOp? && fault == None && Fine(old(tick)) ==> |data| <= op.length
      ensures !recoverable ==> multistream == old(multistream) && dataPaths == old(dataPaths)
    {
      hide Toward, Fits, Achieved;
      if !isOpen { return Some(Declined), []; }
      fault, data := Attempt(op, way, g);
      if fault == Some(Transient) && recoverable {
        fault := Reopen();
        if fault == None {
          fault, data := Attempt(op, way, g);
          assert ways == old(ways) + [way] + [way] == old(ways) + [way, way];
        }
      }
    }

    /** The operation on a data path where one serves it, else on the control link. A path is
        only ever removed while it is held; and with data paths to begin with, a refusal that
        leaves the file open has been all the way down to the control link. */
    method Bulk(op: Op, ghost g: Goal) returns (fault: Option<Fault>, data: bytes)
      requires Valid() && Toward(g, content, limbo) && Fits(op, g)
      modifies this`tick, this`content, this`limbo, this`ways, this`faults, this`arrives, this`isOpen, this`pathid,
               this`dataPaths, this`rr, this`multistream, this`statKnown, this`sizeHint
      ensures Valid() && Toward(g, content, limbo)
      ensures !recoverable ==> sizeHint == old(sizeHint)
      ensures fault == None ==> Achieved(op, g, content, data)
      ensures old(ways) <= ways && |ways| <= |old(ways)| + 5 && FallsBack(ways, |old(ways)|, 2)
      ensures (fault == Some(Transient) || fault == Some(Declined)) && isOpen ==>
                (old(multistream) && old(dataPaths) != [] ==> |ways| > |old(ways)| && ways[|ways| - 1] == Control)
      ensures old(isOpen) ==>
                && |ways| > |old(ways)| && ways[|old(ways)|] == old(FirstWay()) && tick > old(tick)
                && old(faults) <= faults && faults[|old(ways)|] == world(old(tick)).fault
                && (isOpen ==> fault == faults[|ways| - 1]) && (!isOpen ==> fault != None)
      ensures old(isOpen) && world(old(tick)).fault == None ==>
                fault == None && |ways| == |old(ways)| + 1 && isOpen && dataPaths == old(dataPaths)
      ensures op.ReadOp? && old(isOpen) && Fine(old(tick)) ==> |data| <= op.length
    {
      hide Toward, Fits, Achieved, FallsBack, Tried;
      Nowhere(ways);
      var path := NextPath();
      if path == 0 {
        var way := if pathid == 0 then Control else Split(pathid);
        fault, data := Execute(op, way, g);
        FallsFurther(old(ways), ways, |old(ways)|, 0, way);
        FallsNoFurther(ways, |old(ways)|, Rank(way));
      } else {
        fault, data := OverPaths(op, path, g);
      }
    }

    /** The three ways, from a data path on. */
    method OverPaths(op: Op, taken: nat, ghost g: Goal) returns (fault: Option<Fault>, data: bytes)
      requires Valid() && Toward(g, content, limbo) && Fits(op, g) && taken in dataPaths && taken > 0
      modifies this`tick, this`content, this`limbo, this`ways, this`faults, this`arrives, this`isOpen, this`pathid,
               this`dataPaths, this`rr, this`multistream, this`statKnown, this`sizeHint
      ensures Valid() && Toward(g, content, limbo)
      ensures !recoverable ==> sizeHint == old(sizeHint)
      ensures fault == None ==> Achieved(op, g, content, data)
      ensures old(ways) <= ways && |ways| <= |old(ways)| + 5 && FallsBack(ways, |old(ways)|, 2)
      ensures (fault == Some(Transient) || fault == Some(Declined)) && isOpen ==>
                |ways| > |old(ways)| && ways[|ways| - 1] == Control
      ensures old(isOpen) ==>
                && |ways| > |old(ways)| && tick > old(tick)
                && ways[|old(ways)|] == (if old(arrives) != Some(false) then Arriving(taken) else Split(taken))
                && old(faults) <= faults && faults[|old(ways)|] == world(old(tick)).fault
                && (isOpen ==> fault == faults[|ways| - 1]) && (!isOpen ==> fault != None)
      ensures old(isOpen) && world(old(tick)).fault == None ==>
                fault == None && |ways| == |old(ways)| + 1 && isOpen && dataPaths == old(dataPaths)
      ensures op.ReadOp? && old(isOpen) && Fine(old(tick)) ==> |data| <= op.length
      ensures old(isOpen) && !recoverable && old(arrives) != Some(false)
              && (world(old(tick)).fault == Some(Transient) || world(old(tick)).fault == Some(Declined)) ==>
                RemoveFirst(old(dataPaths), taken) <= dataPaths
    {
      hide Toward, Fits, Achieved, RemoveFirst, FallsBack, Tried;
      Nowhere(ways);
      var path := taken;
      if arrives != Some(false) {
        fault, data := Some(Declined), [];
        if isOpen { fault, data := Attempt(op, Arriving(path), g); }
        TriedOnce(old(ways), ways, Arriving(path));
        FallsFurther(old(ways), ways, |old(ways)|, 0, Arriving(path));
        FallsNoFurther(ways, |old(ways)|, 0);
        if fault == None || fault == Some(Foreign) || fault == Some(TooLarge) { return; }
        dataPaths := RemoveFirst(dataPaths, path);
        BindDataStreams();
        path := NextPath();
      }
      fault, data := FromSplit(op, path, g, |old(ways)|);
    }

    /** On from the second way, or with no path left from the third. */
    method FromSplit(op: Op, path: nat, ghost g: Goal, ghost from: nat) returns (fault: Option<Fault>, data: bytes)
      requires Valid() && Toward(g, content, limbo) && Fits(op, g) && FallsBack(ways, from, 0)
      modifies this`tick, this`content, this`limbo, this`ways, this`faults, this`arrives, this`isOpen, this`pathid,
               this`dataPaths, this`rr, this`multistream, this`statKnown, this`sizeHint
      ensures Valid() && Toward(g, content, limbo)
      ensures !recoverable ==> sizeHint == old(sizeHint)
      ensures fault == None ==> Achieved(op, g, content, data)
      ensures old(ways) <= ways && |ways| <= |old(ways)| + 4 && FallsBack(ways, from, 2)
      ensures isOpen && (fault == Some(Transient) || fault == Some(Declined)) ==>
                |ways| > |old(ways)| && ways[|ways| - 1] == Control
      ensures !old(isOpen) ==> !isOpen && ways == old(ways) && fault != None
      ensures old(isOpen) ==>
                && |ways| > |old(ways)| && (path != 0 ==> ways[|old(ways)|] == Split(path)) && tick > old(tick)
                && old(faults) <= faults && faults[|old(ways)|] == world(old(tick)).fault
                && (isOpen ==> fault == faults[|ways| - 1]) && (!isOpen ==> fault != None)
      ensures old(isOpen) && world(old(tick)).fault == None ==>
                fault == None && |ways| == |old(ways)| + 1 && isOpen && dataPaths == old(dataPaths)
      ensures op.ReadOp? && old(isOpen) && Fine(old(tick)) ==> |data| <= op.length
      ensures !recoverable ==> dataPaths == old(dataPaths)
      ensures !recoverable && old(isOpen) ==> multistream == (old(multistream) && |ways| == |old(ways)| + 1)
    {
      hide Toward, Fits, Achieved, FallsBack, Tried;
      if path == 0 {
        fault, data := Execute(op, Control, g);
        FallsFurther(old(ways), ways, from, 0, Control);
      } else {
        fault, data := SplitOrControl(op, path, g, from);
      }
    }

    /** The second and third way: the standard split, then for good the control link. */
    method SplitOrControl(op: Op, path: nat, ghost g: Goal, ghost from: nat) returns (fault: Option<Fault>, data: bytes)
      requires Valid() && Toward(g, content, limbo) && Fits(op, g) && FallsBack(ways, from, 0)
      modifies this`tick, this`content, this`limbo, this`ways, this`faults, this`arrives, this`isOpen, this`pathid,
               this`dataPaths, this`rr, this`multistream, this`statKnown, this`sizeHint
      ensures Valid() && Toward(g, content, limbo)
      ensures !recoverable ==> sizeHint == old(sizeHint)
      ensures fault == None ==> Achieved(op, g, content, data)
      ensures old(ways) <= ways && |ways| <= |old(ways)| + 4 && FallsBack(ways, from, 2)
      ensures isOpen && (fault == Some(Transient) || fault == Some(Declined)) ==>
                |ways| > |old(ways)| && ways[|ways| - 1] == Control
      ensures !old(isOpen) ==> !isOpen && ways == old(ways) && fault != None
      ensures old(isOpen) ==>
                && |ways| > |old(ways)| && ways[|old(ways)|] == Split(path) && tick > old(tick)
                && old(faults) <= faults && faults[|old(ways)|] == world(old(tick)).fault
                && (isOpen ==> fault == faults[|ways| - 1]) && (!isOpen ==> fault != None)
      ensures old(isOpen) && world(old(tick)).fault == None ==>
                fault == None && |ways| == |old(ways)| + 1 && isOpen && dataPaths == old(dataPaths)
      ensures op.ReadOp? && old(isOpen) && Fine(old(tick)) ==> |data| <= op.length
      ensures !recoverable ==> dataPaths == old(dataPaths)
      ensures !recoverable && old(isOpen) ==> multistream == (old(multistream) && |ways| == |old(ways)| + 1)
    {
      hide Toward, Fits, Achieved, FallsBack, Tried;
      ghost var tried := ways;
      fault, data := Execute(op, Split(path), g);
      FallsFurther(tried, ways, from, 0, Split(path));
      FallsNoFurther(ways, from, 1);
      if fault == None || fault == Some(Foreign) || fault == Some(TooLarge) || !isOpen { return; }
      multistream := false;
      tried := ways;
      fault, data := Execute(op, Control, g);
      FallsFurther(tried, ways, from, 1, Control);
    }

    /** Whatever pattern of attempts fails, and however much of each was or is yet to be
        applied: a write that returns has left the data spliced into the file, and no
        straggler can change that any more; one that raises has left a file on which doing
        the whole write again gives the same. What earlier calls left behind may land at any
        time too, as long as it would not change the file this write is to leave; anything
        else landing afterwards would, by `LandsQuietlyIff`. */
    method Write(data: bytes, offset: nat) returns (fault: Option<Fault>, written: nat)
      requires Valid() && AllSettled(if data == [] then content else Splice(content, offset, data), limbo)
      modifies this
      ensures Valid()
      ensures fault == None ==> written == |data|
      ensures fault == None ==> content == if data == [] then old(content) else Splice(old(content), offset, data)
      ensures AllSettled(if data == [] then old(content) else Splice(old(content), offset, data), limbo)
      ensures fault == None ==> sizeHint >= offset + |data| && !statKnown
      ensures fault == None && !recoverable ==>
                sizeHint == if old(sizeHint) < offset + |data| then offset + |data| else old(sizeHint)
      ensures data != [] ==> Splice(content, offset, data) == Splice(old(content), offset, data)
      ensures data == [] ==> content == old(content)
      ensures data == [] || (old(isOpen) && Fine(old(tick))) ==> fault == None
    {
      hide Near, Held, Achieved;
      fault, written := None, 0;
      if data != [] {
        ghost var g := Goal(Splice(content, offset, data), offset, offset + |data|, offset);
        Sets(content, offset, data, limbo);
        SettledNow(content, offset, data);
        fault := WriteChunks(data, offset, g);
        Again(g, content, limbo, data);
        if fault != None { return; }
        written := |data|;
      }
      if sizeHint < offset + written { sizeHint := offset + written; }
      statKnown := false;
    }

    /** The chunk loop of a write. */
    method WriteChunks(data: bytes, offset: nat, ghost g: Goal) returns (fault: Option<Fault>)
      requires Valid() && data != [] && Settled(g.final, Straggler(offset, data))
      requires g == Goal(g.final, offset, offset + |data|, offset) && Toward(g, content, limbo)
      modifies this
      ensures Valid() && Toward(g, content, limbo)
      ensures fault == None ==> content == g.final
      ensures !recoverable ==> sizeHint == old(sizeHint)
      ensures old(isOpen) && Fine(old(tick)) ==> fault == None
    {
      hide Near, Held, AllSettled, Achieved, Settled;
      var written := 0;
      ghost var now := g;
      while written < |data|
        invariant written <= |data| && Valid() && (!recoverable ==> sizeHint == old(sizeHint))
        invariant now == g.(mid := offset + written) && Toward(now, content, limbo)
        invariant old(isOpen) && Fine(old(tick)) ==> isOpen && tick >= old(tick)
      {
        var end := if chunkSize < |data| - written then written + chunkSize else |data|;
        ChunkSettled(g.final, offset, data, written, end);
        var op := WriteOp(offset + written, data[written..end]);
        var none;
        fault, none := Bulk(op, now);
        HeldLess(now, g, content, limbo);
        if fault != None { return; }
        HeldMore(now, content, limbo, op, none);
        written := end;
        now := g.(mid := offset + written);
      }
      HeldLess(now, g, content, limbo);
      Arrived(now, content, limbo);
      fault := None;
    }

    /** The file's length: as last heard if that is known, or asked for. */
    method Size() returns (fault: Option<Fault>, size: nat)
      requires Valid() && AllSettled(content, limbo)
      modifies this
      ensures Valid() && content == old(content) && AllSettled(content, limbo)
      ensures fault == None ==> size == if old(statKnown) then old(sizeHint) else |content|
      ensures old(isOpen) && Fine(old(tick)) ==> fault == None && isOpen && tick >= old(tick)
    {
      if statKnown { return None, sizeHint; }
      ghost var g := Goal(content, 0, 0, 0);
      var none;
      fault, none := Execute(StatOp, Control, g);
      Arrived(g, content, limbo);
      if fault != None { return fault, 0; }
      statKnown, sizeHint := true, |content|;
      size := sizeHint;
    }

    /** A read that returns has the file's bytes from `offset` on: as many as asked for, or
        for a negative size up to the length last heard, and fewer only at the end of the
        file; however it was split and whichever links served it. More bytes than asked for
        are refused, and so is a whole file longer than the configuration allows. */
    method Read(size: int, offset: nat) returns (fault: Option<Fault>, data: bytes)
      requires Valid() && AllSettled(content, limbo)
      modifies this
      ensures Valid() && AllSettled(content, limbo) && content == old(content)
      ensures fault == None && size >= 0 ==> data == Slice(content, offset, offset + size)
      ensures fault == None && size < 0 ==>
                var known := if old(statKnown) then old(sizeHint) else |content|;
                && data == Slice(content, offset, known)
                && (maxRead > 0 ==> known - offset <= maxRead)
      ensures old(isOpen) && Fine(old(tick)) ==>
                var known := if old(statKnown) then old(sizeHint) else |content|;
                fault == if size < 0 && maxRead > 0 && known - offset > maxRead then Some(TooLarge) else None
    {
      var remaining := size;
      if size < 0 {
        var known;
        fault, known := Size();
        if fault != None { return fault, []; }
        remaining := if known < offset then 0 else known - offset;
        if maxRead > 0 && remaining > maxRead { return Some(TooLarge), []; }
      }
      fault, data := ReadChunks(remaining, offset);
    }

    /** The chunk loop of a read. */
    method ReadChunks(size: nat, offset: nat) returns (fault: Option<Fault>, data: bytes)
      requires Valid() && AllSettled(content, limbo)
      modifies this
      ensures Valid() && AllSettled(content, limbo) && content == old(content)
      ensures fault == None ==> data == Slice(content, offset, offset + size)
      ensures old(isOpen) && Fine(old(tick)) ==> fault == None
    {
      hide Settled;
      fault, data := None, [];
      var at, remaining := offset, size;
      while remaining > 0
        invariant Valid() && content == old(content) && AllSettled(content, limbo)
        invariant at + remaining == offset + size && offset <= at <= offset + size
        invariant data == Slice(content, offset, at) && |data| == at - offset
        invariant old(isOpen) && Fine(old(tick)) ==> isOpen && tick >= old(tick)
        invariant fault == None
        decreases remaining
      {
        var n := if chunkSize < remaining then chunkSize else remaining;
        ghost var g := Goal(content, 0, 0, 0);
        var piece;
        fault, piece := Bulk(ReadOp(at, n), g);
        Arrived(g, content, limbo);
        if fault != None { return; }
        if |piece| > n { return Some(Declined), []; }
        SliceJoin(content, offset, at, at + n);
        data := data + piece;
        if |piece| < n {
          SliceEnds(content, offset, at, at + n, offset + size);
          return;
        }
        at, remaining := at + n, remaining - n;
      }
    }
  }

  lemma PartSettled(final: bytes, s: Straggler, k: nat)
    requires Settled(final, s) && 0 < k <= |s.body|
    ensures Settled(final, Straggler(s.at, s.body[..k]))
  {
    assert final[s.at..s.at + k] == final[s.at..s.at + |s.body|][..k];
  }

  lemma SettledNow(file: bytes, offset: nat, data: bytes)
    requires data != []
    ensures Settled(Splice(file, offset, data), Straggler(offset, data))
  {
    SpliceIs(file, offset, data);
  }

  lemma HeldLess(g: Goal, less: Goal, file: bytes, limbo: seq<Straggler>)
    requires Toward(g, file, limbo) && less == g.(mid := g.lo)
    ensures Toward(less, file, limbo)
  {
  }

  lemma HeldMore(g: Goal, file: bytes, limbo: seq<Straggler>, op: Op, data: bytes)
    requires Toward(g, file, limbo) && op.WriteOp? && Fits(op, g) && Achieved(op, g, file, data)
    requires g.lo <= op.at == g.mid
    ensures Toward(g.(mid := op.at + |op.body|), file, limbo)
  {
    var s := Straggler(op.at, op.body);
    forall j | g.lo <= j < op.at + |op.body|
      ensures file[j] == g.final[j]
    {
      if j >= op.at {
        SettledAt(file, s, j);
        SettledAt(g.final, s, j);
      }
    }
  }

  lemma SliceJoin(b: bytes, lo: nat, mid: nat, hi: nat)
    requires lo <= mid <= hi && |Slice(b, lo, mid)| == mid - lo
    ensures Slice(b, lo, hi) == Slice(b, lo, mid) + Slice(b, mid, hi)
  {
  }

  /** A piece shorter than asked for is the last. */
  lemma SliceEnds(b: bytes, lo: nat, mid: nat, hi: nat, end: nat)
    requires lo <= mid <= hi <= end && |Slice(b, mid, hi)| < hi - mid
    ensures Slice(b, lo, end) == Slice(b, lo, hi)
  {
  }
}
