/** Key-binding tables that inherit from each other across a document and the built-in defaults. */
module Bindings {
  import opened Arithmetic

  /** What a key does in a layer. */
  datatype Act = Bind(command: nat) | Unbind | Caption(text: string)

  datatype Op = Op(key: string, act: Act)

  datatype Table = Table(inherit: seq<string>, own: seq<Op>)

  /** Where inherited names resolve. A name in both places merges, defaults first. */
  datatype Scope = Scope(document: map<string, Table>, defaults: map<string, Table>) {
    function Names(): set<string> {
      document.Keys + defaults.Keys
    }

    /** The tables of one of the two places. */
    function Tables(fromDocument: bool): map<string, Table> {
      if fromDocument then document else defaults
    }

    /** Every name the tables of `name` inherit. */
    function Inherits(name: string): seq<string> {
      (if name in defaults then defaults[name].inherit else [])
      + (if name in document then document[name].inherit else [])
    }
  }

  datatype Failure = Cycle(name: string) | Unknown(name: string)

  /** One step into an inherited table: which entry of the list, and from which place. */
  datatype Hop = Hop(entry: nat, fromDocument: bool)

  /** An operation with the way to the table it stands in. */
  datatype Emitted = Emitted(path: seq<Hop>, op: Op)

  datatype Expansion = Ok(ops: seq<Emitted>) | Err(failure: Failure)

  function Tagged(own: seq<Op>, path: seq<Hop>): (ops: seq<Emitted>)
    ensures |ops| == |own| && forall i :: 0 <= i < |own| ==> ops[i] == Emitted(path, own[i])
  {
    if own == [] then [] else Tagged(own[..|own| - 1], path) + [Emitted(path, own[|own| - 1])]
  }

  function Members(names: seq<string>): (members: set<string>)
    ensures forall x :: x in members <==> x in names
  {
    set x | x in names
  }

  /** What may still be expanded. */
  function Unvisited(s: Scope, inheriting: seq<string>): set<string> {
    s.Names() - Members(inheriting)
  }

  /** The operations of a table: everything inherited, then its own. */
  function Expand(s: Scope, t: Table, inheriting: seq<string>, path: seq<Hop>): Expansion
    decreases Unvisited(s, inheriting), 2, 0
  {
    match ExpandNames(s, t.inherit, 0, inheriting, path)
    case Err(failure) => Err(failure)
    case Ok(inherited) => Ok(inherited + Tagged(t.own, path))
  }

  /** The names of an inherit list from entry `k` on. */
  function ExpandNames(s: Scope, names: seq<string>, k: nat, inheriting: seq<string>, path: seq<Hop>): Expansion
    requires k <= |names|
    decreases Unvisited(s, inheriting), 1, |names| - k
  {
    if k == |names| then Ok([])
    else
      match ExpandName(s, names[k], k, inheriting, path)
      case Err(failure) => Err(failure)
      case Ok(first) =>
        match ExpandNames(s, names, k + 1, inheriting, path)
        case Err(failure) => Err(failure)
        case Ok(rest) => Ok(first + rest)
  }

  function ExpandName(s: Scope, name: string, k: nat, inheriting: seq<string>, path: seq<Hop>): Expansion
    decreases Unvisited(s, inheriting), 0, 1
  {
    if name in inheriting then Err(Cycle(name))
    else if name !in s.Names() then Err(Unknown(name))
    else
      match ExpandIn(s, name, false, k, inheriting, path)
      case Err(failure) => Err(failure)
      case Ok(first) =>
        match ExpandIn(s, name, true, k, inheriting, path)
        case Err(failure) => Err(failure)
        case Ok(second) => Ok(first + second)
  }

  function ExpandIn(s: Scope, name: string, fromDocument: bool, k: nat, inheriting: seq<string>,
                    path: seq<Hop>): Expansion
    requires name in s.Names() && name !in inheriting
    decreases Unvisited(s, inheriting), 0, 0
  {
    assert name in Unvisited(s, inheriting) && name !in Unvisited(s, inheriting + [name]);
    if name !in s.Tables(fromDocument) then Ok([])
    else Expand(s, s.Tables(fromDocument)[name], inheriting + [name], path + [Hop(k, fromDocument)])
  }

  // --- When an expansion fails -------------------------------------------------------------

  /** A way from an inherit list through the tables, name by name. */
  ghost predicate Walk(s: Scope, names: seq<string>, p: seq<string>)
    decreases |p|
  {
    p != [] && p[0] in names && (|p| > 1 ==> Walk(s, s.Inherits(p[0]), p[1..]))
  }

  /** The way ends at a name that is undefined or that is being expanded already. */
  ghost predicate Stuck(s: Scope, inheriting: seq<string>, p: seq<string>)
    requires p != []
  {
    var n := |p| - 1;
    p[n] !in s.Names() || p[n] in inheriting || p[n] in p[..n]
  }

  lemma {:induction false} StuckTail(s: Scope, inheriting: seq<string>, p: seq<string>)
    requires |p| > 1
    ensures Stuck(s, inheriting, p) <==> Stuck(s, inheriting + [p[0]], p[1..])
  {
    var n := |p| - 1;
    assert p[..n] == [p[0]] + p[1..][..n - 1];
  }

  lemma {:induction false} NamesFail(s: Scope, names: seq<string>, k: nat, inheriting: seq<string>, path: seq<Hop>)
    requires k <= |names|
    ensures ExpandNames(s, names, k, inheriting, path).Err? <==>
              exists j :: k <= j < |names| && ExpandName(s, names[j], j, inheriting, path).Err?
    decreases |names| - k
  {
    hide ExpandName;
    if k < |names| {
      NamesFail(s, names, k + 1, inheriting, path);
    }
  }

  /** An expansion that fails has a way on which it got stuck. */
  lemma {:induction false} FailureHasWalk(s: Scope, t: Table, inheriting: seq<string>, path: seq<Hop>)
    returns (p: seq<string>)
    requires Expand(s, t, inheriting, path).Err?
    ensures Walk(s, t.inherit, p) && Stuck(s, inheriting, p)
    decreases Unvisited(s, inheriting)
  {
    NamesFail(s, t.inherit, 0, inheriting, path);
    var j :| 0 <= j < |t.inherit| && ExpandName(s, t.inherit[j], j, inheriting, path).Err?;
    var name := t.inherit[j];
    if name in inheriting || name !in s.Names() {
      return [name];
    }
    var fromDocument := FailingTable(s, name, j, inheriting, path);
    assert name in Unvisited(s, inheriting) && name !in Unvisited(s, inheriting + [name]);
    var target := s.Tables(fromDocument)[name];
    var rest := FailureHasWalk(s, target, inheriting + [name], path + [Hop(j, fromDocument)]);
    p := [name] + rest;
    hide Expand;
    assert p[1..] == rest;
    WalkWidens(s, target.inherit, s.Inherits(name), rest);
    StuckTail(s, inheriting, p);
  }

  /** The table through which a defined name fails. */
  lemma {:induction false} FailingTable(s: Scope, name: string, j: nat, inheriting: seq<string>, path: seq<Hop>)
    returns (fromDocument: bool)
    requires name in s.Names() && name !in inheriting && ExpandName(s, name, j, inheriting, path).Err?
    ensures name in s.Tables(fromDocument)
    ensures Expand(s, s.Tables(fromDocument)[name], inheriting + [name], path + [Hop(j, fromDocument)]).Err?
  {
    hide Expand;
    fromDocument := !ExpandIn(s, name, false, j, inheriting, path).Err?;
    assert ExpandIn(s, name, fromDocument, j, inheriting, path).Err?;
  }

  lemma {:induction false} WalkWidens(s: Scope, names: seq<string>, more: seq<string>, p: seq<string>)
    requires Walk(s, names, p) && forall x :: x in names ==> x in more
    ensures Walk(s, more, p)
  {
  }

  /** A way to a stuck name makes the expansion fail. */
  lemma {:induction false} WalkMakesFailure(s: Scope, t: Table, inheriting: seq<string>, path: seq<Hop>, p: seq<string>)
    requires Walk(s, t.inherit, p) && Stuck(s, inheriting, p)
    ensures Expand(s, t, inheriting, path).Err?
    decreases |p|
  {
    var j :| 0 <= j < |t.inherit| && t.inherit[j] == p[0];
    assert ExpandName(s, p[0], j, inheriting, path).Err? by {
      NameFails(s, p[0], j, inheriting, path, p);
    }
    NamesFail(s, t.inherit, 0, inheriting, path);
  }

  lemma {:induction false} NameFails(s: Scope, name: string, j: nat, inheriting: seq<string>, path: seq<Hop>,
                                     p: seq<string>)
    requires p != [] && p[0] == name && Walk(s, [name], p) && Stuck(s, inheriting, p)
    ensures ExpandName(s, name, j, inheriting, path).Err?
    decreases |p|, 0
  {
    if |p| > 1 && name !in inheriting {
      StuckTail(s, inheriting, p);
      var next := p[1];
      assert next in s.Inherits(name);
      var fromDocument := !(name in s.defaults && next in s.defaults[name].inherit);
      var target := s.Tables(fromDocument)[name];
      assert Walk(s, target.inherit, p[1..]) by {
        WalkNarrows(s, s.Inherits(name), target.inherit, p[1..]);
      }
      WalkMakesFailure(s, target, inheriting + [name], path + [Hop(j, fromDocument)], p[1..]);
    }
  }

  lemma {:induction false} WalkNarrows(s: Scope, names: seq<string>, fewer: seq<string>, p: seq<string>)
    requires Walk(s, names, p) && p[0] in fewer
    ensures Walk(s, fewer, p)
  {
  }

  // --- Reachable, undefined, on a cycle -----------------------------------------------------------

  ghost predicate Reaches(s: Scope, names: seq<string>, name: string) {
    exists p :: Walk(s, names, p) && p != [] && p[|p| - 1] == name
  }

  ghost predicate OnCycle(s: Scope, name: string) {
    Reaches(s, s.Inherits(name), name)
  }

  lemma {:induction false} WalkPrefix(s: Scope, names: seq<string>, p: seq<string>, n: nat)
    requires Walk(s, names, p) && 0 < n <= |p|
    ensures Walk(s, names, p[..n])
    decreases |p|
  {
    if n > 1 {
      WalkPrefix(s, s.Inherits(p[0]), p[1..], n - 1);
      assert p[..n][1..] == p[1..][..n - 1];
    }
  }

  lemma {:induction false} WalkSuffix(s: Scope, names: seq<string>, p: seq<string>, n: nat)
    requires Walk(s, names, p) && n + 1 < |p|
    ensures Walk(s, s.Inherits(p[n]), p[n + 1..])
    decreases |p|
  {
    if n > 0 {
      WalkSuffix(s, s.Inherits(p[0]), p[1..], n - 1);
      assert p[1..][n..] == p[n + 1..];
    }
  }

  lemma {:induction false} WalkConcat(s: Scope, names: seq<string>, p: seq<string>, q: seq<string>)
    requires Walk(s, names, p) && Walk(s, s.Inherits(p[|p| - 1]), q)
    ensures Walk(s, names, p + q)
    decreases |p|
  {
    if |p| > 1 {
      WalkConcat(s, s.Inherits(p[0]), p[1..], q);
      assert (p + q)[1..] == p[1..] + q;
    } else {
      assert (p + q)[1..] == q;
    }
  }

  /** Expanding a layer fails exactly when a name it reaches is undefined or lies on a cycle. */
  lemma {:induction false} FailsIff(s: Scope, t: Table)
    ensures Expand(s, t, [], []).Err? <==>
              exists name :: Reaches(s, t.inherit, name) && (name !in s.Names() || OnCycle(s, name))
  {
    hide Expand, Walk;
    if Expand(s, t, [], []).Err? {
      var p := FailureHasWalk(s, t, [], []);
      WalkNonEmpty(s, t.inherit, p);
      var n := |p| - 1;
      if p[n] !in s.Names() {
        assert Reaches(s, t.inherit, p[n]);
      } else {
        var i :| 0 <= i < n && p[i] == p[n];
        RepeatIsCycle(s, t.inherit, p, i);
      }
    }
    if name :| Reaches(s, t.inherit, name) && (name !in s.Names() || OnCycle(s, name)) {
      var p :| Walk(s, t.inherit, p) && p != [] && p[|p| - 1] == name;
      if name in s.Names() {
        var q :| Walk(s, s.Inherits(name), q) && q != [] && q[|q| - 1] == name;
        WalkConcat(s, t.inherit, p, q);
        assert (p + q)[..|p + q| - 1][|p| - 1] == name;
        WalkMakesFailure(s, t, [], [], p + q);
      } else {
        WalkMakesFailure(s, t, [], [], p);
      }
    }
  }

  lemma {:induction false} WalkNonEmpty(s: Scope, names: seq<string>, p: seq<string>)
    requires Walk(s, names, p)
    ensures p != []
  {
  }

  lemma {:induction false} RepeatIsCycle(s: Scope, names: seq<string>, p: seq<string>, i: nat)
    requires Walk(s, names, p) && i < |p| - 1 && p[i] == p[|p| - 1]
    ensures Reaches(s, names, p[i]) && OnCycle(s, p[i])
  {
    hide Walk;
    WalkPrefix(s, names, p, i + 1);
    WalkSuffix(s, names, p, i);
    var there, back := p[..i + 1], p[i + 1..];
    assert Walk(s, names, there) && there != [] && there[|there| - 1] == p[i];
    assert Walk(s, s.Inherits(p[i]), back) && back != [] && back[|back| - 1] == p[i];
  }

  // --- The order of what is emitted ---------------------------------------------------------------

  /** `p` comes before `q`: it is inherited by it, or branches off at an earlier entry, or at its defaults. */
  predicate Before(p: seq<Hop>, q: seq<Hop>)
    decreases |q|
  {
    if q == [] then p != []
    else p != [] && ((p[0] == q[0] && Before(p[1..], q[1..])) || Sooner(p[0], q[0]))
  }

  predicate Sooner(a: Hop, b: Hop) {
    a.entry < b.entry || (a.entry == b.entry && !a.fromDocument && b.fromDocument)
  }

  /** Emitted in order of the ways. */
  ghost predicate InOrder(ops: seq<Emitted>) {
    forall i, j :: 0 <= i < j < |ops| ==> ops[i].path == ops[j].path || Before(ops[i].path, ops[j].path)
  }

  /** `p` goes on from `path`, at an entry from `low` up to `high`. */
  ghost predicate Extends(p: seq<Hop>, path: seq<Hop>, low: nat, high: nat) {
    |path| < |p| && p[..|path|] == path && low <= p[|path|].entry < high
  }

  ghost predicate Below(ops: seq<Emitted>, path: seq<Hop>, low: nat, high: nat) {
    forall i :: 0 <= i < |ops| ==> Extends(ops[i].path, path, low, high)
  }

  /** Everything was emitted from the table at `path` or from what it inherits. */
  ghost predicate Under(ops: seq<Emitted>, path: seq<Hop>) {
    forall i :: 0 <= i < |ops| ==> path <= ops[i].path
  }

  lemma {:induction false} BeforeCommon(path: seq<Hop>, p: seq<Hop>, q: seq<Hop>)
    ensures Before(path + p, path + q) <==> Before(p, q)
  {
    if path == [] {
      assert path + p == p && path + q == q;
    } else {
      BeforeCommon(path[1..], p, q);
      assert (path + p)[1..] == path[1..] + p && (path + q)[1..] == path[1..] + q;
    }
  }

  /** A table's own operations come after everything it inherits. */
  lemma {:induction false} InheritedFirst(p: seq<Hop>, path: seq<Hop>)
    requires path < p
    ensures Before(p, path)
  {
    assert p == path + p[|path|..] && path == path + [];
    BeforeCommon(path, p[|path|..], []);
  }

  /** Ways that part at a hop are ordered by it. */
  lemma {:induction false} PartedOrder(p: seq<Hop>, q: seq<Hop>, path: seq<Hop>)
    requires |path| < |p| && |path| < |q| && p[..|path|] == path && q[..|path|] == path
    requires Sooner(p[|path|], q[|path|])
    ensures Before(p, q)
  {
    assert p == path + p[|path|..] && q == path + q[|path|..];
    BeforeCommon(path, p[|path|..], q[|path|..]);
  }

  lemma {:induction false} JoinInOrder(a: seq<Emitted>, b: seq<Emitted>)
    requires InOrder(a) && InOrder(b)
    requires forall i, j :: 0 <= i < |a| && 0 <= j < |b| ==> Before(a[i].path, b[j].path)
    ensures InOrder(a + b)
  {
  }

  /** The theorem: inherited before own, earlier entries before later ones, the defaults before the document. */
  lemma {:induction false} ExpandInOrder(s: Scope, t: Table, inheriting: seq<string>, path: seq<Hop>)
    ensures var e := Expand(s, t, inheriting, path); e.Ok? ==> InOrder(e.ops) && Under(e.ops, path)
    decreases Unvisited(s, inheriting), 2, 0
  {
    NamesInOrder(s, t.inherit, 0, inheriting, path);
    var e := ExpandNames(s, t.inherit, 0, inheriting, path);
    if e.Ok? {
      hide Expand, ExpandNames, Before;
      OwnLast(e.ops, Tagged(t.own, path), path, |t.inherit|);
      assert Expand(s, t, inheriting, path) == Ok(e.ops + Tagged(t.own, path)) by {
        ExpandIs(s, t, inheriting, path);
      }
    }
  }

  lemma {:induction false} ExpandIs(s: Scope, t: Table, inheriting: seq<string>, path: seq<Hop>)
    ensures var inherited := ExpandNames(s, t.inherit, 0, inheriting, path);
            Expand(s, t, inheriting, path) ==
            if inherited.Ok? then Ok(inherited.ops + Tagged(t.own, path)) else inherited
  {
    hide ExpandNames;
  }

  lemma {:induction false} OwnLast(inherited: seq<Emitted>, own: seq<Emitted>, path: seq<Hop>, high: nat)
    requires InOrder(inherited) && Below(inherited, path, 0, high)
    requires forall i :: 0 <= i < |own| ==> own[i].path == path
    ensures InOrder(inherited + own) && Under(inherited + own, path)
  {
    hide Before;
    forall i | 0 <= i < |inherited|
      ensures Before(inherited[i].path, path)
    {
      InheritedFirst(inherited[i].path, path);
    }
    JoinInOrder(inherited, own);
  }

  lemma {:induction false} NamesInOrder(s: Scope, names: seq<string>, k: nat, inheriting: seq<string>, path: seq<Hop>)
    requires k <= |names|
    ensures var e := ExpandNames(s, names, k, inheriting, path);
            e.Ok? ==> InOrder(e.ops) && Below(e.ops, path, k, |names|)
    decreases Unvisited(s, inheriting), 1, |names| - k
  {
    if k < |names| && ExpandNames(s, names, k, inheriting, path).Ok? {
      NameInOrder(s, names[k], k, inheriting, path);
      NamesInOrder(s, names, k + 1, inheriting, path);
      var first := ExpandName(s, names[k], k, inheriting, path).ops;
      var rest := ExpandNames(s, names, k + 1, inheriting, path).ops;
      hide ExpandNames, ExpandName, Before;
      EntriesInOrder(first, rest, path, k, |names|);
      assert ExpandNames(s, names, k, inheriting, path) == Ok(first + rest) by {
        NamesIs(s, names, k, inheriting, path);
      }
    }
  }

  lemma {:induction false} NamesIs(s: Scope, names: seq<string>, k: nat, inheriting: seq<string>, path: seq<Hop>)
    requires k < |names| && ExpandName(s, names[k], k, inheriting, path).Ok?
    requires ExpandNames(s, names, k + 1, inheriting, path).Ok?
    ensures ExpandNames(s, names, k, inheriting, path) ==
            Ok(ExpandName(s, names[k], k, inheriting, path).ops + ExpandNames(s, names, k + 1, inheriting, path).ops)
  {
    hide ExpandName;
  }

  lemma {:induction false} EntriesInOrder(first: seq<Emitted>, rest: seq<Emitted>, path: seq<Hop>, k: nat, n: nat)
    requires InOrder(first) && InOrder(rest) && Below(first, path, k, k + 1) && Below(rest, path, k + 1, n) && k < n
    ensures InOrder(first + rest) && Below(first + rest, path, k, n)
  {
    hide Before;
    forall i, j | 0 <= i < |first| && 0 <= j < |rest|
      ensures Before(first[i].path, rest[j].path)
    {
      PartedOrder(first[i].path, rest[j].path, path);
    }
    JoinInOrder(first, rest);
  }

  lemma {:induction false} NameInOrder(s: Scope, name: string, k: nat, inheriting: seq<string>, path: seq<Hop>)
    ensures var e := ExpandName(s, name, k, inheriting, path); e.Ok? ==> InOrder(e.ops) && Below(e.ops, path, k, k + 1)
    decreases Unvisited(s, inheriting), 0, 1
  {
    if ExpandName(s, name, k, inheriting, path).Ok? {
      InInOrder(s, name, false, k, inheriting, path);
      InInOrder(s, name, true, k, inheriting, path);
      var first := ExpandIn(s, name, false, k, inheriting, path).ops;
      var second := ExpandIn(s, name, true, k, inheriting, path).ops;
      assert ExpandName(s, name, k, inheriting, path) == Ok(first + second);
      hide ExpandName, ExpandIn, Before;
      PlacesInOrder(first, second, path, k);
    }
  }

  lemma {:induction false} PlacesInOrder(first: seq<Emitted>, second: seq<Emitted>, path: seq<Hop>, k: nat)
    requires InOrder(first) && InOrder(second)
    requires Under(first, path + [Hop(k, false)]) && Under(second, path + [Hop(k, true)])
    ensures InOrder(first + second) && Below(first + second, path, k, k + 1)
  {
    hide Before;
    forall i | 0 <= i < |first|
      ensures Extends(first[i].path, path, k, k + 1) && first[i].path[|path|] == Hop(k, false)
    {
      StartsWith(first[i].path, path, Hop(k, false));
    }
    forall j | 0 <= j < |second|
      ensures Extends(second[j].path, path, k, k + 1) && second[j].path[|path|] == Hop(k, true)
    {
      StartsWith(second[j].path, path, Hop(k, true));
    }
    forall i, j | 0 <= i < |first| && 0 <= j < |second|
      ensures Before(first[i].path, second[j].path)
    {
      PartedOrder(first[i].path, second[j].path, path);
    }
    JoinInOrder(first, second);
  }

  lemma {:induction false} StartsWith(p: seq<Hop>, path: seq<Hop>, hop: Hop)
    requires path + [hop] <= p
    ensures |path| < |p| && p[..|path|] == path && p[|path|] == hop
  {
    assert p[..|path| + 1] == path + [hop];
    assert p[..|path|] == p[..|path| + 1][..|path|];
  }

  lemma {:induction false} InInOrder(s: Scope, name: string, fromDocument: bool, k: nat, inheriting: seq<string>,
                                     path: seq<Hop>)
    requires name in s.Names() && name !in inheriting
    ensures var e := ExpandIn(s, name, fromDocument, k, inheriting, path);
            e.Ok? ==> InOrder(e.ops) && Under(e.ops, path + [Hop(k, fromDocument)])
    decreases Unvisited(s, inheriting), 0, 0
  {
    assert name in Unvisited(s, inheriting) && name !in Unvisited(s, inheriting + [name]);
    if name in s.Tables(fromDocument) {
      ExpandInOrder(s, s.Tables(fromDocument)[name], inheriting + [name], path + [Hop(k, fromDocument)]);
    }
  }

  // --- What is emitted --------------------------------------------------------------------------------

  /** The operations of the table that way `q` leads to from `t`, in their order there; none if it leads nowhere. */
  function OwnAt(s: Scope, t: Table, q: seq<Hop>): seq<Op>
    decreases |q|
  {
    if q == [] then t.own
    else if q[0].entry < |t.inherit| then OwnPast(s, t.inherit[q[0].entry], q) else []
  }

  /** ... when its first hop goes to `name`. */
  function OwnPast(s: Scope, name: string, q: seq<Hop>): seq<Op>
    requires q != []
    decreases |q|, 0
  {
    var tables := s.Tables(q[0].fromDocument);
    if name in tables then OwnAt(s, tables[name], q[1..]) else []
  }

  /** What was emitted from the table at `p`, in order. */
  function Standing(ops: seq<Emitted>, p: seq<Hop>): seq<Op> {
    if ops == [] then []
    else
      var last := ops[|ops| - 1];
      Standing(ops[..|ops| - 1], p) + if last.path == p then [last.op] else []
  }

  lemma {:induction false} StandingConcat(a: seq<Emitted>, b: seq<Emitted>, p: seq<Hop>)
    ensures Standing(a + b, p) == Standing(a, p) + Standing(b, p)
  {
    if b == [] {
      assert a + b == a;
    } else {
      var n := |b| - 1;
      StandingConcat(a, b[..n], p);
      assert (a + b)[..|a + b| - 1] == a + b[..n];
    }
  }

  lemma {:induction false} StandingElsewhere(ops: seq<Emitted>, p: seq<Hop>)
    requires forall i :: 0 <= i < |ops| ==> ops[i].path != p
    ensures Standing(ops, p) == []
  {
    if ops != [] {
      StandingElsewhere(ops[..|ops| - 1], p);
    }
  }

  lemma {:induction false} StandingOwn(own: seq<Op>, path: seq<Hop>)
    ensures Standing(Tagged(own, path), path) == own
  {
    if own != [] {
      var n := |own| - 1;
      StandingOwn(own[..n], path);
      assert Tagged(own, path)[..n] == Tagged(own[..n], path);
      assert own == own[..n] + [own[n]];
    }
  }

  /**
   * Every way through the inherit lists contributes the operations of the table it leads to, once and in their order
   * there, and nothing else is emitted.
   */
  lemma {:induction false} ExpandEmits(s: Scope, t: Table, inheriting: seq<string>, path: seq<Hop>, q: seq<Hop>)
    ensures var e := Expand(s, t, inheriting, path);
            e.Ok? ==> Under(e.ops, path) && Standing(e.ops, path + q) == OwnAt(s, t, q)
    decreases Unvisited(s, inheriting), 2, 0
  {
    hide Expand, ExpandNames, InOrder, Under, OwnPast, Unvisited;
    ExpandInOrder(s, t, inheriting, path);
    ExpandIs(s, t, inheriting, path);
    var e := ExpandNames(s, t.inherit, 0, inheriting, path);
    if e.Ok? {
      NamesInOrder(s, t.inherit, 0, inheriting, path);
      if q != [] {
        NamesEmit(s, t.inherit, 0, inheriting, path, q);
      }
      StandingConcat(e.ops, Tagged(t.own, path), path + q);
      if q == [] {
        assert path + q == path;
        StandingElsewhere(e.ops, path);
        StandingOwn(t.own, path);
      } else {
        StandingElsewhere(Tagged(t.own, path), path + q);
      }
    }
  }

  lemma {:induction false} NamesEmit(s: Scope, names: seq<string>, k: nat, inheriting: seq<string>, path: seq<Hop>,
                                     q: seq<Hop>)
    requires k <= |names| && q != []
    ensures var e := ExpandNames(s, names, k, inheriting, path);
            e.Ok? ==>
              Standing(e.ops, path + q) == if k <= q[0].entry < |names| then OwnPast(s, names[q[0].entry], q) else []
    decreases Unvisited(s, inheriting), 1, |names| - k
  {
    if k == |names| {
      assert Standing([], path + q) == [];
    } else if ExpandNames(s, names, k, inheriting, path).Ok? {
      hide ExpandNames, ExpandName, OwnPast, OwnAt, Standing, Unvisited;
      NamesParts(s, names, k, inheriting, path);
      NameEmits(s, names[k], k, inheriting, path, q);
      NamesEmit(s, names, k + 1, inheriting, path, q);
      var first, rest := ExpandName(s, names[k], k, inheriting, path), ExpandNames(s, names, k + 1, inheriting, path);
      StandingConcat(first.ops, rest.ops, path + q);
    }
  }

  lemma {:induction false} NamesParts(s: Scope, names: seq<string>, k: nat, inheriting: seq<string>, path: seq<Hop>)
    requires k < |names| && ExpandNames(s, names, k, inheriting, path).Ok?
    ensures var first := ExpandName(s, names[k], k, inheriting, path);
            var rest := ExpandNames(s, names, k + 1, inheriting, path);
            first.Ok? && rest.Ok? && ExpandNames(s, names, k, inheriting, path) == Ok(first.ops + rest.ops)
  {
    hide ExpandName;
  }

  lemma {:induction false} NameEmits(s: Scope, name: string, k: nat, inheriting: seq<string>, path: seq<Hop>,
                                     q: seq<Hop>)
    requires q != []
    ensures var e := ExpandName(s, name, k, inheriting, path);
            e.Ok? ==> Standing(e.ops, path + q) == if q[0].entry == k then OwnPast(s, name, q) else []
    decreases Unvisited(s, inheriting), 0, 1
  {
    if ExpandName(s, name, k, inheriting, path).Ok? {
      InEmits(s, name, false, k, inheriting, path, q);
      InEmits(s, name, true, k, inheriting, path, q);
      var first := ExpandIn(s, name, false, k, inheriting, path).ops;
      var second := ExpandIn(s, name, true, k, inheriting, path).ops;
      assert ExpandName(s, name, k, inheriting, path) == Ok(first + second);
      hide ExpandName, ExpandIn, OwnPast;
      StandingConcat(first, second, path + q);
    }
  }

  lemma {:induction false} InEmits(s: Scope, name: string, fromDocument: bool, k: nat, inheriting: seq<string>,
                                   path: seq<Hop>, q: seq<Hop>)
    requires name in s.Names() && name !in inheriting && q != []
    ensures var e := ExpandIn(s, name, fromDocument, k, inheriting, path);
            e.Ok? ==> Standing(e.ops, path + q) == if q[0] == Hop(k, fromDocument) then OwnPast(s, name, q) else []
    decreases Unvisited(s, inheriting), 0, 0
  {
    assert name in Unvisited(s, inheriting) && name !in Unvisited(s, inheriting + [name]);
    var hop := Hop(k, fromDocument);
    if name in s.Tables(fromDocument) {
      ExpandEmits(s, s.Tables(fromDocument)[name], inheriting + [name], path + [hop], q[1..]);
      if ExpandIn(s, name, fromDocument, k, inheriting, path).Ok? {
        var ops := ExpandIn(s, name, fromDocument, k, inheriting, path).ops;
        if q[0] == hop {
          assert path + [hop] + q[1..] == path + q;
        } else {
          hide Expand, ExpandIn;
          OtherWay(ops, path, hop, q);
        }
      }
    }
  }

  lemma {:induction false} OtherWay(ops: seq<Emitted>, path: seq<Hop>, hop: Hop, q: seq<Hop>)
    requires Under(ops, path + [hop]) && q != [] && q[0] != hop
    ensures Standing(ops, path + q) == []
  {
    forall i | 0 <= i < |ops|
      ensures ops[i].path != path + q
    {
      StartsWith(ops[i].path, path, hop);
    }
    StandingElsewhere(ops, path + q);
  }

  // --- The parser ------------------------------------------------------------------------------------

  function OpsOf(emitted: seq<Emitted>): (ops: seq<Op>)
    ensures |ops| == |emitted| && forall i :: 0 <= i < |ops| ==> ops[i] == emitted[i].op
  {
    if emitted == [] then [] else OpsOf(emitted[..|emitted| - 1]) + [emitted[|emitted| - 1].op]
  }

  lemma {:induction false} OpsConcat(a: seq<Emitted>, b: seq<Emitted>)
    ensures OpsOf(a + b) == OpsOf(a) + OpsOf(b)
  {
    hide OpsOf;
  }

  lemma {:induction false} OpsTagged(own: seq<Op>, path: seq<Hop>)
    ensures OpsOf(Tagged(own, path)) == own
  {
    hide OpsOf, Tagged;
  }

  /** How an expansion that started with `before` operations ends. */
  ghost predicate Ends(e: Expansion, before: seq<Op>, ops: seq<Op>, failure: Option<Failure>) {
    match e
    case Ok(emitted) => failure.None? && ops == before + OpsOf(emitted)
    case Err(why) => failure == Some(why)
  }

  /** The rest of an expansion, once `first` has gone well. */
  ghost function Then(first: seq<Emitted>, rest: Expansion): Expansion {
    match rest
    case Ok(ops) => Ok(first + ops)
    case Err(failure) => Err(failure)
  }

  lemma {:induction false} EndsThen(first: seq<Emitted>, rest: Expansion, before: seq<Op>, middle: seq<Op>,
                                    ops: seq<Op>, failure: Option<Failure>)
    requires middle == before + OpsOf(first) && Ends(rest, middle, ops, failure)
    ensures Ends(Then(first, rest), before, ops, failure)
  {
    hide OpsOf;
    if rest.Ok? {
      OpsConcat(first, rest.ops);
    }
  }

  /** Collects the operations of a layer while tracking what is being expanded. */
  class LayerParser {
    const scope: Scope
    var ops: seq<Op>
    var inheriting: seq<string>

    constructor (scope: Scope)
      ensures this.scope == scope && ops == [] && inheriting == []
    {
      this.scope, ops, inheriting := scope, [], [];
    }

    /** Emits a table into the layer: what the lists name, then its own keys. The trail is left as it was. */
    method ExtendLayer(table: Table, ghost path: seq<Hop>) returns (failure: Option<Failure>)
      modifies this
      ensures Ends(Expand(scope, table, inheriting, path), old(ops), ops, failure) && inheriting == old(inheriting)
      decreases Unvisited(scope, inheriting), 2
    {
      hide ExpandNames, ExpandName, Unvisited, OpsOf, Tagged;
      ghost var first := [];
      ThenNothing(ExpandNames(scope, table.inherit, 0, inheriting, path), ops);
      for k := 0 to |table.inherit|
        invariant inheriting == old(inheriting) && ops == old(ops) + OpsOf(first)
        invariant ExpandNames(scope, table.inherit, 0, inheriting, path)
               == Then(first, ExpandNames(scope, table.inherit, k, inheriting, path))
      {
        NamesStep(scope, table.inherit, k, inheriting, path);
        ghost var e := ExpandName(scope, table.inherit[k], k, inheriting, path);
        failure := ExtendName(table.inherit[k], k, path);
        if failure.Some? {
          return;
        }
        OpsConcat(first, e.ops);
        first := first + e.ops;
      }
      NamesEnd(scope, table.inherit, inheriting, path);
      OpsTagged(table.own, path);
      OpsConcat(first, Tagged(table.own, path));
      ops := ops + table.own;
      failure := None;
    }

    /** One entry of an inherit list, looked up in the defaults and then in the document. */
    method ExtendName(name: string, k: nat, ghost path: seq<Hop>) returns (failure: Option<Failure>)
      modifies this
      ensures Ends(ExpandName(scope, name, k, inheriting, path), old(ops), ops, failure)
      ensures inheriting == old(inheriting)
      decreases Unvisited(scope, inheriting), 1
    {
      hide ExpandIn, Unvisited, OpsOf;
      if name in inheriting {
        return Some(Cycle(name));
      }
      if name !in scope.defaults && name !in scope.document {
        return Some(Unknown(name));
      }
      ghost var first := ExpandIn(scope, name, false, k, inheriting, path);
      failure := ExtendIn(name, false, k, path);
      if failure.Some? {
        return;
      }
      ghost var second := ExpandIn(scope, name, true, k, inheriting, path);
      failure := ExtendIn(name, true, k, path);
      if second.Ok? {
        OpsConcat(first.ops, second.ops);
      }
    }

    /** The table of that name in one place, if it has one, with the name on the trail. */
    method ExtendIn(name: string, fromDocument: bool, k: nat, ghost path: seq<Hop>) returns (failure: Option<Failure>)
      requires name in scope.Names() && name !in inheriting
      modifies this
      ensures inheriting == old(inheriting)
      ensures Ends(ExpandIn(scope, name, fromDocument, k, inheriting, path), old(ops), ops, failure)
      decreases Unvisited(scope, inheriting), 0
    {
      hide Expand, OpsOf;
      if name !in scope.Tables(fromDocument) {
        NoOps(ops);
        return None;
      }
      assert name in Unvisited(scope, inheriting) && name !in Unvisited(scope, inheriting + [name]);
      inheriting := inheriting + [name];
      failure := ExtendLayer(scope.Tables(fromDocument)[name], path + [Hop(k, fromDocument)]);
      inheriting := inheriting[..|inheriting| - 1];
    }

    /** A layer: its default table, then the document's. */
    method ParseLayer(name: string) returns (failure: Option<Failure>)
      requires inheriting == []
      modifies this
      ensures Ends(Layer(scope, name), old(ops), ops, failure) && inheriting == []
    {
      hide Expand, OpsOf;
      NoOps(ops);
      ghost var first := LayerIn(scope, name, false);
      if name in scope.defaults {
        failure := ExtendLayer(scope.defaults[name], []);
        if failure.Some? {
          return;
        }
      }
      NoOps(ops);
      ghost var middle := ops;
      failure := None;
      if name in scope.document {
        failure := ExtendLayer(scope.document[name], []);
      }
      EndsThen(first.ops, LayerIn(scope, name, true), old(ops), middle, ops, failure);
    }
  }

  lemma {:induction false} NoOps(ops: seq<Op>)
    ensures ops + OpsOf([]) == ops
  {
  }

  lemma {:induction false} ThenNothing(e: Expansion, ops: seq<Op>)
    ensures Then([], e) == e && ops + OpsOf([]) == ops
  {
    if e.Ok? {
      assert [] + e.ops == e.ops;
    }
  }

  lemma {:induction false} NamesStep(s: Scope, names: seq<string>, k: nat, inheriting: seq<string>, path: seq<Hop>)
    requires k < |names|
    ensures var e := ExpandName(s, names[k], k, inheriting, path);
            var rest := ExpandNames(s, names, k + 1, inheriting, path);
            ExpandNames(s, names, k, inheriting, path) == if e.Err? then e else Then(e.ops, rest)
    ensures forall first :: ExpandName(s, names[k], k, inheriting, path).Ok? ==>
              Then(first, ExpandNames(s, names, k, inheriting, path)) ==
              Then(first + ExpandName(s, names[k], k, inheriting, path).ops,
                   ExpandNames(s, names, k + 1, inheriting, path))
  {
    hide ExpandName;
    var e := ExpandName(s, names[k], k, inheriting, path);
    var rest := ExpandNames(s, names, k + 1, inheriting, path);
    if e.Ok? && rest.Ok? {
      forall first: seq<Emitted>
        ensures first + (e.ops + rest.ops) == (first + e.ops) + rest.ops
      {
      }
    }
  }

  lemma {:induction false} NamesEnd(s: Scope, names: seq<string>, inheriting: seq<string>, path: seq<Hop>)
    ensures ExpandNames(s, names, |names|, inheriting, path) == Ok([])
    ensures forall first :: Then(first, ExpandNames(s, names, |names|, inheriting, path)) == Ok(first)
  {
    forall first: seq<Emitted>
      ensures first + [] == first
    {
    }
  }

  // --- Layers and what wins ------------------------------------------------------------------------

  function LayerIn(s: Scope, name: string, fromDocument: bool): Expansion {
    if name in s.Tables(fromDocument) then Expand(s, s.Tables(fromDocument)[name], [], []) else Ok([])
  }

  ghost function Layer(s: Scope, name: string): Expansion {
    match LayerIn(s, name, false)
    case Err(failure) => Err(failure)
    case Ok(first) => Then(first, LayerIn(s, name, true))
  }

  /** No operation on `key` comes after the one at `i`. */
  ghost predicate LastOn(ops: seq<Op>, key: string, i: int) {
    0 <= i < |ops| && ops[i].key == key && forall j :: i < j < |ops| ==> ops[j].key != key
  }

  /** What a key ends up doing: its last operation counts. */
  function Effective(ops: seq<Op>, key: string): (act: Option<Act>)
    ensures act.None? ==> forall i :: 0 <= i < |ops| ==> ops[i].key != key
    ensures act.Some? ==> exists i :: LastOn(ops, key, i) && ops[i].act == act.value
  {
    if ops == [] then None
    else if ops[|ops| - 1].key == key then Some(ops[|ops| - 1].act)
    else Effective(ops[..|ops| - 1], key)
  }

  lemma {:induction false} EffectiveConcat(a: seq<Op>, b: seq<Op>, key: string)
    ensures Effective(a + b, key) == if Effective(b, key).Some? then Effective(b, key) else Effective(a, key)
  {
    if b == [] {
      assert a + b == a;
    } else {
      var front := b[..|b| - 1];
      assert (a + b)[..|a + b| - 1] == a + front;
      EffectiveConcat(a, front, key);
    }
  }

  /** A table's own keys win over what it inherits, and the document's over the defaults. */
  lemma {:induction false} DocumentWins(s: Scope, name: string, key: string)
    requires Layer(s, name).Ok? && name in s.document && Effective(s.document[name].own, key).Some?
    ensures Effective(OpsOf(Layer(s, name).ops), key) == Effective(s.document[name].own, key)
  {
    hide Expand, OpsOf, Effective, Tagged;
    var first, second := LayerIn(s, name, false).ops, LayerIn(s, name, true).ops;
    OpsConcat(first, second);
    EffectiveConcat(OpsOf(first), OpsOf(second), key);
    OwnWins(s, s.document[name], [], [], key);
  }

  lemma {:induction false} OwnWins(s: Scope, t: Table, inheriting: seq<string>, path: seq<Hop>, key: string)
    requires Expand(s, t, inheriting, path).Ok? && Effective(t.own, key).Some?
    ensures Effective(OpsOf(Expand(s, t, inheriting, path).ops), key) == Effective(t.own, key)
  {
    hide ExpandNames, OpsOf, Effective, Tagged;
    var inherited := ExpandNames(s, t.inherit, 0, inheriting, path).ops;
    OpsTagged(t.own, path);
    OpsConcat(inherited, Tagged(t.own, path));
    EffectiveConcat(OpsOf(inherited), t.own, key);
  }
}
