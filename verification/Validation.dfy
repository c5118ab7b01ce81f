/** Consistency checks of a registry, among them an exact cycle detector: a colouring search. */
module Validation {
  import opened Graph
  import opened Features

  const GREY := 1
  const BLACK := 2

  /** A walk of the graph that comes back to a name it has passed. */
  ghost predicate ClosedWalk(g: Graph, p: seq<string>) {
    Path(g, p) && exists i :: 0 <= i < |p| - 1 && p[i] == p[|p| - 1]
  }

  lemma ClosedWalkIsCycle(g: Graph, p: seq<string>)
    requires ClosedWalk(g, p)
    ensures Cyclic(g)
  {
    var i :| 0 <= i < |p| - 1 && p[i] == p[|p| - 1];
    var q := p[i..];
    forall k | 0 <= k < |q| - 1 ensures Edge(g, q[k], q[k + 1]) {
      assert Edge(g, p[i + k], p[i + k + 1]);
    }
    assert PathBetween(g, q, p[i], p[i]);
  }

  type Colors = map<string, int>

  predicate Black(color: Colors, x: string) {
    x in color && color[x] == BLACK
  }

  /** Every known name that a black name needs is black and has a smaller finishing number. */
  ghost predicate Ordered(g: Graph, color: Colors, done: map<string, nat>, clock: nat) {
    (forall x :: Black(color, x) ==> x in done && done[x] < clock) &&
    (forall x, y :: Black(color, x) && Edge(g, x, y) && y in g ==> Black(color, y) && y in done && done[y] < done[x])
  }

  /** Grey is the current path, what is reported are closed walks, and until then black is ordered. */
  ghost predicate Searching(g: Graph, color: Colors, errs: seq<seq<string>>, done: map<string, nat>, clock: nat,
                            path: seq<string>)
  {
    color.Keys <= g.Keys &&
    (forall x :: x in color ==> color[x] == GREY || color[x] == BLACK) &&
    (forall x :: x in path <==> x in color && color[x] == GREY) &&
    (path != [] ==> Path(g, path)) &&
    (forall e :: e in errs ==> ClosedWalk(g, e)) &&
    (errs == [] ==> Ordered(g, color, done, clock))
  }

  /** Nothing coloured or reported is lost, and black stays black. */
  ghost predicate Grown(color0: Colors, n0: nat, color: Colors, n: nat) {
    n0 <= n && color0.Keys <= color.Keys && forall x :: Black(color0, x) ==> Black(color, x)
  }

  lemma GrownTransitive(c0: Colors, n0: nat, c1: Colors, n1: nat, c2: Colors, n2: nat)
    requires Grown(c0, n0, c1, n1) && Grown(c1, n1, c2, n2)
    ensures Grown(c0, n0, c2, n2)
  {
  }

  lemma GrownThenBlack(c0: Colors, n0: nat, c1: Colors, n1: nat, x: string)
    requires Grown(c0, n0, c1, n1)
    ensures Grown(c0, n0, c1[x := BLACK], n1) && Black(c1[x := BLACK], x)
  {
    forall y | Black(c0, y) ensures Black(c1[x := BLACK], y) {
      assert Black(c1, y);
    }
  }

  lemma OrderedBySameBlack(g: Graph, color: Colors, color': Colors, done: map<string, nat>, clock: nat)
    requires Ordered(g, color, done, clock) && forall x :: Black(color', x) <==> Black(color, x)
    ensures Ordered(g, color', done, clock)
  {
  }

  lemma Opening(g: Graph, color: Colors, errs: seq<seq<string>>, done: map<string, nat>, clock: nat,
                path: seq<string>, n: string)
    requires Searching(g, color, errs, done, clock, path) && n in g && n !in color
    requires path != [] ==> Edge(g, path[|path| - 1], n)
    ensures Searching(g, color[n := GREY], errs, done, clock, path + [n]) && n !in path
    ensures Grown(color, |errs|, color[n := GREY], |errs|)
  {
    var color' := color[n := GREY];
    GreyExtends(g, path, n);
    forall x ensures Black(color', x) <==> Black(color, x) {
    }
    if errs == [] {
      OrderedBySameBlack(g, color, color', done, clock);
    }
    assert forall x :: x in path + [n] <==> x in path || x == n;
  }

  lemma Reporting(g: Graph, color: Colors, errs: seq<seq<string>>, done: map<string, nat>, clock: nat,
                  path: seq<string>, n: string)
    requires Searching(g, color, errs, done, clock, path) && n in path && Edge(g, path[|path| - 1], n)
    ensures Searching(g, color, errs + [path + [n]], done, clock, path)
  {
    WalkCloses(g, path, n);
  }

  lemma Measure(g: Graph, color: Colors, n: string)
    requires n in g && n !in color
    ensures |g.Keys - (color[n := GREY]).Keys| < |g.Keys - color.Keys|
  {
    assert (color[n := GREY]).Keys == color.Keys + {n};
    Fewer(g.Keys - (color.Keys + {n}), g.Keys - color.Keys, n);
  }

  lemma Closing(g: Graph, color: Colors, errs: seq<seq<string>>, done: map<string, nat>, clock: nat,
                path: seq<string>, n: string)
    requires Searching(g, color, errs, done, clock, path + [n]) && n in g && n !in path
    requires errs == [] ==> BlackUpTo(g, color, n, |g[n]|)
    ensures Searching(g, color[n := BLACK], errs, done[n := clock], clock + 1, path)
  {
    var color' := color[n := BLACK];
    assert (path + [n])[|path|] == n;
    assert forall x :: x in path + [n] <==> x in path || x == n;
    forall x ensures Black(color', x) <==> Black(color, x) || x == n {
    }
    PathPrefix(g, path, n);
  }

  lemma PathPrefix(g: Graph, path: seq<string>, n: string)
    requires Path(g, path + [n])
    ensures path != [] ==> Path(g, path)
  {
    var p := path + [n];
    forall i | 0 <= i < |path| - 1 ensures Edge(g, path[i], path[i + 1]) {
      assert Edge(g, p[i], p[i + 1]);
    }
  }

  class CycleSearch {
    const g: Graph
    var color: Colors
    var errs: seq<seq<string>>
    ghost var done: map<string, nat>
    ghost var clock: nat

    constructor (g: Graph)
      ensures this.g == g && color == map[] && errs == [] && Valid([])
    {
      this.g, color, errs := g, map[], [];
      done, clock := map[], 0;
    }

    ghost predicate Valid(path: seq<string>)
      reads this
    {
      Searching(g, color, errs, done, clock, path)
    }

    /** The inner `visit`. */
    method Visit(n: string, path: seq<string>)
      requires Valid(path) && (path != [] ==> Edge(g, path[|path| - 1], n))
      modifies this
      ensures Valid(path) && Grown(old(color), |old(errs)|, color, |errs|)
      ensures n in g ==> n in color && (errs == [] ==> Black(color, n))
      decreases |g.Keys - color.Keys|, 0
    {
      if n in color && color[n] == GREY {
        Reporting(g, color, errs, done, clock, path, n);
        errs := errs + [path + [n]];
        return;
      }
      if (n in color && color[n] == BLACK) || n !in g {
        return;
      }
      Opening(g, color, errs, done, clock, path, n);
      Measure(g, color, n);
      color := color[n := GREY];
      ghost var grey, n1 := color, |errs|;
      VisitNeeds(n, path);
      GrownTransitive(old(color), |old(errs)|, grey, n1, color, |errs|);
      Finish(n, path, old(color), |old(errs)|);
    }

    /** The end of `visit`: the grey `n`, whose needs have all been visited, turns black. */
    method Finish(n: string, path: seq<string>, ghost c0: Colors, ghost n0: nat)
      requires n in g && n !in path && Valid(path + [n]) && Grown(c0, n0, color, |errs|)
      requires errs == [] ==> BlackUpTo(g, color, n, |g[n]|)
      modifies this
      ensures Valid(path) && Grown(c0, n0, color, |errs|) && Black(color, n) && errs == old(errs)
    {
      Closing(g, color, errs, done, clock, path, n);
      GrownThenBlack(c0, n0, color, |errs|, n);
      color, done, clock := color[n := BLACK], done[n := clock], clock + 1;
    }

    /** The loop of `visit`: every need of the grey `n` is visited. */
    method VisitNeeds(n: string, path: seq<string>)
      requires n in g && n !in path && Valid(path + [n])
      modifies this
      ensures Valid(path + [n]) && Grown(old(color), |old(errs)|, color, |errs|)
      ensures errs == [] ==> BlackUpTo(g, color, n, |g[n]|)
      decreases |g.Keys - color.Keys|, 1
    {
      ghost var p := path + [n];
      for k := 0 to |g[n]|
        invariant Valid(p) && Grown(old(color), |old(errs)|, color, |errs|)
        invariant errs == [] ==> BlackUpTo(g, color, n, k)
      {
        NeedIsEdge(g, path, n, k);
        SubsetSize(g.Keys - color.Keys, g.Keys - old(color.Keys));
        ghost var c1, n1 := color, |errs|;
        Visit(g[n][k], path + [n]);
        GrownTransitive(old(color), |old(errs)|, c1, n1, color, |errs|);
        if errs == [] {
          BlackUpToNext(g, c1, n1, color, |errs|, n, k);
        }
      }
    }
  }

  ghost predicate BlackUpTo(g: Graph, color: Colors, n: string, k: nat)
    requires n in g && k <= |g[n]|
  {
    forall j :: 0 <= j < k && g[n][j] in g ==> Black(color, g[n][j])
  }

  lemma BlackUpToNext(g: Graph, c1: Colors, n1: nat, c2: Colors, n2: nat, n: string, k: nat)
    requires n in g && k < |g[n]| && BlackUpTo(g, c1, n, k) && Grown(c1, n1, c2, n2)
    requires g[n][k] in g ==> Black(c2, g[n][k])
    ensures BlackUpTo(g, c2, n, k + 1)
  {
    forall j | 0 <= j < k && g[n][j] in g ensures Black(c2, g[n][j]) {
      assert Black(c1, g[n][j]);
    }
  }

  lemma NeedIsEdge(g: Graph, path: seq<string>, n: string, k: nat)
    requires n in g && k < |g[n]|
    ensures Edge(g, (path + [n])[|path + [n]| - 1], g[n][k])
  {
  }

  lemma GreyExtends(g: Graph, path: seq<string>, n: string)
    requires path != [] ==> Path(g, path) && Edge(g, path[|path| - 1], n)
    ensures Path(g, path + [n])
  {
  }

  lemma WalkCloses(g: Graph, path: seq<string>, n: string)
    requires Path(g, path) && n in path && Edge(g, path[|path| - 1], n)
    ensures ClosedWalk(g, path + [n])
  {
    var p := path + [n];
    var i :| 0 <= i < |path| && path[i] == n;
    assert p[i] == p[|p| - 1];
  }

  // ---- validate_registry -------------------------------------------------------------

  /** The `requires` edges of the declarations that count. */
  function Needs(reg: Registry): (g: Graph)
    ensures g.Keys == Ids(reg)
    ensures forall x :: x in g ==> g[x] == ById(reg, x).value.requires_
  {
    map i | i in (set k | 0 <= k < |reg| :: reg[k].id) :: ById(reg, i).value.requires_
  }

  ghost predicate FirstBlack(reg: Registry, color: Colors, i: nat)
    requires i <= |reg|
  {
    forall j :: 0 <= j < i ==> Black(color, reg[j].id)
  }

  lemma FirstBlackNext(reg: Registry, c1: Colors, n1: nat, c2: Colors, n2: nat, i: nat)
    requires i < |reg| && FirstBlack(reg, c1, i) && Grown(c1, n1, c2, n2) && Black(c2, reg[i].id)
    ensures FirstBlack(reg, c2, i + 1)
  {
    forall j | 0 <= j < i ensures Black(c2, reg[j].id) {
      assert Black(c1, reg[j].id);
    }
  }

  lemma FirstBlackIsAll(reg: Registry, color: Colors)
    requires FirstBlack(reg, color, |reg|)
    ensures forall x :: x in Needs(reg) ==> Black(color, x)
  {
  }

  /** The search terminates on every registry and reports exactly when `requires` has a cycle. */
  method FindCycles(reg: Registry) returns (errs: seq<seq<string>>)
    ensures errs != [] <==> Cyclic(Needs(reg))
    ensures forall e :: e in errs ==> ClosedWalk(Needs(reg), e)
  {
    var g := Needs(reg);
    var search := new CycleSearch(g);
    for i := 0 to |reg|
      invariant search.g == g && fresh(search) && search.Valid([])
      invariant search.errs == [] ==> FirstBlack(reg, search.color, i)
    {
      ghost var c1, n1 := search.color, |search.errs|;
      search.Visit(reg[i].id, []);
      if search.errs == [] {
        FirstBlackNext(reg, c1, n1, search.color, |search.errs|, i);
      }
    }
    errs := search.errs;
    if errs == [] {
      FirstBlackIsAll(reg, search.color);
      AllBlackIsRanked(g, search.color, search.done, search.clock);
      AcyclicMeansRanked(g);
    } else {
      ClosedWalkIsCycle(g, errs[0]);
    }
  }

  lemma AllBlackIsRanked(g: Graph, color: Colors, done: map<string, nat>, clock: nat)
    requires Ordered(g, color, done, clock) && forall x :: x in g ==> Black(color, x)
    ensures exists rank :: Ranked(g, rank)
  {
    assert Ranked(g, done);
  }

  datatype Fault = Duplicate(id: string) | UnknownName(id: string, name: string) | SelfReference(id: string)
                 | OneSided(id: string, other: string) | CycleThrough(walk: seq<string>)

  /** Names are unique, every reference is to another known feature, conflicts are declared on both sides. */
  ghost predicate WellDeclared(reg: Registry) {
    (forall i, j :: 0 <= i < j < |reg| ==> reg[i].id != reg[j].id) &&
    (forall i, d :: 0 <= i < |reg| && (d in reg[i].requires_ || d in reg[i].conflicts) ==> GoodReference(reg, reg[i].id, d)) &&
    (forall i, c :: 0 <= i < |reg| && c in reg[i].conflicts ==> Mutual(reg, reg[i].id, c))
  }

  predicate GoodReference(reg: Registry, id: string, d: string) {
    ById(reg, d).Some? && d != id
  }

  predicate Mutual(reg: Registry, id: string, c: string) {
    ById(reg, c).Some? ==> id in ById(reg, c).value.conflicts
  }

  /** What each report says is so. */
  ghost predicate IsFault(reg: Registry, e: Fault) {
    match e
    case Duplicate(id) => exists i, j :: 0 <= i < j < |reg| && reg[i].id == id && reg[j].id == id
    case UnknownName(id, name) => RefersTo(reg, id, name) && forall i :: 0 <= i < |reg| ==> reg[i].id != name
    case SelfReference(id) => RefersTo(reg, id, id)
    case OneSided(id, c) =>
      (exists i :: 0 <= i < |reg| && reg[i].id == id && c in reg[i].conflicts) &&
      ById(reg, c).Some? && id !in ById(reg, c).value.conflicts
    case CycleThrough(walk) => ClosedWalk(Needs(reg), walk)
  }

  ghost predicate RefersTo(reg: Registry, id: string, name: string) {
    exists i :: 0 <= i < |reg| && reg[i].id == id && (name in reg[i].requires_ || name in reg[i].conflicts)
  }

  /** Every report is true, and all but the cycles are complete: what is so is reported. */
  ghost predicate Reported(reg: Registry, faults: seq<Fault>) {
    forall e: Fault :: if e.CycleThrough? then e in faults ==> IsFault(reg, e) else e in faults <==> IsFault(reg, e)
  }

  /** The structural checks of `validate_registry`: silent exactly on well declared registries without cycles. */
  method Validate(reg: Registry) returns (faults: seq<Fault>)
    ensures faults == [] <==> WellDeclared(reg) && !Cyclic(Needs(reg))
    ensures Reported(reg, faults)
  {
    faults := [];
    for i := 0 to |reg|
      invariant forall e :: e in faults <==> exists k :: 0 <= k < i && EntryFault(reg, k, e)
    {
      var more := CheckEntry(reg, i);
      faults := faults + more;
    }
    var cycles := FindCycles(reg);
    ghost var declared := faults;
    EntriesOk(reg, declared);
    for i := 0 to |cycles|
      invariant forall e :: e in faults <==> e in declared || (e.CycleThrough? && e.walk in cycles[..i])
      invariant faults == [] <==> declared == [] && i == 0
    {
      faults := faults + [CycleThrough(cycles[i])];
    }
    assert cycles[..|cycles|] == cycles;
    forall e: Fault | !e.CycleThrough? ensures e in declared <==> IsFault(reg, e) {
      EntryFaults(reg, e);
    }
  }

  /** What entry `k` is at fault for. */
  ghost predicate EntryFault(reg: Registry, k: nat, e: Fault)
    requires k < |reg|
  {
    var f := reg[k];
    match e
    case Duplicate(id) => id == f.id && exists j :: 0 <= j < k && reg[j].id == f.id
    case UnknownName(id, name) => id == f.id && name in f.requires_ + f.conflicts && ById(reg, name).None?
    case SelfReference(id) => id == f.id && f.id in f.requires_ + f.conflicts
    case OneSided(id, c) => id == f.id && c in f.conflicts && !Mutual(reg, f.id, c)
    case CycleThrough(_) => false
  }

  /** The faults of the entries, together, are those of the registry. */
  lemma EntryFaults(reg: Registry, e: Fault)
    requires !e.CycleThrough?
    ensures (exists k :: 0 <= k < |reg| && EntryFault(reg, k, e)) <==> IsFault(reg, e)
  {
    match e {
      case Duplicate(id) =>
        if i, j :| 0 <= i < j < |reg| && reg[i].id == id && reg[j].id == id {
          assert EntryFault(reg, j, e);
        }
      case UnknownName(id, name) =>
        ReferenceIsEntry(reg, id, name, e);
      case SelfReference(id) =>
        ReferenceIsEntry(reg, id, id, e);
      case OneSided(id, c) =>
        if i :| 0 <= i < |reg| && reg[i].id == id && c in reg[i].conflicts && !Mutual(reg, id, c) {
          assert EntryFault(reg, i, e);
        }
    }
  }

  lemma ReferenceIsEntry(reg: Registry, id: string, name: string, e: Fault)
    requires e == UnknownName(id, name) || (e == SelfReference(id) && name == id)
    ensures (exists k :: 0 <= k < |reg| && EntryFault(reg, k, e)) <==> IsFault(reg, e)
  {
    if IsFault(reg, e) {
      var i :| 0 <= i < |reg| && reg[i].id == id && (name in reg[i].requires_ || name in reg[i].conflicts);
      assert EntryFault(reg, i, e);
    }
  }

  ghost predicate EntryOk(reg: Registry, k: nat)
    requires k < |reg|
  {
    (forall j :: 0 <= j < k ==> reg[j].id != reg[k].id) &&
    (forall d :: d in reg[k].requires_ + reg[k].conflicts ==> GoodReference(reg, reg[k].id, d)) &&
    (forall c :: c in reg[k].conflicts ==> Mutual(reg, reg[k].id, c))
  }

  /** No fault is found in any entry exactly on a well declared registry. */
  lemma EntriesOk(reg: Registry, faults: seq<Fault>)
    requires forall e :: e in faults <==> exists k :: 0 <= k < |reg| && EntryFault(reg, k, e)
    ensures faults == [] <==> WellDeclared(reg)
  {
    if faults == [] {
      forall k | 0 <= k < |reg| ensures EntryOk(reg, k) {
        forall e ensures !EntryFault(reg, k, e) {
          assert e !in faults;
        }
        NoFaultIsOk(reg, k);
      }
      OkIsWellDeclared(reg);
    } else {
      assert faults[0] in faults;
      var k :| 0 <= k < |reg| && EntryFault(reg, k, faults[0]);
      FaultIsNotOk(reg, k, faults[0]);
      OkIsWellDeclared(reg);
    }
  }

  lemma FaultIsNotOk(reg: Registry, k: nat, e: Fault)
    requires k < |reg| && EntryFault(reg, k, e)
    ensures !EntryOk(reg, k)
  {
    if e.UnknownName? {
      assert !GoodReference(reg, e.id, e.name);
    } else if e.SelfReference? {
      assert !GoodReference(reg, e.id, e.id);
    }
  }

  lemma NoFaultIsOk(reg: Registry, k: nat)
    requires k < |reg| && forall e :: !EntryFault(reg, k, e)
    ensures EntryOk(reg, k)
  {
    var f := reg[k];
    assert !EntryFault(reg, k, Duplicate(f.id));
    forall d | d in f.requires_ + f.conflicts ensures GoodReference(reg, f.id, d) {
      assert !EntryFault(reg, k, UnknownName(f.id, d)) && !EntryFault(reg, k, SelfReference(f.id));
    }
    forall c | c in f.conflicts ensures Mutual(reg, f.id, c) {
      assert !EntryFault(reg, k, OneSided(f.id, c));
    }
  }

  lemma OkIsWellDeclared(reg: Registry)
    ensures (forall k :: 0 <= k < |reg| ==> EntryOk(reg, k)) <==> WellDeclared(reg)
  {
    if forall k :: 0 <= k < |reg| ==> EntryOk(reg, k) {
      forall i, j | 0 <= i < j < |reg| ensures reg[i].id != reg[j].id {
        assert EntryOk(reg, j);
      }
      forall i, d | 0 <= i < |reg| && (d in reg[i].requires_ || d in reg[i].conflicts)
        ensures GoodReference(reg, reg[i].id, d)
      {
        assert EntryOk(reg, i) && d in reg[i].requires_ + reg[i].conflicts;
      }
      forall i, c | 0 <= i < |reg| && c in reg[i].conflicts ensures Mutual(reg, reg[i].id, c) {
        assert EntryOk(reg, i);
      }
    }
  }

  /** What is wrong with the names `refs` to which `id` refers. */
  predicate RefFault(reg: Registry, id: string, refs: seq<string>, e: Fault) {
    (e.UnknownName? && e.id == id && e.name in refs && ById(reg, e.name).None?) ||
    (e == SelfReference(id) && id in refs)
  }

  predicate ConflictFault(reg: Registry, id: string, others: seq<string>, e: Fault) {
    e.OneSided? && e.id == id && e.other in others && !Mutual(reg, id, e.other)
  }

  method CheckEntry(reg: Registry, k: nat) returns (faults: seq<Fault>)
    requires k < |reg|
    ensures forall e :: e in faults <==> EntryFault(reg, k, e)
  {
    var f := reg[k];
    faults := if exists j :: 0 <= j < k && reg[j].id == f.id then [Duplicate(f.id)] else [];
    ghost var first := faults;
    var refs := f.requires_ + f.conflicts;
    for i := 0 to |refs|
      invariant forall e :: e in faults <==> e in first || RefFault(reg, f.id, refs[..i], e)
    {
      assert refs[..i + 1] == refs[..i] + [refs[i]];
      if ById(reg, refs[i]).None? {
        faults := faults + [UnknownName(f.id, refs[i])];
      }
      if refs[i] == f.id {
        faults := faults + [SelfReference(f.id)];
      }
    }
    assert refs[..|refs|] == refs;
    ghost var second := faults;
    for i := 0 to |f.conflicts|
      invariant forall e :: e in faults <==> e in second || ConflictFault(reg, f.id, f.conflicts[..i], e)
    {
      assert f.conflicts[..i + 1] == f.conflicts[..i] + [f.conflicts[i]];
      if ById(reg, f.conflicts[i]).Some? && f.id !in ById(reg, f.conflicts[i]).value.conflicts {
        faults := faults + [OneSided(f.id, f.conflicts[i])];
      }
    }
    assert f.conflicts[..|f.conflicts|] == f.conflicts;
  }
}
