/**
 What resolution means. When required features and earlier conflicts form no cycle, the
 memo, the cycle guard and the visiting order do not matter, and the states are consistent.
 */
module FeatureLaws {
  import opened Util
  import opened Graph
  import opened Features

  /** No feature of the stack is reachable from `id`. */
  ghost predicate Clear(reg: Registry, stack: seq<string>, id: string) {
    forall x :: x in stack ==> !Reaches(Looks(reg), id, x)
  }

  ghost predicate Correct(reg: Registry, env: Env, memo: Memo) {
    forall k :: k in memo ==> memo[k] == Value(reg, env, k, [])
  }

  ghost function Height(reg: Registry, rank: map<string, nat>, id: string): nat
    requires Ranked(Looks(reg), rank)
  {
    if id in Ids(reg) then rank[id] + 1 else 0
  }

  lemma ClearStep(reg: Registry, stack: seq<string>, id: string, dep: string)
    requires !Cyclic(Looks(reg)) && Clear(reg, stack, id) && Edge(Looks(reg), id, dep)
    ensures Clear(reg, stack + [id], dep)
  {
    var g := Looks(reg);
    forall x | x in stack + [id] ensures !Reaches(g, dep, x) {
      if Reaches(g, dep, x) {
        ReachesStep(g, id, dep, x);
        if x == id {
          EdgeThenPathIsCycle(g, id, dep);
        }
        assert false;
      }
    }
  }

  ghost predicate Below(reg: Registry, rank: map<string, nat>, deps: seq<string>, stack: seq<string>, bound: nat)
    requires Ranked(Looks(reg), rank)
  {
    forall d :: d in deps ==> Height(reg, rank, d) < bound && Clear(reg, stack, d)
  }

  /** Both loops of a feature look at smaller features the longer stack is clear of. */
  lemma DepsBelow(reg: Registry, rank: map<string, nat>, id: string, stack: seq<string>)
    requires Ranked(Looks(reg), rank) && id in Ids(reg) && Clear(reg, stack, id)
    ensures var f := ById(reg, id).value;
      Below(reg, rank, f.requires_, stack + [id], Height(reg, rank, id)) &&
      Below(reg, rank, EarlierConflicts(reg, f, f.conflicts), stack + [id], Height(reg, rank, id))
  {
    var f := ById(reg, id).value;
    AcyclicMeansRanked(Looks(reg));
    forall d | d in f.requires_ || d in EarlierConflicts(reg, f, f.conflicts)
      ensures Height(reg, rank, d) < Height(reg, rank, id) && Clear(reg, stack + [id], d)
    {
      assert Edge(Looks(reg), id, d);
      ClearStep(reg, stack, id, d);
    }
  }

  // ---- the stack does not matter -----------------------------------------------------

  lemma {:induction false} ValueStackFree(reg: Registry, env: Env, rank: map<string, nat>, id: string,
                                          s: seq<string>, t: seq<string>)
    requires Ranked(Looks(reg), rank) && Clear(reg, s, id) && Clear(reg, t, id)
    ensures Value(reg, env, id, s) == Value(reg, env, id, t)
    decreases Height(reg, rank, id), 1, 0
  {
    ReachesSelf(Looks(reg), id);
    if id in Ids(reg) {
      var f := ById(reg, id).value;
      DepsBelow(reg, rank, id, s);
      DepsBelow(reg, rank, id, t);
      FirstStackFree(reg, env, rank, f.requires_, false, s + [id], t + [id], Height(reg, rank, id));
      FirstStackFree(reg, env, rank, EarlierConflicts(reg, f, f.conflicts), true, s + [id], t + [id], Height(reg, rank, id));
    }
  }

  lemma {:induction false} FirstStackFree(reg: Registry, env: Env, rank: map<string, nat>, deps: seq<string>, on: bool,
                                          s: seq<string>, t: seq<string>, bound: nat)
    requires Ranked(Looks(reg), rank) && Below(reg, rank, deps, s, bound) && Below(reg, rank, deps, t, bound)
    ensures FirstThatIs(reg, env, deps, on, s) == FirstThatIs(reg, env, deps, on, t)
    decreases bound, 0, |deps|
  {
    if deps != [] {
      assert deps[0] in deps;
      ValueStackFree(reg, env, rank, deps[0], s, t);
      FirstStackFree(reg, env, rank, deps[1..], on, s, t, bound);
    }
  }

  // ---- the memo does not matter ------------------------------------------------------

  /**
   Memoised resolution keeps its meaning: from any correct memo and any stack clear of what
   the feature reaches, the answer is the memo-free one and the memo stays correct.
   */
  lemma {:induction false} ResolveOneIsValue(reg: Registry, env: Env, rank: map<string, nat>, id: string,
                                             memo: Memo, stack: seq<string>)
    requires Ranked(Looks(reg), rank) && Correct(reg, env, memo) && Clear(reg, stack, id)
    ensures var (s, memo') := ResolveOne(reg, env, id, memo, stack);
      s == Value(reg, env, id, []) && Correct(reg, env, memo') &&
      memo.Keys <= memo'.Keys && (id in Ids(reg) ==> id in memo')
    decreases Height(reg, rank, id), 2, 0
  {
    ReachesSelf(Looks(reg), id);
    ValueStackFree(reg, env, rank, id, stack, []);
    if id !in memo && id in Ids(reg) {
      var f := ById(reg, id).value;
      if f.kind != Planned && f.kind != Invariant {
        SwitchIsValue(reg, env, rank, id, memo, stack);
      }
    }
  }

  lemma {:induction false} SwitchIsValue(reg: Registry, env: Env, rank: map<string, nat>, id: string,
                                         memo: Memo, stack: seq<string>)
    requires Ranked(Looks(reg), rank) && Correct(reg, env, memo) && Clear(reg, stack, id)
    requires id !in memo && id !in stack && id in Ids(reg)
    requires ById(reg, id).value.kind != Planned && ById(reg, id).value.kind != Invariant
    ensures var (s, memo') := ResolveOne(reg, env, id, memo, stack);
      s == Value(reg, env, id, stack) && memo.Keys <= memo'.Keys && id in memo' && memo'[id] == s &&
      forall k :: k in memo' && k != id ==> memo'[k] == Value(reg, env, k, [])
    decreases Height(reg, rank, id), 1, 0
  {
    var f, w := ById(reg, id).value, WishOf(ById(reg, id).value, env);
    var st0 := State(id, w.want, w.source, w.reason, false);
    DepsBelow(reg, rank, id, stack);
    if w.want {
      LoopOverRequires(reg, env, rank, st0, w.explicit, f.requires_, memo, stack + [id], Height(reg, rank, id));
      var memo1 := CheckRequires(reg, env, st0, w.explicit, f.requires_, memo, stack + [id]).1;
      LoopOverConflicts(reg, env, rank, f, st0, w.explicit, f.conflicts, memo1, stack + [id], Height(reg, rank, id));
    }
  }

  lemma {:induction false} LoopOverRequires(reg: Registry, env: Env, rank: map<string, nat>, st: State, explicit: bool,
                                            deps: seq<string>, memo: Memo, stack: seq<string>, bound: nat)
    requires Ranked(Looks(reg), rank) && Correct(reg, env, memo) && Below(reg, rank, deps, stack, bound)
    ensures var (r, memo') := CheckRequires(reg, env, st, explicit, deps, memo, stack);
      Correct(reg, env, memo') && memo.Keys <= memo'.Keys &&
      r == match FirstThatIs(reg, env, deps, false, stack)
           case None => st
           case Some(s) => st.(enabled := false, reason := Requires(s.id, s.reason, st.reason), problem := explicit)
    decreases bound, 0, |deps|
  {
    if deps != [] {
      assert deps[0] in deps;
      ResolveOneIsValue(reg, env, rank, deps[0], memo, stack);
      ValueStackFree(reg, env, rank, deps[0], stack, []);
      var memo1 := ResolveOne(reg, env, deps[0], memo, stack).1;
      LoopOverRequires(reg, env, rank, st, explicit, deps[1..], memo1, stack, bound);
    }
  }

  lemma {:induction false} LoopOverConflicts(reg: Registry, env: Env, rank: map<string, nat>, f: Feature, st: State,
                                             explicit: bool, cs: seq<string>, memo: Memo, stack: seq<string>, bound: nat)
    requires Ranked(Looks(reg), rank) && Correct(reg, env, memo) && st.id == f.id
    requires Below(reg, rank, EarlierConflicts(reg, f, cs), stack, bound)
    ensures var (r, memo') := CheckConflicts(reg, env, st, explicit, cs, memo, stack);
      Correct(reg, env, memo') && memo.Keys <= memo'.Keys &&
      r == match FirstThatIs(reg, env, EarlierConflicts(reg, f, cs), true, stack)
           case None => st
           case Some(s) => st.(enabled := false, reason := Conflicts(s.id, st.reason), problem := explicit)
    decreases bound, 0, |cs|
  {
    if cs != [] {
      var rest := EarlierConflicts(reg, f, cs[1..]);
      if Earlier(reg, cs[0], f.id) {
        assert EarlierConflicts(reg, f, cs) == [cs[0]] + rest && cs[0] in EarlierConflicts(reg, f, cs);
        assert EarlierConflicts(reg, f, cs)[1..] == rest;
        ResolveOneIsValue(reg, env, rank, cs[0], memo, stack);
        ValueStackFree(reg, env, rank, cs[0], stack, []);
        var memo1 := ResolveOne(reg, env, cs[0], memo, stack).1;
        LoopOverConflicts(reg, env, rank, f, st, explicit, cs[1..], memo1, stack, bound);
      } else {
        assert EarlierConflicts(reg, f, cs) == rest;
        LoopOverConflicts(reg, env, rank, f, st, explicit, cs[1..], memo, stack, bound);
      }
    }
  }

  // ---- the visiting order does not matter --------------------------------------------

  /** `resolve()[f]` is the memo-free value of `f`, in whatever order the features are visited. */
  lemma {:induction false} ResolveAllIsValue(reg: Registry, env: Env, order: seq<string>, memo: Memo)
    requires !Cyclic(Looks(reg)) && Correct(reg, env, memo)
    ensures var all := ResolveAll(reg, env, order, memo);
      Correct(reg, env, all) && memo.Keys <= all.Keys && forall f :: f in order && f in Ids(reg) ==> f in all
  {
    if order != [] {
      AcyclicMeansRanked(Looks(reg));
      var rank :| Ranked(Looks(reg), rank);
      ResolveOneIsValue(reg, env, rank, order[0], memo, []);
      ResolveAllIsValue(reg, env, order[1..], ResolveOne(reg, env, order[0], memo, []).1);
    }
  }

  /** `enabled(f)` agrees with `resolve()[f]`. */
  lemma EnabledAgreesWithResolve(reg: Registry, env: Env, order: seq<string>, f: string)
    requires !Cyclic(Looks(reg)) && f in order && f in Ids(reg)
    ensures var all := ResolveAll(reg, env, order, map[]);
      f in all && ResolveOne(reg, env, f, map[], []).0 == all[f] == Value(reg, env, f, [])
  {
    AcyclicMeansRanked(Looks(reg));
    var rank :| Ranked(Looks(reg), rank);
    ResolveOneIsValue(reg, env, rank, f, map[], []);
    ResolveAllIsValue(reg, env, order, map[]);
  }

  // ---- consistency -------------------------------------------------------------------

  lemma {:induction false} NoneThatIs(reg: Registry, env: Env, deps: seq<string>, on: bool, stack: seq<string>, d: string)
    requires FirstThatIs(reg, env, deps, on, stack).None? && d in deps
    ensures Value(reg, env, d, stack).enabled != on
  {
    if d != deps[0] {
      NoneThatIs(reg, env, deps[1..], on, stack, d);
    }
  }

  /** An enabled feature that is a toggle or an integration has every required feature on. */
  lemma EnabledHasRequirements(reg: Registry, env: Env, id: string, dep: string)
    requires !Cyclic(Looks(reg)) && id in Ids(reg) && ById(reg, id).value.kind != Invariant
    requires Value(reg, env, id, []).enabled && dep in ById(reg, id).value.requires_
    ensures Value(reg, env, dep, []).enabled
  {
    AcyclicMeansRanked(Looks(reg));
    var rank :| Ranked(Looks(reg), rank);
    DepsBelow(reg, rank, id, []);
    NoneThatIs(reg, env, ById(reg, id).value.requires_, false, [] + [id], dep);
    ValueStackFree(reg, env, rank, dep, [] + [id], []);
  }

  lemma EnabledBeatsEarlier(reg: Registry, env: Env, id: string, other: string)
    requires !Cyclic(Looks(reg)) && id in Ids(reg) && ById(reg, id).value.kind != Invariant
    requires Value(reg, env, id, []).enabled && other in ById(reg, id).value.conflicts && Earlier(reg, other, id)
    ensures !Value(reg, env, other, []).enabled
  {
    AcyclicMeansRanked(Looks(reg));
    var rank :| Ranked(Looks(reg), rank);
    var f := ById(reg, id).value;
    DepsBelow(reg, rank, id, []);
    NoneThatIs(reg, env, EarlierConflicts(reg, f, f.conflicts), true, [] + [id], other);
    ValueStackFree(reg, env, rank, other, [] + [id], []);
  }

  /** Of two features that declare each other as conflicting, invariants aside, at most one is on. */
  lemma ConflictsNeverBothOn(reg: Registry, env: Env, f: string, g: string)
    requires !Cyclic(Looks(reg)) && f != g && f in Ids(reg) && g in Ids(reg)
    requires ById(reg, f).value.kind != Invariant && ById(reg, g).value.kind != Invariant
    requires g in ById(reg, f).value.conflicts && f in ById(reg, g).value.conflicts
    ensures !(Value(reg, env, f, []).enabled && Value(reg, env, g, []).enabled)
  {
    if Value(reg, env, f, []).enabled && Value(reg, env, g, []).enabled {
      if Index(reg, g) < Index(reg, f) {
        EnabledBeatsEarlier(reg, env, f, g);
      } else {
        EnabledBeatsEarlier(reg, env, g, f);
      }
    }
  }

  /** A problem is only ever reported on a feature that is off; nothing needs acyclicity here. */
  lemma ProblemOnlyWhenOff(reg: Registry, env: Env, id: string, stack: seq<string>)
    requires Value(reg, env, id, stack).problem
    ensures !Value(reg, env, id, stack).enabled
  {
  }

  // ---- what turns a feature on -------------------------------------------------------

  /** The white space of Unicode, with the four separators of ASCII. */
  const WHITE: set<int> := {0x09, 0x0A, 0x0B, 0x0C, 0x0D, 0x1C, 0x1D, 0x1E, 0x1F, 0x20, 0x85, 0xA0, 0x1680,
                            0x2000, 0x2001, 0x2002, 0x2003, 0x2004, 0x2005, 0x2006, 0x2007, 0x2008, 0x2009, 0x200A,
                            0x2028, 0x2029, 0x202F, 0x205F, 0x3000}

  /** The variable is set, to something that is not blank and that its parser recognises. */
  predicate Recognised(v: Var, env: Env) {
    v.name in env.vars && (exists c :: c in env.vars[v.name] && c as int !in WHITE) && v.parse(env.vars[v.name]).Some?
  }

  /** Variable `k` is the first recognised one, and it says `val`. */
  ghost predicate Says(f: Feature, env: Env, k: int, val: bool) {
    0 <= k < |f.vars| && Recognised(f.vars[k], env) && f.vars[k].parse(env.vars[f.vars[k].name]) == Some(val) &&
    forall j :: 0 <= j < k ==> !Recognised(f.vars[j], env)
  }

  /** The first recognised variable says `val`. */
  ghost predicate SomeSays(f: Feature, env: Env, val: bool) {
    exists k :: Says(f, env, k, val)
  }

  ghost predicate Silent(f: Feature, env: Env) {
    forall j :: 0 <= j < |f.vars| ==> !Recognised(f.vars[j], env)
  }

  /** The probe answers, and answers yes. */
  predicate Detected(f: Feature) {
    f.auto == Some(Returns(true))
  }

  /**
   Asked for: an integration when its probe says so; a toggle when it is forced, else when its first
   recognised variable says so, else, with none, when the edition's default is on, or automatic and
   the probe says so.
   */
  ghost predicate AskedFor(f: Feature, env: Env) {
    if f.kind == Integration then
      Detected(f)
    else
      || f.forced
      || SomeSays(f, env, true)
      || (Silent(f, env) && env.edition in f.defaults &&
          (f.defaults[env.edition] == On || (f.defaults[env.edition] == Auto && Detected(f))))
  }

  lemma BlankExactly(s: string)
    ensures IsBlank(s) <==> !exists c :: c in s && c as int !in WHITE
  {
    forall c | c in s ensures IsSpace(c) <==> c as int in WHITE {
      SpaceExactly(c);
    }
  }

  lemma SpaceExactly(c: char)
    ensures IsSpace(c) <==> c as int in WHITE
  {
  }

  lemma {:induction false} RequestedExactly(vars: seq<Var>, env: Env)
    ensures match Requested(vars, env)
      case None => forall j :: 0 <= j < |vars| ==> !Recognised(vars[j], env)
      case Some((val, name, raw)) =>
        exists k :: 0 <= k < |vars| && Recognised(vars[k], env) && vars[k].name == name && raw == env.vars[name] &&
          vars[k].parse(raw) == Some(val) && forall j :: 0 <= j < k ==> !Recognised(vars[j], env)
  {
    if vars != [] {
      var v := vars[0];
      if v.name in env.vars {
        BlankExactly(env.vars[v.name]);
      }
      if !Recognised(v, env) {
        RequestedExactly(vars[1..], env);
        if Requested(vars[1..], env).Some? {
          var (val, name, raw) := Requested(vars[1..], env).value;
          var k :| 0 <= k < |vars[1..]| && Recognised(vars[1..][k], env) && vars[1..][k].name == name &&
            raw == env.vars[name] && vars[1..][k].parse(raw) == Some(val) &&
            forall j :: 0 <= j < k ==> !Recognised(vars[1..][j], env);
          forall j | 0 <= j < k + 1 ensures !Recognised(vars[j], env) {
            if j > 0 {
              assert vars[j] == vars[1..][j - 1];
            }
          }
          assert vars[k + 1] == vars[1..][k];
        } else {
          forall j | 0 <= j < |vars| ensures !Recognised(vars[j], env) {
            if j > 0 {
              assert vars[j] == vars[1..][j - 1];
            }
          }
        }
      }
    }
  }

  lemma SaysNothingElse(f: Feature, env: Env, k: int, val: bool, other: bool)
    requires Says(f, env, k, val) && other != val
    ensures SomeSays(f, env, val) && !SomeSays(f, env, other) && !Silent(f, env)
  {
    forall j ensures !Says(f, env, j, other) {
      assert j < k || j == k || k < j;
    }
  }

  lemma VariableSays(f: Feature, env: Env)
    ensures match Requested(f.vars, env)
      case None => Silent(f, env) && !SomeSays(f, env, true) && !SomeSays(f, env, false)
      case Some((val, _, _)) =>
        !Silent(f, env) && (SomeSays(f, env, true) <==> val) && (SomeSays(f, env, false) <==> !val)
  {
    RequestedExactly(f.vars, env);
    if Requested(f.vars, env).Some? {
      var (val, name, raw) := Requested(f.vars, env).value;
      var k :| 0 <= k < |f.vars| && Recognised(f.vars[k], env) && f.vars[k].name == name && raw == env.vars[name] &&
        f.vars[k].parse(raw) == Some(val) && forall j :: 0 <= j < k ==> !Recognised(f.vars[j], env);
      var other := if val then false else true;
      SaysNothingElse(f, env, k, val, other);
    }
  }

  lemma WishIsAskedFor(f: Feature, env: Env)
    requires f.kind == Toggle || f.kind == Integration
    ensures WishOf(f, env).want <==> AskedFor(f, env)
    ensures WishOf(f, env).explicit <==> f.kind == Toggle && !f.forced && !Silent(f, env)
  {
    VariableSays(f, env);
  }

  lemma {:induction false} SomeThatIs(reg: Registry, env: Env, deps: seq<string>, on: bool, stack: seq<string>)
    requires FirstThatIs(reg, env, deps, on, stack).Some?
    ensures exists d :: d in deps && Value(reg, env, d, stack).enabled == on
  {
    if Value(reg, env, deps[0], stack).enabled == on {
      assert deps[0] in deps;
    } else {
      SomeThatIs(reg, env, deps[1..], on, stack);
    }
  }

  lemma FirstThatIsExactly(reg: Registry, env: Env, rank: map<string, nat>, id: string, deps: seq<string>, on: bool)
    requires Ranked(Looks(reg), rank) && id in Ids(reg)
    requires forall d :: d in deps ==> Edge(Looks(reg), id, d)
    ensures FirstThatIs(reg, env, deps, on, [] + [id]).None? <==>
            forall d :: d in deps ==> Value(reg, env, d, []).enabled != on
  {
    DepsBelow(reg, rank, id, []);
    forall d | d in deps ensures Value(reg, env, d, [] + [id]) == Value(reg, env, d, []) {
      ClearOfOne(reg, rank, id, d);
      ValueStackFree(reg, env, rank, d, [] + [id], []);
    }
    if FirstThatIs(reg, env, deps, on, [] + [id]).None? {
      forall d | d in deps ensures Value(reg, env, d, []).enabled != on {
        NoneThatIs(reg, env, deps, on, [] + [id], d);
      }
    } else {
      SomeThatIs(reg, env, deps, on, [] + [id]);
    }
  }

  lemma ClearOfOne(reg: Registry, rank: map<string, nat>, id: string, d: string)
    requires Ranked(Looks(reg), rank) && Edge(Looks(reg), id, d)
    ensures Clear(reg, [] + [id], d)
  {
    AcyclicMeansRanked(Looks(reg));
    ClearStep(reg, [], id, d);
  }

  /**
   A toggle or an integration is on exactly when it is asked for, everything it requires is on, and
   nothing that it conflicts with and that is declared before it is on.
   */
  lemma EnabledExactly(reg: Registry, env: Env, id: string)
    requires !Cyclic(Looks(reg)) && id in Ids(reg)
    requires ById(reg, id).value.kind == Toggle || ById(reg, id).value.kind == Integration
    ensures var f := ById(reg, id).value;
      Value(reg, env, id, []).enabled <==>
        AskedFor(f, env) &&
        (forall d :: d in f.requires_ ==> Value(reg, env, d, []).enabled) &&
        (forall o :: o in f.conflicts && o in Ids(reg) && Index(reg, o) < Index(reg, id) ==> !Value(reg, env, o, []).enabled)
  {
    AcyclicMeansRanked(Looks(reg));
    var rank :| Ranked(Looks(reg), rank);
    var f := ById(reg, id).value;
    var earlier := EarlierConflicts(reg, f, f.conflicts);
    WishIsAskedFor(f, env);
    FirstThatIsExactly(reg, env, rank, id, f.requires_, false);
    FirstThatIsExactly(reg, env, rank, id, earlier, true);
    EnabledInParts(reg, env, id, f, earlier);
  }

  lemma EnabledInParts(reg: Registry, env: Env, id: string, f: Feature, earlier: seq<string>)
    requires id in Ids(reg) && f == ById(reg, id).value && (f.kind == Toggle || f.kind == Integration)
    requires earlier == EarlierConflicts(reg, f, f.conflicts)
    ensures Value(reg, env, id, []).enabled <==>
            WishOf(f, env).want && FirstThatIs(reg, env, f.requires_, false, [] + [id]).None? &&
            FirstThatIs(reg, env, earlier, true, [] + [id]).None?
  {
  }

  /** A planned feature is never on, an invariant always. */
  lemma KindDecides(reg: Registry, env: Env, id: string)
    requires id in Ids(reg)
    ensures ById(reg, id).value.kind == Planned ==> !Value(reg, env, id, []).enabled
    ensures ById(reg, id).value.kind == Invariant ==> Value(reg, env, id, []).enabled
  {
  }

  /** A problem is reported exactly on a feature that is off although a recognised value asked for it. */
  lemma ProblemExactly(reg: Registry, env: Env, id: string)
    requires id in Ids(reg)
    ensures var f := ById(reg, id).value;
      Value(reg, env, id, []).problem <==>
        !Value(reg, env, id, []).enabled && (f.kind == Planned || (f.kind == Toggle && !f.forced)) &&
        SomeSays(f, env, true)
  {
    VariableSays(ById(reg, id).value, env);
  }

  // ---- without the hypothesis --------------------------------------------------------

  const First: string := "a"
  const Second: string := "b"

  /** "a" requires "b"; both declare the conflict; both are on by default. */
  function Knot(): Registry {
    var on := map["community" := On];
    [Feature(First, Toggle, [Second], [Second], [], on, None, false),
     Feature(Second, Toggle, [], [First], [], on, None, false)]
  }

  lemma KnotFacts(env: Env)
    requires env.edition == "community"
    ensures ById(Knot(), First) == Some(Knot()[0]) && ById(Knot(), Second) == Some(Knot()[1])
    ensures First in Ids(Knot()) && Second in Ids(Knot())
    ensures Earlier(Knot(), First, Second) && !Earlier(Knot(), Second, First)
    ensures WishOf(Knot()[0], env) == WishOf(Knot()[1], env) == Wish(true, FromDefault, ByDefault, false)
  {
    var reg := Knot();
    assert First[0] != Second[0];
    assert reg[..1] == [reg[0]];
    assert reg[0].id == First && reg[1].id == Second;
    assert Requested([], env) == None;
  }

  /** Under "a", "b" finds its conflict on the stack and comes out on. */
  lemma SecondUnderFirst(env: Env)
    requires env.edition == "community"
    ensures var (s, m) := ResolveOne(Knot(), env, Second, map[], [First]);
      s.enabled && m == map[Second := s]
  {
    KnotFacts(env);
    var reg, f := Knot(), Knot()[1];
    var st := State(Second, true, FromDefault, ByDefault, false);
    assert CheckRequires(reg, env, st, false, f.requires_, map[], [First] + [Second]) == (st, map[]);
    var (s, m) := ResolveOne(reg, env, First, map[], [First] + [Second]);
    assert !s.enabled && m == map[];
    assert CheckConflicts(reg, env, st, false, [First][1..], map[], [First] + [Second]) == (st, map[]);
    assert CheckConflicts(reg, env, st, false, f.conflicts, map[], [First] + [Second]) == (st, map[]);
  }

  lemma FirstAlone(env: Env)
    requires env.edition == "community"
    ensures var (s, m) := ResolveOne(Knot(), env, First, map[], []);
      s.enabled && Second in m && m[Second].enabled && First in m && m[First] == s
  {
    KnotFacts(env);
    SecondUnderFirst(env);
    var reg, f := Knot(), Knot()[0];
    var st := State(First, true, FromDefault, ByDefault, false);
    assert [] + [First] == [First];
    var (b, m) := ResolveOne(reg, env, Second, map[], [First]);
    assert CheckRequires(reg, env, st, false, f.requires_[1..], m, [First]) == (st, m);
    assert CheckRequires(reg, env, st, false, f.requires_, map[], [First]) == (st, m);
    assert CheckConflicts(reg, env, st, false, f.conflicts[1..], m, [First]) == (st, m);
    assert CheckConflicts(reg, env, st, false, f.conflicts, m, [First]) == (st, m);
  }

  lemma SecondAlone(env: Env)
    requires env.edition == "community"
    ensures var (s, m) := ResolveOne(Knot(), env, Second, map[], []);
      s.enabled && First in m && !m[First].enabled && Second in m && m[Second] == s
  {
    KnotFacts(env);
    var reg, f := Knot(), Knot()[1];
    var st, stA := State(Second, true, FromDefault, ByDefault, false), State(First, true, FromDefault, ByDefault, false);
    assert [] + [Second] == [Second];
    var (b, mb) := ResolveOne(reg, env, Second, map[], [Second] + [First]);
    assert !b.enabled && mb == map[];
    var (ra, ma) := CheckRequires(reg, env, stA, false, Knot()[0].requires_, map[], [Second] + [First]);
    assert !ra.enabled && ma == map[];
    var (a, m) := ResolveOne(reg, env, First, map[], [Second]);
    assert !a.enabled && m == map[First := a];
    assert CheckRequires(reg, env, st, false, f.requires_, map[], [Second]) == (st, map[]);
    assert CheckConflicts(reg, env, st, false, f.conflicts[1..], m, [Second]) == (st, m);
    assert CheckConflicts(reg, env, st, false, f.conflicts, map[], [Second]) == (st, m);
  }

  /**
   The `requires` graph of this registry has no cycle, and every conflict is declared on both
   sides, yet "a" is on when it is resolved first and off when "b" is, and in the first case two
   conflicting features are on.
   */
  lemma OrderMattersWithoutAcyclicity(env: Env)
    requires env.edition == "community"
    ensures var fromA := ResolveAll(Knot(), env, [First, Second], map[]);
      First in fromA && Second in fromA && fromA[First].enabled && fromA[Second].enabled
    ensures var fromB := ResolveAll(Knot(), env, [Second, First], map[]);
      First in fromB && Second in fromB && !fromB[First].enabled && fromB[Second].enabled
  {
    FirstAlone(env);
    SecondAlone(env);
    var (a, m) := ResolveOne(Knot(), env, First, map[], []);
    var (b, n) := ResolveOne(Knot(), env, Second, map[], []);
    assert [First, Second][1..] == [Second] && [Second, First][1..] == [First];
    assert ResolveOne(Knot(), env, Second, m, []).1 == m;
    assert ResolveOne(Knot(), env, First, n, []).1 == n;
    assert ResolveAll(Knot(), env, [Second], m) == m;
    assert ResolveAll(Knot(), env, [First], n) == n;
  }

  /** Of several declarations of a name the last one counts. */
  lemma {:induction false} LastDeclarationCounts(reg: Registry, id: string, i: nat)
    requires i < |reg| && reg[i].id == id && forall j :: i < j < |reg| ==> reg[j].id != id
    ensures ById(reg, id) == Some(reg[i])
    decreases |reg|
  {
    if i < |reg| - 1 {
      assert reg[|reg| - 1].id != id;
      LastDeclarationCounts(reg[..|reg| - 1], id, i);
    }
  }
}
