/**
 The feature resolver: recursive, memoised, with a cycle guard. A feature that wants to be on
 is turned off when a required feature is off or an earlier declared conflicting one is on.
 */
module Features {
  import opened Util
  import opened Graph

  datatype Kind = Toggle | Integration | Invariant | Planned

  datatype Probe = Raises | Returns(on: bool)

  datatype Default = Off | On | Auto

  /** A switch; `parse` maps a raw value to a decision, None when it is not recognised. */
  datatype Var = Var(name: string, parse: string -> Option<bool>)

  datatype Feature = Feature(id: string, kind: Kind, requires_: seq<string>, conflicts: seq<string>, vars: seq<Var>,
                             defaults: map<string, Default>, auto: Option<Probe>, forced: bool)

  type Registry = seq<Feature>

  /** The edition in force and the environment variables that are set. */
  datatype Env = Env(edition: string, vars: map<string, string>)

  datatype Source = FromError | FromPlan | FromInvariant | FromIntegration | FromForced | FromVar(name: string)
                  | FromAuto | FromDefault

  datatype Reason = Cycle(path: seq<string>) | Unknown | NotYet | AlwaysOn | Configured(on: bool) | Forced
                  | Asked(raw: string) | ByDefault | ProbeFailed
                  | Requires(dep: string, why: Reason, own: Reason) | Conflicts(other: string, own: Reason)

  /** What the resolver returns for a feature. */
  datatype State = State(id: string, enabled: bool, source: Source, reason: Reason, problem: bool)

  // ---- the registry ------------------------------------------------------------------

  ghost function Ids(reg: Registry): set<string> {
    set i | 0 <= i < |reg| :: reg[i].id
  }

  /** `BY_ID.get`: of two declarations of an id the later one counts. */
  function ById(reg: Registry, id: string): (r: Option<Feature>)
    ensures r.Some? <==> id in Ids(reg)
    ensures r.Some? ==> r.value in reg && r.value.id == id
  {
    if reg == [] then None
    else
      var last := reg[|reg| - 1];
      if last.id == id then Some(last)
      else
        var r := ById(reg[..|reg| - 1], id);
        assert forall i :: 0 <= i < |reg| - 1 ==> reg[..|reg| - 1][i] == reg[i];
        r
  }

  /** `index`: position of the first declaration of a known id. */
  function Index(reg: Registry, id: string): (i: nat)
    requires id in Ids(reg)
    ensures i < |reg| && reg[i].id == id && forall j :: 0 <= j < i ==> reg[j].id != id
  {
    IndexFrom(reg, id, 0)
  }

  function IndexFrom(reg: Registry, id: string, from: nat): (i: nat)
    requires id in Ids(reg) && from <= |reg| && forall j :: 0 <= j < from ==> reg[j].id != id
    ensures i < |reg| && reg[i].id == id && forall j :: 0 <= j < i ==> reg[j].id != id
    decreases |reg| - from
  {
    if from < |reg| && reg[from].id == id then from else IndexFrom(reg, id, from + 1)
  }

  /** A conflict counts only against a feature declared earlier. */
  predicate Earlier(reg: Registry, other: string, id: string) {
    ById(reg, other).Some? && ById(reg, id).Some? && Index(reg, other) < Index(reg, id)
  }

  function EarlierConflicts(reg: Registry, f: Feature, cs: seq<string>): (r: seq<string>)
    ensures forall o :: o in r <==> o in cs && Earlier(reg, o, f.id)
  {
    if cs == [] then []
    else (if Earlier(reg, cs[0], f.id) then [cs[0]] else []) + EarlierConflicts(reg, f, cs[1..])
  }

  /** What resolution looks at: required features and earlier conflicting ones. */
  ghost function Looks(reg: Registry): (g: Graph)
    ensures g.Keys == Ids(reg)
    ensures forall x, y :: Edge(g, x, y) <==>
      x in Ids(reg) && (y in ById(reg, x).value.requires_ || (y in ById(reg, x).value.conflicts && Earlier(reg, y, x)))
  {
    map x | x in Ids(reg) ::
      ById(reg, x).value.requires_ + EarlierConflicts(reg, ById(reg, x).value, ById(reg, x).value.conflicts)
  }

  // ---- what a feature wants by itself ------------------------------------------------

  /** The characters that `strip` takes away. */
  predicate IsSpace(c: char) {
    var u := c as int;
    9 <= u <= 13 || 28 <= u <= 32 || u == 0x85 || u == 0xA0 || u == 0x1680 || 0x2000 <= u <= 0x200A
    || u == 0x2028 || u == 0x2029 || u == 0x202F || u == 0x205F || u == 0x3000
  }

  predicate IsBlank(s: string) {
    forall c :: c in s ==> IsSpace(c)
  }

  /** The first recognised value wins; a blank value counts as unset. */
  function Requested(vars: seq<Var>, env: Env): Option<(bool, string, string)> {
    if vars == [] then None
    else
      var v := vars[0];
      if v.name !in env.vars || IsBlank(env.vars[v.name]) || v.parse(env.vars[v.name]).None?
      then Requested(vars[1..], env)
      else Some((v.parse(env.vars[v.name]).value, v.name, env.vars[v.name]))
  }

  datatype Wish = Wish(want: bool, source: Source, reason: Reason, explicit: bool)

  function AutoOn(f: Feature): bool {
    f.auto.Some? && f.auto.value.Returns? && f.auto.value.on
  }

  function WishOf(f: Feature, env: Env): Wish {
    if f.kind == Integration then Wish(AutoOn(f), FromIntegration, Configured(AutoOn(f)), false)
    else if f.forced then Wish(true, FromForced, Forced, false)
    else
      match Requested(f.vars, env)
      case Some((val, name, raw)) => Wish(val, FromVar(name), Asked(raw), true)
      case None =>
        var d := if env.edition in f.defaults then f.defaults[env.edition] else Off;
        if d == Auto then
          Wish(AutoOn(f), FromAuto, if f.auto == Some(Raises) then ProbeFailed else ByDefault, false)
        else Wish(d == On, FromDefault, ByDefault, false)
  }

  function Asks(f: Feature, env: Env): bool {
    match Requested(f.vars, env) case Some((val, _, _)) => val case None => false
  }

  // ---- the memo-free meaning ---------------------------------------------------------

  ghost function Left(reg: Registry, stack: seq<string>): nat {
    |Ids(reg) - set x | x in stack|
  }

  lemma LeftShrinks(reg: Registry, stack: seq<string>, id: string)
    requires id in Ids(reg) && id !in stack
    ensures Left(reg, stack + [id]) < Left(reg, stack)
  {
    Fewer(Ids(reg) - (set x | x in stack + [id]), Ids(reg) - (set x | x in stack), id);
  }

  /** The first feature of `deps` that resolves to `on`. */
  ghost function FirstThatIs(reg: Registry, env: Env, deps: seq<string>, on: bool, stack: seq<string>): Option<State>
    decreases Left(reg, stack), |deps| + 1
  {
    if deps == [] then None
    else
      var s := Value(reg, env, deps[0], stack);
      if s.enabled == on then Some(s) else FirstThatIs(reg, env, deps[1..], on, stack)
  }

  /** Resolution without a memo: the code's recursion, cycle guard included. */
  ghost function Value(reg: Registry, env: Env, id: string, stack: seq<string>): (s: State)
    ensures s.id == id
    decreases Left(reg, stack), 0
  {
    if id in stack then State(id, false, FromError, Cycle(stack + [id]), true)
    else if ById(reg, id).None? then State(id, false, FromError, Unknown, true)
    else
      var f := ById(reg, id).value;
      if f.kind == Planned then State(id, false, FromPlan, NotYet, Asks(f, env))
      else if f.kind == Invariant then State(id, true, FromInvariant, AlwaysOn, false)
      else
        LeftShrinks(reg, stack, id);
        var w := WishOf(f, env);
        var plain := State(id, w.want, w.source, w.reason, false);
        if !w.want then plain
        else
          match FirstThatIs(reg, env, f.requires_, false, stack + [id])
          case Some(s) => plain.(enabled := false, reason := Requires(s.id, s.reason, w.reason), problem := w.explicit)
          case None =>
            match FirstThatIs(reg, env, EarlierConflicts(reg, f, f.conflicts), true, stack + [id])
            case Some(s) => plain.(enabled := false, reason := Conflicts(s.id, w.reason), problem := w.explicit)
            case None => plain
  }

  // ---- the memoised resolver ---------------------------------------------------------

  type Memo = map<string, State>

  /** The loop over `requires`: stops at the first one that is off. */
  ghost function CheckRequires(reg: Registry, env: Env, st: State, explicit: bool, deps: seq<string>,
                               memo: Memo, stack: seq<string>): (State, Memo)
    decreases Left(reg, stack), |deps| + 1
  {
    if deps == [] then (st, memo)
    else
      var (s, memo1) := ResolveOne(reg, env, deps[0], memo, stack);
      if !s.enabled then
        (st.(enabled := false, reason := Requires(deps[0], s.reason, st.reason), problem := explicit), memo1)
      else CheckRequires(reg, env, st, explicit, deps[1..], memo1, stack)
  }

  /** The loop over `conflicts`: stops at the first earlier declared one that is on. */
  ghost function CheckConflicts(reg: Registry, env: Env, st: State, explicit: bool, others: seq<string>,
                                memo: Memo, stack: seq<string>): (State, Memo)
    decreases Left(reg, stack), |others| + 1
  {
    if others == [] then (st, memo)
    else if !Earlier(reg, others[0], st.id) then CheckConflicts(reg, env, st, explicit, others[1..], memo, stack)
    else
      var (s, memo1) := ResolveOne(reg, env, others[0], memo, stack);
      if s.enabled then
        (st.(enabled := false, reason := Conflicts(others[0], st.reason), problem := explicit), memo1)
      else CheckConflicts(reg, env, st, explicit, others[1..], memo1, stack)
  }

  /** `_resolve_one`, with the memo as argument and result. */
  ghost function ResolveOne(reg: Registry, env: Env, id: string, memo: Memo, stack: seq<string>): (State, Memo)
    decreases Left(reg, stack), 0
  {
    if id in memo then (memo[id], memo)
    else if id in stack then (State(id, false, FromError, Cycle(stack + [id]), true), memo)
    else if ById(reg, id).None? then (State(id, false, FromError, Unknown, true), memo)
    else
      var f := ById(reg, id).value;
      if f.kind == Planned then
        var st := State(id, false, FromPlan, NotYet, Asks(f, env));
        (st, memo[id := st])
      else if f.kind == Invariant then
        var st := State(id, true, FromInvariant, AlwaysOn, false);
        (st, memo[id := st])
      else
        LeftShrinks(reg, stack, id);
        var w := WishOf(f, env);
        var st0 := State(id, w.want, w.source, w.reason, false);
        var (st1, memo1) := if w.want then CheckRequires(reg, env, st0, w.explicit, f.requires_, memo, stack + [id])
                            else (st0, memo);
        var (st2, memo2) := if st1.enabled then CheckConflicts(reg, env, st1, w.explicit, f.conflicts, memo1, stack + [id])
                            else (st1, memo1);
        (st2, memo2[id := st2])
  }

  /** `resolve` over any list of names, sharing one memo. */
  ghost function ResolveAll(reg: Registry, env: Env, order: seq<string>, memo: Memo): Memo {
    if order == [] then memo
    else ResolveAll(reg, env, order[1..], ResolveOne(reg, env, order[0], memo, []).1)
  }

  ghost function IdsInOrder(reg: Registry): (r: seq<string>)
    ensures |r| == |reg| && forall i :: 0 <= i < |reg| ==> r[i] == reg[i].id
  {
    seq(|reg|, i requires 0 <= i < |reg| => reg[i].id)
  }

  class Resolver {
    const reg: Registry
    const env: Env
    var memo: Memo

    constructor (reg: Registry, env: Env)
      ensures this.reg == reg && this.env == env && memo == map[]
    {
      this.reg, this.env, this.memo := reg, env, map[];
    }

    method Resolve(id: string, stack: seq<string>) returns (st: State)
      modifies this
      ensures (st, memo) == ResolveOne(reg, env, id, old(memo), stack)
      decreases Left(reg, stack), 0
    {
      if id in memo {
        return memo[id];
      }
      if id in stack {
        return State(id, false, FromError, Cycle(stack + [id]), true);
      }
      var found := ById(reg, id);
      if found.None? {
        return State(id, false, FromError, Unknown, true);
      }
      var f := found.value;
      if f.kind == Planned {
        st := State(id, false, FromPlan, NotYet, Asks(f, env));
        memo := memo[id := st];
        return;
      }
      if f.kind == Invariant {
        st := State(id, true, FromInvariant, AlwaysOn, false);
        memo := memo[id := st];
        return;
      }
      LeftShrinks(reg, stack, id);
      var w := WishOf(f, env);
      st := State(id, w.want, w.source, w.reason, false);
      if w.want {
        st := LoopRequires(st, w.explicit, f.requires_, stack + [id]);
      }
      if st.enabled {
        st := LoopConflicts(st, w.explicit, f.conflicts, stack + [id]);
      }
      memo := memo[id := st];
    }

    method LoopRequires(st0: State, explicit: bool, deps: seq<string>, stack: seq<string>) returns (st: State)
      modifies this
      ensures (st, memo) == CheckRequires(reg, env, st0, explicit, deps, old(memo), stack)
      decreases Left(reg, stack), |deps| + 1
    {
      st := st0;
      for n := 0 to |deps|
        invariant CheckRequires(reg, env, st0, explicit, deps, old(memo), stack)
               == CheckRequires(reg, env, st0, explicit, deps[n..], memo, stack)
        invariant st == st0
      {
        assert deps[n..][1..] == deps[n + 1..];
        var s := Resolve(deps[n], stack);
        if !s.enabled {
          st := st.(enabled := false, reason := Requires(deps[n], s.reason, st.reason), problem := explicit);
          return;
        }
      }
    }

    method LoopConflicts(st0: State, explicit: bool, others: seq<string>, stack: seq<string>) returns (st: State)
      modifies this
      ensures (st, memo) == CheckConflicts(reg, env, st0, explicit, others, old(memo), stack)
      decreases Left(reg, stack), |others| + 1
    {
      st := st0;
      for n := 0 to |others|
        invariant CheckConflicts(reg, env, st0, explicit, others, old(memo), stack)
               == CheckConflicts(reg, env, st0, explicit, others[n..], memo, stack)
        invariant st == st0
      {
        assert others[n..][1..] == others[n + 1..];
        if Earlier(reg, others[n], st.id) {
          var s := Resolve(others[n], stack);
          if s.enabled {
            st := st.(enabled := false, reason := Conflicts(others[n], st.reason), problem := explicit);
            return;
          }
        }
      }
    }

    /** `resolve`: every feature in declaration order, one memo. */
    method All()
      modifies this
      ensures memo == ResolveAll(reg, env, IdsInOrder(reg), map[])
    {
      memo := map[];
      ghost var order := IdsInOrder(reg);
      for i := 0 to |reg|
        invariant ResolveAll(reg, env, order, map[]) == ResolveAll(reg, env, order[i..], memo)
      {
        assert order[i..][0] == reg[i].id && order[i..][1..] == order[i + 1..];
        var _ := Resolve(reg[i].id, []);
      }
    }

    /** `enabled`: an unknown name is an error, a known one is resolved from an empty memo. */
    method Enabled(id: string) returns (r: Option<bool>)
      modifies this
      ensures r == if ById(reg, id).None? then None else Some(ResolveOne(reg, env, id, map[], []).0.enabled)
    {
      if ById(reg, id).None? {
        return None;
      }
      memo := map[];
      var st := Resolve(id, []);
      r := Some(st.enabled);
    }
  }
}
