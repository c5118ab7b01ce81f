/** The shipped registry meets the hypothesis of the feature laws: it is well declared and acyclic. */
module Registry {
  import opened Util
  import opened Graph
  import opened Features
  import opened Validation
  import opened FeatureLaws

  /**
   The part of a declaration that resolution order depends on. References are positions in
   this list; `level` is greater than the level of everything the feature looks at.
   */
  datatype Declaration = Declaration(id: string, kind: Kind, level: nat, needs: seq<nat>, clashes: seq<nat>)

  const SHIPPED: seq<Declaration> := [
    Declaration("tmux", Toggle, 0, [], []),
    Declaration("preview", Toggle, 0, [], []),
    Declaration("preview_private_targets", Toggle, 1, [1], []),  // preview
    Declaration("magnitude", Toggle, 0, [], []),
    Declaration("assistant", Toggle, 0, [], []),
    Declaration("missions_link", Toggle, 0, [], []),
    Declaration("update_check", Toggle, 0, [], []),
    Declaration("named_secrets", Toggle, 0, [], []),
    Declaration("memory_quarantine", Invariant, 0, [], []),
    Declaration("agents", Toggle, 0, [], []),
    Declaration("agents_cli_login", Toggle, 1, [9], []),  // agents
    Declaration("four_eyes", Toggle, 1, [9], [12]),  // agents, admin_approval
    Declaration("admin_approval", Toggle, 2, [9], [11]),  // agents, four_eyes
    Declaration("agent_incidents", Toggle, 1, [9], []),  // agents
    Declaration("crew_viewer_readonly", Toggle, 1, [9], []),  // agents
    Declaration("demo_banner", Toggle, 0, [], []),
    Declaration("demo_crew", Toggle, 1, [9, 15], []),  // agents, demo_banner
    Declaration("demo_captains", Toggle, 1, [15, 19], []),  // demo_banner, multi_project
    Declaration("sso", Integration, 0, [], []),
    Declaration("multi_project", Toggle, 0, [], []),
    Declaration("sso_teams", Toggle, 1, [18], []),  // sso
    Declaration("operate", Integration, 0, [], []),
    Declaration("alerting", Toggle, 0, [], []),
    Declaration("ops_team", Toggle, 2, [20], []),  // sso_teams
    Declaration("infra", Integration, 0, [], []),
    Declaration("fleet", Integration, 0, [], []),
    Declaration("cortex", Integration, 0, [], []),
    Declaration("kubernetes_runner", Toggle, 0, [], []),
    Declaration("project_vault_budgets", Toggle, 1, [19, 7], []),  // multi_project, named_secrets
    Declaration("gitlab", Toggle, 1, [19, 18], []),  // multi_project, sso
    Declaration("revocation", Toggle, 2, [20], []),  // sso_teams
    Declaration("byok_admin", Toggle, 1, [19], []),  // multi_project
    Declaration("secrets_provider", Toggle, 0, [], []),
    Declaration("sandbox", Toggle, 1, [19], []),  // multi_project
    Declaration("shared_review", Toggle, 1, [1, 19], []),  // preview, multi_project
    Declaration("helm", Toggle, 1, [19, 4], []),  // multi_project, assistant
    Declaration("classification", Toggle, 2, [19, 20], []),  // multi_project, sso_teams
    Declaration("teams", Toggle, 3, [4, 36, 18], []),  // assistant, classification, sso
    Declaration("connect_ai", Toggle, 0, [], [])
  ]

  /** `Key` of each name, in order. */
  const KEYS: seq<int> := [
    291960, 487543, 1536115, 617829, 614772, 879979, 816491, 880243, 1142117, 418163,
    1073518, 616051, 942444, 1007987, 1336185, 746610, 615543, 877683, 226159, 879988,
    619379, 487269, 549223, 552813, 354657, 353908, 418680, 1141618, 1405043, 419682,
    684654, 680558, 1078130, 488312, 881527, 288877, 942958, 357491, 680809
  ]

  const COUNT := 39

  function Name(i: nat): string
    requires i < COUNT
  {
    SHIPPED[i].id
  }

  ghost predicate Names(refs: seq<nat>, names: seq<string>) {
    |refs| == |names| && forall k :: 0 <= k < |refs| ==> refs[k] < COUNT && names[k] == Name(refs[k])
  }

  /** `reg` is the shipped registry, whatever its switches, defaults and probes say. */
  ghost predicate IsShipped(reg: Registry) {
    |reg| == COUNT &&
    forall i :: 0 <= i < COUNT ==> Declares(SHIPPED[i], reg[i])
  }

  ghost predicate Declares(d: Declaration, f: Feature) {
    f.id == d.id && f.kind == d.kind && Names(d.needs, f.requires_) && Names(d.clashes, f.conflicts)
  }

  // Names are told apart by their length, first and last character.

  function Key(s: string): int {
    if s == "" then 0 else |s| * 65536 + s[0] as int * 256 + s[|s| - 1] as int
  }

  function Ordinal(key: int): int {
    if key == 291960 then 0
    else if key == 487543 then 1
    else if key == 1536115 then 2
    else if key == 617829 then 3
    else if key == 614772 then 4
    else if key == 879979 then 5
    else if key == 816491 then 6
    else if key == 880243 then 7
    else if key == 1142117 then 8
    else if key == 418163 then 9
    else if key == 1073518 then 10
    else if key == 616051 then 11
    else if key == 942444 then 12
    else if key == 1007987 then 13
    else if key == 1336185 then 14
    else if key == 746610 then 15
    else if key == 615543 then 16
    else if key == 877683 then 17
    else if key == 226159 then 18
    else if key == 879988 then 19
    else if key == 619379 then 20
    else if key == 487269 then 21
    else if key == 549223 then 22
    else if key == 552813 then 23
    else if key == 354657 then 24
    else if key == 353908 then 25
    else if key == 418680 then 26
    else if key == 1141618 then 27
    else if key == 1405043 then 28
    else if key == 419682 then 29
    else if key == 684654 then 30
    else if key == 680558 then 31
    else if key == 1078130 then 32
    else if key == 488312 then 33
    else if key == 881527 then 34
    else if key == 288877 then 35
    else if key == 942958 then 36
    else if key == 357491 then 37
    else if key == 680809 then 38
    else -1
  }

  lemma Keys0(i: nat)
    requires 0 <= i < 5
    ensures Key(Name(i)) == KEYS[i]
  {
  }

  lemma Keys1(i: nat)
    requires 5 <= i < 10
    ensures Key(Name(i)) == KEYS[i]
  {
  }

  lemma Keys2(i: nat)
    requires 10 <= i < 15
    ensures Key(Name(i)) == KEYS[i]
  {
  }

  lemma Keys3(i: nat)
    requires 15 <= i < 20
    ensures Key(Name(i)) == KEYS[i]
  {
  }

  lemma Keys4(i: nat)
    requires 20 <= i < 25
    ensures Key(Name(i)) == KEYS[i]
  {
  }

  lemma Keys5(i: nat)
    requires 25 <= i < 30
    ensures Key(Name(i)) == KEYS[i]
  {
  }

  lemma Keys6(i: nat)
    requires 30 <= i < 35
    ensures Key(Name(i)) == KEYS[i]
  {
  }

  lemma Keys7(i: nat)
    requires 35 <= i < 39
    ensures Key(Name(i)) == KEYS[i]
  {
  }

  lemma KeyOfName(i: nat)
    requires i < COUNT
    ensures Key(Name(i)) == KEYS[i]
  {
    if i < 5 {
      Keys0(i);
    } else if i < 10 {
      Keys1(i);
    } else if i < 15 {
      Keys2(i);
    } else if i < 20 {
      Keys3(i);
    } else if i < 25 {
      Keys4(i);
    } else if i < 30 {
      Keys5(i);
    } else if i < 35 {
      Keys6(i);
    } else {
      Keys7(i);
    }
  }

  lemma OrdinalOfKey(i: nat)
    requires i < COUNT
    ensures Ordinal(KEYS[i]) == i
  {
  }

  lemma NeedsFallEarly(i: nat, k: nat)
    requires i < 20 && k < |SHIPPED[i].needs|
    ensures SHIPPED[i].needs[k] < COUNT && SHIPPED[SHIPPED[i].needs[k]].level < SHIPPED[i].level
  {
  }

  lemma NeedsFallLate(i: nat, k: nat)
    requires 20 <= i < COUNT && k < |SHIPPED[i].needs|
    ensures SHIPPED[i].needs[k] < COUNT && SHIPPED[SHIPPED[i].needs[k]].level < SHIPPED[i].level
  {
  }

  lemma NeedsFall(i: nat, k: nat)
    requires i < COUNT && k < |SHIPPED[i].needs|
    ensures SHIPPED[i].needs[k] < COUNT && SHIPPED[SHIPPED[i].needs[k]].level < SHIPPED[i].level
  {
    if i < 20 {
      NeedsFallEarly(i, k);
    } else {
      NeedsFallLate(i, k);
    }
  }

  /** A clash is answered from the other side, and an earlier one is on a smaller level. */
  lemma ClashesAnswer(i: nat, k: nat)
    requires i < COUNT && k < |SHIPPED[i].clashes|
    ensures var j := SHIPPED[i].clashes[k];
      j < COUNT && j != i && SHIPPED[j].clashes == [i] && (j < i ==> SHIPPED[j].level < SHIPPED[i].level)
  {
  }

  lemma NameToPosition(i: nat)
    requires i < COUNT
    ensures Ordinal(Key(Name(i))) == i
  {
    KeyOfName(i);
    OrdinalOfKey(i);
  }

  /** Each name is declared once, so its position is where it is looked up. */
  lemma Position(reg: Registry, x: string) returns (i: nat)
    requires IsShipped(reg) && x in Ids(reg)
    ensures i < COUNT && x == Name(i) && Ordinal(Key(x)) == i
    ensures Index(reg, x) == i && ById(reg, x) == Some(reg[i])
  {
    i :| 0 <= i < |reg| && reg[i].id == x;
    NameToPosition(i);
    assert Declares(SHIPPED[i], reg[i]);
    var j := Index(reg, x);
    assert Declares(SHIPPED[j], reg[j]);
    NameToPosition(j);
    var k :| 0 <= k < |reg| && reg[k] == ById(reg, x).value;
    assert Declares(SHIPPED[k], reg[k]);
    NameToPosition(k);
  }

  ghost function LevelOf(x: string): nat {
    var i := Ordinal(Key(x));
    if 0 <= i < COUNT then SHIPPED[i].level else 0
  }

  lemma LevelOfName(i: nat)
    requires i < COUNT
    ensures LevelOf(Name(i)) == SHIPPED[i].level
  {
    NameToPosition(i);
  }

  lemma EdgeFalls(reg: Registry, x: string, y: string)
    requires IsShipped(reg) && Edge(Looks(reg), x, y) && y in Ids(reg)
    ensures LevelOf(y) < LevelOf(x)
  {
    var i := Position(reg, x);
    var j := Position(reg, y);
    LevelOfName(i);
    LevelOfName(j);
    assert Declares(SHIPPED[i], reg[i]);
    if y in reg[i].requires_ {
      var k :| 0 <= k < |reg[i].requires_| && reg[i].requires_[k] == y;
      NeedsFall(i, k);
      NameToPosition(SHIPPED[i].needs[k]);
    } else {
      var k :| 0 <= k < |reg[i].conflicts| && reg[i].conflicts[k] == y;
      ClashesAnswer(i, k);
      NameToPosition(SHIPPED[i].clashes[k]);
    }
  }

  /** The hypothesis of the feature laws holds of the shipped registry. */
  lemma ShippedIsAcyclic(reg: Registry)
    requires IsShipped(reg)
    ensures !Cyclic(Looks(reg))
  {
    var rank := map x | x in Ids(reg) :: LevelOf(x);
    forall x, y | Edge(Looks(reg), x, y) && y in Looks(reg) ensures rank[y] < rank[x] {
      EdgeFalls(reg, x, y);
    }
    assert Ranked(Looks(reg), rank);
    AcyclicMeansRanked(Looks(reg));
  }

  lemma ShippedReference(reg: Registry, i: nat, d: string)
    requires IsShipped(reg) && i < COUNT && d in reg[i].requires_ + reg[i].conflicts
    ensures GoodReference(reg, reg[i].id, d)
    ensures d in reg[i].conflicts ==> Mutual(reg, reg[i].id, d)
  {
    assert Declares(SHIPPED[i], reg[i]);
    NameToPosition(i);
    if d in reg[i].requires_ {
      var k :| 0 <= k < |reg[i].requires_| && reg[i].requires_[k] == d;
      NeedsFall(i, k);
      Declared(reg, SHIPPED[i].needs[k]);
    }
    if d in reg[i].conflicts {
      var k :| 0 <= k < |reg[i].conflicts| && reg[i].conflicts[k] == d;
      ClashesAnswer(i, k);
      var j := SHIPPED[i].clashes[k];
      Declared(reg, j);
      assert Declares(SHIPPED[j], reg[j]);
      assert reg[j].conflicts[0] == Name(SHIPPED[j].clashes[0]);
    }
  }

  lemma Declared(reg: Registry, j: nat)
    requires IsShipped(reg) && j < COUNT
    ensures Name(j) in Ids(reg) && ById(reg, Name(j)) == Some(reg[j]) && Ordinal(Key(Name(j))) == j
  {
    assert Declares(SHIPPED[j], reg[j]);
    assert reg[j].id == Name(j);
    var i := Position(reg, Name(j));
    NameToPosition(j);
  }

  /** The shipped registry passes the structural checks, so `Validate` reports nothing on it. */
  lemma ShippedIsWellDeclared(reg: Registry)
    requires IsShipped(reg)
    ensures WellDeclared(reg) && !Cyclic(Needs(reg))
  {
    forall i, j | 0 <= i < j < |reg| ensures reg[i].id != reg[j].id {
      assert Declares(SHIPPED[i], reg[i]) && Declares(SHIPPED[j], reg[j]);
      NameToPosition(i);
      NameToPosition(j);
    }
    forall i, d | 0 <= i < |reg| && (d in reg[i].requires_ || d in reg[i].conflicts) ensures GoodReference(reg, reg[i].id, d) {
      ShippedReference(reg, i, d);
    }
    forall i, c | 0 <= i < |reg| && c in reg[i].conflicts ensures Mutual(reg, reg[i].id, c) {
      ShippedReference(reg, i, c);
    }
    ShippedIsAcyclic(reg);
    FewerEdges(Needs(reg), Looks(reg));
  }

  lemma FewerEdges(g: Graph, h: Graph)
    requires g.Keys == h.Keys && !Cyclic(h) && forall x, y :: Edge(g, x, y) ==> Edge(h, x, y)
    ensures !Cyclic(g)
  {
    AcyclicMeansRanked(h);
    var rank :| Ranked(h, rank);
    assert Ranked(g, rank);
    AcyclicMeansRanked(g);
  }

  lemma KnotReferences()
    ensures WellDeclared(Knot())
  {
    var reg := Knot();
    KnotFacts(Env("community", map[]));
    assert First[0] != Second[0];
    assert reg[0].id == First && reg[1].id == Second;
    forall i, d | 0 <= i < |reg| && (d in reg[i].requires_ || d in reg[i].conflicts)
      ensures GoodReference(reg, reg[i].id, d) && Mutual(reg, reg[i].id, d)
    {
      assert i == 0 || i == 1;
      assert d == First || d == Second;
    }
  }

  lemma KnotNeeds()
    ensures !Cyclic(Needs(Knot()))
  {
    KnotFacts(Env("community", map[]));
    var g := Needs(Knot());
    assert g[First] == [Second] && g[Second] == [];
    assert First[0] != Second[0];
    assert Ranked(g, map[First := 1, Second := 0]);
    AcyclicMeansRanked(g);
  }

  lemma KnotLooks()
    ensures Cyclic(Looks(Knot()))
  {
    KnotFacts(Env("community", map[]));
    var g, p := Looks(Knot()), [First, Second, First];
    assert Edge(g, First, Second) && Edge(g, Second, First);
    assert PathBetween(g, p, First, First);
  }

  /** `validate_registry` looks at `requires` only: it accepts a registry on which order matters. */
  lemma KnotPassesValidation()
    ensures WellDeclared(Knot()) && !Cyclic(Needs(Knot())) && Cyclic(Looks(Knot()))
  {
    KnotReferences();
    KnotNeeds();
    KnotLooks();
  }
}
