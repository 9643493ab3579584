/** The part of a Python module that `tools/cypher_lint.py` looks at.
    Expressions, binding targets, lexical scopes, and functions with their own `return`
    expressions.
    `CypherTree` shows how scopes and functions are found in the syntax tree. */
module CypherAst {

  import opened Options

  /** One constructor per expression form that the linter tells apart.
      `Collection` stands for list, tuple and set displays, `Comprehension` for list and set
      comprehensions and generator expressions, `Opaque` for every other form and for the key of a
      `**` entry of a dict display. */
  datatype Expr =
    | StrConst(text: string)
    | OtherConst
    | Name(id: string)
    | Attribute(base: Expr, attr: string)
    | Call(func: Expr, args: seq<Expr>)
    | JoinedStr(parts: seq<Expr>)
    | FormattedValue(shown: Expr, spec: seq<Expr>)
    | BoolOp(values: seq<Expr>)
    | IfExp(test: Expr, body: Expr, orelse: Expr)
    | Comprehension(elt: Expr)
    | Collection(elts: seq<Expr>)
    | DictDisplay(keys: seq<Expr>, vals: seq<Expr>)
    | Subscript(whole: Expr, index: Expr)
    | Starred(inner: Expr)
    | Opaque

  /** `target = value`, or `for target in value`. A binding is `apart` when the linter files it in a scope
      where Python does not keep its names: a comprehension target, or a binding in a class body or in
      the header of a function, that is, in its default values, decorators and annotations. */
  datatype Binding = Binding(target: Expr, value: Expr, apart: bool := false)

  /** One lexical scope. `parent` is the scope in which the linter goes on looking, `outer` the one in which
      Python does; they differ for a lambda in the header of a function. `others` holds what is bound by
      anything the linter does not record as such: as names, parameters, imports (other than those of
      the sanitizers themselves), class statements, `with ... as` and the like, and what the header of an
      inner function binds; as attributes, what class bodies bind to a value, and `with ... as self.a`. */
  datatype Scope = Scope(parent: Option<nat>, outer: Option<nat>, assignments: seq<Binding>, loops: seq<Binding>,
                         others: set<Atom>)

  /** `home` is the scope whose name the `def` binds, None for a method; `scope` is the function's own. */
  datatype Function = Function(name: string, home: Option<nat>, scope: nat, results: seq<Expr>)

  datatype Tree = Tree(scopes: seq<Scope>, functions: seq<Function>)

  /** Scopes are numbered in the order a breadth-first walk meets them, so a parent comes first. */
  ghost predicate WellScoped(m: Tree) {
    && |m.scopes| > 0
    && (forall s | 0 <= s < |m.scopes| :: m.scopes[s].parent.Some? ==> m.scopes[s].parent.value < s)
    && (forall s | 0 <= s < |m.scopes| :: m.scopes[s].outer.Some? ==> m.scopes[s].outer.value < s)
    && (forall f | 0 <= f < |m.functions| :: m.functions[f].scope < |m.scopes|)
  }

  type Module = m: Tree | WellScoped(m) witness Tree([Scope(None, None, [], [], {})], [])

  function ParentOf(m: Module, s: nat): Option<nat> {
    if s < |m.scopes| then m.scopes[s].parent else None
  }

  function OuterOf(m: Module, s: nat): Option<nat> {
    if s < |m.scopes| then m.scopes[s].outer else None
  }

  /** The bindings the linter records in a scope: assignments first, then loops. */
  function BindingsOf(m: Module, s: nat): seq<Binding> {
    if s < |m.scopes| then m.scopes[s].assignments + m.scopes[s].loops else []
  }

  /** Scope `r` is `s` or one of the scopes enclosing it. */
  ghost predicate Encloses(m: Module, r: nat, s: nat)
    decreases s
  {
    r == s || (ParentOf(m, s).Some? && Encloses(m, r, ParentOf(m, s).value))
  }

  /** Each scope is the parent of the one before. */
  ghost predicate ClimbsParents(m: Module, path: seq<nat>) {
    path != [] && forall i: nat | i + 1 < |path| :: StepsUp(m, path, i)
  }

  ghost predicate StepsUp(m: Module, path: seq<nat>, i: nat)
    requires i + 1 < |path|
  {
    path[i] < |m.scopes| && m.scopes[path[i]].parent == Some(path[i + 1])
  }

  ghost predicate LeadsUp(m: Module, s: nat, r: nat) {
    exists path :: ClimbsParents(m, path) && path[0] == s && path[|path| - 1] == r
  }

  /** The scopes enclosing one are those its parents lead to. */
  lemma {:induction false} EnclosesMeaning(m: Module, r: nat, s: nat)
    ensures Encloses(m, r, s) <==> LeadsUp(m, s, r)
    decreases s
  {
    if r == s {
      assert ClimbsParents(m, [s]);
    } else {
      if s < |m.scopes| && m.scopes[s].parent.Some? {
        var up := m.scopes[s].parent.value;
        EnclosesMeaning(m, r, up);
        if LeadsUp(m, up, r) {
          var path :| ClimbsParents(m, path) && path[0] == up && path[|path| - 1] == r;
          ClimbOneMore(m, s, path);
        }
      }
      if LeadsUp(m, s, r) {
        var path :| ClimbsParents(m, path) && path[0] == s && path[|path| - 1] == r;
        assert StepsUp(m, path, 0);
        ClimbOneLess(m, path);
      }
    }
  }

  lemma ClimbOneMore(m: Module, s: nat, path: seq<nat>)
    requires ClimbsParents(m, path) && s < |m.scopes| && m.scopes[s].parent == Some(path[0])
    ensures ClimbsParents(m, [s] + path) && LeadsUp(m, s, path[|path| - 1])
  {
    var more := [s] + path;
    forall i: nat | i + 1 < |more| ensures StepsUp(m, more, i) {
      assert i > 0 ==> StepsUp(m, path, i - 1);
    }
    assert more[0] == s && more[|more| - 1] == path[|path| - 1];
  }

  lemma ClimbOneLess(m: Module, path: seq<nat>)
    requires ClimbsParents(m, path) && |path| > 1
    ensures LeadsUp(m, path[1], path[|path| - 1])
  {
    var rest := path[1..];
    forall i: nat | i + 1 < |rest| ensures StepsUp(m, rest, i) {
      assert StepsUp(m, path, i + 1);
    }
    assert ClimbsParents(m, rest) && rest[0] == path[1] && rest[|rest| - 1] == path[|path| - 1];
  }

  lemma {:induction false} EnclosesTransitive(m: Module, a: nat, b: nat, c: nat)
    requires Encloses(m, a, b) && Encloses(m, b, c)
    ensures Encloses(m, a, c)
    decreases c
  {
    if b != c {
      EnclosesTransitive(m, a, b, ParentOf(m, c).value);
    }
  }

  // ----- binding targets -----

  datatype Atom = NameAtom(id: string) | AttrAtom(id: string)

  /** What a target binds and the linter can mark, left to right: names, attributes of `self`,
      and the same inside tuple or list targets. */
  function Atoms(target: Expr): seq<Atom> {
    match target
    case Name(id) => [NameAtom(id)]
    case Attribute(Name(n), a) => if n == "self" then [AttrAtom(a)] else []
    case Collection(elts) => AtomsOfAll(elts)
    case _ => []
  }

  function AtomsOfAll(targets: seq<Expr>): seq<Atom> {
    if targets == [] then [] else Atoms(targets[0]) + AtomsOfAll(targets[1..])
  }

  /** `leaf` stands in the tuple or list target at this path of positions. */
  ghost predicate StandsAt(target: Expr, path: seq<nat>, leaf: Expr)
    decreases path
  {
    if path == [] then target == leaf
    else target.Collection? && path[0] < |target.elts| && StandsAt(target.elts[path[0]], path[1..], leaf)
  }

  ghost predicate Stands(target: Expr, leaf: Expr) {
    exists path :: StandsAt(target, path, leaf)
  }

  lemma StandsIn(target: Expr, path: seq<nat>, leaf: Expr)
    requires StandsAt(target, path, leaf)
    ensures Stands(target, leaf)
  {
  }

  function Leaf(a: Atom): Expr {
    match a
    case NameAtom(id) => Name(id)
    case AttrAtom(id) => Attribute(Name("self"), id)
  }

  /** The atoms are the names and attributes of `self` that stand in the target, at any depth. */
  lemma {:induction false} AtomsMeaning(target: Expr, a: Atom)
    ensures a in Atoms(target) <==> Stands(target, Leaf(a))
    decreases target
  {
    if target.Collection? {
      AtomsOfAllMeaning(target.elts, a);
      if i: nat :| i < |target.elts| && a in Atoms(target.elts[i]) {
        AtomsMeaning(target.elts[i], a);
        var path :| StandsAt(target.elts[i], path, Leaf(a));
        assert ([i] + path)[1..] == path;
        StandsIn(target, [i] + path, Leaf(a));
      }
      if path :| StandsAt(target, path, Leaf(a)) {
        StandsIn(target.elts[path[0]], path[1..], Leaf(a));
        AtomsMeaning(target.elts[path[0]], a);
        assert a in Atoms(target.elts[path[0]]);
      }
    } else {
      AtomsOfLeaf(target, a);
      if target == Leaf(a) {
        StandsIn(target, [], Leaf(a));
      }
    }
  }

  lemma AtomsOfLeaf(target: Expr, a: Atom)
    requires !target.Collection?
    ensures a in Atoms(target) <==> target == Leaf(a)
  {
    if target.Attribute? && target.base.Name? {
      assert Atoms(target) == if target.base.id == "self" then [AttrAtom(target.attr)] else [];
    }
  }

  lemma {:induction false} AtomsOfAllMeaning(targets: seq<Expr>, a: Atom)
    ensures a in AtomsOfAll(targets) <==> exists i: nat :: i < |targets| && a in Atoms(targets[i])
  {
    if targets != [] {
      AtomsOfAllMeaning(targets[1..], a);
      assert forall i: nat | 0 < i < |targets| :: targets[i] == targets[1..][i - 1];
      if i: nat :| i < |targets[1..]| && a in Atoms(targets[1..][i]) {
        assert a in Atoms(targets[i + 1]);
      }
    }
  }

  /** What a target binds when the program runs: as `Atoms`, and starred targets too. */
  function Bound(target: Expr): set<Atom> {
    match target
    case Name(id) => {NameAtom(id)}
    case Attribute(Name(n), a) => if n == "self" then {AttrAtom(a)} else {}
    case Collection(elts) => BoundByAll(elts)
    case Starred(inner) => Bound(inner)
    case _ => {}
  }

  function BoundByAll(targets: seq<Expr>): set<Atom> {
    if targets == [] then {} else Bound(targets[0]) + BoundByAll(targets[1..])
  }

  lemma {:induction false} AtomsAreBound(target: Expr, a: Atom)
    requires a in Atoms(target)
    ensures a in Bound(target)
    decreases target, 1
  {
    match target
    case Collection(elts) => AtomsOfAllAreBound(elts, a);
    case _ =>
  }

  lemma {:induction false} AtomsOfAllAreBound(targets: seq<Expr>, a: Atom)
    requires a in AtomsOfAll(targets)
    ensures a in BoundByAll(targets)
    decreases targets, 0
  {
    if a in Atoms(targets[0]) {
      AtomsAreBound(targets[0], a);
    } else {
      AtomsOfAllAreBound(targets[1..], a);
    }
  }

  // ----- names the linter knows -----

  const SANITIZERS: set<string> := {"sanitize_label", "sanitize_database_name", "cypher_number"}
  const NUMERIC_CASTS: set<string> := {"int", "float"}
  const RAW_ROOTS: set<string> := {
    "spec", "gate", "gate_spec", "job_spec", "dim", "dimension", "domain_spec", "metadata",
    "payload", "config", "params", "_spec", "_domain_spec", "_causal_spec", "causal_spec",
    "scoring_spec"
  }
  const RAW_METHODS: set<string> := {"get", "pop", "strip", "lower", "upper"}

  function CallName(func: Expr): string {
    match func
    case Name(id) => id
    case Attribute(_, a) => a
    case _ => ""
  }

  /** `"sep".join(items)` */
  predicate IsJoin(func: Expr, args: seq<Expr>) {
    && func.Attribute?
    && func.attr == "join"
    && (func.base.StrConst? || func.base.OtherConst?)
    && |args| == 1
  }

  predicate IsSelfAttribute(e: Expr) {
    e.Attribute? && e.base == Name("self")
  }

  /** The leftmost name of a dotted expression, or "" when it does not start with a name. */
  function AttributeRoot(e: Expr): string {
    match e
    case Attribute(base, _) => AttributeRoot(base)
    case Name(id) => id
    case _ => ""
  }

  predicate ChainHasRawSegment(e: Expr) {
    e.Attribute? && (e.attr in RAW_ROOTS || ChainHasRawSegment(e.base))
  }
}
