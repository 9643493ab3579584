/** What the facts computed by `CypherFixpoint.ModuleFacts` mean: derivability, independence of the
    visiting order, scope isolation, and how far the raw facts depend on that order. */
module CypherTheorems {
  import opened Options
  import opened CypherAst
  import opened CypherRules

  // ----- derivations -----

  /** A derivation tree. `scope` and `index` say which binding, attribute binding or function
      justifies a step; `subs` justify what that step rests on. */
  datatype Proof = Proof(scope: nat, index: nat, subs: seq<Proof>)

  /** The first `n` premises are each derived by the sub-proof at their position. */
  ghost predicate DerivesAll(m: Module, s: nat, es: seq<Expr>, p: Proof)
    decreases p, 0
  {
    |p.subs| == |es| && forall i | 0 <= i < |es| :: Derives(m, s, es[i], p.subs[i])
  }

  ghost predicate DerivesSome(m: Module, s: nat, e: Expr, p: Proof)
    decreases p, 0
  {
    |p.subs| == 1 && Derives(m, s, e, p.subs[0])
  }

  /** The binding named by `p` marks the atom, and its value is derived in its own scope. */
  ghost predicate DerivesBinding(m: Module, a: Atom, p: Proof)
    decreases p, 1
  {
    && p.index < |BindingsOf(m, p.scope)|
    && a in Atoms(BindingsOf(m, p.scope)[p.index].target)
    && DerivesSome(m, p.scope, BindingsOf(m, p.scope)[p.index].value, p)
  }

  /** `p` names a function called `name`, which has returns, all of them derived. */
  ghost predicate DerivesFunction(m: Module, name: string, p: Proof)
    decreases p, 1
  {
    && p.index < |m.functions|
    && m.functions[p.index].name == name
    && |m.functions[p.index].results| > 0
    && DerivesAll(m, m.functions[p.index].scope, m.functions[p.index].results, p)
  }

  /** The call is written `name(...)` or `x.name(...)`; what is called otherwise has no name. */
  ghost predicate Calls(func: Expr, name: string) {
    || func == Name(name)
    || (func.Attribute? && func.attr == name)
    || (!func.Name? && !func.Attribute? && name == "")
  }

  function Interpolated(parts: seq<Expr>): (r: seq<Expr>)
    ensures forall x :: x in r <==> exists i :: 0 <= i < |parts| && parts[i].FormattedValue? && parts[i].shown == x
  {
    if parts == [] then []
    else
      var rest := Interpolated(parts[1..]);
      assert forall i | 0 < i < |parts| :: parts[i] == parts[1..][i - 1];
      if parts[0].FormattedValue? then [parts[0].shown] + rest else rest
  }

  /** `p` derives that `e`, read in scope `s`, is validated. One line per reason the linter's
      documentation gives. */
  ghost predicate Derives(m: Module, s: nat, e: Expr, p: Proof)
    decreases p, 2
  {
    match e
    case StrConst(_) => true
    case Name(id) => Encloses(m, p.scope, s) && DerivesBinding(m, NameAtom(id), p)
    case Attribute(base, a) => base == Name("self") && DerivesBinding(m, AttrAtom(a), p)
    case Call(func, args) =>
      || Calls(func, "sanitize_label") || Calls(func, "sanitize_database_name") || Calls(func, "cypher_number")
      || func == Name("int") || func == Name("float")
      || (exists name :: Calls(func, name) && DerivesFunction(m, name, p))
      || (func.Attribute? && func.attr == "join" && (func.base.StrConst? || func.base.OtherConst?)
          && |args| == 1 && DerivesSome(m, s, args[0], p))
    case JoinedStr(parts) => DerivesAll(m, s, Interpolated(parts), p)
    case FormattedValue(shown, _) => DerivesSome(m, s, shown, p)
    case BoolOp(values) => DerivesAll(m, s, values, p)
    case IfExp(_, body, orelse) => DerivesAll(m, s, [body, orelse], p)
    case Comprehension(elt) => DerivesSome(m, s, elt, p)
    case Collection(elts) => elts != [] && DerivesAll(m, s, elts, p)
    case DictDisplay(_, vals) => vals != [] && DerivesAll(m, s, vals, p)
    case Subscript(whole, _) => DerivesSome(m, s, whole, p)
    case _ => false
  }

  ghost predicate Derivable(m: Module, s: nat, e: Expr) {
    exists p :: Derives(m, s, e, p)
  }

  lemma {:induction false} MarkedVisible(k: Marks, m: Module, r: nat, s: nat, id: string)
    requires Encloses(m, r, s) && Local(r, id) in k.names
    ensures NameIn(k, m, s, id)
    decreases s
  {
    if r != s {
      MarkedVisible(k, m, r, ParentOf(m, s).value, id);
    }
  }

  lemma {:induction false} VisibleMarked(k: Marks, m: Module, s: nat, id: string) returns (r: nat)
    requires NameIn(k, m, s, id)
    ensures Encloses(m, r, s) && Local(r, id) in k.names
    decreases s
  {
    if Local(s, id) in k.names {
      r := s;
    } else {
      r := VisibleMarked(k, m, ParentOf(m, s).value, id);
    }
  }

  /** Every closed set of facts validates what can be derived. */
  lemma {:induction false} DerivedIsSafe(m: Module, k: Marks, funcs: set<string>, s: nat, e: Expr, p: Proof)
    requires SafeClosed(m, k, funcs) && Derives(m, s, e, p)
    ensures IsSafe(k, funcs, m, s, e)
    decreases p, 1
  {
    match e
    case Name(id) =>
      DerivedBinding(m, k, funcs, NameAtom(id), p);
      MarkedVisible(k, m, p.scope, s, id);
    case Attribute(_, a) => DerivedBinding(m, k, funcs, AttrAtom(a), p);
    case Call(func, args) =>
      assert forall name :: Calls(func, name) <==> CallName(func) == name;
      if DerivesFunction(m, CallName(func), p) {
        var f := m.functions[p.index];
        DerivedAreSafe(m, k, funcs, f.scope, f.results, p);
        assert ReturnsSafe(k, funcs, m, f);
      } else if IsJoin(func, args) && DerivesSome(m, s, args[0], p) {
        DerivedIsSafe(m, k, funcs, s, args[0], p.subs[0]);
      }
    case JoinedStr(parts) =>
      DerivedAreSafe(m, k, funcs, s, Interpolated(parts), p);
      forall i | 0 <= i < |parts| && parts[i].FormattedValue? ensures IsSafe(k, funcs, m, s, parts[i].shown) {
        assert parts[i].shown in Interpolated(parts);
      }
    case FormattedValue(shown, _) => DerivedIsSafe(m, k, funcs, s, shown, p.subs[0]);
    case BoolOp(values) => DerivedAreSafe(m, k, funcs, s, values, p);
    case IfExp(_, body, orelse) =>
      DerivedIsSafe(m, k, funcs, s, [body, orelse][0], p.subs[0]);
      DerivedIsSafe(m, k, funcs, s, [body, orelse][1], p.subs[1]);
    case Comprehension(elt) => DerivedIsSafe(m, k, funcs, s, elt, p.subs[0]);
    case Collection(elts) => DerivedAreSafe(m, k, funcs, s, elts, p);
    case DictDisplay(_, vals) => DerivedAreSafe(m, k, funcs, s, vals, p);
    case Subscript(whole, _) => DerivedIsSafe(m, k, funcs, s, whole, p.subs[0]);
    case _ =>
  }

  lemma {:induction false} DerivedAreSafe(m: Module, k: Marks, funcs: set<string>, s: nat, es: seq<Expr>, p: Proof)
    requires SafeClosed(m, k, funcs) && DerivesAll(m, s, es, p)
    ensures forall e | e in es :: IsSafe(k, funcs, m, s, e)
    decreases p, 0
  {
    forall i | 0 <= i < |es| ensures IsSafe(k, funcs, m, s, es[i]) {
      DerivedIsSafe(m, k, funcs, s, es[i], p.subs[i]);
    }
  }

  lemma {:induction false} DerivedBinding(m: Module, k: Marks, funcs: set<string>, a: Atom, p: Proof)
    requires SafeClosed(m, k, funcs) && DerivesBinding(m, a, p)
    ensures Has(k, p.scope, a)
    decreases p, 0
  {
    var b := BindingsOf(m, p.scope)[p.index];
    DerivedIsSafe(m, k, funcs, p.scope, b.value, p.subs[0]);
    assert BindingSafe(k, funcs, m, p.scope, b);
  }

  // The facts that have a derivation, cut out of any given finite facts.

  ghost function DerivableMarks(m: Module, k: Marks): Marks {
    Marks(set l | l in k.names && exists p: Proof :: p.scope == l.scope && DerivesBinding(m, NameAtom(l.id), p),
          set a | a in k.attrs && exists p: Proof :: DerivesBinding(m, AttrAtom(a), p))
  }

  ghost function DerivableFunctions(m: Module, funcs: set<string>): set<string> {
    set n | n in funcs && exists p: Proof :: DerivesFunction(m, n, p)
  }

  /** What is validated by derivable facts alone is itself derivable. */
  lemma {:induction false} SafeIsDerived(m: Module, k: Marks, funcs: set<string>, s: nat, e: Expr) returns (p: Proof)
    requires IsSafe(DerivableMarks(m, k), DerivableFunctions(m, funcs), m, s, e)
    ensures Derives(m, s, e, p)
    decreases e, 0
  {
    p := Proof(0, 0, []);
    match e
    case Name(id) =>
      var r := VisibleMarked(DerivableMarks(m, k), m, s, id);
      p :| p.scope == r && DerivesBinding(m, NameAtom(id), p);
    case Attribute(_, a) => p :| DerivesBinding(m, AttrAtom(a), p);
    case Call(func, args) =>
      if CallName(func) in SANITIZERS {
      } else if CallName(func) in DerivableFunctions(m, funcs) {
        p :| DerivesFunction(m, CallName(func), p);
        assert Calls(func, CallName(func));
      } else if CallName(func) in NUMERIC_CASTS && func.Name? {
      } else {
        var q := SafeIsDerived(m, k, funcs, s, args[0]);
        p := Proof(0, 0, [q]);
      }
    case JoinedStr(parts) =>
      forall x | x in Interpolated(parts)
        ensures x < e && IsSafe(DerivableMarks(m, k), DerivableFunctions(m, funcs), m, s, x) {
        var i :| 0 <= i < |parts| && parts[i].FormattedValue? && parts[i].shown == x;
      }
      p := AllSafeAreDerived(m, k, funcs, s, e, Interpolated(parts));
    case FormattedValue(shown, _) => var q := SafeIsDerived(m, k, funcs, s, shown); p := Proof(0, 0, [q]);
    case BoolOp(values) => p := AllSafeAreDerived(m, k, funcs, s, e, values);
    case IfExp(_, body, orelse) =>
      var q := SafeIsDerived(m, k, funcs, s, body);
      var r := SafeIsDerived(m, k, funcs, s, orelse);
      p := Proof(0, 0, [q, r]);
    case Comprehension(elt) => var q := SafeIsDerived(m, k, funcs, s, elt); p := Proof(0, 0, [q]);
    case Collection(elts) => p := AllSafeAreDerived(m, k, funcs, s, e, elts);
    case DictDisplay(_, vals) => p := AllSafeAreDerived(m, k, funcs, s, e, vals);
    case Subscript(whole, _) => var q := SafeIsDerived(m, k, funcs, s, whole); p := Proof(0, 0, [q]);
    case _ =>
  }

  lemma {:induction false} AllSafeAreDerived(m: Module, k: Marks, funcs: set<string>, s: nat, whole: Expr,
                                             es: seq<Expr>)
    returns (p: Proof)
    requires forall x | x in es :: x < whole && IsSafe(DerivableMarks(m, k), DerivableFunctions(m, funcs), m, s, x)
    ensures DerivesAll(m, s, es, p)
    decreases whole, 0, |es|
  {
    if es == [] {
      p := Proof(0, 0, []);
    } else {
      assert es[0] in es;
      var q := SafeIsDerived(m, k, funcs, s, es[0]);
      var rest := AllSafeAreDerived(m, k, funcs, s, whole, es[1..]);
      p := Proof(0, 0, [q] + rest.subs);
      assert forall i | 0 < i < |es| :: es[i] == es[1..][i - 1];
    }
  }

  lemma DerivableClosed(m: Module, k: Marks, funcs: set<string>)
    requires SafeClosed(m, k, funcs)
    ensures SafeClosed(m, DerivableMarks(m, k), DerivableFunctions(m, funcs))
  {
    var dk, df := DerivableMarks(m, k), DerivableFunctions(m, funcs);
    forall s: nat, i: nat | i < |BindingsOf(m, s)| ensures BindingSafe(dk, df, m, s, BindingsOf(m, s)[i]) {
      var b := BindingsOf(m, s)[i];
      if IsSafe(dk, df, m, s, b.value) {
        var q := SafeIsDerived(m, k, funcs, s, b.value);
        SafeMonotone(dk, df, k, funcs, m, s, b.value);
        assert BindingSafe(k, funcs, m, s, b);
        forall a | a in Atoms(b.target) ensures Has(dk, s, a) {
          assert DerivesBinding(m, a, Proof(s, i, [q]));
        }
      }
    }
    forall f | f in m.functions && ReturnsSafe(dk, df, m, f) ensures f.name in df {
      var j :| 0 <= j < |m.functions| && m.functions[j] == f;
      var q := AllSafeAreDerived(m, k, funcs, f.scope, Collection(f.results), f.results);
      assert DerivesAll(m, f.scope, f.results, Proof(0, j, q.subs));
      assert DerivesFunction(m, f.name, Proof(0, j, q.subs));
      forall i | 0 <= i < |f.results| ensures IsSafe(k, funcs, m, f.scope, f.results[i]) {
        SafeMonotone(dk, df, k, funcs, m, f.scope, f.results[i]);
      }
      assert ReturnsSafe(k, funcs, m, f);
    }
  }

  /** With the facts the fixpoint ends in, an expression is validated exactly when a derivation says so. */
  lemma SafeIffDerivable(m: Module, k: Marks, funcs: set<string>, s: nat, e: Expr)
    requires LeastSafe(m, k, funcs)
    ensures IsSafe(k, funcs, m, s, e) <==> Derivable(m, s, e)
  {
    if IsSafe(k, funcs, m, s, e) {
      DerivableClosed(m, k, funcs);
      assert Leq(k, DerivableMarks(m, k));
      assert DerivableMarks(m, k) == k && DerivableFunctions(m, funcs) == funcs;
      var p := SafeIsDerived(m, k, funcs, s, e);
    }
    if Derivable(m, s, e) {
      var p :| Derives(m, s, e, p);
      DerivedIsSafe(m, k, funcs, s, e, p);
    }
  }

  /** Every recorded assignment and every recorded loop of every scope with a validated value has its targets
      marked: the names and `self` attributes that stand in it. */
  lemma RecordedBindingsMark(m: Module, k: Marks, funcs: set<string>, s: nat, b: Binding, a: Atom)
    requires SafeClosed(m, k, funcs) && s < |m.scopes|
    requires b in m.scopes[s].assignments || b in m.scopes[s].loops
    requires IsSafe(k, funcs, m, s, b.value) && Stands(b.target, Leaf(a))
    ensures a.NameAtom? ==> Local(s, a.id) in k.names
    ensures a.AttrAtom? ==> a.id in k.attrs
  {
    var scope := m.scopes[s];
    assert b in scope.assignments + scope.loops;
    var i :| 0 <= i < |scope.assignments + scope.loops| && (scope.assignments + scope.loops)[i] == b;
    assert BindingsOf(m, s)[i] == b && BindingSafe(k, funcs, m, s, BindingsOf(m, s)[i]);
    AtomsMeaning(b.target, a);
    assert Marked(k, s, b.target) && a in Atoms(b.target);
    assert Has(k, s, a);
  }

  // ----- order -----

  /** The same scopes, with their bindings and the functions listed in any order and with any repetitions. */
  ghost predicate SameRules(a: Module, b: Module) {
    && |a.scopes| == |b.scopes|
    && (forall s: nat :: ParentOf(a, s) == ParentOf(b, s))
    && (forall s: nat, x: Binding :: x in BindingsOf(a, s) <==> x in BindingsOf(b, s))
    && (forall f :: f in a.functions <==> f in b.functions)
  }

  lemma {:induction false} SameNames(a: Module, b: Module, k: Marks, s: nat, id: string)
    requires SameRules(a, b)
    ensures NameIn(k, a, s, id) == NameIn(k, b, s, id)
    decreases s
  {
    if ParentOf(a, s).Some? {
      SameNames(a, b, k, ParentOf(a, s).value, id);
    }
  }

  lemma ClosedEitherOrder(a: Module, b: Module, k: Marks, funcs: set<string>)
    requires SameRules(a, b) && SafeClosed(b, k, funcs)
    ensures SafeClosed(a, k, funcs)
  {
    forall s: nat, id ensures NameIn(k, a, s, id) == NameIn(k, b, s, id) {
      SameNames(a, b, k, s, id);
    }
    forall s: nat, i: nat | i < |BindingsOf(a, s)| ensures BindingSafe(k, funcs, a, s, BindingsOf(a, s)[i]) {
      var x := BindingsOf(a, s)[i];
      assert x in BindingsOf(b, s);
      var j :| 0 <= j < |BindingsOf(b, s)| && BindingsOf(b, s)[j] == x;
      assert BindingSafe(k, funcs, b, s, BindingsOf(b, s)[j]);
      if IsSafe(k, funcs, a, s, x.value) {
        SafeTransfer(a, k, funcs, s, b, k, funcs, s, x.value);
      }
    }
    forall f | f in a.functions && ReturnsSafe(k, funcs, a, f) ensures f.name in funcs {
      forall i | 0 <= i < |f.results| ensures IsSafe(k, funcs, b, f.scope, f.results[i]) {
        SafeTransfer(a, k, funcs, f.scope, b, k, funcs, f.scope, f.results[i]);
      }
    }
  }

  /** Whatever order bindings and functions are listed in, the least validated facts are the same; and
      `ModuleFacts.Fixpoint` ends in them whatever order scopes and functions are visited in. */
  lemma OrderIndependent(a: Module, b: Module, ka: Marks, fa: set<string>, kb: Marks, fb: set<string>)
    requires SameRules(a, b) && LeastSafe(a, ka, fa) && LeastSafe(b, kb, fb)
    ensures ka == kb && fa == fb
  {
    ClosedEitherOrder(a, b, kb, fb);
    ClosedEitherOrder(b, a, ka, fa);
  }

  // ----- scope isolation -----

  /** The two modules have the same scopes from `s` up to the module. */
  ghost predicate SameChain(a: Module, b: Module, s: nat)
    decreases s
  {
    && s < |a.scopes| && s < |b.scopes| && a.scopes[s] == b.scopes[s]
    && (ParentOf(a, s).Some? ==> SameChain(a, b, ParentOf(a, s).value))
  }

  lemma {:induction false} SameChainAbove(a: Module, b: Module, r: nat, s: nat)
    requires SameChain(a, b, s) && Encloses(b, r, s)
    ensures SameChain(a, b, r) && Encloses(a, r, s)
    decreases s
  {
    if r != s {
      SameChainAbove(a, b, r, ParentOf(a, s).value);
    }
  }

  lemma {:induction false} SameChainSymmetric(a: Module, b: Module, s: nat)
    requires SameChain(a, b, s)
    ensures SameChain(b, a, s)
    decreases s
  {
    if ParentOf(a, s).Some? {
      SameChainSymmetric(a, b, ParentOf(a, s).value);
    }
  }

  /** `kb`, but on the chain of `s` only what `ka` has too. */
  ghost function Restrict(b: Module, s: nat, ka: Marks, kb: Marks): Marks {
    kb.(names := set l | l in kb.names && (Encloses(b, l.scope, s) ==> l in ka.names))
  }

  /** Names visible on the chain under the restricted marks are visible there in `a`. */
  lemma RestrictedNames(a: Module, b: Module, s: nat, r: nat, ka: Marks, kb: Marks, id: string)
    requires SameChain(a, b, s) && Encloses(b, r, s)
    ensures NameIn(Restrict(b, s, ka, kb), b, r, id) ==> NameIn(ka, a, r, id)
  {
    if NameIn(Restrict(b, s, ka, kb), b, r, id) {
      var q := VisibleMarked(Restrict(b, s, ka, kb), b, r, id);
      EnclosesTransitive(b, q, r, s);
      SameChainAbove(a, b, r, s);
      SameChainAbove(a, b, q, r);
      MarkedVisible(ka, a, q, r, id);
    }
  }

  lemma RestrictClosed(a: Module, b: Module, s: nat, ka: Marks, kb: Marks, funcs: set<string>)
    requires SameChain(a, b, s) && ka.attrs == kb.attrs
    requires SafeClosed(a, ka, funcs) && SafeClosed(b, kb, funcs)
    ensures SafeClosed(b, Restrict(b, s, ka, kb), funcs)
  {
    var g := Restrict(b, s, ka, kb);
    forall r: nat, i: nat | i < |BindingsOf(b, r)| ensures BindingSafe(g, funcs, b, r, BindingsOf(b, r)[i]) {
      var x := BindingsOf(b, r)[i];
      assert BindingSafe(kb, funcs, b, r, x);
      if IsSafe(g, funcs, b, r, x.value) {
        SafeMonotone(g, funcs, kb, funcs, b, r, x.value);
        if Encloses(b, r, s) {
          SameChainAbove(a, b, r, s);
          forall id ensures NameIn(g, b, r, id) ==> NameIn(ka, a, r, id) {
            RestrictedNames(a, b, s, r, ka, kb, id);
          }
          SafeTransfer(b, g, funcs, r, a, ka, funcs, r, x.value);
          assert BindingSafe(ka, funcs, a, r, BindingsOf(a, r)[i]);
        }
      }
    }
    forall f | f in b.functions && ReturnsSafe(g, funcs, b, f) ensures f.name in funcs {
      forall i | 0 <= i < |f.results| ensures IsSafe(kb, funcs, b, f.scope, f.results[i]) {
        SafeMonotone(g, funcs, kb, funcs, b, f.scope, f.results[i]);
      }
    }
  }

  lemma IsolatedOneWay(a: Module, b: Module, s: nat, ka: Marks, kb: Marks, funcs: set<string>, id: string)
    requires SameChain(a, b, s) && ka.attrs == kb.attrs
    requires LeastSafe(a, ka, funcs) && LeastSafe(b, kb, funcs)
    ensures NameIn(kb, b, s, id) ==> NameIn(ka, a, s, id)
  {
    RestrictClosed(a, b, s, ka, kb, funcs);
    NameInMonotone(kb, Restrict(b, s, ka, kb), b, s, id);
    RestrictedNames(a, b, s, s, ka, kb, id);
  }

  /** Modules that agree from `s` upward, and end with the same validated attributes and functions,
      validate the same expressions in `s`: no binding of a sibling scope certifies a name. */
  lemma ScopeIsolation(a: Module, b: Module, s: nat, ka: Marks, kb: Marks, funcs: set<string>, e: Expr)
    requires SameChain(a, b, s) && ka.attrs == kb.attrs
    requires LeastSafe(a, ka, funcs) && LeastSafe(b, kb, funcs)
    ensures IsSafe(ka, funcs, a, s, e) <==> IsSafe(kb, funcs, b, s, e)
  {
    SameChainSymmetric(a, b, s);
    forall id ensures NameIn(ka, a, s, id) <==> NameIn(kb, b, s, id) {
      IsolatedOneWay(a, b, s, ka, kb, funcs, id);
      IsolatedOneWay(b, a, s, kb, ka, funcs, id);
    }
    if IsSafe(ka, funcs, a, s, e) {
      SafeTransfer(a, ka, funcs, s, b, kb, funcs, s, e);
    }
    if IsSafe(kb, funcs, b, s, e) {
      SafeTransfer(b, kb, funcs, s, a, ka, funcs, s, e);
    }
  }

  // ----- raw facts -----

  /** Validated functions matter to `is_raw` only through these names. */
  const RAW_CALLS: set<string> := RAW_METHODS + {"str"}

  lemma {:induction false} RawIgnoresOtherFunctions(k: Marks, fa: set<string>, fb: set<string>, m: Module, s: nat,
                                                    e: Expr)
    requires fa * RAW_CALLS == {} && IsRaw(k, fb, m, s, e)
    ensures IsRaw(k, fa, m, s, e)
  {
    match e
    case Call(func, args) =>
      if func.Attribute? && func.attr in RAW_METHODS {
        RawIgnoresOtherFunctions(k, fa, fb, m, s, func.base);
        assert func.attr in RAW_CALLS;
      } else {
        RawIgnoresOtherFunctions(k, fa, fb, m, s, args[0]);
        assert "str" in RAW_CALLS;
      }
    case BoolOp(values) =>
      var i :| 0 <= i < |values| && IsRaw(k, fb, m, s, values[i]);
      RawIgnoresOtherFunctions(k, fa, fb, m, s, values[i]);
    case IfExp(_, body, orelse) =>
      if IsRaw(k, fb, m, s, body) {
        RawIgnoresOtherFunctions(k, fa, fb, m, s, body);
      } else {
        RawIgnoresOtherFunctions(k, fa, fb, m, s, orelse);
      }
    case Subscript(whole, _) => RawIgnoresOtherFunctions(k, fa, fb, m, s, whole);
    case JoinedStr(parts) =>
      var i :| 0 <= i < |parts| && parts[i].FormattedValue? && IsRaw(k, fb, m, s, parts[i].shown);
      RawIgnoresOtherFunctions(k, fa, fb, m, s, parts[i].shown);
    case _ =>
  }

  /** For any validated functions there are least raw facts: what all closed facts have in common. */
  lemma LeastRawExists(m: Module, funcs: set<string>) returns (k: Marks)
    ensures LeastRaw(m, funcs, k)
  {
    k := Marks(set l | l in AllLocals(m) && forall k2: Marks :: RawClosed(m, funcs, k2) ==> l in k2.names,
               set a | a in AllIds(m) && forall k2: Marks :: RawClosed(m, funcs, k2) ==> a in k2.attrs);
    forall s: nat, i: nat | i < |BindingsOf(m, s)| ensures BindingRaw(k, funcs, m, s, BindingsOf(m, s)[i]) {
      var b := BindingsOf(m, s)[i];
      if IsRaw(k, funcs, m, s, b.value) {
        forall a | a in Atoms(b.target) ensures Has(k, s, a) {
          assert Local(s, IdOf(a)) in AllLocals(m);
          forall k2: Marks | RawClosed(m, funcs, k2) ensures Has(k2, s, a) {
            RawMonotone(k, funcs, k2, funcs, m, s, b.value);
            assert BindingRaw(k2, funcs, m, s, b);
          }
        }
      }
    }
  }

  /** The final raw facts lie between the least facts closed under the rules with the final
      validated functions, and the least facts closed with none. */
  lemma RawBetween(m: Module, funcs: set<string>, raw: Marks) returns (lower: Marks, upper: Marks)
    requires RawClosed(m, funcs, raw) && (forall k :: RawClosed(m, {}, k) ==> Leq(raw, k))
    ensures LeastRaw(m, funcs, lower) && LeastRaw(m, {}, upper)
    ensures Leq(lower, raw) && Leq(raw, upper)
  {
    lower := LeastRawExists(m, funcs);
    upper := LeastRawExists(m, {});
  }

  /** When no validated function bears one of the names `is_raw` looks through, the final raw facts
      are the least closed ones, so they too do not depend on the order of visits. */
  lemma RawExact(m: Module, funcs: set<string>, raw: Marks)
    requires RawClosed(m, funcs, raw) && (forall k :: RawClosed(m, {}, k) ==> Leq(raw, k))
    requires funcs * RAW_CALLS == {}
    ensures LeastRaw(m, funcs, raw) && LeastRaw(m, {}, raw)
  {
    forall k | RawClosed(m, funcs, k) ensures RawClosed(m, {}, k) {
      forall s: nat, i: nat | i < |BindingsOf(m, s)| ensures BindingRaw(k, {}, m, s, BindingsOf(m, s)[i]) {
        var b := BindingsOf(m, s)[i];
        assert BindingRaw(k, funcs, m, s, b);
        if IsRaw(k, {}, m, s, b.value) {
          RawIgnoresOtherFunctions(k, funcs, {}, m, s, b.value);
        }
      }
    }
  }
}
