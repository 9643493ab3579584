/** Every condition of soundness is needed.
    For each there is a module whose facts miss only it, an expression the linter validates, and a run
    in which that expression is foreign text. */
module CypherLimits {
  import opened Options
  import opened CypherAst
  import opened CypherRules
  import opened CypherSoundness

  /** The facts are those the fixpoint ends in, they validate `e`, yet some run of it carries foreign text. */
  ghost predicate Betrayed(m: Module, k: Marks, funcs: set<string>, s: nat, e: Expr) {
    && LeastSafe(m, k, funcs) && IsSafe(k, funcs, m, s, e)
    && exists t :: Eval(m, s, e, t).Some? && !Clean(Eval(m, s, e, t).value)
  }

  /** Betrayed by an expression that is not plain, though the facts of the module are consistent. */
  ghost predicate BetrayedInPlace(m: Module, k: Marks, funcs: set<string>, e: Expr) {
    Betrayed(m, k, funcs, 0, e) && Consistent(m, k, funcs) && !Plain(k, funcs, m, 0, e)
  }

  const OUTSIDE: Value := Text([Foreign])
  const INPUT: Trace := Trace(0, 0, [], OUTSIDE, [])
  const LITERAL: Expr := StrConst("a")
  const FREE: Expr := Name("outside")

  lemma BetrayedBy(m: Module, k: Marks, funcs: set<string>, s: nat, e: Expr, t: Trace)
    requires LeastSafe(m, k, funcs) && IsSafe(k, funcs, m, s, e) && Eval(m, s, e, t) == Some(OUTSIDE)
    ensures Betrayed(m, k, funcs, s, e)
  {
    assert OUTSIDE.pieces[0] == Foreign;
  }

  /** The module imports `outside` and does nothing else with the name. */
  ghost predicate Imports(m: Module) {
    BoundElsewhere(m, 0, NameAtom("outside")) && forall i: nat :: !Holds(m, 0, i, NameAtom("outside"))
  }

  lemma FreeIsForeign(m: Module)
    requires Imports(m) && OuterOf(m, 0).None?
    ensures Eval(m, 0, FREE, INPUT) == Some(OUTSIDE)
  {
    assert Introduces(m, 0, "outside");
  }

  lemma TopIsRead(m: Module, id: string, t: Trace)
    requires OuterOf(m, 0).None? && Binds(m, 0, t.pick, NameAtom(id))
    ensures Eval(m, 0, Name(id), t) == EvalBinding(m, 0, NameAtom(id), t)
  {
    assert Introduces(m, 0, id);
  }

  /** A function that does not bind the name reads the module's. */
  lemma OuterIsRead(m: Module, id: string, t: Trace)
    requires OuterOf(m, 1) == Some(0) && OuterOf(m, 0).None?
    requires !Introduces(m, 1, id) && t.scope == 0 && Binds(m, 0, t.pick, NameAtom(id))
    ensures Lookup(m, 1, id) == Some(0) && Eval(m, 1, Name(id), t) == EvalBinding(m, 0, NameAtom(id), t)
  {
    assert Introduces(m, 0, id) && Lookup(m, 0, id) == Some(0);
  }

  lemma {:induction false} NothingVisible(m: Module, s: nat, id: string)
    ensures !NameIn(NOTHING, m, s, id)
    decreases s
  {
    if ParentOf(m, s).Some? {
      NothingVisible(m, ParentOf(m, s).value, id);
    }
  }

  lemma {:induction false} EvalPrefix(m: Module, s: nat, es: seq<Expr>, t: Trace, vs: seq<Value>)
    requires |vs| <= |es| && |vs| <= |t.subs|
    requires forall i | 0 <= i < |vs| :: Eval(m, s, es[i], t.subs[i]) == Some(vs[i])
    ensures EvalAll(m, s, es, t, |vs|) == Some(vs)
  {
    if vs != [] {
      var init := vs[..|vs| - 1];
      EvalPrefix(m, s, es, t, init);
      assert vs == init + [vs[|vs| - 1]];
      assert EvalAll(m, s, es, t, |init|) == Some(init);
    }
  }

  function OneScope(assignments: seq<Binding>, loops: seq<Binding>, functions: seq<Function>): (m: Tree)
    requires forall f | f in functions :: f.scope == 0
    ensures WellScoped(m)
  {
    Tree([Top(assignments, loops)], functions)
  }

  /** The scope of a module that imports `outside`. */
  function Top(assignments: seq<Binding>, loops: seq<Binding>): Scope {
    Scope(None, None, assignments, loops, {NameAtom("outside")})
  }

  /** The scope of a function in the module, with these bindings and parameters. */
  function Inner(assignments: seq<Binding>, loops: seq<Binding>, others: set<Atom>): Scope {
    Scope(Some(0), Some(0), assignments, loops, others)
  }

  // ----- names and attributes -----

  /** The facts of a module in which one validated binding marks one name or attribute and nothing else is. */
  lemma MarkEnds(m: Module, s: nat, i: nat, a: Atom)
    requires SafeClosed(m, Add(NOTHING, s, a), {})
    requires i < |BindingsOf(m, s)| && a in Atoms(BindingsOf(m, s)[i].target)
    requires IsSafe(NOTHING, {}, m, s, BindingsOf(m, s)[i].value)
    ensures LeastSafe(m, Add(NOTHING, s, a), {})
  {
    var b := BindingsOf(m, s)[i];
    forall k2, f2 | SafeClosed(m, k2, f2) ensures Leq(Add(NOTHING, s, a), k2) {
      SafeMonotone(NOTHING, {}, k2, f2, m, s, b.value);
      assert BindingSafe(k2, f2, m, s, b);
      assert Has(k2, s, a);
    }
  }

  // Each module below has a name, so that what it keeps is proved apart from the run that betrays it.

  const X_MARKED: Marks := Marks({Local(0, "x")}, {})
  const INNER_X_MARKED: Marks := Marks({Local(1, "x")}, {})
  const A_MARKED: Marks := Marks({}, {"a"})

  /** `x = "a"` and `x = outside` */
  function Rebinding(): Module {
    OneScope([Binding(Name("x"), LITERAL), Binding(Name("x"), FREE)], [], [])
  }

  lemma RebindingEnds()
    ensures LeastSafe(Rebinding(), X_MARKED, {})
  {
    assert Rebinding().functions == [];
    MarkEnds(Rebinding(), 0, 0, NameAtom("x"));
  }

  lemma RebindingBetrays()
    ensures Betrayed(Rebinding(), X_MARKED, {}, 0, Name("x")) && !NamesTrusted(Rebinding(), X_MARKED, {})
  {
    var m := Rebinding();
    assert Binds(m, 0, 1, NameAtom("x"));
    RebindingEnds();
    FreeIsForeign(m);
    TopIsRead(m, "x", Trace(0, 1, [], OUTSIDE, [INPUT]));
    BetrayedBy(m, X_MARKED, {}, 0, Name("x"), Trace(0, 1, [], OUTSIDE, [INPUT]));
  }

  lemma RebindingMissesNothingElse()
    ensures NamesUnhidden(Rebinding(), X_MARKED)
    ensures AttributesTrusted(Rebinding(), X_MARKED, {}) && FunctionsTrusted(Rebinding(), X_MARKED, {})
  {
    assert Binds(Rebinding(), 0, 0, NameAtom("x"));
  }

  /** `x = "a"` outside, and a nested function with a parameter `x`. */
  function Shadowing(): Module {
    Tree([Top([Binding(Name("x"), LITERAL)], []), Inner([], [], {NameAtom("x")})], [])
  }

  lemma ShadowingEnds()
    ensures LeastSafe(Shadowing(), X_MARKED, {})
  {
    assert Shadowing().functions == [];
    MarkEnds(Shadowing(), 0, 0, NameAtom("x"));
  }

  lemma ShadowingBetrays()
    ensures Betrayed(Shadowing(), X_MARKED, {}, 1, Name("x")) && !NamesUnhidden(Shadowing(), X_MARKED)
  {
    var m := Shadowing();
    assert NameIn(X_MARKED, m, 0, "x") && NameIn(X_MARKED, m, 1, "x");
    ShadowingEnds();
    BetrayedBy(m, X_MARKED, {}, 1, Name("x"), INPUT);
  }

  lemma ShadowingMissesNothingElse()
    ensures NamesTrusted(Shadowing(), X_MARKED, {})
    ensures AttributesTrusted(Shadowing(), X_MARKED, {}) && FunctionsTrusted(Shadowing(), X_MARKED, {})
  {
  }

  /** A function with a parameter `x` that assigns `x = "a"`: before the assignment `x` is the parameter. */
  function Reassigning(): Module {
    Tree([Top([], []), Inner([Binding(Name("x"), LITERAL)], [], {NameAtom("x")})], [])
  }

  lemma ReassigningEnds()
    ensures LeastSafe(Reassigning(), INNER_X_MARKED, {})
  {
    assert Reassigning().functions == [];
    MarkEnds(Reassigning(), 1, 0, NameAtom("x"));
  }

  lemma ParameterBetrays()
    ensures var k := INNER_X_MARKED;
            Betrayed(Reassigning(), k, {}, 1, Name("x")) && !NamesUnhidden(Reassigning(), k)
  {
    var m, k := Reassigning(), INNER_X_MARKED;
    assert NameIn(k, m, 1, "x");
    ReassigningEnds();
    BetrayedBy(m, k, {}, 1, Name("x"), Trace(0, 1, [], OUTSIDE, []));
  }

  lemma ParameterMissesNothingElse()
    ensures var k := INNER_X_MARKED;
            NamesTrusted(Reassigning(), k, {}) && AttributesTrusted(Reassigning(), k, {})
            && FunctionsTrusted(Reassigning(), k, {})
  {
  }

  /** The facts of a module that binds `x` to the outside, with a function that binds it to a validated value. */
  lemma InnerEnds(m: Module)
    requires m.functions == [] && BindingsOf(m, 0) == [Binding(Name("x"), FREE)] && ParentOf(m, 0).None?
    requires |BindingsOf(m, 1)| == 1 && BindingsOf(m, 1)[0].target == Name("x")
    requires IsSafe(NOTHING, {}, m, 1, BindingsOf(m, 1)[0].value)
    requires forall s: nat | s >= 2 :: BindingsOf(m, s) == []
    ensures LeastSafe(m, INNER_X_MARKED, {})
  {
    assert SafeClosed(m, INNER_X_MARKED, {}) by {
      forall s: nat, i: nat | i < |BindingsOf(m, s)|
        ensures BindingSafe(INNER_X_MARKED, {}, m, s, BindingsOf(m, s)[i])
      {
        if s == 0 {
          assert BindingsOf(m, s)[i].value == FREE && !NameIn(INNER_X_MARKED, m, 0, "outside");
        } else {
          assert Atoms(BindingsOf(m, s)[i].target) == [NameAtom("x")];
        }
      }
    }
    MarkEnds(m, 1, 0, NameAtom("x"));
  }

  /** `x = outside` in the module, and `[x for x in ("a",)]` in a function that also reads `x` outside of the
      comprehension. */
  function Comprehending(): Module {
    Tree([Top([Binding(Name("x"), FREE)], []), Inner([], [Binding(Name("x"), Collection([LITERAL]), true)], {})], [])
  }

  lemma ComprehendingEnds()
    ensures LeastSafe(Comprehending(), INNER_X_MARKED, {})
  {
    LiteralsAreTrusted(Comprehending(), NOTHING, 1);
    InnerEnds(Comprehending());
  }

  lemma ComprehensionBetrays()
    ensures Betrayed(Comprehending(), INNER_X_MARKED, {}, 1, Name("x"))
    ensures !NamesUnhidden(Comprehending(), INNER_X_MARKED)
  {
    var m := Comprehending();
    ComprehendingEnds();
    FreeIsForeign(m);
    assert NameIn(INNER_X_MARKED, m, 1, "x");
    OuterIsRead(m, "x", Trace(0, 0, [], OUTSIDE, [INPUT]));
    BetrayedBy(m, INNER_X_MARKED, {}, 1, Name("x"), Trace(0, 0, [], OUTSIDE, [INPUT]));
  }

  lemma ComprehensionMissesNothingElse()
    ensures NamesTrusted(Comprehending(), INNER_X_MARKED, {}) && AttributesTrusted(Comprehending(), INNER_X_MARKED, {})
    ensures FunctionsTrusted(Comprehending(), INNER_X_MARKED, {})
  {
    LiteralsAreTrusted(Comprehending(), INNER_X_MARKED, 1);
  }

  lemma LiteralsAreTrusted(m: Module, k: Marks, s: nat)
    ensures Trusted(k, {}, m, s, Collection([LITERAL]))
  {
  }

  /** `x = outside` in the module, and in a function `x = "a"` and a lambda as a default value: the linter looks
      the lambda's names up in the function, Python in the module. */
  function DefaultLambda(): Module {
    Tree([Top([Binding(Name("x"), FREE)], []), Inner([Binding(Name("x"), LITERAL)], [], {}),
          Scope(Some(1), Some(0), [], [], {})], [])
  }

  lemma DefaultLambdaEnds()
    ensures LeastSafe(DefaultLambda(), INNER_X_MARKED, {})
  {
    InnerEnds(DefaultLambda());
  }

  lemma DefaultLambdaBetrays()
    ensures Betrayed(DefaultLambda(), INNER_X_MARKED, {}, 2, Name("x"))
    ensures !NamesUnhidden(DefaultLambda(), INNER_X_MARKED)
  {
    var m, t := DefaultLambda(), Trace(0, 0, [], OUTSIDE, [INPUT]);
    DefaultLambdaEnds();
    FreeIsForeign(m);
    assert Binds(m, 0, 0, NameAtom("x")) && Introduces(m, 0, "x") && !Introduces(m, 2, "x");
    assert NameIn(INNER_X_MARKED, m, 1, "x") && NameIn(INNER_X_MARKED, m, 2, "x");
    assert Lookup(m, 0, "x") == Some(0) && Lookup(m, 2, "x") == Some(0);
    assert Eval(m, 2, Name("x"), t) == EvalBinding(m, 0, NameAtom("x"), t);
    BetrayedBy(m, INNER_X_MARKED, {}, 2, Name("x"), t);
  }

  lemma DefaultLambdaMissesNothingElse()
    ensures NamesTrusted(DefaultLambda(), INNER_X_MARKED, {}) && AttributesTrusted(DefaultLambda(), INNER_X_MARKED, {})
    ensures FunctionsTrusted(DefaultLambda(), INNER_X_MARKED, {})
  {
  }

  /** `x = outside` in the module, and `def f(q=x): x = "a"`. */
  function DefaultValue(): Module {
    Tree([Top([Binding(Name("x"), FREE)], []), Inner([Binding(Name("x"), LITERAL)], [], {})], [])
  }

  lemma DefaultValueEnds()
    ensures LeastSafe(DefaultValue(), INNER_X_MARKED, {})
  {
    InnerEnds(DefaultValue());
  }

  lemma DefaultValueMissesNothing()
    ensures Consistent(DefaultValue(), INNER_X_MARKED, {})
  {
    assert Binds(DefaultValue(), 1, 0, NameAtom("x")) && Introduces(DefaultValue(), 1, "x");
  }

  /** The linter reads a default value in the function, where it is validated; Python reads it in the scope
      around the function, where it is not, and there it is foreign. */
  lemma DefaultValueBetrays()
    ensures var m, k := DefaultValue(), INNER_X_MARKED;
            && LeastSafe(m, k, {}) && Consistent(m, k, {}) && Trusted(k, {}, m, 1, Name("x"))
            && !IsSafe(k, {}, m, 0, Name("x"))
            && exists t :: Eval(m, 0, Name("x"), t).Some? && !Clean(Eval(m, 0, Name("x"), t).value)
  {
    var m, t := DefaultValue(), Trace(0, 0, [], OUTSIDE, [INPUT]);
    DefaultValueEnds();
    DefaultValueMissesNothing();
    FreeIsForeign(m);
    assert Binds(m, 0, 0, NameAtom("x"));
    TopIsRead(m, "x", t);
    assert OUTSIDE.pieces[0] == Foreign;
  }

  /** `self.a = "a"` and `self.a = outside` */
  function AttributeRebinding(): Module {
    OneScope([Binding(Attribute(Name("self"), "a"), LITERAL), Binding(Attribute(Name("self"), "a"), FREE)], [], [])
  }

  lemma AttributeRebindingEnds()
    ensures LeastSafe(AttributeRebinding(), Marks({}, {"a"}), {})
  {
    assert AttributeRebinding().functions == [];
    MarkEnds(AttributeRebinding(), 0, 0, AttrAtom("a"));
  }

  lemma AttributeRebindingBetrays()
    ensures var k := Marks({}, {"a"});
            && Betrayed(AttributeRebinding(), k, {}, 0, Attribute(Name("self"), "a"))
            && !AttributesTrusted(AttributeRebinding(), k, {})
  {
    var m, k := AttributeRebinding(), Marks({}, {"a"});
    AttributeRebindingEnds();
    FreeIsForeign(m);
    assert Binds(m, 0, 1, AttrAtom("a"));
    assert !AttributeTrusted(m, k, {}, "a");
    BetrayedBy(m, k, {}, 0, Attribute(Name("self"), "a"), Trace(0, 1, [], OUTSIDE, [INPUT]));
  }

  lemma AttributeRebindingMissesNothingElse()
    ensures var k := Marks({}, {"a"});
            NamesUnhidden(AttributeRebinding(), k) && NamesTrusted(AttributeRebinding(), k, {})
            && FunctionsTrusted(AttributeRebinding(), k, {})
  {
  }

  /** `self.a = "a"` and `self = outside` */
  function SelfRebinding(): Module {
    OneScope([Binding(Attribute(Name("self"), "a"), LITERAL), Binding(Name("self"), FREE)], [], [])
  }

  lemma SelfRebindingEnds()
    ensures LeastSafe(SelfRebinding(), A_MARKED, {})
  {
    assert SelfRebinding().functions == [];
    MarkEnds(SelfRebinding(), 0, 0, AttrAtom("a"));
  }

  lemma SelfRebindingBetrays()
    ensures Betrayed(SelfRebinding(), A_MARKED, {}, 0, Attribute(Name("self"), "a"))
    ensures !AttributesTrusted(SelfRebinding(), A_MARKED, {})
  {
    var m := SelfRebinding();
    SelfRebindingEnds();
    assert Holds(m, 0, 1, NameAtom("self"));
    assert !AttributeTrusted(m, A_MARKED, {}, "a");
    BetrayedBy(m, A_MARKED, {}, 0, Attribute(Name("self"), "a"), INPUT);
  }

  lemma SelfRebindingMissesNothingElse()
    ensures NamesUnhidden(SelfRebinding(), A_MARKED) && NamesTrusted(SelfRebinding(), A_MARKED, {})
    ensures FunctionsTrusted(SelfRebinding(), A_MARKED, {})
  {
  }

  /** `self.a = "a"` in a method, and `a = outside` in the class body. */
  function ClassField(): Module {
    Tree([Scope(None, None, [Binding(Attribute(Name("self"), "a"), LITERAL), Binding(Name("a"), FREE, true)], [],
                {NameAtom("outside"), AttrAtom("a")})], [])
  }

  lemma ClassFieldEnds()
    ensures LeastSafe(ClassField(), A_MARKED, {})
  {
    assert ClassField().functions == [];
    MarkEnds(ClassField(), 0, 0, AttrAtom("a"));
  }

  lemma ClassFieldBetrays()
    ensures Betrayed(ClassField(), A_MARKED, {}, 0, Attribute(Name("self"), "a"))
    ensures !AttributesTrusted(ClassField(), A_MARKED, {})
  {
    var m := ClassField();
    ClassFieldEnds();
    assert BoundElsewhere(m, 0, AttrAtom("a"));
    assert !AttributeTrusted(m, A_MARKED, {}, "a");
    assert Binds(m, 0, 0, AttrAtom("a"));
    BetrayedBy(m, A_MARKED, {}, 0, Attribute(Name("self"), "a"), Trace(0, 1, [], OUTSIDE, []));
  }

  lemma ClassFieldMissesNothingElse()
    ensures NamesUnhidden(ClassField(), A_MARKED) && NamesTrusted(ClassField(), A_MARKED, {})
    ensures FunctionsTrusted(ClassField(), A_MARKED, {})
  {
  }

  // ----- functions -----

  /** The facts of a module in which nothing is validated but a function that returns a literal. */
  lemma FunctionEnds(m: Module)
    requires |m.functions| > 0 && m.functions[0].results == [LITERAL]
    requires SafeClosed(m, NOTHING, {m.functions[0].name})
    ensures LeastSafe(m, NOTHING, {m.functions[0].name})
  {
    forall k2, f2 | SafeClosed(m, k2, f2) ensures m.functions[0].name in f2 {
      assert ReturnsSafe(k2, f2, m, m.functions[0]);
    }
  }

  /** Two functions called `label`, say methods of two classes, of which one returns a literal. */
  function TwoLabels(): Module {
    OneScope([], [], [Function("label", None, 0, [LITERAL]), Function("label", None, 0, [FREE])])
  }

  lemma TwoLabelsEnd()
    ensures LeastSafe(TwoLabels(), NOTHING, {"label"})
  {
    FunctionEnds(TwoLabels());
  }

  lemma TwoFunctionsBetray()
    ensures Betrayed(TwoLabels(), NOTHING, {"label"}, 0, Call(Attribute(Name("self"), "label"), []))
    ensures !FunctionsTrusted(TwoLabels(), NOTHING, {"label"})
  {
    var m, e := TwoLabels(), Call(Attribute(Name("self"), "label"), []);
    TwoLabelsEnd();
    assert m.functions[1] in m.functions && m.functions[1].results[0] == FREE;
    FreeIsForeign(m);
    BetrayedBy(m, NOTHING, {"label"}, 0, e, Trace(0, 1, [], OUTSIDE, [INPUT]));
  }

  lemma TwoFunctionsMissNothingElse()
    ensures NamesUnhidden(TwoLabels(), NOTHING) && NamesTrusted(TwoLabels(), NOTHING, {"label"})
    ensures AttributesTrusted(TwoLabels(), NOTHING, {"label"})
  {
    forall s: nat, id ensures !NameIn(NOTHING, TwoLabels(), s, id) {
      NothingVisible(TwoLabels(), s, id);
    }
  }

  /** A method of some other object that shares its name with a validated function. */
  lemma NamesakeBetrays()
    ensures var m: Module := OneScope([], [], [Function("label", None, 0, [LITERAL])]);
            BetrayedInPlace(m, NOTHING, {"label"}, Call(Attribute(Name("other"), "label"), []))
  {
    var m: Module := OneScope([], [], [Function("label", None, 0, [LITERAL])]);
    FunctionEnds(m);
    BetrayedBy(m, NOTHING, {"label"}, 0, Call(Attribute(Name("other"), "label"), []), INPUT);
  }

  /** A method, or a function nested in another one, that shares its name with a builtin, say `str`: a plain call
      elsewhere is a call of the builtin. */
  lemma BuiltinNamesakeBetrays(name: string, home: Option<nat>)
    requires name !in SANITIZERS + NUMERIC_CASTS && home in {None, Some(1)}
    ensures var m: Module := Tree([Top([], []), Inner([], [], {})], [Function(name, home, 1, [LITERAL])]);
            BetrayedInPlace(m, NOTHING, {name}, Call(Name(name), [FREE]))
  {
    var m: Module := Tree([Top([], []), Inner([], [], {})], [Function(name, home, 1, [LITERAL])]);
    FunctionEnds(m);
    assert !Defines(m, 0, name);
    BetrayedBy(m, NOTHING, {name}, 0, Call(Name(name), [FREE]), INPUT);
  }

  /** A module function called `label`, and a method of that name that the class inherits from elsewhere. */
  lemma InheritedBetrays()
    ensures var m: Module := OneScope([], [], [Function("label", Some(0), 0, [LITERAL])]);
            BetrayedInPlace(m, NOTHING, {"label"}, Call(Attribute(Name("self"), "label"), []))
  {
    var m: Module := OneScope([], [], [Function("label", Some(0), 0, [LITERAL])]);
    FunctionEnds(m);
    BetrayedBy(m, NOTHING, {"label"}, 0, Call(Attribute(Name("self"), "label"), []), INPUT);
  }

  /** `self.label = callback` beside `def label(self): return "a"`: the attribute is what `self.label()` calls. */
  lemma CallableAttributeBetrays()
    ensures var f := Attribute(Name("self"), "label");
            var m: Module := OneScope([Binding(f, Name("callback"))], [], [Function("label", None, 0, [LITERAL])]);
            BetrayedInPlace(m, NOTHING, {"label"}, Call(f, []))
  {
    var f := Attribute(Name("self"), "label");
    var m: Module := OneScope([Binding(f, Name("callback"))], [], [Function("label", None, 0, [LITERAL])]);
    FunctionEnds(m);
    assert Binds(m, 0, 0, AttrAtom("label"));
    BetrayedBy(m, NOTHING, {"label"}, 0, Call(f, []), INPUT);
  }

  /** `def sanitize_label(x): return x`, and the same for every sanitizer and every cast. */
  function OwnSanitizer(name: string): Module {
    Tree([Top([], []), Inner([], [], {NameAtom("x")})], [Function(name, Some(0), 1, [Name("x")])])
  }

  lemma OwnSanitizerEnds(name: string)
    ensures LeastSafe(OwnSanitizer(name), NOTHING, {}) && Consistent(OwnSanitizer(name), NOTHING, {})
  {
    var m := OwnSanitizer(name);
    assert !NameIn(NOTHING, m, 0, "x") && m.functions[0].results[0] == Name("x");
    forall s: nat, id ensures !NameIn(NOTHING, m, s, id) {
      NothingVisible(m, s, id);
    }
  }

  lemma OwnSanitizerBetrays(name: string)
    requires name in SANITIZERS + NUMERIC_CASTS
    ensures BetrayedInPlace(OwnSanitizer(name), NOTHING, {}, Call(Name(name), [FREE]))
  {
    var m := OwnSanitizer(name);
    OwnSanitizerEnds(name);
    assert m.functions[0] in m.functions;
    assert CallsFunction(m, 0, Name(name));
    assert Eval(m, 1, Name("x"), INPUT) == Some(OUTSIDE);
    BetrayedBy(m, NOTHING, {}, 0, Call(Name(name), [FREE]), Trace(0, 0, [], OUTSIDE, [INPUT]));
  }

  /** `int = outside`, and the same for every other cast and every sanitizer. */
  lemma ReboundSanitizerBetrays(name: string)
    requires name in SANITIZERS + NUMERIC_CASTS
    ensures var m: Module := OneScope([Binding(Name(name), FREE)], [], []);
            BetrayedInPlace(m, NOTHING, {}, Call(Name(name), []))
  {
    var m: Module := OneScope([Binding(Name(name), FREE)], [], []);
    assert Binds(m, 0, 0, NameAtom(name));
    BetrayedBy(m, NOTHING, {}, 0, Call(Name(name), []), INPUT);
  }

  /** `other.cypher_number(x)`, and the same for every sanitizer. */
  lemma SanitizerNamesakeBetrays(name: string)
    requires name in SANITIZERS
    ensures BetrayedInPlace(OneScope([], [], []), NOTHING, {}, Call(Attribute(Name("other"), name), [FREE]))
  {
    BetrayedBy(OneScope([], [], []), NOTHING, {}, 0, Call(Attribute(Name("other"), name), [FREE]), INPUT);
  }

  /** A function called `join` that returns a literal: `"a".join(outside)` counts as a call of it. */
  lemma OwnJoinBetrays()
    ensures var m: Module := OneScope([], [], [Function("join", Some(0), 0, [LITERAL])]);
            BetrayedInPlace(m, NOTHING, {"join"}, Call(Attribute(LITERAL, "join"), [FREE]))
  {
    var m: Module := OneScope([], [], [Function("join", Some(0), 0, [LITERAL])]);
    FunctionEnds(m);
    JoinIsForeign(m);
  }

  lemma JoinIsForeign(m: Module)
    requires Imports(m) && OuterOf(m, 0).None?
    ensures var v := Eval(m, 0, Call(Attribute(LITERAL, "join"), [FREE]), Trace(0, 0, [], OUTSIDE, [INPUT]));
            v.Some? && !Clean(v.value)
  {
    var t := Trace(0, 0, [], OUTSIDE, [INPUT]);
    FreeIsForeign(m);
    EvalPrefix(m, 0, [FREE], t, [OUTSIDE]);
    assert ShownAll([OUTSIDE]) == [Foreign] + ShownAll([]);
    assert ([Literal] + ShownAll([OUTSIDE]))[1] == Foreign;
  }

  // ----- what the judgement does not look at -----

  lemma KeyIsForeign(m: Module)
    requires Imports(m) && OuterOf(m, 0).None?
    ensures Eval(m, 0, DictDisplay([FREE], [LITERAL]), Trace(0, 0, [], OUTSIDE, [INPUT, INPUT])) ==
              Some(Mapping([OUTSIDE], [Text([Literal])]))
  {
    var vs := [OUTSIDE, Text([Literal])];
    FreeIsForeign(m);
    EvalPrefix(m, 0, [FREE] + [LITERAL], Trace(0, 0, [], OUTSIDE, [INPUT, INPUT]), vs);
    assert vs[..1] == [OUTSIDE] && vs[1..] == [Text([Literal])];
  }

  /** Iterating over `{outside: "a"}` yields the key, of which nothing was checked. */
  function KeyLoop(): Module {
    OneScope([], [Binding(Name("x"), DictDisplay([FREE], [LITERAL]))], [])
  }

  lemma KeyLoopEnds()
    ensures LeastSafe(KeyLoop(), X_MARKED, {})
  {
    assert KeyLoop().functions == [];
    MarkEnds(KeyLoop(), 0, 0, NameAtom("x"));
  }

  lemma KeyLoopRuns()
    ensures Eval(KeyLoop(), 0, Name("x"), Trace(0, 0, [0], OUTSIDE, [Trace(0, 0, [], OUTSIDE, [INPUT, INPUT])]))
         == Some(OUTSIDE)
  {
    assert BindingsOf(KeyLoop(), 0)[0].value == DictDisplay([FREE], [LITERAL]);
    KeyIsForeign(KeyLoop());
    TopIsRead(KeyLoop(), "x", Trace(0, 0, [0], OUTSIDE, [Trace(0, 0, [], OUTSIDE, [INPUT, INPUT])]));
  }

  lemma DictionaryKeyBetrays()
    ensures var d := DictDisplay([FREE], [LITERAL]);
            && Betrayed(KeyLoop(), X_MARKED, {}, 0, Name("x"))
            && IsSafe(X_MARKED, {}, KeyLoop(), 0, d) && !Plain(X_MARKED, {}, KeyLoop(), 0, d)
  {
    var m, d := KeyLoop(), DictDisplay([FREE], [LITERAL]);
    KeyLoopEnds();
    KeyLoopRuns();
    assert BindingsOf(m, 0)[0].value == d && Binds(m, 0, 0, NameAtom("x"));
    assert !IsSafe(X_MARKED, {}, m, 0, d.keys[0]);
    BetrayedBy(m, X_MARKED, {}, 0, Name("x"), Trace(0, 0, [0], OUTSIDE, [Trace(0, 0, [], OUTSIDE, [INPUT, INPUT])]));
  }

  lemma DictionaryKeyMissesNothingElse()
    ensures NamesUnhidden(KeyLoop(), X_MARKED)
    ensures AttributesTrusted(KeyLoop(), X_MARKED, {}) && FunctionsTrusted(KeyLoop(), X_MARKED, {})
  {
    assert Binds(KeyLoop(), 0, 0, NameAtom("x"));
  }

  /** `f"{'a':{outside}}"`: the format specifier is not looked at. */
  lemma FormatSpecifierBetrays(m: Module, k: Marks, funcs: set<string>)
    requires LeastSafe(m, k, funcs) && Consistent(m, k, funcs) && Imports(m) && OuterOf(m, 0).None?
    ensures BetrayedInPlace(m, k, funcs, FormattedValue(LITERAL, [FREE]))
  {
    var e := FormattedValue(LITERAL, [FREE]);
    var t := Trace(0, 0, [], OUTSIDE, [INPUT, INPUT]);
    FreeIsForeign(m);
    EvalPrefix(m, 0, [LITERAL] + [FREE], t, [Text([Literal]), OUTSIDE]);
    assert [Text([Literal]), OUTSIDE][1..] == [OUTSIDE];
    assert ShownAll([OUTSIDE]) == [Foreign] + ShownAll([]);
    assert ShownAll([Text([Literal]), OUTSIDE]) == [Literal] + ([Foreign] + ShownAll([]));
    assert ShownAll([Text([Literal]), OUTSIDE])[1] == Foreign;
    assert Eval(m, 0, e, t) == Some(Text(ShownAll([Text([Literal]), OUTSIDE])));
    assert !IsSafe(k, funcs, m, 0, e.spec[0]);
  }
}
