/** What "raw" means: a finite derivation from reads of the domain spec, the counterpart of `CypherTheorems.Derives`. */
module CypherRaw {
  import opened Options
  import opened CypherAst
  import opened CypherRules
  import opened CypherTheorems

  // ----- dotted expressions -----

  /** `base.a.b.c` for the attributes a, b, c. */
  function Chain(base: Expr, attrs: seq<string>): Expr {
    if attrs == [] then base else Attribute(Chain(base, attrs[..|attrs| - 1]), attrs[|attrs| - 1])
  }

  /** A dotted expression whose leftmost name is a root of the domain spec. */
  ghost predicate StartsRaw(e: Expr) {
    exists root, attrs :: root in RAW_ROOTS && attrs != [] && e == Chain(Name(root), attrs)
  }

  /** A dotted expression one of whose attributes is a root of the domain spec. */
  ghost predicate PassesRaw(e: Expr) {
    exists base, attrs, i: nat :: i < |attrs| && attrs[i] in RAW_ROOTS && e == Chain(base, attrs)
  }

  lemma {:induction false} ChainParts(base: Expr, attrs: seq<string>)
    ensures AttributeRoot(Chain(base, attrs)) == AttributeRoot(base)
    ensures ChainHasRawSegment(Chain(base, attrs)) <==>
              ChainHasRawSegment(base) || exists i: nat :: i < |attrs| && attrs[i] in RAW_ROOTS
  {
    if attrs != [] {
      var init := attrs[..|attrs| - 1];
      ChainParts(base, init);
      assert forall i: nat | i < |init| :: init[i] == attrs[i];
      if i: nat :| i < |attrs| && attrs[i] in RAW_ROOTS {
        assert i < |init| ==> init[i] in RAW_ROOTS;
      }
    }
  }

  /** Every expression is such a chain over one that is no attribute. */
  lemma {:induction false} Unchained(e: Expr) returns (base: Expr, attrs: seq<string>)
    ensures e == Chain(base, attrs) && !base.Attribute? && (e.Attribute? ==> attrs != [])
  {
    if e.Attribute? {
      var init;
      base, init := Unchained(e.base);
      attrs := init + [e.attr];
      assert attrs[..|attrs| - 1] == init;
    } else {
      base, attrs := e, [];
    }
  }

  /** The two walks along a dotted expression find its leftmost name, and a raw attribute wherever it stands. */
  lemma WalksMeaning(e: Expr)
    requires e.Attribute?
    ensures AttributeRoot(e) in RAW_ROOTS <==> StartsRaw(e)
    ensures ChainHasRawSegment(e) <==> PassesRaw(e)
  {
    var base, attrs := Unchained(e);
    ChainParts(base, attrs);
    assert "" !in RAW_ROOTS;
    if AttributeRoot(e) in RAW_ROOTS {
      assert base == Name(AttributeRoot(e));
    }
    if StartsRaw(e) {
      var root, names :| root in RAW_ROOTS && names != [] && e == Chain(Name(root), names);
      ChainParts(Name(root), names);
    }
    if PassesRaw(e) {
      var other, names, i: nat :| i < |names| && names[i] in RAW_ROOTS && e == Chain(other, names);
      ChainParts(other, names);
    }
  }

  // ----- derivations -----

  ghost predicate DerivesRawSome(m: Module, funcs: set<string>, s: nat, e: Expr, p: Proof)
    decreases p, 0
  {
    |p.subs| == 1 && DerivesRaw(m, funcs, s, e, p.subs[0])
  }

  ghost predicate DerivesRawOne(m: Module, funcs: set<string>, s: nat, es: seq<Expr>, p: Proof)
    decreases p, 1
  {
    p.index < |es| && DerivesRawSome(m, funcs, s, es[p.index], p)
  }

  ghost predicate DerivesRawBinding(m: Module, funcs: set<string>, a: Atom, p: Proof)
    decreases p, 1
  {
    && p.index < |BindingsOf(m, p.scope)|
    && a in Atoms(BindingsOf(m, p.scope)[p.index].target)
    && DerivesRawSome(m, funcs, p.scope, BindingsOf(m, p.scope)[p.index].value, p)
  }

  /** The call is one of a sanitizer, of a validated function or of a cast. */
  predicate Cleaning(funcs: set<string>, func: Expr) {
    match func
    case Name(id) => id in SANITIZERS || id in funcs || id in NUMERIC_CASTS
    case Attribute(_, a) => a in SANITIZERS || a in funcs || a in NUMERIC_CASTS
    case _ => "" in funcs
  }

  /** `p` derives that `e`, read in scope `s`, is a raw domain-spec value, when the functions `funcs` are
      validated. */
  ghost predicate DerivesRaw(m: Module, funcs: set<string>, s: nat, e: Expr, p: Proof)
    decreases p, 2
  {
    match e
    case Name(id) => Encloses(m, p.scope, s) && DerivesRawBinding(m, funcs, NameAtom(id), p)
    case Attribute(base, a) =>
      || StartsRaw(e)
      || (base == Name("self") && DerivesRawBinding(m, funcs, AttrAtom(a), p))
      || (base != Name("self") && PassesRaw(e))
    case Call(func, args) =>
      && !Cleaning(funcs, func)
      && ((func.Attribute? && func.attr in {"get", "pop", "strip", "lower", "upper"}
           && DerivesRawSome(m, funcs, s, func.base, p))
          || (func == Name("str") && args != [] && DerivesRawSome(m, funcs, s, args[0], p)))
    case BoolOp(values) => DerivesRawOne(m, funcs, s, values, p)
    case IfExp(_, body, orelse) => DerivesRawOne(m, funcs, s, [body, orelse], p)
    case Subscript(whole, _) => DerivesRawSome(m, funcs, s, whole, p)
    case JoinedStr(parts) => DerivesRawOne(m, funcs, s, Interpolated(parts), p)
    case _ => false
  }

  ghost predicate RawDerivable(m: Module, funcs: set<string>, s: nat, e: Expr) {
    exists p :: DerivesRaw(m, funcs, s, e, p)
  }

  /** Every closed set of raw facts makes raw what can be derived. */
  lemma {:induction false} DerivedIsRaw(m: Module, k: Marks, funcs: set<string>, s: nat, e: Expr, p: Proof)
    requires RawClosed(m, funcs, k) && DerivesRaw(m, funcs, s, e, p)
    ensures IsRaw(k, funcs, m, s, e)
    decreases p, 1
  {
    match e
    case Name(id) =>
      DerivedRawBinding(m, k, funcs, NameAtom(id), p);
      MarkedVisible(k, m, p.scope, s, id);
    case Attribute(base, a) =>
      WalksMeaning(e);
      if !StartsRaw(e) && base == Name("self") {
        DerivedRawBinding(m, k, funcs, AttrAtom(a), p);
      }
    case Call(func, args) => DerivedIsRaw(m, k, funcs, s, if func.Attribute? then func.base else args[0], p.subs[0]);
    case BoolOp(values) => DerivedOneIsRaw(m, k, funcs, s, values, p);
    case IfExp(_, body, orelse) => DerivedOneIsRaw(m, k, funcs, s, [body, orelse], p);
    case Subscript(whole, _) => DerivedIsRaw(m, k, funcs, s, whole, p.subs[0]);
    case JoinedStr(parts) =>
      DerivedOneIsRaw(m, k, funcs, s, Interpolated(parts), p);
      assert Interpolated(parts)[p.index] in Interpolated(parts);
  }

  lemma {:induction false} DerivedOneIsRaw(m: Module, k: Marks, funcs: set<string>, s: nat, es: seq<Expr>, p: Proof)
    requires RawClosed(m, funcs, k) && DerivesRawOne(m, funcs, s, es, p)
    ensures p.index < |es| && IsRaw(k, funcs, m, s, es[p.index])
    decreases p, 0
  {
    DerivedIsRaw(m, k, funcs, s, es[p.index], p.subs[0]);
  }

  lemma {:induction false} DerivedRawBinding(m: Module, k: Marks, funcs: set<string>, a: Atom, p: Proof)
    requires RawClosed(m, funcs, k) && DerivesRawBinding(m, funcs, a, p)
    ensures Has(k, p.scope, a)
    decreases p, 0
  {
    var b := BindingsOf(m, p.scope)[p.index];
    DerivedIsRaw(m, k, funcs, p.scope, b.value, p.subs[0]);
    assert BindingRaw(k, funcs, m, p.scope, b);
  }

  /** The raw facts that have a derivation, cut out of any given finite ones. */
  ghost function RawDerivableMarks(m: Module, funcs: set<string>, k: Marks): Marks {
    Marks(set l | l in k.names
            && exists p: Proof :: p.scope == l.scope && DerivesRawBinding(m, funcs, NameAtom(l.id), p),
          set a | a in k.attrs && exists p: Proof :: DerivesRawBinding(m, funcs, AttrAtom(a), p))
  }

  /** What is raw by derivable facts alone is itself derivable. */
  lemma {:induction false} RawIsDerived(m: Module, k: Marks, funcs: set<string>, s: nat, e: Expr) returns (p: Proof)
    requires IsRaw(RawDerivableMarks(m, funcs, k), funcs, m, s, e)
    ensures DerivesRaw(m, funcs, s, e, p)
    decreases e
  {
    var d := RawDerivableMarks(m, funcs, k);
    p := Proof(0, 0, []);
    match e
    case Name(id) =>
      var r := VisibleMarked(d, m, s, id);
      p :| p.scope == r && DerivesRawBinding(m, funcs, NameAtom(id), p);
    case Attribute(base, a) =>
      WalksMeaning(e);
      if !StartsRaw(e) && base == Name("self") {
        p :| DerivesRawBinding(m, funcs, AttrAtom(a), p);
      }
    case Call(func, args) =>
      var q := RawIsDerived(m, k, funcs, s, if func.Attribute? then func.base else args[0]);
      p := Proof(0, 0, [q]);
    case BoolOp(values) =>
      var i :| 0 <= i < |values| && IsRaw(d, funcs, m, s, values[i]);
      var q := RawIsDerived(m, k, funcs, s, values[i]);
      p := Proof(0, i, [q]);
    case IfExp(_, body, orelse) =>
      var i := if IsRaw(d, funcs, m, s, body) then 0 else 1;
      var q := RawIsDerived(m, k, funcs, s, if i == 0 then body else orelse);
      p := Proof(0, i, [q]);
    case Subscript(whole, _) =>
      var q := RawIsDerived(m, k, funcs, s, whole);
      p := Proof(0, 0, [q]);
    case JoinedStr(parts) =>
      var i :| 0 <= i < |parts| && parts[i].FormattedValue? && IsRaw(d, funcs, m, s, parts[i].shown);
      var q := RawIsDerived(m, k, funcs, s, parts[i].shown);
      assert parts[i].shown in Interpolated(parts);
      var j :| 0 <= j < |Interpolated(parts)| && Interpolated(parts)[j] == parts[i].shown;
      p := Proof(0, j, [q]);
    case _ =>
  }

  lemma RawDerivableClosed(m: Module, k: Marks, funcs: set<string>)
    requires RawClosed(m, funcs, k)
    ensures RawClosed(m, funcs, RawDerivableMarks(m, funcs, k))
  {
    var d := RawDerivableMarks(m, funcs, k);
    forall s: nat, i: nat | i < |BindingsOf(m, s)| ensures BindingRaw(d, funcs, m, s, BindingsOf(m, s)[i]) {
      var b := BindingsOf(m, s)[i];
      if IsRaw(d, funcs, m, s, b.value) {
        var q := RawIsDerived(m, k, funcs, s, b.value);
        RawMonotone(d, funcs, k, funcs, m, s, b.value);
        assert BindingRaw(k, funcs, m, s, b);
        forall a | a in Atoms(b.target) ensures Has(d, s, a) {
          assert DerivesRawBinding(m, funcs, a, Proof(s, i, [q]));
        }
      }
    }
  }

  /** With the least raw facts, an expression is raw exactly when a derivation says so. */
  lemma RawIffDerivable(m: Module, k: Marks, funcs: set<string>, s: nat, e: Expr)
    requires LeastRaw(m, funcs, k)
    ensures IsRaw(k, funcs, m, s, e) <==> RawDerivable(m, funcs, s, e)
  {
    if IsRaw(k, funcs, m, s, e) {
      RawDerivableClosed(m, k, funcs);
      assert Leq(k, RawDerivableMarks(m, funcs, k));
      assert RawDerivableMarks(m, funcs, k) == k;
      var p := RawIsDerived(m, k, funcs, s, e);
    }
    if p :| DerivesRaw(m, funcs, s, e, p) {
      DerivedIsRaw(m, k, funcs, s, e, p);
    }
  }

  /** With the raw facts the fixpoint ends in, everything is raw that can be derived with the final validated
      functions, and nothing is that cannot be derived with none. */
  lemma FinalRawBetween(m: Module, raw: Marks, funcs: set<string>, s: nat, e: Expr)
    requires RawClosed(m, funcs, raw) && (forall k :: RawClosed(m, {}, k) ==> Leq(raw, k))
    ensures RawDerivable(m, funcs, s, e) ==> IsRaw(raw, funcs, m, s, e)
    ensures IsRaw(raw, funcs, m, s, e) ==> RawDerivable(m, {}, s, e)
  {
    if p :| DerivesRaw(m, funcs, s, e, p) {
      DerivedIsRaw(m, raw, funcs, s, e, p);
    }
    if IsRaw(raw, funcs, m, s, e) {
      var upper := LeastRawExists(m, {});
      RawMonotone(raw, funcs, upper, {}, m, s, e);
      RawIffDerivable(m, upper, {}, s, e);
    }
  }

  /** A dotted read of the domain spec is raw in every module, whatever has been marked. */
  lemma SpecReadIsRaw(k: Marks, funcs: set<string>, m: Module, s: nat, root: string, attrs: seq<string>)
    requires root in RAW_ROOTS && attrs != []
    ensures IsRaw(k, funcs, m, s, Chain(Name(root), attrs)) && !IsSafe(k, funcs, m, s, Chain(Name(root), attrs))
  {
    var e := Chain(Name(root), attrs);
    WalksMeaning(e);
    if |attrs| > 1 {
      assert e.base == Chain(Name(root), attrs[..|attrs| - 1]) && e.base.Attribute?;
    } else {
      assert attrs[..|attrs| - 1] == [];
      assert Chain(Name(root), []) == Name(root) == e.base;
    }
  }
}
