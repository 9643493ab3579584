/** The two judgements of the linter, `is_safe` (validated) and `is_raw` (raw domain-spec value),
    and what it means for a set of facts to be closed under its marking rules. */
module CypherRules {
  import opened Options
  import opened CypherAst

  datatype Local = Local(scope: nat, id: string)

  /** Facts of one polarity: names per scope, and `self` attributes for the whole module. */
  datatype Marks = Marks(names: set<Local>, attrs: set<string>)

  const NOTHING: Marks := Marks({}, {})

  predicate Has(k: Marks, s: nat, a: Atom) {
    match a
    case NameAtom(id) => Local(s, id) in k.names
    case AttrAtom(id) => id in k.attrs
  }

  function Add(k: Marks, s: nat, a: Atom): Marks {
    match a
    case NameAtom(id) => k.(names := k.names + {Local(s, id)})
    case AttrAtom(id) => k.(attrs := k.attrs + {id})
  }

  ghost predicate Leq(a: Marks, b: Marks) {
    a.names <= b.names && a.attrs <= b.attrs
  }

  /** The name is marked in `s` or in a scope enclosing it. */
  predicate NameIn(k: Marks, m: Module, s: nat, id: string)
    decreases s
  {
    Local(s, id) in k.names || (ParentOf(m, s).Some? && NameIn(k, m, ParentOf(m, s).value, id))
  }

  predicate IsSafe(k: Marks, funcs: set<string>, m: Module, s: nat, e: Expr) {
    match e
    case StrConst(_) => true
    case Name(id) => NameIn(k, m, s, id)
    case Attribute(_, a) => IsSelfAttribute(e) && a in k.attrs
    case Call(func, args) =>
      if CallName(func) in SANITIZERS || CallName(func) in funcs then true
      else if CallName(func) in NUMERIC_CASTS && func.Name? then true
      else IsJoin(func, args) && IsSafe(k, funcs, m, s, args[0])
    case JoinedStr(parts) =>
      forall i | 0 <= i < |parts| :: parts[i].FormattedValue? ==> IsSafe(k, funcs, m, s, parts[i].shown)
    case FormattedValue(shown, _) => IsSafe(k, funcs, m, s, shown)
    case BoolOp(values) => forall i | 0 <= i < |values| :: IsSafe(k, funcs, m, s, values[i])
    case IfExp(_, body, orelse) => IsSafe(k, funcs, m, s, body) && IsSafe(k, funcs, m, s, orelse)
    case Comprehension(elt) => IsSafe(k, funcs, m, s, elt)
    case Collection(elts) => |elts| > 0 && forall i | 0 <= i < |elts| :: IsSafe(k, funcs, m, s, elts[i])
    case DictDisplay(_, vals) => |vals| > 0 && forall i | 0 <= i < |vals| :: IsSafe(k, funcs, m, s, vals[i])
    case Subscript(whole, _) => IsSafe(k, funcs, m, s, whole)
    case _ => false
  }

  predicate IsRaw(k: Marks, funcs: set<string>, m: Module, s: nat, e: Expr) {
    match e
    case Name(id) => NameIn(k, m, s, id)
    case Attribute(_, a) =>
      if AttributeRoot(e) in RAW_ROOTS then true
      else if IsSelfAttribute(e) then a in k.attrs
      else ChainHasRawSegment(e)
    case Call(func, args) =>
      if CallName(func) in SANITIZERS || CallName(func) in funcs || CallName(func) in NUMERIC_CASTS then false
      else if func.Attribute? && func.attr in RAW_METHODS then IsRaw(k, funcs, m, s, func.base)
      else func == Name("str") && |args| > 0 && IsRaw(k, funcs, m, s, args[0])
    case BoolOp(values) => exists i | 0 <= i < |values| :: IsRaw(k, funcs, m, s, values[i])
    case IfExp(_, body, orelse) => IsRaw(k, funcs, m, s, body) || IsRaw(k, funcs, m, s, orelse)
    case Subscript(whole, _) => IsRaw(k, funcs, m, s, whole)
    case JoinedStr(parts) =>
      exists i | 0 <= i < |parts| :: parts[i].FormattedValue? && IsRaw(k, funcs, m, s, parts[i].shown)
    case _ => false
  }

  // ----- closure under the marking rules -----

  ghost predicate Marked(k: Marks, s: nat, target: Expr) {
    forall a | a in Atoms(target) :: Has(k, s, a)
  }

  ghost predicate BindingSafe(k: Marks, funcs: set<string>, m: Module, s: nat, b: Binding) {
    IsSafe(k, funcs, m, s, b.value) ==> Marked(k, s, b.target)
  }

  ghost predicate BindingRaw(k: Marks, funcs: set<string>, m: Module, s: nat, b: Binding) {
    IsRaw(k, funcs, m, s, b.value) ==> Marked(k, s, b.target)
  }

  /** Every one of the function's own returns is validated, and there is at least one. */
  predicate ReturnsSafe(k: Marks, funcs: set<string>, m: Module, f: Function) {
    |f.results| > 0 && forall i | 0 <= i < |f.results| :: IsSafe(k, funcs, m, f.scope, f.results[i])
  }

  ghost predicate SafeClosed(m: Module, k: Marks, funcs: set<string>) {
    && (forall s: nat, i: nat | i < |BindingsOf(m, s)| :: BindingSafe(k, funcs, m, s, BindingsOf(m, s)[i]))
    && (forall f | f in m.functions :: ReturnsSafe(k, funcs, m, f) ==> f.name in funcs)
  }

  ghost predicate RawClosed(m: Module, funcs: set<string>, k: Marks) {
    forall s: nat, i: nat | i < |BindingsOf(m, s)| :: BindingRaw(k, funcs, m, s, BindingsOf(m, s)[i])
  }

  ghost predicate LeastSafe(m: Module, k: Marks, funcs: set<string>) {
    && SafeClosed(m, k, funcs)
    && (forall k2, funcs2 :: SafeClosed(m, k2, funcs2) ==> Leq(k, k2) && funcs <= funcs2)
  }

  ghost predicate LeastRaw(m: Module, funcs: set<string>, k: Marks) {
    && RawClosed(m, funcs, k)
    && (forall k2 :: RawClosed(m, funcs, k2) ==> Leq(k, k2))
  }

  // ----- the finitely many facts that the rules of a module can mark -----

  ghost function IdOf(a: Atom): string { a.id }

  ghost function AllLocals(m: Module): set<Local> {
    set s, i, a | 0 <= s < |m.scopes| && 0 <= i < |BindingsOf(m, s)| && a in Atoms(BindingsOf(m, s)[i].target)
      :: Local(s, IdOf(a))
  }

  ghost function AllIds(m: Module): set<string> {
    set l | l in AllLocals(m) :: l.id
  }

  ghost function AllFunctions(m: Module): set<string> {
    set f | f in m.functions :: f.name
  }

  lemma {:induction false} NameInMonotone(a: Marks, b: Marks, m: Module, s: nat, id: string)
    requires a.names <= b.names
    ensures NameIn(a, m, s, id) ==> NameIn(b, m, s, id)
    decreases s
  {
    if ParentOf(m, s).Some? {
      NameInMonotone(a, b, m, ParentOf(m, s).value, id);
    }
  }

  /** The judgement depends on nothing but the visible names, the attributes and the functions,
      and grows with them. */
  lemma {:induction false} SafeTransfer(a: Module, ka: Marks, fa: set<string>, ra: nat,
                                        b: Module, kb: Marks, fb: set<string>, rb: nat, e: Expr)
    requires forall id :: NameIn(ka, a, ra, id) ==> NameIn(kb, b, rb, id)
    requires ka.attrs <= kb.attrs && fa <= fb
    requires IsSafe(ka, fa, a, ra, e)
    ensures IsSafe(kb, fb, b, rb, e)
  {
    match e
    case Call(func, args) =>
      if !(CallName(func) in SANITIZERS || CallName(func) in fa || (CallName(func) in NUMERIC_CASTS && func.Name?)) {
        SafeTransfer(a, ka, fa, ra, b, kb, fb, rb, args[0]);
      }
    case JoinedStr(parts) =>
      forall i | 0 <= i < |parts| && parts[i].FormattedValue? ensures IsSafe(kb, fb, b, rb, parts[i].shown) {
        SafeTransfer(a, ka, fa, ra, b, kb, fb, rb, parts[i].shown);
      }
    case FormattedValue(shown, _) => SafeTransfer(a, ka, fa, ra, b, kb, fb, rb, shown);
    case BoolOp(values) =>
      forall i | 0 <= i < |values| ensures IsSafe(kb, fb, b, rb, values[i]) {
        SafeTransfer(a, ka, fa, ra, b, kb, fb, rb, values[i]);
      }
    case IfExp(_, body, orelse) =>
      SafeTransfer(a, ka, fa, ra, b, kb, fb, rb, body);
      SafeTransfer(a, ka, fa, ra, b, kb, fb, rb, orelse);
    case Comprehension(elt) => SafeTransfer(a, ka, fa, ra, b, kb, fb, rb, elt);
    case Collection(elts) =>
      forall i | 0 <= i < |elts| ensures IsSafe(kb, fb, b, rb, elts[i]) {
        SafeTransfer(a, ka, fa, ra, b, kb, fb, rb, elts[i]);
      }
    case DictDisplay(_, vals) =>
      forall i | 0 <= i < |vals| ensures IsSafe(kb, fb, b, rb, vals[i]) {
        SafeTransfer(a, ka, fa, ra, b, kb, fb, rb, vals[i]);
      }
    case Subscript(whole, _) => SafeTransfer(a, ka, fa, ra, b, kb, fb, rb, whole);
    case _ =>
  }

  /** More facts validate more expressions. */
  lemma SafeMonotone(a: Marks, fa: set<string>, b: Marks, fb: set<string>, m: Module, s: nat, e: Expr)
    requires Leq(a, b) && fa <= fb && IsSafe(a, fa, m, s, e)
    ensures IsSafe(b, fb, m, s, e)
  {
    forall id ensures NameIn(a, m, s, id) ==> NameIn(b, m, s, id) {
      NameInMonotone(a, b, m, s, id);
    }
    SafeTransfer(m, a, fa, s, m, b, fb, s, e);
  }

  /** More raw marks and fewer validated functions make more expressions raw. */
  lemma {:induction false} RawMonotone(a: Marks, fa: set<string>, b: Marks, fb: set<string>, m: Module, s: nat, e: Expr)
    requires Leq(a, b) && fb <= fa && IsRaw(a, fa, m, s, e)
    ensures IsRaw(b, fb, m, s, e)
  {
    match e
    case Name(id) => NameInMonotone(a, b, m, s, id);
    case Call(func, args) =>
      if func.Attribute? && func.attr in RAW_METHODS {
        RawMonotone(a, fa, b, fb, m, s, func.base);
      } else {
        RawMonotone(a, fa, b, fb, m, s, args[0]);
      }
    case BoolOp(values) =>
      var i :| 0 <= i < |values| && IsRaw(a, fa, m, s, values[i]);
      RawMonotone(a, fa, b, fb, m, s, values[i]);
    case IfExp(_, body, orelse) =>
      if IsRaw(a, fa, m, s, body) {
        RawMonotone(a, fa, b, fb, m, s, body);
      } else {
        RawMonotone(a, fa, b, fb, m, s, orelse);
      }
    case Subscript(whole, _) => RawMonotone(a, fa, b, fb, m, s, whole);
    case JoinedStr(parts) =>
      var i :| 0 <= i < |parts| && parts[i].FormattedValue? && IsRaw(a, fa, m, s, parts[i].shown);
      RawMonotone(a, fa, b, fb, m, s, parts[i].shown);
    case _ =>
  }
}
