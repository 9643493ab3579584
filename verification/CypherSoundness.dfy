/** A semantics in which text knows where it came from; with consistent facts validated text is never foreign. */
module CypherSoundness {
  import opened Options
  import opened CypherAst
  import opened CypherRules
  import opened CypherTheorems

  /** Where a piece of text came from. */
  datatype Origin = Literal | Sanitized | Numeric | Foreign

  datatype Value =
    | Text(pieces: seq<Origin>)
    | Items(items: seq<Value>)
    | Mapping(keys: seq<Value>, vals: seq<Value>)

  /** Built only from literals, sanitizer results and numbers. */
  ghost predicate Clean(v: Value) {
    match v
    case Text(pieces) => Foreign !in pieces
    case Items(items) => forall i | 0 <= i < |items| :: Clean(items[i])
    case Mapping(keys, vals) =>
      && (forall i | 0 <= i < |keys| :: Clean(keys[i]))
      && (forall i | 0 <= i < |vals| :: Clean(vals[i]))
  }

  /** `str(v)` */
  ghost function Shown(v: Value): seq<Origin> {
    match v
    case Text(pieces) => pieces
    case Items(items) => [Literal] + ShownAll(items)
    case Mapping(keys, vals) => [Literal] + ShownAll(keys) + ShownAll(vals)
  }

  ghost function ShownAll(vs: seq<Value>): seq<Origin> {
    if vs == [] then [] else Shown(vs[0]) + ShownAll(vs[1..])
  }

  lemma {:induction false} CleanShown(v: Value)
    requires Clean(v)
    ensures Foreign !in Shown(v)
    decreases v, 1
  {
    match v
    case Text(_) =>
    case Items(items) => CleanShownAll(items);
    case Mapping(keys, vals) => CleanShownAll(keys); CleanShownAll(vals);
  }

  lemma {:induction false} CleanShownAll(vs: seq<Value>)
    requires forall i | 0 <= i < |vs| :: Clean(vs[i])
    ensures Foreign !in ShownAll(vs)
    decreases vs, 0
  {
    if vs != [] {
      CleanShown(vs[0]);
      CleanShownAll(vs[1..]);
    }
  }

  /** What one iteration over `v` can yield. */
  ghost function Elements(v: Value): seq<Value> {
    match v
    case Text(pieces) => seq(|pieces|, i requires 0 <= i < |pieces| => Text([pieces[i]]))
    case Items(items) => items
    case Mapping(keys, _) => keys
  }

  /** Repeated unpacking or iteration, one chosen element at a time. */
  ghost function Descend(v: Value, path: seq<nat>): Option<Value>
    decreases path
  {
    if path == [] then Some(v)
    else if path[0] < |Elements(v)| then Descend(Elements(v)[path[0]], path[1..])
    else None
  }

  lemma {:induction false} DescendClean(v: Value, path: seq<nat>)
    requires Clean(v) && Descend(v, path).Some?
    ensures Clean(Descend(v, path).value)
    decreases path
  {
    if path != [] {
      DescendClean(Elements(v)[path[0]], path[1..]);
    }
  }

  // ----- evaluation -----

  /** One run of an expression: every choice it made. `given` is what the outside supplied, `pick`
      and `scope` select a binding, function, return or slice, `path` how a target took its value
      apart, and `subs` are the runs of the parts. Quantifying over traces covers every run. */
  datatype Trace = Trace(scope: nat, pick: nat, path: seq<nat>, given: Value, subs: seq<Trace>)

  // What Python makes of a name. Scopes are those of the linter; some names live apart inside one.

  ghost predicate Holds(m: Module, r: nat, i: nat, a: Atom) {
    i < |BindingsOf(m, r)| && a in Bound(BindingsOf(m, r)[i].target)
  }

  /** Binding `i` of scope `r` binds the atom there: a name unless the binding is apart, an attribute anyway. */
  ghost predicate Binds(m: Module, r: nat, i: nat, a: Atom) {
    Holds(m, r, i, a) && (a.NameAtom? ==> !BindingsOf(m, r)[i].apart)
  }

  /** Binding `i` of scope `r` binds the name in a part of the scope only. */
  ghost predicate BindsApart(m: Module, r: nat, i: nat, id: string) {
    Holds(m, r, i, NameAtom(id)) && BindingsOf(m, r)[i].apart
  }

  ghost predicate BoundElsewhere(m: Module, r: nat, a: Atom) {
    r < |m.scopes| && a in m.scopes[r].others
  }

  ghost predicate Defines(m: Module, r: nat, id: string) {
    exists f :: f in m.functions && f.home == Some(r) && f.name == id
  }

  ghost predicate Introduces(m: Module, r: nat, id: string) {
    BoundElsewhere(m, r, NameAtom(id)) || Defines(m, r, id) || exists i: nat :: Binds(m, r, i, NameAtom(id))
  }

  /** Scope `r` is `s` or one of those Python looks names up in from `s`. */
  ghost predicate Visible(m: Module, r: nat, s: nat)
    decreases s
  {
    r == s || (OuterOf(m, s).Some? && Visible(m, r, OuterOf(m, s).value))
  }

  /** The nearest scope that binds the name in all of its body. */
  ghost function Lookup(m: Module, s: nat, id: string): (r: Option<nat>)
    ensures r.Some? ==> Visible(m, r.value, s) && Introduces(m, r.value, id)
    ensures r.None? ==> forall q: nat | Visible(m, q, s) :: !Introduces(m, q, id)
    decreases s
  {
    if Introduces(m, s, id) then Some(s)
    else if OuterOf(m, s).Some? then Lookup(m, OuterOf(m, s).value, id)
    else None
  }

  /** The name may be one that binding `i` of a visible scope keeps apart: from `s` it is not known whether it is
      read in the comprehension or class body, or outside. */
  ghost predicate MayBeApart(m: Module, s: nat, r: nat, i: nat, id: string) {
    Visible(m, r, s) && BindsApart(m, r, i, id)
  }

  ghost predicate SomewhereApart(m: Module, s: nat, id: string) {
    exists r: nat, i: nat :: MayBeApart(m, s, r, i, id)
  }

  ghost predicate NamesFunction(m: Module, name: string) {
    exists f :: f in m.functions && f.name == name
  }

  /** The scope binds the name by `def` and by nothing else. */
  ghost predicate OnlyDefines(m: Module, r: nat, id: string) {
    Defines(m, r, id) && !BoundElsewhere(m, r, NameAtom(id)) && forall i: nat :: !Binds(m, r, i, NameAtom(id))
  }

  /** Something assigns to the name `self`, so an attribute of `self` may be one of any object. */
  ghost predicate SelfRebound(m: Module) {
    exists r: nat, i: nat :: Holds(m, r, i, NameAtom("self"))
  }

  ghost predicate AttributeElsewhere(m: Module, a: string) {
    exists r: nat :: BoundElsewhere(m, r, AttrAtom(a))
  }

  ghost predicate AttributeBound(m: Module, a: string) {
    exists r: nat, i: nat :: Binds(m, r, i, AttrAtom(a))
  }

  /** The call runs the body of a function of this module: a plain name that the nearest scope that binds it
      binds by `def`, or an attribute of `self` that is a method and never assigned. */
  ghost predicate CallsFunction(m: Module, s: nat, func: Expr) {
    if func.Name? then
      var r := Lookup(m, s, func.id);
      r.Some? && OnlyDefines(m, r.value, func.id) && !SomewhereApart(m, s, func.id)
    else
      && IsSelfAttribute(func) && !SelfRebound(m)
      && !AttributeBound(m, func.attr) && !AttributeElsewhere(m, func.attr)
      && exists f :: f in m.functions && f.name == func.attr && f.home.None?
  }

  /** The functions such a call can run; in a class body a plain name can be a method of that class. */
  ghost predicate Runs(m: Module, s: nat, func: Expr, f: Function) {
    f.name == CallName(func) && (f.home.None? || (func.Name? && f.home == Lookup(m, s, func.id)))
  }

  /** A plain name to which nothing in the module gives another meaning. */
  ghost predicate NotRedefined(m: Module, s: nat, func: Expr) {
    func.Name? && Lookup(m, s, func.id).None? && !SomewhereApart(m, s, func.id) && !NamesFunction(m, func.id)
  }

  /** The value of `e`, read by Python in scope `s`, in the run `t`; None when `t` is no run of `e`. The
      header of a function, with its default values, is read in the scope around the function. */
  ghost function Eval(m: Module, s: nat, e: Expr, t: Trace): Option<Value>
    decreases t, 1, 0
  {
    match e
    case StrConst(_) => Some(Text([Literal]))
    case OtherConst => Some(Text([Literal]))
    case Name(id) =>
      if MayBeApart(m, s, t.scope, t.pick, id) then EvalBinding(m, t.scope, NameAtom(id), t)
      else if Lookup(m, s, id).Some? then EvalIn(m, Lookup(m, s, id).value, id, t)
      else if SomewhereApart(m, s, id) then None
      else Some(t.given)
    case Attribute(_, a) =>
      if !IsSelfAttribute(e) || SelfRebound(m) || !AttributeBound(m, a) then Some(t.given)
      else if Binds(m, t.scope, t.pick, AttrAtom(a)) then EvalBinding(m, t.scope, AttrAtom(a), t)
      else if AttributeElsewhere(m, a) then Some(t.given)
      else None
    case Call(func, args) =>
      if CallsFunction(m, s, func) then EvalFunction(m, s, func, t)
      else if NotRedefined(m, s, func) && func.id in SANITIZERS then Some(Text([Sanitized]))
      else if NotRedefined(m, s, func) && func.id in NUMERIC_CASTS then Some(Text([Numeric]))
      else if IsJoin(func, args) then
        var vs := EvalAll(m, s, [args[0]], t, 1);
        if vs.None? then None else Some(Text([Literal] + ShownAll(vs.value)))
      else Some(t.given)
    case JoinedStr(parts) => Joined(EvalAll(m, s, parts, t, |parts|))
    case FormattedValue(shown, spec) => Joined(EvalAll(m, s, [shown] + spec, t, 1 + |spec|))
    case BoolOp(values) => EvalOne(m, s, values, t)
    case IfExp(_, body, orelse) => EvalOne(m, s, [body, orelse], t)
    case Comprehension(elt) => Gathered(EvalAll(m, s, seq(|t.subs|, _ => elt), t, |t.subs|))
    case Collection(elts) => Gathered(EvalAll(m, s, elts, t, |elts|))
    case DictDisplay(keys, vals) =>
      var all := EvalAll(m, s, keys + vals, t, |keys| + |vals|);
      if all.None? then None else Some(Mapping(all.value[..|keys|], all.value[|keys|..]))
    case Subscript(whole, _) =>
      var vs := EvalAll(m, s, [whole], t, 1);
      if vs.None? then None else Subscripted(vs.value[0], t)
    case Starred(inner) => Some(t.given)
    case Opaque => Some(t.given)
  }

  ghost function Joined(vs: Option<seq<Value>>): Option<Value> {
    if vs.None? then None else Some(Text(ShownAll(vs.value)))
  }

  ghost function Gathered(vs: Option<seq<Value>>): Option<Value> {
    if vs.None? then None else Some(Items(vs.value))
  }

  /** An item, the value of some key, or a slice. */
  ghost function Subscripted(v: Value, t: Trace): Option<Value> {
    if t.path != [] then
      var from := if v.Mapping? then v.vals else Elements(v);
      if t.path[0] < |from| then Some(from[t.path[0]]) else None
    else match v
      case Text(pieces) => if t.pick <= t.scope <= |pieces| then Some(Text(pieces[t.pick..t.scope])) else None
      case Items(items) => if t.pick <= t.scope <= |items| then Some(Items(items[t.pick..t.scope])) else None
      case Mapping(_, _) => None
  }

  ghost function EvalAll(m: Module, s: nat, es: seq<Expr>, t: Trace, n: nat): (r: Option<seq<Value>>)
    requires n <= |es|
    ensures r.Some? ==> |r.value| == n && n <= |t.subs|
    ensures r.Some? ==> forall i | 0 <= i < n :: Eval(m, s, es[i], t.subs[i]) == Some(r.value[i])
    decreases t, 0, n
  {
    if n == 0 then Some([])
    else if n > |t.subs| then None
    else
      var init := EvalAll(m, s, es, t, n - 1);
      var last := Eval(m, s, es[n - 1], t.subs[n - 1]);
      if init.None? || last.None? then None else Some(init.value + [last.value])
  }

  ghost function EvalOne(m: Module, s: nat, es: seq<Expr>, t: Trace): Option<Value>
    decreases t, 0, 0
  {
    if t.pick < |es| && |t.subs| > 0 then Eval(m, s, es[t.pick], t.subs[0]) else None
  }

  /** A name that scope `r` binds: what a recorded binding gave it, what the outside did, or a function. */
  ghost function EvalIn(m: Module, r: nat, id: string, t: Trace): Option<Value>
    decreases t, 0, 1
  {
    if Binds(m, r, t.pick, NameAtom(id)) then EvalBinding(m, r, NameAtom(id), t)
    else if BoundElsewhere(m, r, NameAtom(id)) then Some(t.given)
    else if Defines(m, r, id) then Some(Text([Literal]))
    else None
  }

  ghost function EvalBinding(m: Module, r: nat, a: Atom, t: Trace): Option<Value>
    decreases t, 0, 0
  {
    if !Holds(m, r, t.pick, a) || t.subs == [] then None
    else
      var v := Eval(m, r, BindingsOf(m, r)[t.pick].value, t.subs[0]);
      if v.None? then None else Descend(v.value, t.path)
  }

  /** A function yields one of its own returns, or falls off its end and yields None. */
  ghost function EvalFunction(m: Module, s: nat, func: Expr, t: Trace): Option<Value>
    decreases t, 0, 0
  {
    if t.pick >= |m.functions| || !Runs(m, s, func, m.functions[t.pick]) then None
    else
      var f := m.functions[t.pick];
      if t.scope < |f.results| && t.subs != [] then Eval(m, f.scope, f.results[t.scope], t.subs[0])
      else if t.scope == |f.results| then Some(Text([Literal]))
      else None
  }

  // ----- consistent facts -----

  /** What the judgement does not look at, in a validated expression: the call is a call of a validated
      function of this module, of a real sanitizer or cast, or of `join`; keys and format specifiers are
      validated too. */
  ghost predicate Plain(k: Marks, funcs: set<string>, m: Module, s: nat, e: Expr)
    decreases e, 0
  {
    match e
    case Call(func, args) =>
      if CallsFunction(m, s, func) then CallName(func) in funcs
      else if NotRedefined(m, s, func) && func.id in SANITIZERS + NUMERIC_CASTS then true
      else IsJoin(func, args) && Trusted(k, funcs, m, s, args[0])
    case JoinedStr(parts) =>
      forall i | 0 <= i < |parts| :: parts[i].StrConst? || (parts[i].FormattedValue? && Plain(k, funcs, m, s, parts[i]))
    case FormattedValue(shown, spec) =>
      && Plain(k, funcs, m, s, shown)
      && (forall i | 0 <= i < |spec| :: Trusted(k, funcs, m, s, spec[i]))
    case BoolOp(values) => forall i | 0 <= i < |values| :: Plain(k, funcs, m, s, values[i])
    case IfExp(_, body, orelse) => Plain(k, funcs, m, s, body) && Plain(k, funcs, m, s, orelse)
    case Comprehension(elt) => Plain(k, funcs, m, s, elt)
    case Collection(elts) => forall i | 0 <= i < |elts| :: Plain(k, funcs, m, s, elts[i])
    case DictDisplay(keys, vals) =>
      && (forall i | 0 <= i < |keys| :: Trusted(k, funcs, m, s, keys[i]))
      && (forall i | 0 <= i < |vals| :: Plain(k, funcs, m, s, vals[i]))
    case Subscript(whole, _) => Plain(k, funcs, m, s, whole)
    case _ => true
  }

  ghost predicate Trusted(k: Marks, funcs: set<string>, m: Module, s: nat, e: Expr)
    decreases e, 1
  {
    IsSafe(k, funcs, m, s, e) && Plain(k, funcs, m, s, e)
  }

  /** Whatever scope Python finds a visible marked name in, the name is marked there and bound by recorded
      bindings only. */
  ghost predicate NamesUnhidden(m: Module, k: Marks) {
    forall s: nat, id | NameIn(k, m, s, id) :: NameUnhidden(m, k, s, id)
  }

  ghost predicate NameUnhidden(m: Module, k: Marks, s: nat, id: string) {
    && (forall r: nat, i: nat | MayBeApart(m, s, r, i, id) :: Local(r, id) in k.names)
    && match Lookup(m, s, id)
       case Some(r) => Local(r, id) in k.names && !BoundElsewhere(m, r, NameAtom(id))
       case None => SomewhereApart(m, s, id)
  }

  /** Every binding of a marked name has a validated value, not only the one that marked it. */
  ghost predicate NamesTrusted(m: Module, k: Marks, funcs: set<string>) {
    forall l, i: nat | l in k.names && Holds(m, l.scope, i, NameAtom(l.id)) ::
      Trusted(k, funcs, m, l.scope, BindingsOf(m, l.scope)[i].value)
  }

  /** The attribute is bound, by recorded bindings only, and all of them have validated values. */
  ghost predicate AttributeTrusted(m: Module, k: Marks, funcs: set<string>, a: string) {
    && AttributeBound(m, a) && !AttributeElsewhere(m, a) && !SelfRebound(m)
    && (forall r: nat, i: nat | Binds(m, r, i, AttrAtom(a)) :: Trusted(k, funcs, m, r, BindingsOf(m, r)[i].value))
  }

  ghost predicate AttributesTrusted(m: Module, k: Marks, funcs: set<string>) {
    forall a | a in k.attrs :: AttributeTrusted(m, k, funcs, a)
  }

  /** Every function that bears a validated name returns validated values. */
  ghost predicate FunctionsTrusted(m: Module, k: Marks, funcs: set<string>) {
    forall f, i | f in m.functions && f.name in funcs && 0 <= i < |f.results| ::
      Trusted(k, funcs, m, f.scope, f.results[i])
  }

  /** What soundness asks of the facts of a module; all of it can be read off the module and its facts. */
  ghost predicate Consistent(m: Module, k: Marks, funcs: set<string>) {
    && NamesUnhidden(m, k) && NamesTrusted(m, k, funcs)
    && AttributesTrusted(m, k, funcs) && FunctionsTrusted(m, k, funcs)
  }

  // ----- soundness -----

  /** Soundness: with consistent facts every evaluation of a validated expression is built only from
      literals, sanitizer results and numbers. */
  lemma {:induction false} ValidatedIsClean(m: Module, k: Marks, funcs: set<string>, s: nat, e: Expr, t: Trace)
    requires Consistent(m, k, funcs) && Trusted(k, funcs, m, s, e) && Eval(m, s, e, t).Some?
    ensures Clean(Eval(m, s, e, t).value)
    decreases t, 2
  {
    match e
    case StrConst(_) =>
    case Name(id) =>
      assert NameUnhidden(m, k, s, id);
      if MayBeApart(m, s, t.scope, t.pick, id) {
        BoundIsClean(m, k, funcs, t.scope, NameAtom(id), t);
      } else if Binds(m, Lookup(m, s, id).value, t.pick, NameAtom(id)) {
        BoundIsClean(m, k, funcs, Lookup(m, s, id).value, NameAtom(id), t);
      }
    case Attribute(_, a) => BoundIsClean(m, k, funcs, t.scope, AttrAtom(a), t);
    case Call(func, args) => CallIsClean(m, k, funcs, s, func, args, t);
    case JoinedStr(parts) => PartsAreClean(m, k, funcs, s, parts, t);
    case FormattedValue(shown, spec) => FormattedIsClean(m, k, funcs, s, shown, spec, t);
    case BoolOp(values) => OneIsClean(m, k, funcs, s, values, t);
    case IfExp(_, body, orelse) => OneIsClean(m, k, funcs, s, [body, orelse], t);
    case Comprehension(elt) =>
      AllAreClean(m, k, funcs, s, seq(|t.subs|, _ => elt), t, |t.subs|);
      GatheredClean(EvalAll(m, s, seq(|t.subs|, _ => elt), t, |t.subs|));
    case Collection(elts) =>
      AllAreClean(m, k, funcs, s, elts, t, |elts|);
      GatheredClean(EvalAll(m, s, elts, t, |elts|));
    case DictDisplay(keys, vals) => DictIsClean(m, k, funcs, s, keys, vals, t);
    case Subscript(whole, _) =>
      AllAreClean(m, k, funcs, s, [whole], t, 1);
      SubscriptedClean(EvalAll(m, s, [whole], t, 1).value[0], t);
  }

  lemma GatheredClean(vs: Option<seq<Value>>)
    requires vs.Some? && forall i | 0 <= i < |vs.value| :: Clean(vs.value[i])
    ensures Gathered(vs).Some? && Clean(Gathered(vs).value)
  {
  }

  lemma SubscriptedClean(v: Value, t: Trace)
    requires Clean(v) && Subscripted(v, t).Some?
    ensures Clean(Subscripted(v, t).value)
  {
  }

  lemma MappingClean(all: seq<Value>, n: nat)
    requires n <= |all| && forall i | 0 <= i < |all| :: Clean(all[i])
    ensures Clean(Mapping(all[..n], all[n..]))
  {
  }

  lemma {:induction false} DictIsClean(m: Module, k: Marks, funcs: set<string>, s: nat, keys: seq<Expr>,
                                       vals: seq<Expr>, t: Trace)
    requires Consistent(m, k, funcs) && Trusted(k, funcs, m, s, DictDisplay(keys, vals))
    requires Eval(m, s, DictDisplay(keys, vals), t).Some?
    ensures Clean(Eval(m, s, DictDisplay(keys, vals), t).value)
    decreases t, 1
  {
    AllAreClean(m, k, funcs, s, keys + vals, t, |keys| + |vals|);
    var all := EvalAll(m, s, keys + vals, t, |keys| + |vals|).value;
    MappingClean(all, |keys|);
  }

  lemma {:induction false} AllAreClean(m: Module, k: Marks, funcs: set<string>, s: nat, es: seq<Expr>, t: Trace, n: nat)
    requires Consistent(m, k, funcs) && n <= |es| && EvalAll(m, s, es, t, n).Some?
    requires forall i | 0 <= i < n :: Trusted(k, funcs, m, s, es[i])
    ensures forall i | 0 <= i < n :: Clean(EvalAll(m, s, es, t, n).value[i])
    decreases t, 0
  {
    forall i | 0 <= i < n ensures Clean(EvalAll(m, s, es, t, n).value[i]) {
      ValidatedIsClean(m, k, funcs, s, es[i], t.subs[i]);
    }
  }

  lemma {:induction false} OneIsClean(m: Module, k: Marks, funcs: set<string>, s: nat, es: seq<Expr>, t: Trace)
    requires Consistent(m, k, funcs) && (forall i | 0 <= i < |es| :: Trusted(k, funcs, m, s, es[i]))
    requires EvalOne(m, s, es, t).Some?
    ensures Clean(EvalOne(m, s, es, t).value)
    decreases t, 0
  {
    ValidatedIsClean(m, k, funcs, s, es[t.pick], t.subs[0]);
  }

  lemma {:induction false} PartsAreClean(m: Module, k: Marks, funcs: set<string>, s: nat, parts: seq<Expr>, t: Trace)
    requires Consistent(m, k, funcs) && Trusted(k, funcs, m, s, JoinedStr(parts))
    requires EvalAll(m, s, parts, t, |parts|).Some?
    ensures Clean(Eval(m, s, JoinedStr(parts), t).value)
    decreases t, 1
  {
    forall i | 0 <= i < |parts| ensures Trusted(k, funcs, m, s, parts[i]) {
      assert parts[i].StrConst? || parts[i].FormattedValue?;
    }
    AllAreClean(m, k, funcs, s, parts, t, |parts|);
    CleanShownAll(EvalAll(m, s, parts, t, |parts|).value);
  }

  lemma {:induction false} FormattedIsClean(m: Module, k: Marks, funcs: set<string>, s: nat, shown: Expr,
                                            spec: seq<Expr>, t: Trace)
    requires Consistent(m, k, funcs) && Trusted(k, funcs, m, s, FormattedValue(shown, spec))
    requires EvalAll(m, s, [shown] + spec, t, 1 + |spec|).Some?
    ensures Clean(Eval(m, s, FormattedValue(shown, spec), t).value)
    decreases t, 1
  {
    AllAreClean(m, k, funcs, s, [shown] + spec, t, 1 + |spec|);
    CleanShownAll(EvalAll(m, s, [shown] + spec, t, 1 + |spec|).value);
  }

  lemma {:induction false} BoundIsClean(m: Module, k: Marks, funcs: set<string>, r: nat, a: Atom, t: Trace)
    requires Consistent(m, k, funcs) && Has(k, r, a) && EvalBinding(m, r, a, t).Some?
    ensures Clean(EvalBinding(m, r, a, t).value)
    decreases t, 0
  {
    var value := BindingsOf(m, r)[t.pick].value;
    assert Holds(m, r, t.pick, a);
    assert a.AttrAtom? ==> AttributeTrusted(m, k, funcs, a.id) && Binds(m, r, t.pick, a);
    assert a.NameAtom? ==> Local(r, a.id) in k.names;
    assert Trusted(k, funcs, m, r, value);
    ValidatedIsClean(m, k, funcs, r, value, t.subs[0]);
    DescendClean(Eval(m, r, value, t.subs[0]).value, t.path);
  }

  lemma {:induction false} CallIsClean(m: Module, k: Marks, funcs: set<string>, s: nat, func: Expr, args: seq<Expr>,
                                       t: Trace)
    requires Consistent(m, k, funcs) && Trusted(k, funcs, m, s, Call(func, args))
    requires Eval(m, s, Call(func, args), t).Some?
    ensures Clean(Eval(m, s, Call(func, args), t).value)
    decreases t, 1
  {
    if CallsFunction(m, s, func) {
      var f := m.functions[t.pick];
      assert f in m.functions && f.name == CallName(func);
      if t.scope < |f.results| {
        ValidatedIsClean(m, k, funcs, f.scope, f.results[t.scope], t.subs[0]);
      }
    } else if !NotRedefined(m, s, func) || func.id !in SANITIZERS + NUMERIC_CASTS {
      AllAreClean(m, k, funcs, s, [args[0]], t, 1);
      CleanShownAll(EvalAll(m, s, [args[0]], t, 1).value);
    }
  }

  /** So is every evaluation of what can be derived. */
  lemma DerivedIsClean(m: Module, k: Marks, funcs: set<string>, s: nat, e: Expr, p: Proof, t: Trace)
    requires SafeClosed(m, k, funcs) && Consistent(m, k, funcs)
    requires Derives(m, s, e, p) && Plain(k, funcs, m, s, e) && Eval(m, s, e, t).Some?
    ensures Clean(Eval(m, s, e, t).value)
  {
    DerivedIsSafe(m, k, funcs, s, e, p);
    ValidatedIsClean(m, k, funcs, s, e, t);
  }

  // ----- a condition on the module alone -----

  /** The scope binds the name, in all of its body or in a part. */
  ghost predicate Mentions(m: Module, r: nat, id: string) {
    Introduces(m, r, id) || exists i: nat :: BindsApart(m, r, i, id)
  }

  /** The linter looks names up where Python does, and a name is bound once on every path of scopes from a
      use to the module. */
  ghost predicate NamesBoundOnce(m: Module) {
    && (forall s: nat :: OuterOf(m, s) == ParentOf(m, s))
    && (forall s: nat, q: nat, r: nat, id: string
          {:trigger Visible(m, q, s), Visible(m, r, s), Mentions(m, q, id)} ::
          Visible(m, q, s) && Visible(m, r, s) && Mentions(m, q, id) && Mentions(m, r, id) ==> q == r)
    && (forall r: nat, i: nat, j: nat, id: string ::
          Holds(m, r, i, NameAtom(id)) && Holds(m, r, j, NameAtom(id)) ==> i == j)
    && (forall r: nat, i: nat, id: string :: Holds(m, r, i, NameAtom(id)) ==>
          !BoundElsewhere(m, r, NameAtom(id)) && !Defines(m, r, id))
  }

  /** Attributes that are assigned are assigned once, and nothing assigns to `self`. */
  ghost predicate AttributesBoundOnce(m: Module) {
    && !SelfRebound(m)
    && (forall q: nat, i: nat, r: nat, j: nat, a: string ::
          Binds(m, q, i, AttrAtom(a)) && Binds(m, r, j, AttrAtom(a)) ==> q == r && i == j)
    && (forall q: nat, i: nat, a: string :: Binds(m, q, i, AttrAtom(a)) ==> !AttributeElsewhere(m, a))
  }

  ghost predicate FunctionsNamedApart(m: Module) {
    forall i, j | 0 <= i < |m.functions| && 0 <= j < |m.functions| ::
      m.functions[i].name == m.functions[j].name ==> i == j
  }

  /** Every validated value in the module is plain. */
  ghost predicate PlainModule(m: Module, k: Marks, funcs: set<string>) {
    && (forall r: nat, i: nat | i < |BindingsOf(m, r)| && IsSafe(k, funcs, m, r, BindingsOf(m, r)[i].value) ::
          Plain(k, funcs, m, r, BindingsOf(m, r)[i].value))
    && (forall f, i | f in m.functions && 0 <= i < |f.results| && IsSafe(k, funcs, m, f.scope, f.results[i]) ::
          Plain(k, funcs, m, f.scope, f.results[i]))
  }

  lemma DerivedBindingIsBound(m: Module, k: Marks, funcs: set<string>, a: Atom, p: Proof)
    requires SafeClosed(m, k, funcs) && DerivesBinding(m, a, p)
    ensures Holds(m, p.scope, p.index, a)
    ensures IsSafe(k, funcs, m, p.scope, BindingsOf(m, p.scope)[p.index].value)
  {
    var b := BindingsOf(m, p.scope)[p.index];
    AtomsAreBound(b.target, a);
    assert DerivesSome(m, p.scope, b.value, p);
    DerivedIsSafe(m, k, funcs, p.scope, b.value, p.subs[0]);
  }

  /** The binding that justifies a mark: for a name, one in the scope that is marked. */
  lemma MarkedIsBound(m: Module, k: Marks, funcs: set<string>, s: nat, a: Atom) returns (r: nat, i: nat)
    requires LeastSafe(m, k, funcs) && Has(k, s, a)
    ensures Holds(m, r, i, a) && IsSafe(k, funcs, m, r, BindingsOf(m, r)[i].value)
    ensures a.NameAtom? ==> r == s
  {
    DerivableClosed(m, k, funcs);
    assert Leq(k, DerivableMarks(m, k));
    match a {
      case NameAtom(id) =>
        assert Local(s, id) in DerivableMarks(m, k).names;
        var p: Proof :| p.scope == s && DerivesBinding(m, a, p);
        DerivedBindingIsBound(m, k, funcs, a, p);
        r, i := p.scope, p.index;
      case AttrAtom(id) =>
        assert id in DerivableMarks(m, k).attrs;
        var p: Proof :| DerivesBinding(m, a, p);
        DerivedBindingIsBound(m, k, funcs, a, p);
        r, i := p.scope, p.index;
    }
  }

  lemma ValidatedReturns(m: Module, k: Marks, funcs: set<string>, f: Function)
    requires LeastSafe(m, k, funcs) && FunctionsNamedApart(m) && f in m.functions && f.name in funcs
    ensures ReturnsSafe(k, funcs, m, f)
  {
    DerivableClosed(m, k, funcs);
    assert funcs <= DerivableFunctions(m, funcs);
    var p :| DerivesFunction(m, f.name, p);
    assert m.functions[p.index] == f;
    DerivedAreSafe(m, k, funcs, f.scope, f.results, p);
  }

  lemma {:induction false} EnclosingIsVisible(m: Module, r: nat, s: nat)
    requires NamesBoundOnce(m) && Encloses(m, r, s)
    ensures Visible(m, r, s)
    decreases s
  {
    if r != s {
      EnclosingIsVisible(m, r, ParentOf(m, s).value);
    }
  }

  lemma OnceIsUnhidden(m: Module, k: Marks, s: nat, q: nat, i: nat, id: string)
    requires NamesBoundOnce(m) && Encloses(m, q, s) && Local(q, id) in k.names && Holds(m, q, i, NameAtom(id))
    ensures NameUnhidden(m, k, s, id)
  {
    EnclosingIsVisible(m, q, s);
    assert Binds(m, q, i, NameAtom(id)) || BindsApart(m, q, i, id);
    assert Mentions(m, q, id);
    forall r: nat, j: nat | MayBeApart(m, s, r, j, id) ensures r == q {
      assert Mentions(m, r, id);
    }
    if BindsApart(m, q, i, id) {
      assert MayBeApart(m, s, q, i, id);
    }
    if Lookup(m, s, id).Some? {
      assert Mentions(m, Lookup(m, s, id).value, id);
    } else {
      assert !Introduces(m, q, id);
    }
  }

  /** The facts the fixpoint ends in are consistent when every name and attribute is bound once, functions
      have different names, and validated values are plain. */
  lemma BoundOnceIsConsistent(m: Module, k: Marks, funcs: set<string>)
    requires LeastSafe(m, k, funcs)
    requires NamesBoundOnce(m) && AttributesBoundOnce(m) && FunctionsNamedApart(m) && PlainModule(m, k, funcs)
    ensures Consistent(m, k, funcs)
  {
    forall s: nat, id | NameIn(k, m, s, id) ensures NameUnhidden(m, k, s, id) {
      var q := VisibleMarked(k, m, s, id);
      var r, i := MarkedIsBound(m, k, funcs, q, NameAtom(id));
      OnceIsUnhidden(m, k, s, q, i, id);
    }
    forall l, j: nat | l in k.names && Holds(m, l.scope, j, NameAtom(l.id))
      ensures Trusted(k, funcs, m, l.scope, BindingsOf(m, l.scope)[j].value)
    {
      var r, i := MarkedIsBound(m, k, funcs, l.scope, NameAtom(l.id));
    }
    forall a | a in k.attrs ensures AttributeTrusted(m, k, funcs, a) {
      var r, i := MarkedIsBound(m, k, funcs, 0, AttrAtom(a));
      assert Binds(m, r, i, AttrAtom(a));
    }
    forall f | f in m.functions && f.name in funcs ensures ReturnsSafe(k, funcs, m, f) {
      ValidatedReturns(m, k, funcs, f);
    }
  }
}
