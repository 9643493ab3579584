/** `_ModuleFacts`: the `while changed` loop that computes the facts of a module. Visits keep the facts justified,
    a round without a change shows that they are closed, and one with a change marks one more of finitely many. */
module CypherFixpoint {
  import opened CypherAst
  import opened CypherRules
  import opened Sequences

  /** Adds the first atom that is not there yet, and says whether there was one. */
  ghost function MarkFirst(atoms: seq<Atom>, s: nat, k: Marks): (Marks, bool) {
    if atoms == [] then (k, false)
    else if !Has(k, s, atoms[0]) then (Add(k, s, atoms[0]), true)
    else MarkFirst(atoms[1..], s, k)
  }

  lemma {:induction false} MarkFirstAppend(a: seq<Atom>, b: seq<Atom>, s: nat, k: Marks)
    ensures MarkFirst(a + b, s, k) == if MarkFirst(a, s, k).1 then MarkFirst(a, s, k) else MarkFirst(b, s, k)
  {
    if a == [] {
      assert a + b == b;
    } else {
      assert (a + b)[1..] == a[1..] + b;
      MarkFirstAppend(a[1..], b, s, k);
    }
  }

  /** Marking changes nothing exactly when everything was marked, and adds the first unmarked atom otherwise. */
  lemma {:induction false} MarkFirstMeaning(atoms: seq<Atom>, s: nat, k: Marks)
    ensures var (k2, changed) := MarkFirst(atoms, s, k);
            if changed then exists i: nat :: FirstUnmarked(atoms, s, k, i) && k2 == Add(k, s, atoms[i])
            else k2 == k && forall a | a in atoms :: Has(k, s, a)
  {
    if atoms != [] {
      if Has(k, s, atoms[0]) {
        MarkFirstMeaning(atoms[1..], s, k);
        if MarkFirst(atoms, s, k).1 {
          var i: nat :| FirstUnmarked(atoms[1..], s, k, i) && MarkFirst(atoms, s, k).0 == Add(k, s, atoms[1..][i]);
          assert forall j | 0 < j < |atoms| :: atoms[j] == atoms[1..][j - 1];
          assert FirstUnmarked(atoms, s, k, i + 1);
        }
      } else {
        assert FirstUnmarked(atoms, s, k, 0);
      }
    }
  }

  ghost predicate FirstUnmarked(atoms: seq<Atom>, s: nat, k: Marks, i: nat) {
    i < |atoms| && !Has(k, s, atoms[i]) && forall j | 0 <= j < i :: Has(k, s, atoms[j])
  }

  /** All facts of a module at one moment. */
  datatype State = State(safe: Marks, funcs: set<string>, raw: Marks)

  const START: State := State(NOTHING, {}, NOTHING)

  ghost predicate Grows(a: State, b: State) {
    Leq(a.safe, b.safe) && a.funcs <= b.funcs && Leq(a.raw, b.raw)
  }

  ghost predicate WithinMarks(m: Module, k: Marks) {
    k.names <= AllLocals(m) && k.attrs <= AllIds(m)
  }

  /** What every visit keeps: facts come from the module, the validated ones are in every closed
      set, and the raw ones are in every set closed without validated functions. */
  ghost predicate Justified(m: Module, st: State) {
    && WithinMarks(m, st.safe) && WithinMarks(m, st.raw) && st.funcs <= AllFunctions(m)
    && (forall k, funcs :: SafeClosed(m, k, funcs) ==> Leq(st.safe, k) && st.funcs <= funcs)
    && (forall k :: RawClosed(m, {}, k) ==> Leq(st.raw, k))
  }

  ghost predicate BindingDone(m: Module, st: State, s: nat, b: Binding) {
    BindingSafe(st.safe, st.funcs, m, s, b) && BindingRaw(st.raw, st.funcs, m, s, b)
  }

  ghost predicate ScopeDone(m: Module, st: State, s: nat) {
    forall i: nat | i < |BindingsOf(m, s)| :: BindingDone(m, st, s, BindingsOf(m, s)[i])
  }

  ghost predicate FunctionDone(m: Module, st: State, f: Function) {
    ReturnsSafe(st.safe, st.funcs, m, f) ==> f.name in st.funcs
  }

  lemma AddSafeJustified(m: Module, st: State, s: nat, i: nat, a: Atom)
    requires Justified(m, st) && i < |BindingsOf(m, s)|
    requires IsSafe(st.safe, st.funcs, m, s, BindingsOf(m, s)[i].value)
    requires a in Atoms(BindingsOf(m, s)[i].target)
    ensures Justified(m, st.(safe := Add(st.safe, s, a)))
  {
    var b := BindingsOf(m, s)[i];
    assert Local(s, IdOf(a)) in AllLocals(m);
    forall k, funcs | SafeClosed(m, k, funcs) ensures Leq(Add(st.safe, s, a), k) {
      SafeMonotone(st.safe, st.funcs, k, funcs, m, s, b.value);
      assert BindingSafe(k, funcs, m, s, b);
    }
  }

  lemma AddRawJustified(m: Module, st: State, s: nat, i: nat, a: Atom)
    requires Justified(m, st) && i < |BindingsOf(m, s)|
    requires IsRaw(st.raw, st.funcs, m, s, BindingsOf(m, s)[i].value)
    requires a in Atoms(BindingsOf(m, s)[i].target)
    ensures Justified(m, st.(raw := Add(st.raw, s, a)))
  {
    var b := BindingsOf(m, s)[i];
    assert Local(s, IdOf(a)) in AllLocals(m);
    forall k | RawClosed(m, {}, k) ensures Leq(Add(st.raw, s, a), k) {
      RawMonotone(st.raw, st.funcs, k, {}, m, s, b.value);
      assert BindingRaw(k, {}, m, s, b);
    }
  }

  lemma AddFunctionJustified(m: Module, st: State, f: Function)
    requires Justified(m, st) && f in m.functions && ReturnsSafe(st.safe, st.funcs, m, f)
    ensures Justified(m, st.(funcs := st.funcs + {f.name}))
  {
    forall k, funcs | SafeClosed(m, k, funcs) ensures f.name in funcs {
      forall i | 0 <= i < |f.results| ensures IsSafe(k, funcs, m, f.scope, f.results[i]) {
        SafeMonotone(st.safe, st.funcs, k, funcs, m, f.scope, f.results[i]);
      }
      assert ReturnsSafe(k, funcs, m, f);
    }
  }

  /** The order lists exactly the numbers below `n`, each at least once. */
  ghost predicate Covers(order: seq<nat>, n: nat) {
    (forall i | 0 <= i < |order| :: order[i] < n) && (forall i: nat | i < n :: i in order)
  }

  lemma ClosedWhenDone(m: Module, st: State, scopes: seq<nat>, functions: seq<nat>)
    requires Covers(scopes, |m.scopes|) && Covers(functions, |m.functions|)
    requires forall j | 0 <= j < |scopes| :: ScopeDone(m, st, scopes[j])
    requires forall j | 0 <= j < |functions| :: FunctionDone(m, st, m.functions[functions[j]])
    ensures SafeClosed(m, st.safe, st.funcs) && RawClosed(m, st.funcs, st.raw)
  {
    forall s: nat, i: nat | i < |BindingsOf(m, s)| ensures BindingDone(m, st, s, BindingsOf(m, s)[i]) {
      assert s in scopes;
      assert ScopeDone(m, st, s);
    }
    forall f | f in m.functions ensures FunctionDone(m, st, f) {
      var i :| 0 <= i < |m.functions| && m.functions[i] == f;
      assert i in functions;
    }
  }

  ghost function Size(st: State): nat {
    |st.safe.names| + |st.safe.attrs| + |st.funcs| + |st.raw.names| + |st.raw.attrs|
  }

  ghost function Capacity(m: Module): nat {
    2 * |AllLocals(m)| + 2 * |AllIds(m)| + |AllFunctions(m)|
  }

  lemma SizeBounded(m: Module, st: State)
    requires Justified(m, st)
    ensures Size(st) <= Capacity(m)
  {
    SubsetSize(st.safe.names, AllLocals(m));
    SubsetSize(st.safe.attrs, AllIds(m));
    SubsetSize(st.funcs, AllFunctions(m));
    SubsetSize(st.raw.names, AllLocals(m));
    SubsetSize(st.raw.attrs, AllIds(m));
  }

  lemma SizeGrows(a: State, b: State)
    requires Grows(a, b) && a != b
    ensures Size(a) < Size(b)
  {
    SubsetSize(a.safe.names, b.safe.names);
    SubsetSize(a.safe.attrs, b.safe.attrs);
    SubsetSize(a.funcs, b.funcs);
    SubsetSize(a.raw.names, b.raw.names);
    SubsetSize(a.raw.attrs, b.raw.attrs);
  }

  // ----- the class -----

  class ModuleFacts {
    const tree: Module
    var safeNames: set<Local>
    var safeAttrs: set<string>
    var safeFuncs: set<string>
    var rawNames: set<Local>
    var rawAttrs: set<string>

    function View(): State
      reads this
    {
      State(Marks(safeNames, safeAttrs), safeFuncs, Marks(rawNames, rawAttrs))
    }

    /** The validated facts are the least set closed under the rules; the raw facts are closed
        under the rules for the final functions and inside every set closed with no functions. */
    constructor (tree: Module, scopes: seq<nat>, functions: seq<nat>)
      requires Covers(scopes, |tree.scopes|) && Covers(functions, |tree.functions|)
      ensures this.tree == tree
      ensures LeastSafe(tree, View().safe, View().funcs)
      ensures RawClosed(tree, View().funcs, View().raw)
      ensures forall k :: RawClosed(tree, {}, k) ==> Leq(View().raw, k)
    {
      this.tree := tree;
      safeNames, safeAttrs, safeFuncs, rawNames, rawAttrs := {}, {}, {}, {}, {};
      new;
      assert View() == START;
      Fixpoint(scopes, functions);
    }

    /** `scopes` and `functions` give the order in which a round visits them. */
    method Fixpoint(scopes: seq<nat>, functions: seq<nat>)
      requires Justified(tree, View())
      requires Covers(scopes, |tree.scopes|) && Covers(functions, |tree.functions|)
      modifies this
      ensures LeastSafe(tree, View().safe, View().funcs)
      ensures RawClosed(tree, View().funcs, View().raw)
      ensures forall k :: RawClosed(tree, {}, k) ==> Leq(View().raw, k)
    {
      var changed := true;
      SizeBounded(tree, View());
      while changed
        invariant Justified(tree, View()) && Size(View()) <= Capacity(tree)
        invariant !changed ==> SafeClosed(tree, View().safe, View().funcs)
        invariant !changed ==> RawClosed(tree, View().funcs, View().raw)
        decreases Capacity(tree) - Size(View()), changed
      {
        ghost var before := View();
        changed := Sweep(scopes, functions);
        SizeBounded(tree, View());
        if changed {
          SizeGrows(before, View());
        }
      }
    }

    /** One round over all scopes and all functions. */
    method Sweep(scopes: seq<nat>, functions: seq<nat>) returns (changed: bool)
      requires Justified(tree, View())
      requires Covers(scopes, |tree.scopes|) && Covers(functions, |tree.functions|)
      modifies this
      ensures Justified(tree, View()) && Grows(old(View()), View())
      ensures changed <==> View() != old(View())
      ensures !changed ==> SafeClosed(tree, View().safe, View().funcs)
      ensures !changed ==> RawClosed(tree, View().funcs, View().raw)
    {
      ghost var start := View();
      changed := false;
      for i := 0 to |scopes|
        invariant Justified(tree, View()) && Grows(start, View())
        invariant changed <==> View() != start
        invariant !changed ==> forall j | 0 <= j < i :: ScopeDone(tree, start, scopes[j])
      {
        var c := SweepScope(scopes[i]);
        changed := changed || c;
      }
      for i := 0 to |functions|
        invariant Justified(tree, View()) && Grows(start, View())
        invariant changed <==> View() != start
        invariant !changed ==> forall j | 0 <= j < |scopes| :: ScopeDone(tree, start, scopes[j])
        invariant !changed ==> forall j | 0 <= j < i :: FunctionDone(tree, start, tree.functions[functions[j]])
      {
        var c := VisitFunction(functions[i]);
        changed := changed || c;
      }
      if !changed {
        ClosedWhenDone(tree, start, scopes, functions);
      }
    }

    /** The assignments of a scope, then its loops. */
    method SweepScope(s: nat) returns (changed: bool)
      requires Justified(tree, View()) && s < |tree.scopes|
      modifies this
      ensures Justified(tree, View()) && Grows(old(View()), View())
      ensures changed <==> View() != old(View())
      ensures !changed ==> ScopeDone(tree, View(), s)
    {
      ghost var start := View();
      changed := false;
      for i := 0 to |BindingsOf(tree, s)|
        invariant Justified(tree, View()) && Grows(start, View())
        invariant changed <==> View() != start
        invariant !changed ==> forall j: nat | j < i :: BindingDone(tree, start, s, BindingsOf(tree, s)[j])
      {
        var safe := VisitSafe(s, i);
        var raw := VisitRaw(s, i);
        changed := changed || safe || raw;
      }
    }

    /** One binding: mark its target validated when its value is. */
    method VisitSafe(s: nat, i: nat) returns (changed: bool)
      requires Justified(tree, View()) && i < |BindingsOf(tree, s)|
      modifies this
      ensures Justified(tree, View()) && Grows(old(View()), View())
      ensures changed <==> View() != old(View())
      ensures !changed ==> BindingSafe(View().safe, View().funcs, tree, s, BindingsOf(tree, s)[i])
    {
      var b := BindingsOf(tree, s)[i];
      changed := false;
      if IsSafe(View().safe, safeFuncs, tree, s, b.value) {
        ghost var before := View();
        var k, c := Mark(b.target, s, View().safe);
        MarkFirstMeaning(Atoms(b.target), s, before.safe);
        safeNames, safeAttrs, changed := k.names, k.attrs, c;
        assert View() == before.(safe := k);
        if c {
          ghost var atoms := Atoms(b.target);
          ghost var j: nat :| FirstUnmarked(atoms, s, before.safe, j) && k == Add(before.safe, s, atoms[j]);
          ghost var a := Atoms(b.target)[j];
          AddSafeJustified(tree, before, s, i, a);
        }
      }
    }

    /** The same binding: mark its target raw when its value is. */
    method VisitRaw(s: nat, i: nat) returns (changed: bool)
      requires Justified(tree, View()) && i < |BindingsOf(tree, s)|
      modifies this
      ensures Justified(tree, View()) && Grows(old(View()), View())
      ensures changed <==> View() != old(View())
      ensures !changed ==> BindingRaw(View().raw, View().funcs, tree, s, BindingsOf(tree, s)[i])
    {
      var b := BindingsOf(tree, s)[i];
      changed := false;
      if IsRaw(View().raw, safeFuncs, tree, s, b.value) {
        ghost var before := View();
        var k, c := Mark(b.target, s, View().raw);
        MarkFirstMeaning(Atoms(b.target), s, before.raw);
        rawNames, rawAttrs, changed := k.names, k.attrs, c;
        assert View() == before.(raw := k);
        if c {
          ghost var atoms := Atoms(b.target);
          ghost var j: nat :| FirstUnmarked(atoms, s, before.raw, j) && k == Add(before.raw, s, atoms[j]);
          ghost var a := Atoms(b.target)[j];
          AddRawJustified(tree, before, s, i, a);
        }
      }
    }

    /** A function all of whose own returns are validated is validated. */
    method VisitFunction(f: nat) returns (changed: bool)
      requires Justified(tree, View()) && f < |tree.functions|
      modifies this
      ensures Justified(tree, View()) && Grows(old(View()), View())
      ensures changed <==> View() != old(View())
      ensures !changed ==> FunctionDone(tree, View(), tree.functions[f])
    {
      var fn := tree.functions[f];
      changed := false;
      if fn.name !in safeFuncs && ReturnsSafe(View().safe, safeFuncs, tree, fn) {
        AddFunctionJustified(tree, View(), fn);
        ghost var before := View();
        safeFuncs := safeFuncs + {fn.name};
        assert View() == before.(funcs := before.funcs + {fn.name});
        changed := true;
      }
    }

    /** Marks a target. For a tuple target it stops at the first element that was newly marked. */
    static method Mark(target: Expr, s: nat, k: Marks) returns (r: Marks, changed: bool)
      ensures (r, changed) == MarkFirst(Atoms(target), s, k)
      decreases target
    {
      r, changed := k, false;
      match target {
        case Name(id) =>
          if Local(s, id) !in k.names {
            r, changed := k.(names := k.names + {Local(s, id)}), true;
          }
        case Attribute(base, attr) =>
          if base == Name("self") && attr !in k.attrs {
            r, changed := k.(attrs := k.attrs + {attr}), true;
          }
        case Collection(elts) =>
          assert elts[0..] == elts;
          for i := 0 to |elts|
            invariant r == k && !changed
            invariant MarkFirst(Atoms(target), s, k) == MarkFirst(AtomsOfAll(elts[i..]), s, k)
          {
            MarkFirstAppend(Atoms(elts[i]), AtomsOfAll(elts[i + 1..]), s, k);
            assert elts[i..][1..] == elts[i + 1..];
            r, changed := Mark(elts[i], s, k);
            if changed {
              return;
            }
            MarkFirstMeaning(Atoms(elts[i]), s, k);
          }
        case _ =>
      }
    }
  }
}
