/** Runs of the capability registry: any sequence of register, derive, delegate, revoke and clock
    steps from the empty registry, and what holds at every moment of every run. */
module CapabilityRuns {
  import opened Options
  import opened CapabilityTree

  datatype World = World(store: Store, now: nat)

  datatype Step =
    | Register(cap: Cap)
    | Derive(parent: Id, request: Request, child: Id)
    | DelegateTo(d: Delegation, rootId: Id, childId: Id)
    | Revoke(id: Id)
    | Tick(elapsed: nat)

  /** An id that the token generator may hand out. */
  predicate Fresh(st: Store, id: Id) { id !in st.caps && id != ROOT }

  /** A step the callers may take: registered capabilities are freshly made ROOT grants, parents
      are registered, and generated ids are new. */
  ghost predicate Allowed(h: Hash, w: World, step: Step) {
    match step
    case Register(c) => Fresh(w.store, c.terms.id) && c.terms.grantedBy == ROOT && c.ValidHash(h)
    case Derive(parent, _, child) => parent in w.store.caps && Fresh(w.store, child)
    case DelegateTo(_, rootId, childId) => Fresh(w.store, rootId) && Fresh(w.store, childId) && rootId != childId
    case Revoke(_) => true
    case Tick(_) => true
  }

  ghost function Next(h: Hash, w: World, step: Step): World
    requires Inv(h, w.store) && Allowed(h, w, step)
  {
    match step
    case Register(c) => w.(store := w.store.Put(c))
    case Derive(parent, r, child) =>
      (match CapabilityTree.Derive(h, w.store, w.now, parent, r, child)
       case Granted(st) => w.(store := st)
       case Denied(_) => w)
    case DelegateTo(d, rootId, childId) => w.(store := Delegate(h, w.store, w.now, d, rootId, childId).0)
    case Revoke(id) => if id in w.store.caps then w.(store := RevokeTree(w.store, id)) else w
    case Tick(elapsed) => w.(now := w.now + elapsed)
  }

  // ----- one step keeps the invariant -----

  /** Appending a fresh capability whose parent, if any, is registered keeps the forest. */
  lemma PutIsForest(st: Store, c: Cap)
    requires Ordered(st) && IsForest(st.Shape()) && Fresh(st, c.terms.id)
    requires c.terms.grantedBy == ROOT || c.terms.grantedBy in st.caps
    ensures IsForest(st.Put(c).Shape()) && Ordered(st.Put(c))
  {
    var f, g := st.Shape(), st.Put(c).Shape();
    forall k | k in g.granted ensures Linked(g, k) {
      assert k in f.granted ==> Linked(f, k);
      assert c.terms.grantedBy in f.granted ==> f.rank[c.terms.grantedBy] < |st.order|;
    }
  }

  lemma RegisterKeeps(h: Hash, st: Store, c: Cap)
    requires Inv(h, st) && Fresh(st, c.terms.id) && c.terms.grantedBy == ROOT && c.ValidHash(h)
    ensures Inv(h, st.Put(c))
  {
    RegisterTree(st, c);
    PutConfined(st, c);
  }

  lemma RegisterTree(st: Store, c: Cap)
    requires Tree(st) && Fresh(st, c.terms.id) && c.terms.grantedBy == ROOT
    ensures Tree(st.Put(c))
  {
    PutIsForest(st, c);
  }

  lemma PutConfined(st: Store, c: Cap)
    requires Confined(st) && Fresh(st, c.terms.id)
    requires c.terms.grantedBy == ROOT || (c.terms.grantedBy in st.caps && Bounded(c, st.caps[c.terms.grantedBy]))
    ensures Confined(st.Put(c))
  {
    forall k | k in st.Put(c).caps ensures BoundedByParent(st.Put(c), k) {
      assert k in st.caps ==> BoundedByParent(st, k);
    }
  }

  /** A granted child is bounded by its parent. */
  lemma ChildBounded(h: Hash, now: nat, parent: Cap, r: Request, id: Id)
    requires Child(h, now, parent, r, id).Granted?
    ensures var c := Child(h, now, parent, r, id).value;
            Bounded(c, parent) && c.ValidHash(h) && c.terms.id == id && c.terms.grantedBy == parent.terms.id
            && !parent.revoked
  {
    var c := Child(h, now, parent, r, id).value;
    forall a | a in c.terms.actions ensures a in parent.terms.actions {
      assert a !in c.terms.actions - parent.terms.actions;
    }
  }

  lemma AttachRecorded(st: Store, parent: Id, c: Cap)
    requires Tree(st) && parent in st.caps && Fresh(st, c.terms.id) && c.terms.grantedBy == parent
    ensures Tree(st.Put(c).(parents := st.parents[c.terms.id := parent]))
  {
    PutIsForest(st, c);
    assert st.Put(c).(parents := st.parents[c.terms.id := parent]).Shape() == st.Put(c).Shape();
  }

  lemma AttachConfined(st: Store, parent: Id, c: Cap)
    requires Confined(st) && parent in st.caps && Fresh(st, c.terms.id)
    requires c.terms.grantedBy == parent && Bounded(c, st.caps[parent])
    ensures Confined(st.Put(c).(parents := st.parents[c.terms.id := parent]))
  {
    var st2 := st.Put(c).(parents := st.parents[c.terms.id := parent]);
    PutConfined(st, c);
    forall k | k in st2.caps ensures BoundedByParent(st2, k) {
      assert BoundedByParent(st.Put(c), k);
    }
  }

  lemma AttachKeeps(h: Hash, st: Store, parent: Id, c: Cap)
    requires Inv(h, st) && parent in st.caps && Fresh(st, c.terms.id)
    requires c.terms.grantedBy == parent && Bounded(c, st.caps[parent]) && c.ValidHash(h)
    ensures Inv(h, st.Put(c).(parents := st.parents[c.terms.id := parent]))
  {
    AttachRecorded(st, parent, c);
    AttachConfined(st, parent, c);
  }

  lemma PutTwice(st: Store, a: Cap, b: Cap)
    requires Fresh(st, a.terms.id) && a.terms.id == b.terms.id
    ensures st.Put(a).Put(b) == st.Put(b)
  {
  }

  lemma HandOverKeeps(h: Hash, st: Store, now: nat, parent: Id, r: Request, target: string, id: Id)
    requires Inv(h, st) && parent in st.caps && Fresh(st, id)
    requires Child(h, now, st.caps[parent], r, id).Granted?
    ensures var c := Child(h, now, st.caps[parent], r, id).value;
            Inv(h, st.Put(c).Put(Retenant(h, c, target)).(parents := st.parents[id := parent]))
  {
    var c := Child(h, now, st.caps[parent], r, id).value;
    ChildBounded(h, now, st.caps[parent], r, id);
    AttachKeeps(h, st, parent, Retenant(h, c, target));
    PutTwice(st, c, Retenant(h, c, target));
  }

  lemma DelegateKeeps(h: Hash, st: Store, now: nat, d: Delegation, rootId: Id, childId: Id)
    requires Inv(h, st) && Fresh(st, rootId) && Fresh(st, childId) && rootId != childId
    ensures Inv(h, Delegate(h, st, now, d, rootId, childId).0)
  {
    var found := FirstSource(h, st, now, d.source, d.actions, 0);
    var root := FreshRoot(h, now, d.source, d.actions, rootId);
    var base := if found.Some? then st else st.Put(root);
    var parent := if found.Some? then found.value else rootId;
    if found.None? {
      RegisterKeeps(h, st, root);
    }
    var r := Request(Some(d.domain), Some(d.actions), d.expiresIn);
    if Child(h, now, base.caps[parent], r, childId).Granted? {
      HandOverKeeps(h, base, now, parent, r, d.target, childId);
    }
  }

  lemma RevokeConfined(st: Store, id: Id)
    requires IsForest(st.Shape()) && Confined(st) && Recorded(st)
    ensures Confined(RevokeTree(st, id))
  {
    var which := Descendants(st.Shape(), id);
    forall k | k in st.caps ensures BoundedByParent(RevokeSet(st, which), k) {
      assert BoundedByParent(st, k) && Linked(st.Shape(), k);
      var p := st.caps[k].terms.grantedBy;
      assert p != ROOT && p in which ==> k in which;
    }
  }

  lemma RevokeKeeps(h: Hash, st: Store, id: Id)
    requires Inv(h, st)
    ensures Inv(h, RevokeTree(st, id))
  {
    RevokeConfined(st, id);
    TreeStays(st, Descendants(st.Shape(), id));
  }

  lemma StepKeeps(h: Hash, w: World, step: Step)
    requires Inv(h, w.store) && Allowed(h, w, step)
    ensures Inv(h, Next(h, w, step).store)
  {
    match step
    case Register(c) => RegisterKeeps(h, w.store, c);
    case Derive(parent, r, child) =>
      if Child(h, w.now, w.store.caps[parent], r, child).Granted? {
        ChildBounded(h, w.now, w.store.caps[parent], r, child);
        AttachKeeps(h, w.store, parent, Child(h, w.now, w.store.caps[parent], r, child).value);
      }
    case DelegateTo(d, rootId, childId) => DelegateKeeps(h, w.store, w.now, d, rootId, childId);
    case Revoke(id) => RevokeKeeps(h, w.store, id);
    case Tick(_) =>
  }

  // ----- runs -----

  ghost predicate Leads(h: Hash, w: World, step: Step, w2: World) {
    Inv(h, w.store) && Allowed(h, w, step) && w2 == Next(h, w, step)
  }

  /** A run: the empty registry, and one allowed step after the other. */
  ghost predicate Run(h: Hash, ws: seq<World>, steps: seq<Step>) {
    && |ws| == |steps| + 1 && ws[0].store == EMPTY
    && forall i | 0 <= i < |steps| :: Leads(h, ws[i], steps[i], ws[i + 1])
  }

  /** The invariant holds at every moment of every run, so every allowed step can be taken. */
  lemma {:induction false} RunKeeps(h: Hash, ws: seq<World>, steps: seq<Step>, i: nat)
    requires Run(h, ws, steps) && i < |ws|
    ensures Inv(h, ws[i].store)
  {
    if i > 0 {
      assert Leads(h, ws[i - 1], steps[i - 1], ws[i - 1 + 1]);
      StepKeeps(h, ws[i - 1], steps[i - 1]);
    }
  }

  lemma RunExtends(h: Hash, ws: seq<World>, steps: seq<Step>, step: Step)
    requires Run(h, ws, steps) && Allowed(h, ws[|steps|], step)
    ensures exists w :: Run(h, ws + [w], steps + [step])
  {
    RunKeeps(h, ws, steps, |steps|);
    var w := Next(h, ws[|steps|], step);
    assert Leads(h, ws[|steps|], step, w);
    var ws2, steps2 := ws + [w], steps + [step];
    forall i | 0 <= i < |steps2| ensures Leads(h, ws2[i], steps2[i], ws2[i + 1]) {
      if i < |steps| {
        assert Leads(h, ws[i], steps[i], ws[i + 1]);
      }
    }
  }

  // ----- confinement -----

  /** Rights shrink along the whole chain, and revocation spreads down it. */
  lemma {:induction false} BoundedByAncestors(h: Hash, st: Store, k: Id, a: Id)
    requires Inv(h, st) && k in st.caps && Under(st.Shape(), a, k)
    ensures a in st.caps && Bounded(st.caps[k], st.caps[a])
    decreases st.rank[k]
  {
    var f := st.Shape();
    var p := f.granted[k];
    assert Linked(f, k) && BoundedByParent(st, k);
    if a != k {
      assert a in Chain(f, p);
      BoundedByAncestors(h, st, p, a);
      assert Bounded(st.caps[k], st.caps[p]);
    }
  }

  /** At every moment of every run, an active capability has only active ancestors, and none of
      them has fewer rights or expires sooner. */
  lemma ActiveMeansAncestorsActive(h: Hash, ws: seq<World>, steps: seq<Step>, i: nat, k: Id, a: Id)
    requires Run(h, ws, steps) && i < |ws|
    requires Inv(h, ws[i].store) && k in ws[i].store.caps && Under(ws[i].store.Shape(), a, k)
    requires ws[i].store.caps[k].Active(h, ws[i].now)
    ensures a in ws[i].store.caps && ws[i].store.caps[a].Active(h, ws[i].now)
    ensures Bounded(ws[i].store.caps[k], ws[i].store.caps[a])
  {
    BoundedByAncestors(h, ws[i].store, k, a);
  }

  /** The child of a granted delegation: just what was asked for, in the target's hands. */
  ghost predicate Handed(h: Hash, st: Store, st2: Store, now: nat, d: Delegation, id: Id, c: Cap) {
    && c.terms == Terms(id, d.domain, d.actions, c.terms.grantedBy, now)
    && c.tenant == d.target && !c.revoked && c.proof == h(c.terms, d.target)
    && (c.expiresAt == 0 || now <= c.expiresAt)
    && id in st2.caps && st2.caps[id] == c && st2.parents == st.parents[id := c.terms.grantedBy]
  }

  lemma DelegateFromFound(h: Hash, st: Store, now: nat, d: Delegation, rootId: Id, childId: Id)
    requires Ordered(st) && Recorded(st) && Fresh(st, rootId) && Fresh(st, childId) && rootId != childId
    requires FirstSource(h, st, now, d.source, d.actions, 0).Some?
    ensures var (st2, out) := Delegate(h, st, now, d, rootId, childId);
            var p := FirstSource(h, st, now, d.source, d.actions, 0).value;
            && (out.Denied? <==> st.caps[p].terms.domain != "*" && st.caps[p].terms.domain != d.domain)
            && (out.Denied? ==> st2 == st && out.reason == ForeignDomain)
            && (out.Granted? ==>
                  && out.value.terms.grantedBy == p && st2.caps == st.caps[childId := out.value]
                  && st2.order == st.order + [childId] && Handed(h, st, st2, now, d, childId, out.value))
  {
    var p := FirstSource(h, st, now, d.source, d.actions, 0).value;
    ChildIsLargest(h, now, st.caps[p], Request(Some(d.domain), Some(d.actions), d.expiresIn), childId);
    assert d.actions - st.caps[p].terms.actions == {};
  }

  lemma DelegateFromNew(h: Hash, st: Store, now: nat, d: Delegation, rootId: Id, childId: Id)
    requires Ordered(st) && Fresh(st, rootId) && Fresh(st, childId) && rootId != childId
    requires FirstSource(h, st, now, d.source, d.actions, 0).None?
    ensures var (st2, out) := Delegate(h, st, now, d, rootId, childId);
            var t := Terms(rootId, "*", d.actions, ROOT, now);
            && out.Granted? && out.value.terms.grantedBy == rootId
            && st2.caps == st.caps[rootId := Cap(t, d.source, 0, h(t, d.source), false)][childId := out.value]
            && st2.order == st.order + [rootId, childId] && Handed(h, st, st2, now, d, childId, out.value)
  {
    var root := FreshRoot(h, now, d.source, d.actions, rootId);
    ChildIsLargest(h, now, root, Request(Some(d.domain), Some(d.actions), d.expiresIn), childId);
    assert d.actions - d.actions == {};
  }

  /** Delegation takes the first capability of the source tenant that can give the actions, in registry
      order. It is refused exactly when that one is for another domain, and then changes nothing. A
      new ROOT grant is made exactly when there is none. The child is granted by the capability so
      found or made, and nothing else changes. */
  ghost predicate Delegated(h: Hash, st: Store, st2: Store, now: nat, d: Delegation, rootId: Id, childId: Id,
      out: Outcome<Cap>)
    requires Inv(h, st)
  {
    && (out.Denied? ==> st2 == st && out.reason == ForeignDomain)
    && (out.Denied? <==> exists i | 0 <= i < |st.order| ::
          FirstToGive(h, st, now, d.source, d.actions, i)
          && st.caps[st.order[i]].terms.domain != "*" && st.caps[st.order[i]].terms.domain != d.domain)
    && (out.Granted? ==> Handed(h, st, st2, now, d, childId, out.value))
    && (forall i | 0 <= i < |st.order| && FirstToGive(h, st, now, d.source, d.actions, i) && out.Granted? ::
          && out.value.terms.grantedBy == st.order[i]
          && st2.order == st.order + [childId] && st2.caps == st.caps[childId := out.value])
    && ((forall i | 0 <= i < |st.order| :: !CanGive(h, st, now, d.source, d.actions, i)) ==>
          var t := Terms(rootId, "*", d.actions, ROOT, now);
          && out.Granted? && out.value.terms.grantedBy == rootId && st2.order == st.order + [rootId, childId]
          && st2.caps == st.caps[rootId := Cap(t, d.source, 0, h(t, d.source), false)][childId := out.value])
  }

  lemma DelegateGrants(h: Hash, st: Store, now: nat, d: Delegation, rootId: Id, childId: Id)
    requires Inv(h, st) && Fresh(st, rootId) && Fresh(st, childId) && rootId != childId
    ensures var (st2, out) := Delegate(h, st, now, d, rootId, childId);
            Delegated(h, st, st2, now, d, rootId, childId, out)
  {
    FirstSourceMeaning(h, st, now, d.source, d.actions, 0);
    if FirstSource(h, st, now, d.source, d.actions, 0).Some? {
      DelegateFromFound(h, st, now, d, rootId, childId);
    } else {
      DelegateFromNew(h, st, now, d, rootId, childId);
    }
  }

  // ----- revocation -----

  /** Revoking marks the capability and everything below it, and changes nothing else. */
  lemma RevokeReaches(h: Hash, w: World, id: Id)
    requires Inv(h, w.store)
    ensures var w2 := Next(h, w, Revoke(id));
            && w2.now == w.now && w2.store.order == w.store.order && w2.store.parents == w.store.parents
            && w2.store.caps.Keys == w.store.caps.Keys
            && forall d | d in w.store.caps ::
                 w2.store.caps[d] == if id in w.store.caps && Under(w.store.Shape(), id, d)
                                     then w.store.caps[d].(revoked := true) else w.store.caps[d]
  {
  }

  /** `k` is still there with all it had, and revoked if it was. */
  ghost predicate Kept(st: Store, st2: Store, k: Id)
    requires k in st.caps
  {
    && k in st2.caps && (st.caps[k].revoked ==> st2.caps[k].revoked)
    && st2.caps[k] == st.caps[k].(revoked := st2.caps[k].revoked)
  }

  lemma DelegateKeepsOld(h: Hash, st: Store, now: nat, d: Delegation, rootId: Id, childId: Id, k: Id)
    requires Ordered(st) && Fresh(st, rootId) && Fresh(st, childId) && rootId != childId && k in st.caps
    ensures Kept(st, Delegate(h, st, now, d, rootId, childId).0, k)
  {
  }

  /** No step makes a revoked capability unrevoked or forgets one, the rest of it stays the same, and
      the clock does not go back. */
  lemma StepKeepsRevoked(h: Hash, w: World, step: Step, k: Id)
    requires Inv(h, w.store) && Allowed(h, w, step) && k in w.store.caps
    ensures Kept(w.store, Next(h, w, step).store, k) && w.now <= Next(h, w, step).now
  {
    if step.DelegateTo? {
      DelegateKeepsOld(h, w.store, w.now, step.d, step.rootId, step.childId, k);
    }
  }

  /** No step moves a capability: its chain of grants stays what it was. */
  lemma StepKeepsChain(h: Hash, w: World, step: Step, k: Id)
    requires Inv(h, w.store) && Allowed(h, w, step) && k in w.store.caps
    requires Inv(h, Next(h, w, step).store)
    ensures k in Next(h, w, step).store.caps
    ensures Chain(Next(h, w, step).store.Shape(), k) == Chain(w.store.Shape(), k)
  {
    forall i | i in w.store.caps {
      StepKeepsRevoked(h, w, step, i);
    }
    ChainStays(w.store.Shape(), Next(h, w, step).store.Shape(), k);
  }

  lemma {:induction false} RunKeepsGrants(h: Hash, ws: seq<World>, steps: seq<Step>, i: nat, j: nat, k: Id)
    requires Run(h, ws, steps) && i <= j < |ws| && k in ws[i].store.caps
    ensures Kept(ws[i].store, ws[j].store, k) && ws[i].now <= ws[j].now
    decreases j
  {
    if i < j {
      RunKeepsGrants(h, ws, steps, i, j - 1, k);
      assert Leads(h, ws[j - 1], steps[j - 1], ws[j - 1 + 1]);
      StepKeepsRevoked(h, ws[j - 1], steps[j - 1], k);
    }
  }

  /** Once a capability is revoked, nothing below it is unrevoked at any later moment: neither what
      stood below it then, nor anything derived since. */
  lemma RevocationIsFinal(h: Hash, ws: seq<World>, steps: seq<Step>, i: nat, j: nat, k: Id, d: Id)
    requires Run(h, ws, steps) && i <= j < |ws| && k in ws[i].store.caps && ws[i].store.caps[k].revoked
    requires Inv(h, ws[j].store) && d in ws[j].store.caps && Under(ws[j].store.Shape(), k, d)
    ensures ws[j].store.caps[d].revoked && NothingDerived(h, ws[j], d)
  {
    RunKeepsGrants(h, ws, steps, i, j, k);
    BoundedByAncestors(h, ws[j].store, d, k);
    InactiveDerivesNothing(h, ws[j], d);
  }

  /** Every derivation from `d` is refused and leaves the registry as it is. */
  ghost predicate NothingDerived(h: Hash, w: World, d: Id)
    requires Inv(h, w.store)
  {
    forall r: Request, id: Id {:trigger Derive(d, r, id)} ::
      Allowed(h, w, Derive(d, r, id)) ==>
        Child(h, w.now, w.store.caps[d], r, id) == Denied(InactiveParent) && Next(h, w, Derive(d, r, id)) == w
  }

  lemma InactiveDerivesNothing(h: Hash, w: World, d: Id)
    requires Inv(h, w.store) && d in w.store.caps
    requires var c := w.store.caps[d]; c.revoked || (c.expiresAt != 0 && c.expiresAt < w.now)
    ensures NothingDerived(h, w, d)
  {
  }

  /** The moment the clock has passed a capability's expiry, everything below it has expired too, at
      that and every later moment, and nothing more can be derived from any of it. */
  lemma ExpiryIsFinal(h: Hash, ws: seq<World>, steps: seq<Step>, i: nat, j: nat, k: Id, d: Id)
    requires Run(h, ws, steps) && i <= j < |ws| && k in ws[i].store.caps
    requires ws[i].store.caps[k].expiresAt != 0 && ws[i].store.caps[k].expiresAt < ws[i].now
    requires Inv(h, ws[j].store) && d in ws[j].store.caps && Under(ws[j].store.Shape(), k, d)
    ensures ws[j].store.caps[d].expiresAt != 0
            && ws[j].store.caps[d].expiresAt <= ws[i].store.caps[k].expiresAt < ws[j].now
    ensures NothingDerived(h, ws[j], d)
  {
    RunKeepsGrants(h, ws, steps, i, j, k);
    BoundedByAncestors(h, ws[j].store, d, k);
    InactiveDerivesNothing(h, ws[j], d);
  }

  /** Registering again under an id in use is what the steps above exclude: it takes a revocation
      back, and leaves an active capability with a revoked parent. */
  lemma ReusedIdTakesBackRevocation(h: Hash)
    ensures exists st: Store, c: Cap ::
              && Inv(h, st) && c.terms.id in st.caps && st.caps[c.terms.id].revoked && c.ValidHash(h)
              && c.terms.grantedBy in st.caps
              && st.Put(c).caps[c.terms.grantedBy].revoked && st.Put(c).caps[c.terms.id].Active(h, 0)
  {
    var one, two := Token(1), Token(2);
    var a := MakeCap(h, Terms(one, "*", {}, ROOT, 0), "t", 0).(revoked := true);
    var b := MakeCap(h, Terms(two, "*", {}, one, 0), "t", 0).(revoked := true);
    var st := Store([one, two], map[one := 0, two := 1], map[one := a, two := b], map[two := one]);
    assert Linked(st.Shape(), one) && Linked(st.Shape(), two);
    assert BoundedByParent(st, one) && BoundedByParent(st, two);
    assert Inv(h, st);
    var c := b.(revoked := false);
    assert st.Put(c).caps[two].Active(h, 0);
  }
}
