/** Capabilities as values: the registry with its insertion order, the derivation tree, and the
    operations of `CapabilityValidator` as functions from one registry to the next. */
module CapabilityTree {

  import opened Options
  import opened Sequences

  /** A capability id: a generated token, or the reserved granter "ROOT". */
  datatype Id = ROOT | Token(number: nat)

  /** The fields that are fixed when a capability is made and that the integrity hash covers. */
  datatype Terms = Terms(id: Id, domain: string, actions: set<string>, grantedBy: Id, grantedAt: int)

  /** The hash is any deterministic function of the terms and the tenant. */
  type Hash = (Terms, string) -> string

  datatype Cap = Cap(terms: Terms, tenant: string, expiresAt: int, proof: string, revoked: bool) {
    predicate ValidHash(h: Hash) { proof == h(terms, tenant) }

    /** An expiry of 0 means never. */
    predicate Expired(now: nat) { expiresAt != 0 && now > expiresAt }

    predicate Active(h: Hash, now: nat) { !revoked && !Expired(now) && ValidHash(h) }
  }

  // ----- the tree -----

  /** Who granted what, and when the registry met each id: its position in insertion order. */
  datatype Forest = Forest(rank: map<Id, nat>, granted: map<Id, Id>)

  /** The granter of `k`, unless it is ROOT, is registered and was registered earlier. */
  ghost predicate Linked(f: Forest, k: Id)
    requires k in f.granted && f.rank.Keys == f.granted.Keys
  {
    f.granted[k] != ROOT ==> f.granted[k] in f.granted && f.rank[f.granted[k]] < f.rank[k]
  }

  ghost predicate IsForest(f: Forest) {
    && f.rank.Keys == f.granted.Keys
    && ROOT !in f.granted
    && (forall k {:trigger Linked(f, k)} :: k in f.granted ==> Linked(f, k))
  }

  /** From `k` up to the capability granted by ROOT. */
  ghost function Chain(f: Forest, k: Id): (c: seq<Id>)
    requires IsForest(f) && k in f.granted
    ensures |c| > 0 && c[0] == k
    decreases f.rank[k]
  {
    assert Linked(f, k);
    if f.granted[k] == ROOT then [k] else [k] + Chain(f, f.granted[k])
  }

  /** The chain is linked by `granted`, ends at a ROOT grant, and repeats nothing. */
  lemma {:induction false} ChainIsPath(f: Forest, k: Id)
    requires IsForest(f) && k in f.granted
    ensures var c := Chain(f, k);
            && (forall i | 0 <= i < |c| :: c[i] in f.granted && f.rank[c[i]] <= f.rank[k])
            && Climbs(f, c) && f.granted[c[|c| - 1]] == ROOT
            && (forall i, j | 0 <= i < j < |c| :: c[i] != c[j])
    decreases f.rank[k]
  {
    assert Linked(f, k);
    if f.granted[k] != ROOT {
      ChainIsPath(f, f.granted[k]);
      forall i: nat | i + 1 < |Chain(f, k)| ensures GrantedByNext(f, Chain(f, k), i) {
        if i > 0 {
          assert GrantedByNext(f, Chain(f, f.granted[k]), i - 1);
        }
      }
    }
  }

  /** Each id is granted by the next. */
  ghost predicate Climbs(f: Forest, ids: seq<Id>) {
    && |ids| > 0
    && (forall i | 0 <= i < |ids| :: ids[i] in f.granted)
    && (forall i: nat {:trigger GrantedByNext(f, ids, i)} | i + 1 < |ids| :: GrantedByNext(f, ids, i))
  }

  ghost predicate GrantedByNext(f: Forest, ids: seq<Id>, i: nat)
    requires i + 1 < |ids| && ids[i] in f.granted
  {
    f.granted[ids[i]] == ids[i + 1] != ROOT
  }

  lemma {:induction false} ClimbIsEarlier(f: Forest, ids: seq<Id>, i: nat)
    requires IsForest(f) && Climbs(f, ids) && i < |ids|
    ensures f.rank[ids[|ids| - 1]] <= f.rank[ids[i]]
    decreases |ids| - i
  {
    if i < |ids| - 1 {
      ClimbIsEarlier(f, ids, i + 1);
      assert Linked(f, ids[i]) && GrantedByNext(f, ids, i);
    }
  }

  /** A climb that can go no further, because it met ROOT, an unknown id or an id it has seen, is
      the whole chain: in a forest it met ROOT. */
  lemma {:induction false} FinishedClimbIsChain(f: Forest, ids: seq<Id>)
    requires IsForest(f) && Climbs(f, ids)
    requires var next := f.granted[ids[|ids| - 1]]; next == ROOT || next !in f.granted || next in ids
    ensures ids == Chain(f, ids[0])
  {
    var last := ids[|ids| - 1];
    assert Linked(f, last);
    if f.granted[last] != ROOT && f.granted[last] in ids {
      var i :| 0 <= i < |ids| && ids[i] == f.granted[last];
      ClimbIsEarlier(f, ids, i);
      assert false;
    }
    ClimbToRootIsChain(f, ids);
  }

  lemma {:induction false} ClimbToRootIsChain(f: Forest, ids: seq<Id>)
    requires IsForest(f) && Climbs(f, ids) && f.granted[ids[|ids| - 1]] == ROOT
    ensures ids == Chain(f, ids[0])
  {
    if |ids| > 1 {
      forall i: nat | i + 1 < |ids[1..]| ensures GrantedByNext(f, ids[1..], i) {
        assert GrantedByNext(f, ids, i + 1);
      }
      assert GrantedByNext(f, ids, 0);
      ClimbToRootIsChain(f, ids[1..]);
    }
  }

  ghost predicate Under(f: Forest, a: Id, d: Id)
    requires IsForest(f) && d in f.granted
  {
    a in Chain(f, d)
  }

  /** Below `a` means being `a` or below one of its children. */
  lemma {:induction false} UnderByChildren(f: Forest, a: Id, d: Id)
    requires IsForest(f) && d in f.granted && a != ROOT
    ensures Under(f, a, d) <==> d == a || exists c :: c in f.granted && f.granted[c] == a && Under(f, c, d)
    decreases f.rank[d]
  {
    assert Linked(f, d);
    var p := f.granted[d];
    if p != ROOT {
      UnderByChildren(f, a, p);
      forall c | c in f.granted && f.granted[c] == a && Under(f, c, d) ensures c == d || Under(f, c, p) {}
      if p == a {
        assert Under(f, d, d);
      }
    } else if d != a {
      forall c | c in f.granted && Under(f, c, d) ensures f.granted[c] != a {
        assert c == d;
      }
    }
  }

  /** A chain depends only on the grants along it. */
  lemma {:induction false} ChainStays(f: Forest, g: Forest, k: Id)
    requires IsForest(f) && IsForest(g) && k in f.granted
    requires forall i | i in f.granted :: i in g.granted && g.granted[i] == f.granted[i]
    ensures Chain(g, k) == Chain(f, k)
    decreases f.rank[k]
  {
    assert Linked(f, k);
    if f.granted[k] != ROOT {
      ChainStays(f, g, f.granted[k]);
    }
  }

  // ----- the registry -----

  /** `parents` maps each derived capability to the parent its derivation records. */
  datatype Store = Store(order: seq<Id>, rank: map<Id, nat>, caps: map<Id, Cap>, parents: map<Id, Id>)
  {
    function Shape(): Forest { Forest(rank, map k | k in caps :: caps[k].terms.grantedBy) }

    function Put(c: Cap): Store {
      var id := c.terms.id;
      if id in caps then this.(caps := caps[id := c])
      else Store(order + [id], rank[id := |order|], caps[id := c], parents)
    }
  }

  const EMPTY: Store := Store([], map[], map[], map[])

  /** `order` lists the ids, `rank` their positions in it. */
  ghost predicate Ordered(st: Store) {
    && (forall i | 0 <= i < |st.order| :: st.order[i] in st.caps)
    && (forall k | k in st.rank :: st.rank[k] < |st.order|)
  }

  predicate DomainWithin(child: string, parent: string) { parent == "*" || parent == child }

  predicate ExpiryWithin(child: int, parent: int) { parent == 0 || (child != 0 && child <= parent) }

  /** What a derivation asks for; None keeps the parent's value. */
  datatype Request = Request(domain: Option<string>, actions: Option<set<string>>, expiresIn: int)

  datatype Denial = InactiveParent | ForeignDomain | ExcessActions
  datatype Outcome<+T> = Granted(value: T) | Denied(reason: Denial)

  function ChildExpiry(parent: int, expiresIn: int, now: nat): int {
    var wanted := if expiresIn > 0 then now + expiresIn else 0;
    if parent > 0 && (wanted == 0 || wanted > parent) then parent else wanted
  }

  function MakeCap(h: Hash, terms: Terms, tenant: string, expiresAt: int): Cap {
    Cap(terms, tenant, expiresAt, h(terms, tenant), false)
  }

  /** What the child is to be allowed, or the reason `derive_capability` refuses. */
  function ChildTerms(h: Hash, now: nat, parent: Cap, r: Request, id: Id): Outcome<Terms> {
    var domain := if r.domain.Some? then r.domain.value else parent.terms.domain;
    var actions := if r.actions.Some? then r.actions.value else parent.terms.actions;
    if !parent.Active(h, now) then Denied(InactiveParent)
    else if parent.terms.domain != "*" && parent.terms.domain != domain then Denied(ForeignDomain)
    else if actions - parent.terms.actions != {} then Denied(ExcessActions)
    else Granted(Terms(id, domain, actions, parent.terms.id, now))
  }

  /** The child that `derive_capability` makes. */
  function Child(h: Hash, now: nat, parent: Cap, r: Request, id: Id): Outcome<Cap> {
    match ChildTerms(h, now, parent, r, id)
    case Denied(why) => Denied(why)
    case Granted(t) => Granted(MakeCap(h, t, parent.tenant, ChildExpiry(parent.expiresAt, r.expiresIn, now)))
  }

  /** A child is granted exactly when the parent is unrevoked, unexpired and intact and covers what is
      asked, and it lives as long as both the parent and the request allow. */
  lemma ChildIsLargest(h: Hash, now: nat, parent: Cap, r: Request, id: Id)
    ensures Child(h, now, parent, r, id).Granted? <==>
              && !parent.revoked && (parent.expiresAt == 0 || now <= parent.expiresAt)
              && parent.proof == h(parent.terms, parent.tenant)
              && (r.domain.Some? && parent.terms.domain != "*" ==> r.domain.value == parent.terms.domain)
              && (r.actions.Some? ==> r.actions.value <= parent.terms.actions)
    ensures Child(h, now, parent, r, id).Granted? ==>
              var c := Child(h, now, parent, r, id).value;
              && c.terms.id == id && c.terms.grantedBy == parent.terms.id && c.terms.grantedAt == now
              && c.terms.domain == (if r.domain.Some? then r.domain.value else parent.terms.domain)
              && c.terms.actions == (if r.actions.Some? then r.actions.value else parent.terms.actions)
              && c.tenant == parent.tenant && !c.revoked && c.proof == h(c.terms, c.tenant)
              && (c.expiresAt == 0 <==> parent.expiresAt == 0 && r.expiresIn <= 0)
              && (c.expiresAt == 0 || now <= c.expiresAt)
              && forall e :: ExpiryWithin(e, c.expiresAt) <==>
                   ExpiryWithin(e, parent.expiresAt) && (r.expiresIn > 0 ==> ExpiryWithin(e, now + r.expiresIn))
  {
    if r.actions.Some? {
      var excess := r.actions.value - parent.terms.actions;
      forall a | excess == {} && a in r.actions.value ensures a in parent.terms.actions {
        assert a !in excess;
      }
    } else {
      assert parent.terms.actions - parent.terms.actions == {};
    }
  }

  function Derive(h: Hash, st: Store, now: nat, parent: Id, r: Request, id: Id): Outcome<Store>
    requires parent in st.caps
  {
    match Child(h, now, st.caps[parent], r, id)
    case Denied(why) => Denied(why)
    case Granted(c) => Granted(st.Put(c).(parents := st.parents[id := parent]))
  }

  /** The capabilities in `which` revoked, nothing else touched. */
  function RevokeSet(st: Store, which: set<Id>): Store {
    st.(caps := map d | d in st.caps :: if d in which then st.caps[d].(revoked := true) else st.caps[d])
  }

  lemma RevokeSetTwice(st: Store, a: set<Id>, b: set<Id>)
    ensures RevokeSet(RevokeSet(st, a), b) == RevokeSet(st, a + b)
    ensures RevokeSet(st, a).Shape() == st.Shape()
  {
  }

  /** `id` and everything derived from it, directly or not. */
  ghost function Descendants(f: Forest, id: Id): set<Id>
    requires IsForest(f)
  {
    set d | d in f.granted && Under(f, id, d)
  }

  ghost function RevokeTree(st: Store, id: Id): Store
    requires IsForest(st.Shape())
  {
    RevokeSet(st, Descendants(st.Shape(), id))
  }

  /** `id` and everything below the children in `done`. */
  ghost function Visited(f: Forest, id: Id, done: set<Id>): set<Id>
    requires IsForest(f)
  {
    {id} + set d | d in f.granted && exists c :: c in done && Under(f, c, d)
  }

  lemma VisitedStep(f: Forest, id: Id, done: set<Id>, c: Id)
    requires IsForest(f)
    ensures Visited(f, id, {}) == {id}
    ensures Visited(f, id, done + {c}) == Visited(f, id, done) + Descendants(f, c)
  {
  }

  /** Once all children have been visited, the visited ones are exactly the descendants. */
  lemma VisitedAll(f: Forest, id: Id, children: set<Id>)
    requires IsForest(f) && id in f.granted
    requires forall c :: c in children <==> c in f.granted && f.granted[c] == id
    ensures Visited(f, id, children) == Descendants(f, id)
  {
    forall d | d in f.granted ensures d in Visited(f, id, children) <==> d in Descendants(f, id) {
      UnderByChildren(f, id, d);
    }
  }

  // ----- delegation -----

  /** The first active capability of the tenant, in registry order, that has all the actions. */
  function FirstSource(h: Hash, st: Store, now: nat, tenant: string, actions: set<string>, from: nat): (r: Option<Id>)
    requires Ordered(st)
    ensures r.Some? ==> r.value in st.caps && st.caps[r.value].tenant == tenant
                        && st.caps[r.value].Active(h, now) && actions <= st.caps[r.value].terms.actions
    decreases |st.order| - from
  {
    if from >= |st.order| then None
    else
      var c := st.caps[st.order[from]];
      if c.tenant == tenant && c.Active(h, now) && actions <= c.terms.actions then Some(st.order[from])
      else FirstSource(h, st, now, tenant, actions, from + 1)
  }

  function FreshRoot(h: Hash, now: nat, tenant: string, actions: set<string>, id: Id): Cap {
    MakeCap(h, Terms(id, "*", actions, ROOT, now), tenant, 0)
  }

  function Retenant(h: Hash, c: Cap, tenant: string): Cap {
    c.(tenant := tenant, proof := h(c.terms, tenant))
  }

  datatype Delegation = Delegation(source: string, target: string, domain: string, actions: set<string>, expiresIn: int)

  /** `delegate_capability`: find or create a source, derive from it, hand the child to the target.
      The store is returned on refusal too: a created root stays registered. */
  function Delegate(h: Hash, st: Store, now: nat, d: Delegation, rootId: Id, childId: Id): (Store, Outcome<Cap>)
    requires Ordered(st)
  {
    var found := FirstSource(h, st, now, d.source, d.actions, 0);
    var base := if found.Some? then st else st.Put(FreshRoot(h, now, d.source, d.actions, rootId));
    var parent := if found.Some? then found.value else rootId;
    match Child(h, now, base.caps[parent], Request(Some(d.domain), Some(d.actions), d.expiresIn), childId)
    case Denied(why) => (base, Denied(why))
    case Granted(c) =>
      var handed := Retenant(h, c, d.target);
      (base.Put(c).Put(handed).(parents := base.parents[childId := parent]), Granted(handed))
  }

  /** The `i`th registered capability belongs to the tenant, is unrevoked, unexpired and intact, and
      has all the actions. */
  ghost predicate CanGive(h: Hash, st: Store, now: nat, tenant: string, actions: set<string>, i: nat)
    requires Ordered(st) && i < |st.order|
  {
    var c := st.caps[st.order[i]];
    && c.tenant == tenant && actions <= c.terms.actions
    && !c.revoked && (c.expiresAt == 0 || now <= c.expiresAt) && c.proof == h(c.terms, c.tenant)
  }

  ghost predicate FirstToGive(h: Hash, st: Store, now: nat, tenant: string, actions: set<string>, i: nat)
    requires Ordered(st) && i < |st.order|
  {
    CanGive(h, st, now, tenant, actions, i) && forall j | 0 <= j < i :: !CanGive(h, st, now, tenant, actions, j)
  }

  /** The search finds nothing exactly when no registered capability can give, and otherwise the first
      in registry order that can. */
  lemma {:induction false} FirstSourceMeaning(h: Hash, st: Store, now: nat, tenant: string, actions: set<string>,
      from: nat)
    requires Ordered(st)
    requires forall j | 0 <= j < from && j < |st.order| :: !CanGive(h, st, now, tenant, actions, j)
    ensures var r := FirstSource(h, st, now, tenant, actions, from);
            && (r.None? <==> forall i | 0 <= i < |st.order| :: !CanGive(h, st, now, tenant, actions, i))
            && (r.Some? ==> exists i ::
                  0 <= i < |st.order| && st.order[i] == r.value && FirstToGive(h, st, now, tenant, actions, i))
            && (forall i | 0 <= i < |st.order| && FirstToGive(h, st, now, tenant, actions, i) ::
                  r == Some(st.order[i]))
    decreases |st.order| - from
  {
    if from < |st.order| {
      if CanGive(h, st, now, tenant, actions, from) {
        assert FirstToGive(h, st, now, tenant, actions, from);
      } else {
        FirstSourceMeaning(h, st, now, tenant, actions, from + 1);
      }
    }
  }

  // ----- what every step keeps -----

  /** Derivations record exactly the grants that are not ROOT grants. */
  ghost predicate Recorded(st: Store) {
    && (forall k | k in st.caps :: st.caps[k].terms.id == k)
    && (forall k :: k in st.parents <==> k in st.caps && st.caps[k].terms.grantedBy != ROOT)
    && (forall k | k in st.parents :: st.parents[k] == st.caps[k].terms.grantedBy)
  }

  /** A child has no more rights than its parent, and is revoked when its parent is. */
  ghost predicate Confined(st: Store) {
    forall k {:trigger BoundedByParent(st, k)} :: k in st.caps ==> BoundedByParent(st, k)
  }

  ghost predicate BoundedByParent(st: Store, k: Id)
    requires k in st.caps
  {
    var p := st.caps[k].terms.grantedBy;
    p != ROOT ==> p in st.caps && Bounded(st.caps[k], st.caps[p])
  }

  ghost predicate Bounded(child: Cap, parent: Cap) {
    && child.terms.actions <= parent.terms.actions
    && DomainWithin(child.terms.domain, parent.terms.domain)
    && ExpiryWithin(child.expiresAt, parent.expiresAt)
    && (parent.revoked ==> child.revoked)
  }

  /** The part of the invariant that speaks of the tree alone. */
  ghost predicate Tree(st: Store) {
    Ordered(st) && IsForest(st.Shape()) && Recorded(st)
  }

  lemma TreeStays(st: Store, which: set<Id>)
    requires Tree(st)
    ensures Tree(RevokeSet(st, which))
  {
    assert RevokeSet(st, which).Shape() == st.Shape();
  }

  /** One revocation after the other. */
  ghost function Replay(st: Store, trail: seq<Id>): (r: Store)
    requires Tree(st)
    ensures Tree(r)
    decreases |trail|
  {
    if trail == [] then st
    else
      var before := Replay(st, trail[..|trail| - 1]);
      TreeStays(before, Descendants(before.Shape(), trail[|trail| - 1]));
      RevokeTree(before, trail[|trail| - 1])
  }

  lemma ReplayStep(st: Store, trail: seq<Id>, c: Id)
    requires Tree(st)
    ensures Replay(st, trail + [c]) == RevokeTree(Replay(st, trail), c)
  {
    assert (trail + [c])[..|trail|] == trail;
  }

  lemma ElementsStep(trail: seq<Id>, c: Id)
    ensures Elements(trail + [c]) == Elements(trail) + {c}
  {
  }

  lemma ReplayOneMore(st: Store, id: Id, init: seq<Id>, c: Id)
    requires Tree(st) && Tree(RevokeSet(st, {id}))
    requires Replay(RevokeSet(st, {id}), init) == RevokeSet(st, Visited(st.Shape(), id, Elements(init)))
    ensures Replay(RevokeSet(st, {id}), init + [c]) == RevokeSet(st, Visited(st.Shape(), id, Elements(init + [c])))
  {
    var f := st.Shape();
    ReplayStep(RevokeSet(st, {id}), init, c);
    VisitedStep(f, id, Elements(init), c);
    RevokeSetTwice(st, Visited(f, id, Elements(init)), Descendants(f, c));
    ElementsStep(init, c);
  }

  lemma {:induction false} ReplayChildren(st: Store, id: Id, trail: seq<Id>)
    requires Tree(st) && Tree(RevokeSet(st, {id}))
    ensures Replay(RevokeSet(st, {id}), trail) == RevokeSet(st, Visited(st.Shape(), id, Elements(trail)))
    decreases |trail|
  {
    var f := st.Shape();
    if trail == [] {
      VisitedStep(f, id, {}, id);
      assert Elements(trail) == {};
    } else {
      var init, c := trail[..|trail| - 1], trail[|trail| - 1];
      ReplayChildren(st, id, init);
      ReplayOneMore(st, id, init, c);
      assert trail == init + [c];
    }
  }

  /** Revoking `id` and then each child's tree is revoking the tree of `id`. */
  lemma RevokedByParts(st: Store, id: Id, children: set<Id>, trail: seq<Id>)
    requires Tree(st) && id in st.caps && Tree(RevokeSet(st, {id}))
    requires forall c :: c in children <==> c in st.parents && st.parents[c] == id
    requires forall c :: c in children <==> c in trail
    ensures Replay(RevokeSet(st, {id}), trail) == RevokeTree(st, id)
  {
    ChildrenOf(st, id);
    ReplayChildren(st, id, trail);
    SameElements(children, trail);
    VisitedAll(st.Shape(), id, children);
  }

  lemma SameElements(children: set<Id>, trail: seq<Id>)
    requires forall c :: c in children <==> c in trail
    ensures Elements(trail) == children
  {
  }

  /** What revocation needs to know of the children of `id`. */
  lemma ChildrenOf(st: Store, id: Id)
    requires Tree(st) && id in st.caps
    ensures st.rank.Keys == st.caps.Keys && st.rank[id] < |st.order|
    ensures forall c :: c in st.parents && st.parents[c] == id <==> c in st.caps && st.caps[c].terms.grantedBy == id
    ensures forall c | c in st.parents && st.parents[c] == id :: st.rank[id] < st.rank[c] < |st.order|
  {
    forall c | c in st.parents && st.parents[c] == id ensures st.rank[id] < st.rank[c] {
      assert Linked(st.Shape(), c);
    }
  }

  ghost predicate Inv(h: Hash, st: Store) {
    && Tree(st) && Confined(st)
    && (forall k | k in st.caps :: st.caps[k].ValidHash(h))
  }
}
