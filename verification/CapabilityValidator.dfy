/** `Capability` and `CapabilityValidator` as objects that are updated in place. */
module CapabilityValidators {
  import opened Options
  import opened CapabilityTree
  import opened CapabilityRuns

  class Capability {
    const terms: Terms
    const expiresAt: int
    var tenantId: string
    var proofHash: string
    var revoked: bool

    constructor (h: Hash, terms: Terms, tenantId: string, expiresAt: int)
      ensures Value() == MakeCap(h, terms, tenantId, expiresAt)
      ensures this.terms == terms && this.tenantId == tenantId && this.expiresAt == expiresAt
      ensures proofHash == h(terms, tenantId) && !revoked
    {
      this.terms, this.tenantId, this.expiresAt := terms, tenantId, expiresAt;
      proofHash, revoked := h(terms, tenantId), false;
    }

    function Value(): Cap
      reads this
    {
      Cap(terms, tenantId, expiresAt, proofHash, revoked)
    }
  }

  datatype Derivation = Derivation(parent: Capability, child: Capability)

  class CapabilityValidator {
    const hash: Hash
    /** The keys of `registry` in the order they were first inserted. */
    var order: seq<Id>
    var registry: map<Id, Capability>
    var derivations: map<Id, Derivation>

    /** The registry as a value, kept up to date by every method. */
    ghost var state: Store
    ghost var Repr: set<Capability>

    /** The fields hold what `state` says, and objects are filed under their own ids. */
    ghost predicate Filed()
      reads this, Repr
    {
      && order == state.order && registry.Keys == state.caps.Keys && derivations.Keys == state.parents.Keys
      && (forall k :: k in registry ==>
            registry[k] in Repr && registry[k].terms.id == k && registry[k].Value() == state.caps[k])
      && (forall k :: k in derivations ==> derivations[k].parent.terms.id == state.parents[k])
    }

    /** The invariant of `CapabilityRuns`, for the stored objects. */
    ghost predicate Valid()
      reads this, Repr
    {
      Filed() && Inv(hash, state)
    }

    constructor (h: Hash)
      ensures Valid() && hash == h && state == EMPTY
    {
      hash, order, registry, derivations, state, Repr := h, [], map[], map[], EMPTY, {};
    }

    method Register(c: Capability)
      requires Filed()
      modifies this
      ensures Filed() && state == old(state).Put(c.Value())
      ensures registry == old(registry)[c.terms.id := c] && derivations == old(derivations)
      ensures order == if c.terms.id in old(registry) then old(order) else old(order) + [c.terms.id]
    {
      if c.terms.id !in registry {
        order := order + [c.terms.id];
      }
      registry := registry[c.terms.id := c];
      state, Repr := state.Put(c.Value()), Repr + {c};
    }

    /** What is authorised is authorised by the registered capability, and allowed by every
        capability above it. */
    method ValidateAction(c: Capability, action: string, tenant: string, now: nat) returns (ok: bool)
      requires Filed()
      ensures ok <==> && c.proofHash == hash(c.terms, c.tenantId) && !c.revoked
                      && (c.expiresAt == 0 || now <= c.expiresAt)
                      && (c.tenantId == tenant || c.tenantId == "*") && action in c.terms.actions
                      && c.terms.id in registry && !registry[c.terms.id].revoked
      ensures ok && Valid() && registry[c.terms.id] == c ==>
                forall a | a in state.caps && Under(state.Shape(), a, c.terms.id) ::
                  && action in state.caps[a].terms.actions && !state.caps[a].revoked
                  && (state.caps[a].expiresAt == 0 || now <= state.caps[a].expiresAt)
    {
      if c.proofHash != hash(c.terms, c.tenantId) { return false; }
      if !c.Value().Active(hash, now) { return false; }
      if c.tenantId != tenant && c.tenantId != "*" { return false; }
      if action !in c.terms.actions { return false; }
      ok := c.terms.id in registry && !registry[c.terms.id].revoked;
      if ok && Valid() && registry[c.terms.id] == c {
        forall a | a in state.caps && Under(state.Shape(), a, c.terms.id)
          ensures action in state.caps[a].terms.actions && state.caps[a].Active(hash, now)
        {
          BoundedByAncestors(hash, state, c.terms.id, a);
        }
      }
    }

    /** Derives a child from `parent`, which need not be registered here. `id` is the generated id. */
    method DeriveCapability(parent: Capability, r: Request, now: nat, id: Id) returns (out: Outcome<Capability>)
      requires Filed() && id !in registry
      modifies this
      ensures Filed()
      ensures match Child(hash, now, parent.Value(), r, id)
              case Denied(why) => out == Denied(why) && state == old(state) && registry == old(registry)
              case Granted(c) =>
                && out.Granted? && fresh(out.value) && out.value.Value() == c
                && registry == old(registry)[id := out.value] && out.value.terms.id == id
                && state == old(state).Put(c).(parents := old(state).parents[id := parent.terms.id])
      ensures out.Granted? <==>
                && !parent.revoked && (parent.expiresAt == 0 || now <= parent.expiresAt)
                && parent.proofHash == hash(parent.terms, parent.tenantId)
                && (r.domain.Some? && parent.terms.domain != "*" ==> r.domain.value == parent.terms.domain)
                && (r.actions.Some? ==> r.actions.value <= parent.terms.actions)
      ensures out == Denied(InactiveParent) <==>
                || parent.revoked || (parent.expiresAt != 0 && parent.expiresAt < now)
                || parent.proofHash != hash(parent.terms, parent.tenantId)
      ensures out == Denied(ForeignDomain) ==> parent.terms.domain != "*" && r.domain.Some?
      ensures out == Denied(ExcessActions) ==> r.actions.Some? && !(r.actions.value <= parent.terms.actions)
    {
      ChildIsLargest(hash, now, parent.Value(), r, id);
      if !parent.Value().Active(hash, now) {
        return Denied(InactiveParent);
      }
      var domain := if r.domain.Some? then r.domain.value else parent.terms.domain;
      if parent.terms.domain != "*" && parent.terms.domain != domain {
        return Denied(ForeignDomain);
      }
      var actions := if r.actions.Some? then r.actions.value else parent.terms.actions;
      if actions - parent.terms.actions != {} {
        return Denied(ExcessActions);
      }
      var expires := if r.expiresIn > 0 then now + r.expiresIn else 0;
      if parent.expiresAt > 0 && (expires == 0 || expires > parent.expiresAt) {
        expires := parent.expiresAt;
      }
      var child := new Capability(hash, Terms(id, domain, actions, parent.terms.id, now), parent.tenantId, expires);
      assert ChildTerms(hash, now, parent.Value(), r, id) == Granted(child.terms);
      Record(parent, child);
      out := Granted(child);
    }

    /** Files a new child and the derivation it came from. */
    method Record(parent: Capability, child: Capability)
      requires Filed() && child.terms.id !in registry
      modifies this
      ensures Filed() && registry == old(registry)[child.terms.id := child]
      ensures state == old(state).Put(child.Value()).(parents := old(state).parents[child.terms.id := parent.terms.id])
    {
      Register(child);
      derivations := derivations[child.terms.id := Derivation(parent, child)];
      state := state.(parents := state.parents[child.terms.id := parent.terms.id]);
    }

    /** Revokes the capability and everything derived from it, directly or not. */
    method RevokeCapability(id: Id) returns (found: bool)
      requires Filed() && Tree(state)
      modifies Repr`revoked, this`state
      ensures Filed() && Tree(state)
      ensures Repr == old(Repr) && registry == old(registry) && derivations == old(derivations) && order == old(order)
      ensures found <==> id in registry
      ensures state == if found then RevokeTree(old(state), id) else old(state)
      decreases if id in registry then |state.order| - state.rank[id] else 0
    {
      if id !in registry {
        return false;
      }
      ghost var st := state;
      ChildrenOf(st, id);
      TreeStays(st, {id});
      TreeStays(st, Descendants(st.Shape(), id));
      MarkRevoked(id);
      var children := set k | k in derivations && derivations[k].parent.terms.id == id;
      ghost var all, trail, start := children, [], state;
      assert forall c :: c in all <==> c in st.parents && st.parents[c] == id;
      assert forall c | c in all :: c in registry && st.rank[id] < st.rank[c] < |st.order|;
      while children != {}
        invariant forall c :: c in all <==> c in children || c in trail
        invariant Filed() && Tree(state) && state == Replay(start, trail)
        invariant state.order == st.order && state.rank == st.rank
        invariant Repr == old(Repr) && registry == old(registry)
        invariant derivations == old(derivations) && order == old(order)
      {
        var c :| c in children;
        ReplayStep(start, trail, c);
        var _ := RevokeCapability(c);
        trail := trail + [c];
        children := children - {c};
      }
      RevokedByParts(st, id, all, trail);
      found := true;
    }

    method MarkRevoked(id: Id)
      requires Filed() && id in registry
      modifies Repr`revoked, this`state
      ensures Filed() && state == RevokeSet(old(state), {id})
      ensures Repr == old(Repr) && registry == old(registry) && derivations == old(derivations) && order == old(order)
    {
      ghost var st := state;
      registry[id].revoked := true;
      state := RevokeSet(st, {id});
      forall k | k in registry
        ensures registry[k] in Repr && registry[k].terms.id == k && registry[k].Value() == state.caps[k]
      {
        assert k != id ==> registry[k] != registry[id];
      }
    }

    /** The derivation chain, from the earliest grant that can be reached down to `c`. */
    method CheckDerivationChain(c: Capability) returns (chain: seq<Capability>)
      requires Filed()
      ensures Climb(Reversed(chain)) && chain[|chain| - 1] == c && Finished(Reversed(chain))
      ensures Tree(state) && c in registry.Values ==>
                chain[0].terms.grantedBy == ROOT && Ids(Reversed(chain)) == Chain(state.Shape(), c.terms.id)
    {
      var up := [c];
      var current := c;
      var visited := {c.terms.id};
      while current.terms.grantedBy != ROOT
        invariant Climb(up) && up[0] == c && up[|up| - 1] == current
        invariant visited == set x | x in up :: x.terms.id
        decreases registry.Keys - visited
      {
        if current.terms.grantedBy !in registry {
          break;
        }
        var parent := registry[current.terms.grantedBy];
        if parent.terms.id in visited {
          break;
        }
        visited := visited + {parent.terms.id};
        ClimbOn(up);
        up := up + [parent];
        current := parent;
      }
      chain := Reversed(up);
      assert Reversed(chain) == up;
      if Tree(state) && c in registry.Values {
        FinishedObjects(up);
      }
    }

    lemma ClimbOn(up: seq<Capability>)
      requires Filed() && Climb(up) && up[|up| - 1].terms.grantedBy != ROOT && up[|up| - 1].terms.grantedBy in registry
      requires forall x | x in up :: x.terms.id != up[|up| - 1].terms.grantedBy
      ensures Climb(up + [registry[up[|up| - 1].terms.grantedBy]])
    {
      var more := up + [registry[up[|up| - 1].terms.grantedBy]];
      forall i: nat | i + 1 < |more| ensures ParentAt(more, i) {
        assert i + 1 < |up| ==> ParentAt(up, i);
      }
    }

    /** The climb met ROOT, an unknown id, or an id it has seen. */
    ghost predicate Finished(up: seq<Capability>)
      requires |up| > 0
      reads this
    {
      var next := up[|up| - 1].terms.grantedBy;
      next == ROOT || next !in registry || exists x :: x in up && x.terms.id == next
    }

    /** Each capability is granted by the next, and none comes twice. */
    ghost predicate Climb(up: seq<Capability>)
      reads this
    {
      && |up| > 0
      && (forall i, j | 0 <= i < j < |up| :: up[i].terms.id != up[j].terms.id)
      && (forall i: nat {:trigger ParentAt(up, i)} | i + 1 < |up| :: ParentAt(up, i))
    }

    ghost predicate ParentAt(up: seq<Capability>, i: nat)
      requires i + 1 < |up|
      reads this
    {
      up[i].terms.grantedBy != ROOT && up[i].terms.grantedBy in registry && up[i + 1] == registry[up[i].terms.grantedBy]
    }

    lemma ObjectsClimb(up: seq<Capability>)
      requires Filed() && Tree(state) && Climb(up) && up[0] in registry.Values
      ensures Climbs(state.Shape(), Ids(up))
      ensures forall i | 0 <= i < |up| :: state.Shape().granted[Ids(up)[i]] == up[i].terms.grantedBy
    {
      var f, ids := state.Shape(), Ids(up);
      forall i | 0 <= i < |up|
        ensures ids[i] in f.granted && f.granted[ids[i]] == up[i].terms.grantedBy
      {
        if i > 0 {
          assert ParentAt(up, i - 1);
        }
      }
      forall i: nat | i + 1 < |ids| ensures GrantedByNext(f, ids, i) {
        assert ParentAt(up, i);
      }
    }

    lemma FinishedObjects(up: seq<Capability>)
      requires Filed() && Tree(state) && Climb(up) && up[0] in registry.Values && Finished(up)
      ensures Ids(up) == Chain(state.Shape(), up[0].terms.id) && up[|up| - 1].terms.grantedBy == ROOT
    {
      var f, ids := state.Shape(), Ids(up);
      ObjectsClimb(up);
      FinishedClimbIsChain(f, ids);
      ChainIsPath(f, ids[0]);
    }
  }

  /** The `delegate_capability` branch of the admin handler. `rootId` and `childId` are generated. */
  method DelegateCapability(v: CapabilityValidator, d: Delegation, now: nat, rootId: Id, childId: Id)
    returns (out: Outcome<Capability>)
    requires v.Filed() && Ordered(v.state)
    requires Fresh(v.state, rootId) && Fresh(v.state, childId) && rootId != childId
    modifies v
    ensures v.Filed()
    ensures v.state == Delegate(v.hash, old(v.state), now, d, rootId, childId).0
    ensures match Delegate(v.hash, old(v.state), now, d, rootId, childId).1
            case Denied(why) => out == Denied(why)
            case Granted(c) => out.Granted? && out.value.Value() == c && v.registry[childId] == out.value
    ensures old(v.Valid()) ==> v.Valid()
    ensures old(v.Valid()) ==> Delegated(v.hash, old(v.state), v.state, now, d, rootId, childId, Values(out))
  {
    ghost var st, inv := v.state, Inv(v.hash, v.state);
    var parent := FindOrCreateSource(v, d.source, d.actions, now, rootId);
    out := v.DeriveCapability(parent, Request(Some(d.domain), Some(d.actions), d.expiresIn), now, childId);
    if out.Granted? {
      HandOver(v, out.value, d.target);
    }
    if inv {
      DelegateGrants(v.hash, st, now, d, rootId, childId);
      DelegateKeeps(v.hash, st, now, d, rootId, childId);
    }
  }

  /** The first active capability of the tenant with all the actions, or a new ROOT grant. */
  method FindOrCreateSource(v: CapabilityValidator, tenant: string, actions: set<string>, now: nat, rootId: Id)
    returns (parent: Capability)
    requires v.Filed() && Ordered(v.state) && Fresh(v.state, rootId)
    modifies v
    ensures v.Filed() && v.registry.Keys <= old(v.registry.Keys) + {rootId}
    ensures parent.terms.id in v.state.caps && parent.Value() == v.state.caps[parent.terms.id]
    ensures var found := FirstSource(v.hash, old(v.state), now, tenant, actions, 0);
            if found.Some? then v.state == old(v.state) && parent.Value() == v.state.caps[found.value]
            else parent.Value() == FreshRoot(v.hash, now, tenant, actions, rootId)
                 && v.state == old(v.state).Put(parent.Value())
    ensures forall i | 0 <= i < |old(v.order)| && FirstToGive(v.hash, old(v.state), now, tenant, actions, i) ::
              parent == old(v.registry[v.order[i]]) && v.registry == old(v.registry)
    ensures (forall i | 0 <= i < |old(v.order)| :: !CanGive(v.hash, old(v.state), now, tenant, actions, i)) ==>
              && fresh(parent) && parent.terms == Terms(rootId, "*", actions, ROOT, now) && parent.expiresAt == 0
              && parent.tenantId == tenant && v.registry == old(v.registry)[rootId := parent]
  {
    FirstSourceMeaning(v.hash, v.state, now, tenant, actions, 0);
    for i := 0 to |v.order|
      invariant FirstSource(v.hash, v.state, now, tenant, actions, 0)
             == FirstSource(v.hash, v.state, now, tenant, actions, i)
    {
      var cap := v.registry[v.order[i]];
      if cap.tenantId == tenant && cap.Value().Active(v.hash, now) && actions <= cap.terms.actions {
        return cap;
      }
    }
    parent := new Capability(v.hash, Terms(rootId, "*", actions, ROOT, now), tenant, 0);
    v.Register(parent);
  }

  /** Overrides the tenant of a registered capability and renews its hash. */
  method HandOver(v: CapabilityValidator, child: Capability, tenant: string)
    requires v.Filed() && child.terms.id in v.registry && v.registry[child.terms.id] == child
    modifies v`state, child`tenantId, child`proofHash
    ensures v.Filed() && v.registry == old(v.registry)
    ensures child.Value() == Retenant(v.hash, old(child.Value()), tenant)
    ensures v.state == old(v.state).Put(child.Value())
  {
    child.tenantId := tenant;
    child.proofHash := v.hash(child.terms, child.tenantId);
    v.state := v.state.Put(child.Value());
    forall k | k in v.registry ensures v.registry[k].Value() == v.state.caps[k] {
      assert k != child.terms.id ==> v.registry[k] != child;
    }
  }

  function Values(out: Outcome<Capability>): Outcome<Cap>
    reads if out.Granted? then {out.value} else {}
  {
    match out
    case Denied(why) => Denied(why)
    case Granted(c) => Granted(c.Value())
  }

  function Ids(caps: seq<Capability>): seq<Id> {
    seq(|caps|, i requires 0 <= i < |caps| => caps[i].terms.id)
  }

  function Reversed<T>(s: seq<T>): seq<T> {
    seq(|s|, i requires 0 <= i < |s| => s[|s| - 1 - i])
  }
}
