# Verified models of the cognitive engine graph service

This project states and proves, in Dafny 4.11, properties of the parts of the repository that carry the most
state and the most arithmetic. Each module models one component; `dafny verify dfyconfig.toml` checks them all.

## What is modelled

- **The Cypher linter** (`tools/cypher_lint.py`). `CypherTree` walks the syntax tree: parents, lexical scopes, the
  nodes that belong to a function itself. `CypherAst` and `CypherRules` hold the expressions and the two
  judgements, "validated" and "raw". `CypherFixpoint` is the `while changed` loop over a module, with its tuple
  targets that are marked one name at a time. `CypherTheorems` relates the result to finite derivations: the
  validated facts are the least set closed under the rules, whatever the order of visits, and a sibling function
  certifies nothing. `CypherRaw` does the same for raw values: a finite derivation from reads of the domain spec.
  `CypherSoundness` gives expressions a semantics in which every piece of text knows where it came from, and
  proves that with consistent facts a validated expression never evaluates to foreign text: consistent when all
  bindings of a marked name, not only the one that marked it, are validated, and nothing hides it where Python
  looks names up. `CypherLimits` shows, one program for each condition, that some validated expression carries
  foreign text when just that one is missed. `CypherVerdict` is the classification of the interpolations of one
  f-string.
- **Capabilities** (`engine/auth/capabilities.py`, and the delegation branch of `engine/handlers.py`).
  `CapabilityTree` has the registry and the derivation tree as values, `CapabilityRuns` the runs of register, derive,
  delegate, revoke and clock steps, `CapabilityValidator` the objects that are updated in place. Revocation is
  recursive, and is proved to end and to revoke exactly the subtree, by the order in which the registry met the ids.
- **The domain-spec cache** (`engine/config/loader.py`): `DomainCache` has the cache and the disk with its history.
- **The audit buffers** (`engine/compliance/audit.py`, `chassis/audit.py`): `AuditBuffer` and `AuditSinks` model
  tasks that switch only at `await`, with any number of flushes under way and any of them failing.
- **Redaction** (`engine/compliance/pii.py`): `PiiPayload` and `PiiRedaction` relate detection and removal over nested
  payloads and their dotted path strings.
- **Ranking quality and score normalization** (`engine/handlers.py`): `Ranking`, `Scores`.
- **Autonomy metrics** (`agents/cursor/gmp_meta_learning.py`): `Correlation` and `Autonomy`.
- **Fingerprints and drift** (`engine/diagnostics/`): `Fingerprints`, `Drift`.
- **Counterfactuals and attribution** (`engine/causal/`): `Counterfactual`, `Attribution`.
- **HTTP/1.0 responses** (`agents/cursor/_safe_http.py`): `HttpResponse`, against the message form of section 6 of
  RFC 1945.

`Options`, `Sequences`, `Blanks`, `RealArithmetic`, `MapSums`, `Rounding` and `Counting` are shared helpers.
Arithmetic is over exact reals; `round` is a function with an error of at most half a unit, and square root,
logarithm and exponential are functions of which only the facts that are used are required.

## Where the code is not what its documentation says

- The linter's promise that validated text is safe is defeated by: a second, unvalidated binding of a name or `self`
  attribute; a parameter that shadows or is reassigned; a comprehension target, read outside of its comprehension; a
  default value, or a lambda in one, which Python reads in the scope around the function; an assignment to `self`, or
  a class field of the name of an attribute; two functions of one name; a plain call of a builtin that shares its name
  with a method or nested function; an inherited method that shares its name with a function; a method of another
  object with the name of a validated function or of a sanitizer; a function or a variable called like a sanitizer or
  cast; a function called `join`; an attribute that hides a method; a dict key; a format specifier (`CypherLimits`).
- Redacting the detected fields is complete exactly when the path string of some detected leaf, split at its dots,
  leads to or above every detected leaf (`PiiRedaction.RedactionCompleteExactly`). What goes wrong are keys with a dot
  in them, and an empty key at the top of a longer path: further down empty keys do no harm.
- The chassis audit logger drops a batch when it has no sinks, and delivers twice on a retry with two or more.
- A domain file whose spec changes without a newer modification time is served stale
  (`DomainCache.CurrentExactlyWhenRising` has the exact condition).
- Attribution weights do not add up to one when a touchpoint comes twice (`Attribution.ExactCreditIsOneExactly`).
- On an empty metrics table perfect updates raise, until an imperfect one creates the row
  (`Autonomy.TableStartsImperfect`).
- The reported autonomy level can be L4 while the stored level is L2 (`Autonomy.ReportedLevelSkipsAhead`).
- The fingerprint vector has no fixed length, and compares dimensions by position instead of by name: fingerprints
  with equally many dimensions can be at distance zero, whatever these are (`Drift.CanCompareEqualExactly`).
- Score normalization leaves equal scores as they are, inside [0, 1] or not.
- NDCG can exceed one when a relevant id is returned more often than the ideal ranking counts it
  (`Ranking.NdcgAboveOne`).
- A negative Content-Length is accepted and cuts the end of the body; one that is longer than the body is not
  noticed (`HttpResponse.LengthHonouredExactly`).
- A dimension listed twice by one winner can have a counterfactual confidence above one.

## Model

| member | source | states |
|---|---|---|
| `CypherTree.BuildParents` | tools/cypher_lint.py:202-205 | the map holds the parent of every node but the module, and nothing else |
| `CypherTree.OwnNodes` | tools/cypher_lint.py:160-167 | the stack walk ends and yields, each once, exactly the nodes below the root with no function, lambda or class between |
| `CypherTree.ScopeOf` | tools/cypher_lint.py:231-238 | the climb finds the nearest enclosing scope other than the node itself, and the module for the module |
| `CypherTree.ScopeParent` | tools/cypher_lint.py:210-216 | the parent given to a function scope is that same nearest enclosing scope |
| `CypherTree.OwnExactly` | tools/cypher_lint.py:258-260 | a node is met in the walk of a function exactly when that function is its scope and no class lies between |
| `CypherTree.ChainIsEnclosing` | tools/cypher_lint.py:181-185 | the scopes a name is looked up in are exactly the function and the scopes that contain it |
| `CypherTree.SiblingsDoNotSee` | tools/cypher_lint.py:191-194 | of two functions neither of which contains the other, neither looks names up in the other |
| `CypherTree.ScopeParentComesFirst` | tools/cypher_lint.py:206-216 | in the order of the walk every scope but the module has its parent before it |
| `CypherAst.EnclosesMeaning` | tools/cypher_lint.py:181-185 | the scopes a name is looked up in are exactly those that following parents leads to |
| `CypherAst.AtomsMeaning` | tools/cypher_lint.py:266-280 | what can be marked in a target are the names and `self` attributes standing in it, at any depth of tuples and lists |
| `CypherRules.SafeTransfer` | tools/cypher_lint.py:288-327 | the validated judgement depends only on visible names, attributes and functions, and grows with them, across modules too |
| `CypherRules.SafeMonotone` | tools/cypher_lint.py:288-327 | more facts validate more expressions |
| `CypherRules.RawMonotone` | tools/cypher_lint.py:331-358 | more raw marks and fewer validated functions make more expressions raw |
| `CypherFixpoint.MarkFirstMeaning` | tools/cypher_lint.py:278-279 | one pass over a tuple target marks the first name in it that was not marked, and none exactly when all were |
| `CypherFixpoint.ModuleFacts.Mark` | tools/cypher_lint.py:266-280 | marking a target adds the first unmarked name or `self` attribute in it, left to right, and says whether there was one |
| `CypherFixpoint.ModuleFacts.VisitSafe` | tools/cypher_lint.py:245-247 | a validated value marks its target, only with justified marks, and reports a change exactly when there is one |
| `CypherFixpoint.ModuleFacts.VisitRaw` | tools/cypher_lint.py:248-249 | the same for a raw value; RawIffDerivable says what raw means |
| `CypherFixpoint.ModuleFacts.VisitFunction` | tools/cypher_lint.py:255-264 | a function all of whose own returns are validated, with at least one, becomes validated |
| `CypherFixpoint.ModuleFacts.SweepScope` | tools/cypher_lint.py:244-254 | the bindings of a scope in turn; without a change all of them are closed |
| `CypherFixpoint.ModuleFacts.Sweep` | tools/cypher_lint.py:243-264 | one round, in any order of scopes and functions, reports a change exactly when the facts changed; without a change they are closed under every rule |
| `CypherFixpoint.ModuleFacts.Fixpoint` | tools/cypher_lint.py:240-264 | whatever order scopes and functions are visited in, the loop ends, in the least facts closed under the rules, with raw facts closed for the final functions |
| `CypherFixpoint.ModuleFacts.constructor` | tools/cypher_lint.py:198-229 | a module starts from no facts and ends in the least closed ones |
| `CypherTheorems.SafeIffDerivable` | tools/cypher_lint.py:34-41 | after the fixpoint an expression is validated exactly when a finite derivation from the rules exists |
| `CypherTheorems.OrderIndependent` | tools/cypher_lint.py:245-254 | two lists of the same bindings and functions, in any order and with any repetitions, have the same least validated facts |
| `CypherTheorems.ScopeIsolation` | tools/cypher_lint.py:191-196 | modules that agree from a scope up, and in attributes and functions, validate the same expressions there, so a sibling binding certifies nothing |
| `CypherTheorems.LeastRawExists` | tools/cypher_lint.py:331-358 | for any validated functions there are least raw facts closed under the rules |
| `CypherTheorems.RawBetween` | tools/cypher_lint.py:248-254 | the final raw facts lie between two least closures, which exist: the one for the final functions and the one for no functions |
| `CypherTheorems.RawExact` | tools/cypher_lint.py:341-349 | they are the least closure when no validated function is called get, pop, strip, lower, upper or str |
| `CypherTheorems.RecordedBindingsMark` | tools/cypher_lint.py:244-254 | assignments and loops alike mark their targets when their values are validated or raw |
| `CypherRaw.WalksMeaning` | tools/cypher_lint.py:369-383 | the two walks along a dotted expression find its leftmost name, and a root of the domain spec wherever it stands |
| `CypherRaw.RawIffDerivable` | tools/cypher_lint.py:331-358 | with the least raw facts an expression is raw exactly when a finite derivation from reads of the domain spec exists |
| `CypherRaw.FinalRawBetween` | tools/cypher_lint.py:248-254 | after the fixpoint what is derivable with the final functions is raw, and what is raw is derivable with none |
| `CypherRaw.SpecReadIsRaw` | tools/cypher_lint.py:335-337 | a dotted read of the domain spec is raw and not validated, whatever has been marked |
| `CypherSoundness.ValidatedIsClean` | tools/cypher_lint.py:34-41 | with consistent facts every evaluation of an expression that is validated and plain in the scope where Python reads it is made of literals, sanitizer results and numbers |
| `CypherSoundness.DerivedIsClean` | tools/cypher_lint.py:288-327 | the same for what a derivation from the rules validates |
| `CypherSoundness.BoundOnceIsConsistent` | tools/cypher_lint.py:187-196 | the final facts are consistent when scopes are those of Python, names and attributes are bound once, functions have different names, and validated values are plain |
| `CypherLimits.RebindingBetrays` | tools/cypher_lint.py:195-196 | a name that is also bound to an unvalidated value: validated, yet it can hold foreign text |
| `CypherLimits.ShadowingBetrays` | tools/cypher_lint.py:283-284 | a parameter shadowing an outer name: validated inside, yet foreign |
| `CypherLimits.ParameterBetrays` | tools/cypher_lint.py:195-196 | a parameter that is also assigned: validated, yet foreign before the assignment |
| `CypherLimits.ComprehensionBetrays` | tools/cypher_lint.py:225-226 | a comprehension target is validated in the whole function, yet outside of the comprehension the name is the foreign one of the module |
| `CypherLimits.DefaultValueBetrays` | tools/cypher_lint.py:231-238 | a default value is validated in its function, yet Python reads it in the scope around, where it is foreign |
| `CypherLimits.DefaultLambdaBetrays` | tools/cypher_lint.py:210-216 | so it is with the body of a lambda in a default value |
| `CypherLimits.AttributeRebindingBetrays` | tools/cypher_lint.py:293-294 | a `self` attribute that is also assigned an unvalidated value: validated, yet it can be foreign |
| `CypherLimits.SelfRebindingBetrays` | tools/cypher_lint.py:293-294 | once self is assigned to, a validated attribute of it can be one of any object |
| `CypherLimits.ClassFieldBetrays` | tools/cypher_lint.py:293-294 | a validated `self` attribute can be the foreign one of the class body |
| `CypherLimits.TwoFunctionsBetray` | tools/cypher_lint.py:255-264 | two functions of one name: a call of it is validated as soon as one of them is, yet foreign from the other |
| `CypherLimits.BuiltinNamesakeBetrays` | tools/cypher_lint.py:296-298 | a method or nested function called like a builtin: a plain call of that name is validated, yet it is one of the builtin, and foreign |
| `CypherLimits.InheritedBetrays` | tools/cypher_lint.py:296-298 | a module function validates the call of a method of its name that is inherited from elsewhere |
| `CypherLimits.CallableAttributeBetrays` | tools/cypher_lint.py:296-298 | a self attribute that hides a method of the same name: its call is validated, yet foreign |
| `CypherLimits.OwnSanitizerBetrays` | tools/cypher_lint.py:296-300 | a module function called like a sanitizer or cast is validated whatever it returns |
| `CypherLimits.ReboundSanitizerBetrays` | tools/cypher_lint.py:296-300 | so is any value that was bound to the name of a sanitizer or cast |
| `CypherLimits.SanitizerNamesakeBetrays` | tools/cypher_lint.py:296-298 | so is any method that is called like a sanitizer |
| `CypherLimits.OwnJoinBetrays` | tools/cypher_lint.py:297-308 | a module function called join makes every join call validated |
| `CypherLimits.NamesakeBetrays` | tools/cypher_lint.py:296-298 | a method of another object that shares the name of a validated function is validated, yet foreign |
| `CypherLimits.DictionaryKeyBetrays` | tools/cypher_lint.py:322-324 | a loop over a dict display yields its keys, which nobody checks |
| `CypherLimits.FormatSpecifierBetrays` | tools/cypher_lint.py:310-313 | the format specifier of an f-string part is not looked at |
| `CypherVerdict.ScanParts` | tools/cypher_lint.py:513-535 | the findings on one f-string are, in order, exactly the interpolations that are refused after the literal before them; an interpolated dotted read of the domain spec in the position of a fragment is always among them |
| `CypherVerdict.AcceptedByRole` | tools/cypher_lint.py:17-32 | an interpolation is accepted exactly as the table of roles says |
| `CypherVerdict.BeforeMeaning` | tools/cypher_lint.py:513-535 | the text an interpolation is judged by is the last literal before it, and empty when an interpolation stands between |
| `CypherVerdict.ReportedByRole` | tools/cypher_lint.py:467-494 | each kind of finding, exactly by the characters before the interpolation and the two judgements |
| `CypherVerdict.SpecReadIsReported` | tools/cypher_lint.py:491-493 | in the position of a fragment a dotted read of the domain spec is reported as raw in every module |
| `CypherVerdict.SpecFilterIsReported` | tools/cypher_lint.py:491-493 | so is the one in MATCH (n) {spec.filter} |
| `CypherVerdict.NoFindingsMeansClean` | tools/cypher_lint.py:467-494 | with consistent facts an interpolation without finding is neither quoted nor a page bound, and as an identifier its text is always clean, if it is validated in the scope where Python reads it |
| `CapabilityTree.ChainIsPath` | engine/auth/capabilities.py:276-293 | the chain of grants from a capability ends at a ROOT grant, is linked, and repeats nothing |
| `CapabilityTree.FinishedClimbIsChain` | engine/auth/capabilities.py:282-290 | a climb that can go no further is that whole chain |
| `CapabilityTree.ChildIsLargest` | engine/auth/capabilities.py:214-248 | a child is granted exactly when the parent is unrevoked, unexpired, intact and covers the request; it has what was asked and lives as long as parent and request allow |
| `CapabilityTree.VisitedAll` | engine/auth/capabilities.py:268-272 | visiting all children visits all descendants and nothing else |
| `CapabilityTree.RevokedByParts` | engine/auth/capabilities.py:266-274 | revoking a capability and then each child in any order is revoking the whole subtree at once |
| `CapabilityTree.FirstSourceMeaning` | engine/handlers.py:873-878 | the search finds nothing exactly when no registered capability can give, and otherwise the first in registry order that can, as conditions on the fields |
| `CapabilityRuns.StepKeeps` | engine/auth/capabilities.py:180-274 | register, derive, delegate, revoke and clock steps keep the registry a forest with confined rights |
| `CapabilityRuns.RunKeeps` | engine/auth/capabilities.py:176-274 | so does every run from the empty registry |
| `CapabilityRuns.RunExtends` | engine/auth/capabilities.py:176-274 | every allowed step can be taken at the end of every run |
| `CapabilityRuns.BoundedByAncestors` | engine/auth/capabilities.py:214-240 | actions, domain and expiry are bounded by those of every ancestor, and a revoked ancestor means revoked |
| `CapabilityRuns.ActiveMeansAncestorsActive` | engine/auth/capabilities.py:124-130 | in every run an active capability has only active ancestors, none with fewer rights or an earlier expiry |
| `CapabilityRuns.DelegateGrants` | engine/handlers.py:873-899 | delegation takes the first capability of the source tenant that is unrevoked, unexpired, intact and has the actions; it is refused exactly when that one is for another domain, and then changes nothing; a ROOT grant is made exactly when there is none; the child is granted by the one found or made, has what was asked, and nothing else changes |
| `CapabilityRuns.StepKeepsRevoked` | engine/auth/capabilities.py:260-274 | no step takes a revocation back, forgets a capability or changes any other part of it, and the clock does not go back |
| `CapabilityRuns.StepKeepsChain` | engine/auth/capabilities.py:276-293 | no step changes the chain of a registered capability |
| `CapabilityRuns.RevokeReaches` | engine/auth/capabilities.py:260-274 | a revocation marks the capability and everything below it, and changes nothing else |
| `CapabilityRuns.RevocationIsFinal` | engine/auth/capabilities.py:260-274 | once revoked, nothing below is unrevoked at any later moment, including what is derived later, and nothing can be derived from any of it |
| `CapabilityRuns.ExpiryIsFinal` | engine/auth/capabilities.py:124-130 | once the clock has passed the expiry of a capability, everything below it has expired at that and every later moment, and nothing more can be derived from any of it |
| `CapabilityRuns.ReusedIdTakesBackRevocation` | engine/auth/capabilities.py:180-182 | registering an id again takes a revocation back: why ids must be fresh |
| `CapabilityValidators.Capability.constructor` | engine/auth/capabilities.py:106-119 | a new capability is unrevoked and carries the hash of its own fields |
| `CapabilityValidators.CapabilityValidator.constructor` | engine/auth/capabilities.py:176-178 | the registry starts empty and valid |
| `CapabilityValidators.CapabilityValidator.Register` | engine/auth/capabilities.py:180-182 | files the capability under its id, in place of an earlier one, and changes nothing else |
| `CapabilityValidators.CapabilityValidator.ValidateAction` | engine/auth/capabilities.py:184-202 | authorised exactly when hash, revocation, expiry, tenant, action and registered copy allow it, each as a condition on the fields; and then every capability above allows the action, unrevoked and unexpired |
| `CapabilityValidators.CapabilityValidator.DeriveCapability` | engine/auth/capabilities.py:204-258 | grants exactly when the parent is unrevoked, unexpired, intact and covers the request, files the child and its derivation, and otherwise changes nothing; InactiveParent is the reason exactly for a revoked, expired or altered parent |
| `CapabilityValidators.CapabilityValidator.RevokeCapability` | engine/auth/capabilities.py:260-274 | the recursion ends and revokes exactly the target and all its descendants, whatever the order of children |
| `CapabilityValidators.CapabilityValidator.CheckDerivationChain` | engine/auth/capabilities.py:276-293 | a linked path without repetition that ends in the argument; for a registered capability of a reachable registry it is the whole chain from the ROOT grant |
| `CapabilityValidators.FindOrCreateSource` | engine/handlers.py:872-887 | the first registered capability of the tenant, in registry order, that is unrevoked, unexpired, intact and has all the actions; a new ROOT grant for all domains exactly when there is none |
| `CapabilityValidators.HandOver` | engine/handlers.py:897-899 | the tenant is overridden and the hash renewed; the registry is otherwise unchanged |
| `CapabilityValidators.DelegateCapability` | engine/handlers.py:863-899 | the whole branch does the delegation of the value model, keeps the invariant, and grants or refuses as DelegateGrants says |
| `DomainCache.DomainPackLoader.constructor` | engine/config/loader.py:82-88 | the cache starts empty |
| `DomainCache.DomainPackLoader.LoadDomain` | engine/config/loader.py:90-116 | new cache and result in every case: disabled, missing, live, refreshed, unreadable, evicting, stored |
| `DomainCache.DomainPackLoader.OldestKey` | engine/config/loader.py:111 | a key with the smallest stamp |
| `DomainCache.DomainPackLoader.Invalidate` | engine/config/loader.py:118-124 | a named id is gone and every other entry as before; an absent or empty id leaves nothing |
| `DomainCache.DomainPackLoader.Peek` | engine/config/loader.py:126-147 | the two lookups of the asynchronous load answer without loading exactly when disabled or younger than the time to live, then with the cached spec |
| `DomainCache.StepKeeps` | engine/config/loader.py:90-124 | loads, lookups, invalidations, any disk writes and time keep every entry the parse of some version that was read, and, where modification times rise, of one that was on disk at its stamp; and the bound |
| `DomainCache.RunKeeps` | engine/config/loader.py:90-124 | so does every run from an empty cache |
| `DomainCache.LoadIsCurrent` | engine/config/loader.py:97-116 | where modification times rise with every change of the spec, a load returns the parse of content that was on disk less than one time to live earlier, or at its end |
| `DomainCache.PeekIsCurrent` | engine/config/loader.py:130-146 | so does a lookup that needs no load |
| `DomainCache.BoundedAndEvictsOldest` | engine/config/loader.py:110-112 | never more entries than the maximum; a load evicts at most one entry, with an oldest stamp, and only for a new id |
| `DomainCache.LoadFillsCache` | engine/config/loader.py:99-116 | the result is cached under its id, stamped at the end unless served live, and serves later lookups for one time to live |
| `DomainCache.LoadsExactlyWithRoom` | engine/config/loader.py:110-112 | a readable uncached file loads exactly when the maximum is at least one; otherwise evicting from an empty cache fails |
| `DomainCache.LoadOutcomes` | engine/config/loader.py:90-116 | exactly when a load ends disabled, not found, unreadable or without room, with the cache unchanged; and whether it serves the cached spec or the parsed file |
| `DomainCache.FirstLoadAfterDrop` | engine/config/loader.py:97-124 | in every run the first load of an id after its invalidation returns the parse of the file then on disk, or its error, whatever the time to live and modification time |
| `DomainCache.CurrentExactlyWhenRising` | engine/config/loader.py:97-116 | for any sequence of files written to an id: all loads in all runs that write it are current exactly when the modification time rises with every change of the spec, or the cache has no room |
| `DomainCache.StaleRun` | engine/config/loader.py:102-104 | otherwise this run has a stale load: load, write on, wait one time to live, load again |
| `DomainCache.RewoundMtimeServesStale` | engine/config/loader.py:102-104 | a file put back with an older modification time is served stale for any length of time |
| `AuditBuffer.AuditLogger.constructor` | engine/compliance/audit.py:380-394 | the buffer starts empty |
| `AuditBuffer.AuditLogger.Emit` | engine/compliance/audit.py:380-394 | appends the entry |
| `AuditBuffer.AuditLogger.Flush` | engine/compliance/audit.py:297-302 | hands the whole buffer to the caller and empties it |
| `AuditBuffer.AuditLogger.TakeBatch` | engine/compliance/audit.py:323-328 | takes the whole buffer out before the first await |
| `AuditBuffer.AuditLogger.FinishBatch` | engine/compliance/audit.py:361-372 | a failed insert puts the batch before what was emitted since; a success counts it |
| `AuditBuffer.StepConserves` | engine/compliance/audit.py:310-372 | every step keeps emitted entries equal to stored, drained, in-flight and buffered ones |
| `AuditBuffer.NothingLostOrDoubled` | engine/compliance/audit.py:310-372 | in any interleaving of emits, overlapping flushes with failures and drains, the entries balance with repetition, and returned counts add up to what is stored |
| `AuditBuffer.StoredAtMostOnce` | engine/compliance/audit.py:310-372 | entries emitted once are stored at most once |
| `AuditBuffer.OneFlusherKeepsOrder` | engine/compliance/audit.py:364-368 | with one flusher at a time store, batch and buffer concatenate to emission order, whatever fails |
| `AuditBuffer.TwoFlushersCanReorder` | engine/compliance/audit.py:364-368 | with two flushers a later entry can be stored while an earlier one is buffered again |
| `AuditBuffer.OrderKeptExactly` | engine/compliance/audit.py:364-368 | all runs with at most k flushes at a time keep the order of emission exactly when k is at most one |
| `AuditSinks.AuditLogger.constructor` | chassis/audit.py:230-242 | no entries, nothing delivered |
| `AuditSinks.AuditLogger.Emit` | chassis/audit.py:326-329 | appends the entry |
| `AuditSinks.AuditLogger.Offer` | chassis/audit.py:307-313 | one sink takes the batch, or the whole batch goes back before the buffer |
| `AuditSinks.AuditLogger.Flush` | chassis/audit.py:296-314 | the sinks before the first refusal have the batch and the others not; a refusal re-buffers everything and raises; the flush is a path of the model's steps |
| `AuditSinks.RunKeeps` | chassis/audit.py:296-314 | at every moment of every run with a sink, emitted entries are pending or at every sink |
| `AuditSinks.DeliveredAtLeastOnce` | chassis/audit.py:296-314 | an emitted entry that is not pending has reached every sink, and sinks hold only what was emitted |
| `AuditSinks.AccountedExactlyWithSinks` | chassis/audit.py:305-314 | entries are accounted for in all runs exactly when there is a sink: without one a flush drops its batch |
| `AuditSinks.SingleSinkIsExact` | chassis/audit.py:296-314 | with one sink nothing is delivered twice |
| `AuditSinks.RetryDeliversTwice` | chassis/audit.py:309-313 | with two or more sinks a retry can deliver an entry to the first sink twice |
| `AuditSinks.AtMostOnceExactly` | chassis/audit.py:300-313 | nothing is delivered more often than it was emitted, in any run, exactly when there are fewer than two sinks |
| `PiiPayload.RedactAtEffect` | engine/compliance/pii.py:318-325 | removing a path takes away the leaves at and below it and no others |
| `PiiPayload.RedactAtKeepsDicts` | engine/compliance/pii.py:318-325 | nested dicts elsewhere stay |
| `PiiPayload.SplitJoin` | engine/compliance/pii.py:314 | splitting a joined key path gives it back exactly when no key contains a dot |
| `PiiPayload.PathIsJoin` | engine/compliance/pii.py:164-168 | the path string that detection builds is the joined path, but for empty keys at the start that another key follows |
| `PiiPayload.SplitPath` | engine/compliance/pii.py:314 | splitting the path string gives the key path back exactly when no key contains a dot and no empty key stands first before another |
| `PiiRedaction.FirstHintMeaning` | engine/compliance/pii.py:171-183 | the first hint in the table that the lowered key contains decides |
| `PiiRedaction.ContainsMeaning` | engine/compliance/pii.py:173 | a hint is in the key exactly when it stands at some position of it |
| `PiiRedaction.FirstPatternMeaning` | engine/compliance/pii.py:185-201 | the first pattern in the table that is found in the text decides |
| `PiiRedaction.FlagMeaning` | engine/compliance/pii.py:171-201 | hints come before patterns, patterns only count for text values, and nothing is detected exactly when neither is found |
| `PiiRedaction.DetectPii` | engine/compliance/pii.py:153-203 | the recursive loops report what the specification detects, in order |
| `PiiRedaction.FlagLeaf` | engine/compliance/pii.py:171-201 | one leaf: nothing exactly when its lowered key has no hint and no pattern is found in a text value; the first hint decides, without one the first pattern found |
| `PiiRedaction.DetectExactly` | engine/compliance/pii.py:153-211 | a detection is reported exactly when it is the path string of a leaf with the category, sensitivity and source that the first hint, else the first pattern, gives it |
| `PiiRedaction.DetectInOrder` | engine/compliance/pii.py:153-203 | what comes first in the payload is reported first |
| `PiiRedaction.Redact` | engine/compliance/pii.py:295-316 | the fields named, or the detected ones, are removed one after the other |
| `PiiRedaction.RedactAllEffect` | engine/compliance/pii.py:313-316 | what remains is every leaf that no removed path leads to or above |
| `PiiRedaction.SurvivesExactly` | engine/compliance/pii.py:306-316 | after redacting the detected fields a leaf is gone exactly when some detected path, split at its dots, leads to it or above it |
| `PiiRedaction.DotFreeRemovesExactly` | engine/compliance/pii.py:306-325 | with dot-free detected paths, none of several keys below an empty key at the top, exactly the detected leaves are gone |
| `PiiRedaction.RedactionCompleteExactly` | engine/compliance/pii.py:295-325 | for any payload, redacting the detected fields leaves nothing to detect exactly when the path string of some detected leaf, split at its dots, leads to or above every detected leaf |
| `PiiRedaction.CompleteExactlyWhenDotFree` | engine/compliance/pii.py:295-325 | without detected leaves below an empty key at the top: exactly when no detected path has a key with a dot |
| `PiiRedaction.DotFreeCompleteExactly` | engine/compliance/pii.py:295-325 | without dotted keys: exactly when no detected leaf lies below an empty key at the top, or some detected path consists of empty keys |
| `PiiRedaction.EmptyTopSurvivesExactly` | engine/compliance/pii.py:164 | without dotted keys a detected leaf below an empty key at the top survives exactly when no detected path consists of empty keys |
| `PiiRedaction.DotFreeKeepsDicts` | engine/compliance/pii.py:318-325 | and then no nested dict disappears |
| `PiiRedaction.EmptyKeyDefeatsRedaction` | engine/compliance/pii.py:164 | a payload whose one leaf lies below an empty key at the top is not changed by its redaction |
| `Ranking.EvaluateCase` | engine/handlers.py:1602-1617 | the loops compute precision, recall and NDCG of one case |
| `Ranking.Evaluate` | engine/handlers.py:1567-1638 | totals and averages over the cases that are not skipped |
| `Ranking.QualityMeaning` | engine/handlers.py:1602-1617 | precision is the share of the returned that is relevant, recall the share of the expected that was returned, NDCG the share of the ideal gain |
| `Ranking.SingleHitGain` | engine/handlers.py:1610-1613 | one relevant id gains the discount of its rank, counted from 1 |
| `Ranking.TotalsAddUp` | engine/handlers.py:1619-1621 | the totals of two lists of cases add up |
| `Ranking.TotalsOfOne` | engine/handlers.py:1567-1600 | a case counts unless it has no labels or raised, and one alone is averaged to its own measures |
| `Ranking.F1Meaning` | engine/handlers.py:1638 | F1 is the harmonic mean |
| `Ranking.GainBound` | engine/handlers.py:1610-1613 | the gain is at most that of as many relevant ids at the top, and equal exactly when they are at the top |
| `Ranking.MeasuresInUnit` | engine/handlers.py:1602-1617 | without repeated relevant ids all three measures lie in [0, 1] |
| `Ranking.NdcgOneExactly` | engine/handlers.py:1609-1617 | NDCG is 1 exactly when as many leading positions as there are expected ids, or k if that is fewer, are all relevant |
| `Ranking.NdcgBoundedExactly` | engine/handlers.py:1609-1617 | the gain stays within the ideal for every discount exactly when no more relevant ids are returned than the ideal counts |
| `Ranking.NdcgAboveOne` | engine/handlers.py:1609-1617 | for every discount, the one of the code included, NDCG exceeds one when the top holds one relevant id more than the ideal counts |
| `Ranking.RepeatedIdExceedsOne` | engine/handlers.py:1609-1617 | so it does when the only relevant id is returned twice |
| `Ranking.F1Between` | engine/handlers.py:1638 | F1 lies between the smaller and the larger of precision and recall |
| `Ranking.ReportInUnit` | engine/handlers.py:1634-1638 | the reported averages lie in [0, 1] |
| `Scores.Normalize` | engine/handlers.py:566-584 | the loop rescales scores in place and reports the raw minimum and maximum |
| `Scores.NormalisedMeaning` | engine/handlers.py:571-581 | each score ends within half a unit of its share of the way from the lowest to the highest; equal scores and rows without a score stay, but for a single dictionary |
| `Scores.NormalisedInUnitExactly` | engine/handlers.py:571-581 | scores end in [0, 1] exactly when they differed, or one dictionary stands alone, or they were there before |
| `Scores.NormalisedKeepsOrder` | engine/handlers.py:575-578 | no candidate overtakes another; the highest ends at 1 and the lowest at 0 when they differ |
| `Correlation.CalculateCorrelation` | agents/cursor/gmp_meta_learning.py:562-579 | the loops compute the Pearson coefficient, and 0 in the degenerate cases |
| `Correlation.CauchySchwarz` | agents/cursor/gmp_meta_learning.py:571-573 | the square of the sum of products is at most the product of the sums of squares |
| `Correlation.CovarianceBySums` | agents/cursor/gmp_meta_learning.py:567-571 | the products of the deviations add up to the sum of products less the product of the sums over their number |
| `Correlation.PearsonExactly` | agents/cursor/gmp_meta_learning.py:571-579 | the coefficient has the sign of the covariance, and its square is the covariance squared over the product of the variances |
| `Correlation.PearsonInUnit` | agents/cursor/gmp_meta_learning.py:562-579 | the coefficient lies in [-1, 1] |
| `Correlation.PearsonSymmetric` | agents/cursor/gmp_meta_learning.py:562-579 | it does not depend on the order of its arguments |
| `Correlation.PearsonOfItself` | agents/cursor/gmp_meta_learning.py:562-579 | a series has coefficient 1 with itself, or 0 exactly when it is constant |
| `Correlation.VarianceBound` | agents/cursor/gmp_meta_learning.py:531-534 | values in [0, top] have a variance of at most a quarter of top squared |
| `Correlation.VarianceBySums` | agents/cursor/gmp_meta_learning.py:531-533 | the variance in terms of the sum and the sum of squares |
| `Autonomy.AutonomyMetrics.constructor` | agents/cursor/gmp_meta_learning.py:198-211 | fresh metrics are the column defaults |
| `Autonomy.AutonomyMetrics.Update` | agents/cursor/gmp_meta_learning.py:512-540 | the new contents of a stored row: the streak grows exactly on no errors, confidence of at least 95 and audit PASS; flags are set at ten and at 0.95; level and L5 flag stay |
| `Autonomy.MetricsTable.Update` | agents/cursor/gmp_meta_learning.py:503-540 | an update raises exactly on an empty table with a perfect execution; else it updates the row, a fresh one on an empty table |
| `Autonomy.TableStartsImperfect` | agents/cursor/gmp_meta_learning.py:503-520 | from an empty table there is a row exactly when some update had errors, low confidence or no PASS, and it is what the steps from the first such update on make of a fresh row |
| `Autonomy.FromFirstMeaning` | agents/cursor/gmp_meta_learning.py:503-520 | those steps are the ones from the first failing update on, all of them |
| `Autonomy.TableReadyForL3Exactly` | agents/cursor/gmp_meta_learning.py:517-524 | so ten perfect updates in a row count for L3 exactly after an imperfect one |
| `Autonomy.AutonomyMetrics.CanGraduateToNextLevel` | agents/cursor/gmp_meta_learning.py:665-698 | graduation is possible exactly on the flag of the current level; what is missing otherwise |
| `Autonomy.AutonomyMetrics.GraduateToNextLevel` | agents/cursor/gmp_meta_learning.py:704-747 | raises the level by one exactly on its flag, and nothing else |
| `Autonomy.AutonomyMetrics.GetCurrentAutonomyLevel` | agents/cursor/gmp_meta_learning.py:599-626 | reports the highest flag that is set |
| `Autonomy.AssertCapability` | agents/cursor/gmp_meta_learning.py:628-663 | each named feature is enabled exactly by the flags of its level or above, any other feature always |
| `Autonomy.ScoreBounds` | agents/cursor/gmp_meta_learning.py:530-540 | for confidences in [0, 100] the score is at least 0.5 before clamping, clamping changes nothing, and 0.95 asks for a variance of at most 25 |
| `Autonomy.ScoreOfUpdate` | agents/cursor/gmp_meta_learning.py:530-537 | the score falls short of 1 by a hundredth of the standard deviation |
| `Autonomy.VerdictsOneMore` | agents/cursor/gmp_meta_learning.py:512-515 | each update has one verdict: no errors, confidence of at least 95 and audit PASS |
| `Autonomy.StreakIsTrailingRun` | agents/cursor/gmp_meta_learning.py:512-520 | in every run the counter is the length of the trailing run of perfect updates |
| `Autonomy.ReadyForL3Exactly` | agents/cursor/gmp_meta_learning.py:522-524 | the flag for L3 is set exactly when ten updates in a row were once perfect |
| `Autonomy.LatestAreLastLogged` | agents/cursor/gmp_meta_learning.py:526-528 | when executions are logged in the order of their moments, the query returns exactly the last ones logged, the last first |
| `Autonomy.ReadyForL4Exactly` | agents/cursor/gmp_meta_learning.py:526-540 | the flag for L4 is set exactly when, at some update, five or more executions were logged and the latest ten of them, or all, have a variance of at most 25 |
| `Autonomy.LevelIsEarned` | agents/cursor/gmp_meta_learning.py:586-591 | in every run each level up to the stored one has its flag, L5 is never stored and its flag never set |
| `Autonomy.LevelRisesOneStepOnItsFlag` | agents/cursor/gmp_meta_learning.py:704-740 | a step raises the level by at most one, and only a graduation on its flag does |
| `Autonomy.LevelNeverFalls` | agents/cursor/gmp_meta_learning.py:704-740 | whatever follows, the level does not fall and flags stay set |
| `Autonomy.LevelsOfARun` | agents/cursor/gmp_meta_learning.py:614-622 | stored and reported levels in terms of the history of the run |
| `Autonomy.TwoGraduationsCatchUp` | agents/cursor/gmp_meta_learning.py:586-591 | two graduations bring the stored level to the reported one exactly when the L4 flag is not set without the L3 flag |
| `Autonomy.ReportedLevelSkipsAhead` | agents/cursor/gmp_meta_learning.py:586-591 | one failed update after five or more logged executions of equal confidence reports L4 while the stored level stays at L2: the documented progression holds for the stored level only |
| `Autonomy.FeaturesOfARun` | agents/cursor/gmp_meta_learning.py:640-653 | which named features a run enables; those of L5 never |
| `Fingerprints.BucketLabel` | engine/diagnostics/fingerprint.py:44-49 | the label of the first bucket whose upper boundary lies above the score, else the last |
| `Fingerprints.BucketExactly` | engine/diagnostics/fingerprint.py:44-49 | with ascending boundaries a bucket takes its half-open interval, but the first and last boundary never limit |
| `Fingerprints.BucketsMeaning` | engine/diagnostics/fingerprint.py:143-151 | a missing score counts as 0, one outside [0, 1] as the nearer end, and the bucket is the one whose interval holds it |
| `Fingerprints.WinnerMeaning` | engine/diagnostics/fingerprint.py:153-159 | a candidate counts for the first of its dimensions whose score is farthest from zero |
| `Fingerprints.CountAll` | engine/diagnostics/fingerprint.py:143-162 | the counting loop: bucket counts, dimension counts, and their order of first occurrence |
| `Fingerprints.Dominance` | engine/diagnostics/fingerprint.py:167-168 | each dimension count over their total, empty when no candidate has dimensions |
| `Fingerprints.MostCommon` | engine/diagnostics/fingerprint.py:177 | the first of the dimensions counted most often |
| `Fingerprints.EntropyOf` | engine/diagnostics/fingerprint.py:170-174 | the loop adds up the entropy terms in any order |
| `Fingerprints.Largest` | engine/diagnostics/fingerprint.py:178 | the largest frequency |
| `Fingerprints.ComputeFingerprint` | engine/diagnostics/fingerprint.py:97-189 | the result or error in every case, field by field |
| `Fingerprints.LargestIsEvenShare` | engine/diagnostics/fingerprint.py:178 | the largest value of a distribution is at least an even share |
| `Fingerprints.FingerprintIsDistribution` | engine/diagnostics/fingerprint.py:164-178 | frequencies sum to 1, the dominance too unless empty, and the concentration is at least an even share, up to rounding |
| `Fingerprints.EntropyZeroExactly` | engine/diagnostics/fingerprint.py:170-174 | entropy is not negative, and zero exactly when one bucket holds everything |
| `Fingerprints.EntropyOfEvenShares` | engine/diagnostics/fingerprint.py:170-174 | the entropy of even shares is minus the logarithm of one of them |
| `Drift.ChiSquaredDissimilarity` | engine/diagnostics/dissimilarity.py:38-73 | the loop over the keys in any order computes the sum of terms |
| `Drift.ChiSquaredOfOne` | engine/diagnostics/dissimilarity.py:66-73 | when one name alone has another share the dissimilarity is the squared difference over the smoothed sum |
| `Drift.ChiSquaredZeroExactly` | engine/diagnostics/dissimilarity.py:58-60 | never negative, and zero exactly when every share is the same on both sides |
| `Drift.ChiSquaredSymmetric` | engine/diagnostics/dissimilarity.py:46-48 | symmetric |
| `Drift.ChiSquaredAtMost` | engine/diagnostics/dissimilarity.py:66-73 | at most the two masses together, so at most 2 between distributions |
| `Drift.EuclideanDistance` | engine/diagnostics/dissimilarity.py:76-84 | the root of the squared distance of the padded vectors |
| `Drift.DistanceAlongOne` | engine/diagnostics/dissimilarity.py:76-84 | vectors that differ in one place are as far apart as their values there |
| `Drift.DistanceSymmetric` | engine/diagnostics/dissimilarity.py:76-84 | symmetric |
| `Drift.DistanceZeroExactly` | engine/diagnostics/dissimilarity.py:76-84 | zero exactly for vectors that agree once padded |
| `Drift.DetectDrift` | engine/diagnostics/dissimilarity.py:138-234 | metrics, reasons, verdict and severity |
| `Drift.ReportMeaning` | engine/diagnostics/dissimilarity.py:177-220 | metrics compare current with baseline; a reason is given once for each threshold passed; drift is detected when there is one; one is low, two medium, more high |
| `Drift.DriftIsSymmetric` | engine/diagnostics/dissimilarity.py:177-220 | with swapped arguments verdict, severity and number of reasons are the same; a rise becomes a fall and a fall a rise exactly when no change of zero is reported |
| `Drift.NoDriftFromItselfExactly` | engine/diagnostics/dissimilarity.py:188-220 | a fingerprint has not drifted from itself, exactly when no threshold is negative |
| `Drift.VectorLength` | engine/diagnostics/fingerprint.py:82-91 | the vector is six longer than the number of dimensions: its length is not fixed as documented |
| `Drift.VectorMeaning` | engine/diagnostics/fingerprint.py:82-91 | the default buckets, the dimensions in the order of the listing, the entropy and the concentration, each at its position |
| `Drift.SameDimensionsDistance` | engine/diagnostics/fingerprint.py:82-91 | for the same dimensions the distance is zero exactly when default buckets, dominance, entropy and concentration agree |
| `Drift.ZeroDistanceExactly` | engine/diagnostics/fingerprint.py:82-91 | with positive concentrations it is zero exactly when there are equally many dimensions and the listed values agree one by one |
| `Drift.EvenIsComputed` | engine/diagnostics/fingerprint.py:140-200 | a batch with one candidate for each dimension has all candidates in one bucket and even dominance |
| `Drift.CanCompareEqualExactly` | engine/diagnostics/fingerprint.py:90 | two sets of dimensions have computed fingerprints of positive concentration at distance zero exactly when they are equally large |
| `Drift.UnlikeDimensionsCompareEqual` | engine/diagnostics/fingerprint.py:90 | fingerprints with equally many dimensions and even shares are at distance zero, whatever the dimensions |
| `HttpResponse.Parse` | agents/cursor/_safe_http.py:97-127 | the result or error in every case |
| `HttpResponse.ParseHead` | agents/cursor/_safe_http.py:103-127 | the header loop and the cut |
| `HttpResponse.CollectFields` | agents/cursor/_safe_http.py:115-120 | the fields in order, lines without colon skipped |
| `HttpResponse.NoTerminatorExactly` | agents/cursor/_safe_http.py:98-100 | a message is refused for its terminator exactly when no empty line stands in it |
| `HttpResponse.StatusMeaning` | agents/cursor/_safe_http.py:106-114 | a status line needs a number after its first blank, and the rest is the reason, which may be missing |
| `HttpResponse.FieldOfLine` | agents/cursor/_safe_http.py:115-120 | a line is split at its first colon and the value stripped; one without a colon is passed over |
| `HttpResponse.FieldValueMeaning` | agents/cursor/_safe_http.py:121 | the value of the first field of that name, in any case of letters |
| `HttpResponse.DigitsExactly` | agents/cursor/_safe_http.py:110-113 | a numeral has digits, and single underscores between them |
| `HttpResponse.UnderscoreIgnored` | agents/cursor/_safe_http.py:110-113 | an underscore between digits does not change the number |
| `HttpResponse.StripMeaning` | agents/cursor/_safe_http.py:120 | stripping leaves what lies between the blanks |
| `HttpResponse.ParseDecimal` | agents/cursor/_safe_http.py:110-113 | reading a decimal number gives the number back |
| `HttpResponse.StatusRoundTrip` | agents/cursor/_safe_http.py:106-114 | a rendered status line reads back |
| `HttpResponse.FieldRoundTrip` | agents/cursor/_safe_http.py:119-120 | a rendered field reads back, its value without surrounding blanks |
| `HttpResponse.ParseUndoesRender` | agents/cursor/_safe_http.py:97-127 | parsing the message form gives back status, reason and fields, whatever the body contains; RefusedExactly says what becomes of the body |
| `HttpResponse.LengthHonouredExactly` | agents/cursor/_safe_http.py:121-124 | a declared length keeps a beginning of the body: as long as declared exactly when neither negative nor longer than the body, whole exactly when at least as long or there is none |
| `HttpResponse.RefusedExactly` | agents/cursor/_safe_http.py:121-127 | a message with any fields is refused exactly when its first Content-Length is no number; otherwise that length cuts the body |
| `HttpResponse.WholeBodyExactly` | agents/cursor/_safe_http.py:121-124 | the whole body comes back exactly when no length is declared or the first one is a number not smaller than the body, or any number when there is no body |
| `HttpResponse.DeclaredLengthCuts` | agents/cursor/_safe_http.py:121-124 | whatever the fields, a decimal first Content-Length keeps that many characters, or all if there are fewer |
| `HttpResponse.DeclaredBodyComesBack` | agents/cursor/_safe_http.py:121-127 | with its length declared the whole body comes back, in any case of letters |
| `HttpResponse.NegativeLengthCutsTheEnd` | agents/cursor/_safe_http.py:121-124 | a negative length is not refused: it cuts that many bytes off the end |
| `Counterfactual.CountDims` | engine/causal/counterfactual.py:166-170 | how often each dimension is listed, and in which order they first occur |
| `Counterfactual.ConfidenceMeaning` | engine/causal/counterfactual.py:177 | the confidence is the number of times a dimension is listed over the number of winners |
| `Counterfactual.SortMeaning` | engine/causal/counterfactual.py:176 | a permutation in non-increasing count in which equal counts keep their order |
| `Counterfactual.AddScenarios` | engine/causal/counterfactual.py:176-191 | a prefix of the additions, complete unless the limit stops it |
| `Counterfactual.ChangeScenarios` | engine/causal/counterfactual.py:196-219 | the weight scenarios that fit in the room left, winners in order |
| `Counterfactual.DiffFingerprints` | engine/causal/counterfactual.py:151-221 | the scenarios of the specification, for any limit, zero and negative included |
| `Counterfactual.CandidatesMeaning` | engine/causal/counterfactual.py:174-176 | the candidates are the dimensions some winner has and the loser has not, each once, by falling support |
| `Counterfactual.TopAdditionsExactly` | engine/causal/counterfactual.py:174-191 | the additions are exactly the best supported missing dimensions that reach the minimum, cut at the limit |
| `Counterfactual.LeftOutOnlyForBetter` | engine/causal/counterfactual.py:176-191 | a qualifying dimension is left out only when the limit is full of additions supported at least as well |
| `Counterfactual.ChangesKind` | engine/causal/counterfactual.py:196-215 | a weight scenario is for a dimension of the loser that some winner weighs more than one and a half times as much, and reaches the minimum |
| `Counterfactual.ChangesExactly` | engine/causal/counterfactual.py:196-215 | every dimension of the loser that reaches the minimum has as many weight scenarios as there are winners whose weight for it is above three halves of that of the loser; no other has any |
| `Counterfactual.ChangesInOrder` | engine/causal/counterfactual.py:196-219 | the weight scenarios go winner by winner |
| `Counterfactual.RoomMeansAll` | engine/causal/counterfactual.py:193-221 | when there is room left every weight scenario is there, as often as winners outweigh the loser |
| `Counterfactual.ConfidenceAboveOneExactly` | engine/causal/counterfactual.py:168-177 | a confidence passes one exactly when a dimension is listed more often than there are winners |
| `Counterfactual.ConfidenceInUnit` | engine/causal/counterfactual.py:168-177 | when no winner lists a dimension twice it is a proportion |
| `Counterfactual.WeightScenarioRepeats` | engine/causal/counterfactual.py:196-215 | two winners can give the same weight scenario twice |
| `Attribution.TouchpointIds` | engine/causal/attribution.py:146 | the ids of the rows that have one, in order |
| `Attribution.TouchpointsInOrder` | engine/causal/attribution.py:146 | the ids of two lists of rows follow one another |
| `Attribution.TouchpointOfRow` | engine/causal/attribution.py:146 | a row gives its id unless it has none or an empty one |
| `Attribution.AssignWeights` | engine/causal/attribution.py:141-186 | the credit of each model, an id that occurs again getting what it was given last |
| `Attribution.CreditMeaning` | engine/causal/attribution.py:154-186 | id by id who gets what: in each model, and when ids repeat |
| `Attribution.CreditTotal` | engine/causal/attribution.py:154-186 | what the weights add up to, whatever ids repeat |
| `Attribution.ExactCreditIsOneExactly` | engine/causal/attribution.py:154-186 | before rounding the weights add up to at most one, and to one exactly when no id is doubled where it matters |
| `Attribution.RoundedCreditNearExact` | engine/causal/attribution.py:166-184 | rounding moves the sum by at most half a unit for each touchpoint |
| `Attribution.WeightsAddUpToOne` | engine/causal/attribution.py:141-186 | without doubled ids the weights lie in [0, 1] and add up to one within half a unit for each touchpoint |
| `Attribution.DecayFactorBounds` | engine/causal/attribution.py:33-43 | the factor lies in (0, 1], falls strictly with age, and is 1 without age or half-life |
| `Attribution.DecayFactorAt` | engine/causal/attribution.py:33-43 | after k times the half-life parameter the factor is exp(-k) |
| `Attribution.ApplyTemporalDecay` | engine/causal/attribution.py:189-209 | decayed and renormalised weights, or the weights themselves when nothing is left |
| `Attribution.DecayRestoresSum` | engine/causal/attribution.py:194-209 | after decay the weights lie in [0, 1] and add up to one within half a unit each, unless all were zero |
| `Attribution.DecayIsProportional` | engine/causal/attribution.py:202-209 | before rounding two decayed weights stand in the proportion of weight times factor |
| `Attribution.OlderIsNotAhead` | engine/causal/attribution.py:202-209 | of two equal weights the one with the older chain does not end up ahead |

## Left out

- Fact sets of the linter: the names of all scopes are one set of pairs of scope and name, a field of the module's facts, instead of a set in each scope object.
- Filling of `assignments`, `loops` and `_functions` from the tree: `CypherTree` proves the scopes a node is put in, `CypherAst` starts from the filled lists.
- CypherTheorems.RawExact: states that the raw facts are the least ones when no validated function has one of the six names, not that they never are otherwise; `RawBetween` holds without that condition.
- Python that the linter's semantics does not cover: generator functions, `global` and `nonlocal`, star imports, augmented assignment (read as a plain one), containers changed after they are bound (`append`, item assignment), names and attributes set from outside the module or by reflection, `self` objects that are of no class of the module, decorators, and methods that subclasses override or that are inherited from other modules while the module has one of their name.
- Which f-strings count as Cypher or as messages, waivers, and the text of findings: contexts and regular expressions only.
- Word characters before LIMIT and SKIP are the ASCII ones; the regular expression also takes other letters and digits.
- Capability ids are fresh, as random tokens are assumed to be; SHA-256 is any deterministic function of the hashed fields; a call reads the clock once; times are integers. The fields that no code assigns after creation are one value, `Terms`.
- `CapabilitySet`, `audit_summary`, the action permission table and the compliance log of a delegation: only easy members.
- Paths, symbolic links, feature-flag table and file size in the domain loader: whether a domain is enabled and what file is found are parameters, and every parse or validation failure is one result. The disk does not change during a load.
- The per-domain lock of `load_domain_async`: it adds no state beyond the lookups and the load that are modelled.
- Task cancellation, thread preemption between the two locks of the audit loggers, retention policies, and sinks that return a count other than the batch size.
- `redact` copies only the top level: the payload is a value here, so nothing is said about nested dicts shared with the input. Lists inside payloads are leaves.
- `mask_fields`, `hash_value` and `erase_subject`; the regular expressions for values, which are any predicates here.
- Rounding to four digits of evaluation results and of reports; per-case output; the search itself.
- The rest of `handle_match` and of the handlers: queries, gates, Pareto filter, confidence annotations.
- The object mapper of the metrics table, of which `MetricsTable` uses that column defaults are filled in when a new row is stored and not before.
- Two graduations at the same time, and exceptions of the database.
- Heuristic generation and reports of the learning engine.
- `to_vector` sorts dimensions by name: the listing is any function that lists each name of a set once. Frequencies given to drift detection are not negative.
- Scenario ids, storage of scenarios, and the queries that find winners; the order in which the set of the loser's dimensions is visited is a parameter.
- Ages of touchpoints as the database returns them, and the flag for temporal decay: the ages are a parameter.
- HttpResponse.RefusedExactly: does not model that Python's `int` refuses numbers of more than 4300 digits, because that limit is a setting of the interpreter.
- `format_authority`, `redact_url`, `require_http_url` and the sockets of `http_exchange`: foreign calls or easy members. Characters are Latin-1.
- Databases, FastAPI, Gate SDK, AWS, the generated Cypher and its meaning: foreign systems.
