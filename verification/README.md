# Models-as-a-Service: a verified core

This project models the parts of Models-as-a-Service in which a mistake is easy
to make and hard to see, and proves what they promise.

- **Guardrail plans** (`GuardrailMerge`, `GuardrailCompose`). Selections resolved
  at five scopes are folded into a map, walked in an arbitrary order and sorted.
  `IsPlan` describes the plan without naming an order; it is unique, so merging
  is canonical, additive and idempotent.
- **Discovery entitlements** (`Entitlements`, `EntitlementProtocol`). The class
  keeps an inverted index in step with per-tenant entitlements. The transition
  system interleaves store changes, event handlers, the metadata worker and the
  entitlement worker, with one-slot channels and separate store reads.
- **Subscription selection** (`Selector`, `Selection`). Exact names, aliases,
  authorization, health and the guardrail hand-off all speak about one model
  reference; auto-selection is independent of listing order.
- **API keys** (`KeyStore`, `ReadRouting`, `Debounce`, `KeyGen`, `KeyValidation`).
  Runs of SQL statements over the key table, including expiry writes that follow
  a stale replica read; the one-shot read fallback with its counters and health
  flag; the lock-free debounce under every interleaving; key strings, and their
  validation from the string to the history of the table.
- **Admin check cache** (`AdminCache`). Concurrent checks over a bounded cache.
- `Orders`, `Text` and `Options` hold the string order, sorting, string helpers
  and the option type.

- `GuardrailMeaning`, `EntitlementMeaning` and `SelectionMeaning` say what these
  models compute in the fields of their input alone, without the keys, orders
  and filters used on the way.

Imperative code is modelled by classes and loops whose contracts name a
specification function; the lemmas are about those functions. Protocols are
datatypes of states and steps, and their theorems quantify over every run.
Clock readings, random bytes, database outcomes, the SHA-256 digest, policy
reads, the delegate's answers and the authorized set are parameters.

## Where code and comments disagree

- The comment on key generation says a key identifier has at least 12
  characters. It has exactly when its value reaches 62 to the 11
  (`KeyGen.KeyIdLength`); twelve zero bytes give one character.
- The comment on the debounce cleanup says deleting old entries has no effect on
  debouncing. The sweep deletes without comparing, so it can remove a slot
  refreshed after it was read (`Debounce.SweepRaceBreaksSpacing`), let through a
  caller that read the clock long ago, or take the slot from a caller about to
  swap it, whose due write is then not made (`Debounce.SweepSuppressesWrite`).
  `Debounce.DeletionInvisibleIff` says exactly when a deletion has no effect on
  what is granted next: no arrival is early and no swap of the slot is under way.
  `Debounce.GuardedSweepsKeepSpacing` and `Debounce.UnnoticedSweepsRefuseNothing`
  draw the two consequences for whole runs.

More properties hold only under a condition on the input. Each has its exact
condition and a failing case: convergence of the entitlement cache
(`EntitlementProtocol.FreshIff`) and the namespace owners behind it
(`Entitlements.ListingIndependence`), explicit subscription names
(`Selection.ExplicitPickIff`, `Selection.SelectIgnoresOrderIff`), clearing a
debounce slot (`Debounce.ClearsAnothersIff`), hashed strings of keys (`KeyGen.OwnPreHashIff`),
cache keys (`AdminCache.OwnKeyIff`) and agreement with the admin check
(`AdminCache.CacheAgreesIff`).

## Model

| member | source | states |
|---|---|---|
| `GuardrailMerge.Merge` | maas-common/pkg/guardrail/merge.go:95-159 | fails with a snapshot conflict exactly when two selections of one policy differ in identity, with a metadata error exactly when phases, indices or check metadata are pairwise inconsistent, and otherwise returns the plan described by `IsPlan` for the set of contributions |
| `GuardrailMerge.CheckSnapshotConsistency` | maas-common/pkg/guardrail/merge.go:163-184 | accepts if and only if all selections of one policy carry one identity |
| `GuardrailMerge.AddContribution` | maas-common/pkg/guardrail/merge.go:110-148 | the two maps of the loop keep describing exactly the contributions seen so far; a check is refused exactly when it makes the metadata inconsistent |
| `GuardrailMerge.CollectChecks` | maas-common/pkg/guardrail/merge.go:150-158 | whatever order the map is walked in, the sorted result is the plan of the contributions |
| `GuardrailMerge.ValidateAndSortPhases` | maas-common/pkg/guardrail/merge.go:214-233 | accepts exactly the non-empty, known, duplicate-free phase lists and returns them sorted |
| `GuardrailMerge.DedupeSources` | maas-common/pkg/guardrail/merge.go:242-256 | same set of sources, in strictly increasing order |
| `GuardrailMerge.SourceLessTotal` | maas-common/pkg/guardrail/merge.go:258-272 | the source comparator is a strict total order |
| `GuardrailMerge.NoTies` | maas-common/pkg/guardrail/merge.go:120-131 | because no spec index has two owners, two different checks of a valid merge never tie in the sort key |
| `GuardrailMerge.PlanUnique` | maas-common/pkg/guardrail/merge.go:95-200 | at most one plan fits a set of contributions |
| `GuardrailMerge.MergeCanonical` | maas-common/pkg/guardrail/merge.go:88-200 | results depend only on which selections are present: permuting or repeating them, and any map order, give the identical plan or the identical error |
| `GuardrailMerge.MergeIdempotent` | maas-common/pkg/guardrail/merge.go:88-159 | merging a list with itself changes nothing |
| `GuardrailMerge.MergeAdditive` | maas-common/pkg/guardrail/merge.go:88-159 | if the joint merge succeeds so does each part; each part's plan is embedded in order with sources only growing; the check keys are exactly the union |
| `GuardrailMerge.ChecksForPhase` | maas-common/pkg/guardrail/merge.go:203-211 | the checks of a phase, in plan order |
| `GuardrailMerge.PhaseViewAppends` | maas-common/pkg/guardrail/merge.go:203-211 | the view of a phase is taken entry by entry, in plan order |
| `GuardrailMerge.PhasesCoverPlan` | maas-common/pkg/guardrail/merge.go:203-233 | every check of a merged plan appears in the input or the output phase |
| `GuardrailMeaning.ConflictIff` | maas-common/pkg/guardrail/merge.go:163-184 | a snapshot conflict is reported if and only if two selections with one policy namespace and name differ in UID, generation or binding revision |
| `GuardrailMeaning.MetadataErrorIff` | maas-common/pkg/guardrail/merge.go:110-148 | a metadata error is reported if and only if there is no conflict but a check with bad phases or a negative index, or two checks of a policy that share an index or a name and disagree otherwise |
| `GuardrailMeaning.MergeMeans` | maas-common/pkg/guardrail/merge.go:95-200 | a plan holds every check of every selection with the five identity fields of its policy, its index and sorted phases, exactly the sources that select it, and nothing else, ordered by policy name, namespace and index |
| `GuardrailCompose.ComposeSubscriptionModelPlan` | maas-common/pkg/guardrail/compose.go:63-196 | the subscription-model key with every outcome; the exact outcome for every request; and the resolver calls made: one for each attachment of the five lists, in the namespace of its scope and in order, up to the first failure, and no other |
| `GuardrailCompose.FindSubscriptionModelEntry` | maas-common/pkg/guardrail/compose.go:221-236 | not found exactly when no entry matches, ambiguous exactly when two do, otherwise the unique match |
| `GuardrailCompose.ResolveAttachments` | maas-common/pkg/guardrail/compose.go:198-219 | selections in attachment order, or the path of the first attachment that does not resolve |
| `GuardrailCompose.ComposedPlanIsUnion` | maas-common/pkg/guardrail/compose.go:97-196 | of every composed plan: one model entry matches, every attachment resolves, a check is in the plan if and only if some attachment selects it, its sources are exactly those attachments, and every source comes from one |
| `GuardrailMeaning.ComposedPlanMeans` | maas-common/pkg/guardrail/compose.go:97-196 | from the request alone: each attachment of each of the five lists resolves under its own call, every check of its policy is in the plan with a source that names kind, resource, path and index, and every source in the plan is one of these |
| `GuardrailMeaning.ResolveFailedMeans` | maas-common/pkg/guardrail/compose.go:198-219 | a failed resolution names the path and index of the first attachment, by call, that does not resolve |
| `GuardrailMeaning.InputErrorIff` | maas-common/pkg/guardrail/compose.go:73-103 | the input is refused if and only if a part is missing or a namespace or name does not belong |
| `GuardrailMeaning.EntryErrorIff` | maas-common/pkg/guardrail/compose.go:221-236 | the model entry is missing if and only if none has its namespace and name, ambiguous if and only if two have |
| `GuardrailCompose.SourcesDistinct` | maas-common/pkg/guardrail/compose.go:97-196 | no two attachments of a composition have the same provenance source |
| `GuardrailCompose.LookupNamespaces` | maas-common/pkg/guardrail/compose.go:97-196 | model-scope policies are read in the model's namespace, the other four scopes in the tenant's target namespace |
| `GuardrailCompose.ComposeDetermined` | maas-common/pkg/guardrail/compose.go:63-196 | one result is possible for given inputs and policy reads |
| `Entitlements.ComputeTenantEntitlement` | maas-discovery/internal/cache/informer.go:573-624 | the entitlement is a function of the set of policies: exactly the subjects and models of live policies in the tenant's namespaces |
| `EntitlementMeaning.SubjectKeysTellApart` | maas-discovery/internal/cache/informer.go:742-757 | user keys and group keys never coincide, are empty for blank names only, and tell trimmed names apart |
| `EntitlementMeaning.AccessIff` | maas-discovery/internal/cache/informer.go:573-651 | a computed entitlement gives a caller access if and only if a live policy in a namespace of the tenant names a model and lists the trimmed username, or a group the caller has |
| `EntitlementMeaning.ModelsIff` | maas-discovery/internal/cache/informer.go:573-677 | the models granted to a user are the trimmed namespace and name of the references of the policies that list the user |
| `EntitlementMeaning.ListedIff` | maas-discovery/internal/cache/informer.go:337-377 | when every listed tenant has its computed entitlement, the answer holds exactly the listed tenants such a policy lets the caller see |
| `EntitlementMeaning.ScanAppends` | maas-discovery/internal/cache/informer.go:370-376 | the answer is taken tenant by tenant, in list order |
| `EntitlementMeaning.OwnerIff` | maas-discovery/internal/cache/informer.go:679-701 | a namespace belongs to the last tenant that reports it; unreported, only the default namespace has an owner |
| `Entitlements.EntitlementFrame` | maas-discovery/internal/cache/informer.go:573-610 | policies outside a tenant's namespaces do not affect it |
| `Entitlements.BuildNamespaceTenantMap` | maas-discovery/internal/cache/informer.go:679-701 | the last claimant in listing order owns a namespace; the default namespace belongs to the default tenant unless claimed |
| `Entitlements.ListingIndependence` | maas-discovery/internal/cache/informer.go:679-701 | the owner map is the same for every listing of the store if and only if no two differently named tenants claim one namespace |
| `Entitlements.InformerCache.ApplyTenantEntitlement` | maas-discovery/internal/cache/informer.go:522-549 | replaces one tenant's entitlement and keeps the subject index the exact inverse without empty buckets |
| `Entitlements.InformerCache.RemoveFromIndex` | maas-discovery/internal/cache/informer.go:522-537 | removes the tenant from every bucket and drops emptied buckets |
| `Entitlements.InformerCache.AddToIndex` | maas-discovery/internal/cache/informer.go:538-549 | enters the tenant under exactly its new subjects |
| `Entitlements.InformerCache.VisibleTenants` | maas-discovery/internal/cache/informer.go:343-366 | the indexed candidates with access are exactly the tenants with access |
| `Entitlements.InformerCache.ListForSubjects` | maas-discovery/internal/cache/informer.go:337-377 | equals a naive scan of all entitlements, in list order |
| `Entitlements.InformerCache.PublishTenants` | maas-discovery/internal/cache/informer.go:417-423 | replaces the tenant list and nothing else |
| `Entitlements.InformerCache.MarkTenantDirty` | maas-discovery/internal/cache/informer.go:426-434 | adds exactly the trimmed name, or nothing when it is blank |
| `Entitlements.InformerCache.MarkAllTenantsDirty` | maas-discovery/internal/cache/informer.go:436-445 | marks every listed tenant and every tenant that has an entitlement |
| `Entitlements.InformerCache.MarkTenantDirtyFromObject` | maas-discovery/internal/cache/informer.go:447-479 | marks the owner of the object's namespace, or everything when there is none |
| `Entitlements.InformerCache.TakeDirtyTenants` | maas-discovery/internal/cache/informer.go:481-495 | returns the dirty set once each and empties it |
| `Entitlements.InformerCache.RebuildDirtyEntitlements` | maas-discovery/internal/cache/informer.go:497-520 | dirty tenants get the full recomputation, all others keep theirs |
| `EntitlementProtocol.StepKeepsAwake` | maas-discovery/internal/cache/informer.go:158-171 | every step of every process, whatever the tenants claim, keeps: dirty tenants have a wake-up coming, and the tenant list is current or a re-read is pending |
| `EntitlementProtocol.StepKeepsInv` | maas-discovery/internal/cache/informer.go:122-327 | every step also keeps, of any store in which no two tenants claim one namespace at present: each listed tenant is up to date or dirty, in the batch with current reads, or covered by a pending note or rebuild |
| `EntitlementProtocol.RunsKeepInv` | maas-discovery/internal/cache/informer.go:122-327 | both hold in every state of every interleaving from start-up, past clashes included |
| `EntitlementProtocol.PolicyChangeSettled` | maas-discovery/internal/cache/informer.go:173-204 | a policy change leaves a note that marks the one tenant it can affect |
| `EntitlementProtocol.QuiescentConverged` | maas-discovery/internal/cache/informer.go:426-520 | when nothing is pending, nothing is dirty and the tenant list is current; without a clash in the present store every listed tenant has the full recomputation |
| `EntitlementProtocol.ConvergedAnswers` | maas-discovery/internal/cache/informer.go:337-377 | a converged cache answers every caller as the stores would |
| `EntitlementMeaning.ConvergedListIff` | maas-discovery/internal/cache/informer.go:337-377 | at rest without a clash a listed tenant is returned to a caller if and only if a policy in the store lets the caller see it |
| `EntitlementProtocol.InternalStepsTerminate` | maas-discovery/internal/cache/informer.go:255-327 | every internal step decreases a well-founded measure |
| `EntitlementProtocol.NeverStuck` | maas-discovery/internal/cache/informer.go:255-327 | unless quiescent, some internal step is enabled |
| `EntitlementProtocol.Converges` | maas-discovery/internal/cache/informer.go:255-327 | from every state of every run the service's own steps lead to a quiescent state over the same stores, converged if those stores have no clash |
| `EntitlementProtocol.ClashLeavesStaleGrant` | maas-discovery/internal/cache/informer.go:475-479 | whenever two tenants of a store claim one namespace, some run comes to rest over that store with a deleted grant still cached |
| `EntitlementProtocol.FreshIff` | maas-discovery/internal/cache/informer.go:426-520 | every run that comes to rest over a store of properly named tenants has fresh entitlements if and only if no two of them claim one namespace |
| `Selector.ScanAliasDecides` | maas-api/internal/subscription/selector.go:1230-1247 | a namespace-qualified alias resolves exactly when all its carriers have one name, and is ambiguous exactly when two differ |
| `Selector.FoundIsMember` | maas-api/internal/subscription/selector.go:1218-1264 | a found reference belongs to the subscription |
| `SelectionMeaning.RawNameFinds` | maas-api/internal/subscription/selector.go:1248-1262 | a name without separator finds the first reference that has it as alias or as name, and nothing if there is none |
| `SelectionMeaning.PairFinds` | maas-api/internal/subscription/selector.go:1218-1262 | a pair finds the first reference with that namespace and name; failing that the last carrier of the alias in the namespace, or nothing if two carriers differ in name; failing that what the raw name finds |
| `SelectionMeaning.AuthorizedAppends` | maas-api/internal/subscription/selector.go:587-595 | references are kept one by one, in order, by namespace and name |
| `SelectionMeaning.ServesIff` | maas-api/internal/subscription/selector.go:1266-1356 | an active subscription serves; a degraded one serves a reference without token budget, or whose first reported status is ready |
| `SelectionMeaning.KeyCreationIff` | maas-api/internal/subscription/selector.go:1266-1290 | without a model a selection is granted if and only if the phase is neither empty nor Failed |
| `SelectionMeaning.UncheckedDecides` | maas-api/internal/subscription/selector.go:274-291 | a model request without a checker is never granted, and reports each cause of bad health exactly when it applies |
| `SelectionMeaning.ResponseMeans` | maas-api/internal/subscription/selector.go:1476-1525 | every response carries the fields of its subscription and of the model reference found, literally |
| `SelectionMeaning.ChecksMean` | maas-api/internal/subscription/selector.go:744-766 | the guardrail lookup is by namespace and name of the subscription and of the found reference |
| `Selector.FilterAuthorizedModels` | maas-api/internal/subscription/selector.go:587-595 | the authorized references in order |
| `Selector.AuthorizedMembers` | maas-api/internal/subscription/selector.go:587-611 | filtering keeps exactly the authorized references |
| `Selector.AccessDecision` | maas-api/internal/subscription/selector.go:249-272 | access is granted if and only if the authorized part resolves the request and no unauthorized reference is named literally |
| `Selector.OneRefThroughout` | maas-api/internal/subscription/selector.go:249-291 | a response with access allowed is about one authorized reference of the subscription, which supplies resolved model, rate-limit id, objective, phase and rate-limit health and the guardrail lookup |
| `Selector.CompletionDecides` | maas-api/internal/subscription/selector.go:744-766 | for a model request: denied exactly when not authorized, otherwise unhealthy, unresolved guardrails or access, each exactly when the found reference says so |
| `Selector.UnauthorizedRefsInvisible` | maas-api/internal/subscription/selector.go:587-611 | inserting unauthorized references that the request does not name literally leaves the whole outcome unchanged |
| `Selector.UnauthorizedExactDenies` | maas-api/internal/subscription/selector.go:256-265 | an unauthorized reference named literally forces the denial |
| `Selection.ResolveModelAlias` | maas-api/internal/subscription/selector.go:140-169 | a name is rewritten exactly when one model object carries it |
| `SelectionMeaning.AliasMeans` | maas-api/internal/subscription/selector.go:140-169 | a name carried by one object alone becomes that object's namespace and name, any other is kept |
| `SelectionMeaning.ByPriorityMeans` | maas-api/internal/subscription/selector.go:1370-1381 | the sorted list is a permutation with higher priority first, then higher limit, then smaller name |
| `SelectionMeaning.OwnedIff` | maas-api/internal/subscription/selector.go:1175-1190 | a caller may use a live subscription that lists the username or one of the caller's groups |
| `SelectionMeaning.AdmitsIff` | maas-api/internal/subscription/selector.go:697-711 | admission in terms of ownership and of the model found in either view |
| `SelectionMeaning.QualifiesIff` | maas-api/internal/subscription/selector.go:713-722 | qualification in terms of ownership, the model found among authorized references, and no unauthorized literal match |
| `SelectionMeaning.RefusedEarly` | maas-api/internal/subscription/selector.go:667-694 | a missing identity, an empty list and a failed checker are reported exactly when they are the case, in this order |
| `SelectionMeaning.ExplicitDecides` | maas-api/internal/subscription/selector.go:621-657 | a picked subscription is refused to a caller it does not list and, without a checker, for a model it lacks |
| `SelectionMeaning.AutoWithoutChecker` | maas-api/internal/subscription/selector.go:728-741 | without a model or a checker one candidate completes, none and several are errors, the latter with the names in order |
| `SelectionMeaning.AmbiguityNames` | maas-api/internal/subscription/selector.go:713-741 | with a checker an ambiguous auto-selection reports the names of the qualifying subscriptions in order |
| `Selection.SelectWithContext` | maas-api/internal/subscription/selector.go:667-742 | the loop form of the selection returns the outcome of `Select`, about which the lemmas below speak |
| `Selection.SelectExplicit` | maas-api/internal/subscription/selector.go:615-657 | qualified names first, bare names second, deleting subscriptions skipped |
| `Selection.SelectionIsOwned` | maas-api/internal/subscription/selector.go:667-742 | every completed selection is of a listed, live subscription the caller owns, and answers to the requested name if there is one |
| `Selection.ExplicitNotFoundIff` | maas-api/internal/subscription/selector.go:615-657 | an explicit name is not found if and only if no live subscription answers to it |
| `Selection.AdmissionKeepsAuthorized` | maas-api/internal/subscription/selector.go:697-711 | the admission pre-filter never drops a subscription whose resolved model is authorized |
| `Selection.TwoFiltersAreOne` | maas-api/internal/subscription/selector.go:697-727 | pre-filter plus authorization filter select exactly the owned, live subscriptions with an authorized model |
| `Selection.AutoSelection` | maas-api/internal/subscription/selector.go:667-742 | auto-selection completes on a subscription if and only if it is the only qualifying one, and the result is its completion |
| `Selection.AutoSelectsTheOnlyAuthorized` | maas-api/internal/subscription/selector.go:696-742 | the same with the error cases: several qualify, or none, admitted or not |
| `Selection.AutoSelectIgnoresOrder` | maas-api/internal/subscription/selector.go:667-742 | auto-selection does not depend on listing order, ties included |
| `Selection.SelectIgnoresOrderIff` | maas-api/internal/subscription/selector.go:667-742 | a selection is the same in every listing if and only if, when it chooses by name, all top subscriptions of that name confirm to one result |
| `Selection.GrantedSelection` | maas-api/internal/subscription/selector.go:667-766 | a selection that grants access is of a listed, live, owned subscription; without a model it is reconciled and has not failed, with one there is a checker and the whole response is about one authorized reference |
| `Selection.ExplicitPickIff` | maas-api/internal/subscription/selector.go:615-657 | an explicit name, qualified or bare, picks the same subscription in every listing if and only if one live subscription of the name outranks the others |
| `Selection.BareNameTieDependsOnOrder` | maas-api/internal/subscription/selector.go:638-657 | equal rank in two namespaces makes a bare name depend on listing order: a concrete pair |
| `KeyStore.KeysAge` | maas-api/internal/api_keys/store_postgres.go:703-908 | over every run a key keeps its facts, never leaves revoked or expired, and its deletion time is set at most once |
| `KeyStore.VanishOnlyByCleanup` | maas-api/internal/api_keys/store_postgres.go:866-908 | a key disappears only in one of the two cleanups, past its grace or retention period, and never returns |
| `KeyStore.OtherTenantsUntouched` | maas-api/internal/api_keys/store_postgres.go:703-908 | statements of other tenants leave a row exactly as it was |
| `KeyStore.ExpirySeenIsExpiry` | maas-api/internal/api_keys/store_postgres.go:674-686 | an expiry written on the word of a stale replica row is a true expiry of the current row |
| `KeyStore.TablesSound` | maas-api/internal/api_keys/store_postgres.go:639-698 | in every table of every run expired rows are past expiry, soft-deleted rows are not active, and hashes are unique per tenant |
| `KeyStore.ActiveUntilEnded` | maas-api/internal/api_keys/store_postgres.go:671-850 | a present key is active if and only if no revocation, invalidation or expiry write has been aimed at it |
| `KeyStore.ValidatesIff` | maas-api/internal/api_keys/store_postgres.go:639-698 | validation of a digest in terms of the history alone: an inserted, still present key validates if and only if hash and tenant are its own, nothing ended it since, its expiry has not passed and its subscription is not blank |
| `KeyStore.RowsAreInserted` | maas-api/internal/api_keys/store_postgres.go:176-236 | every row was inserted exactly once, by its tenant, with the facts it still shows |
| `KeyStore.DeletionTimeIsTrue` | maas-api/internal/api_keys/store_postgres.go:775-828 | a deletion time is the time of the lifecycle invalidation that found the row live |
| `KeyStore.LastUsedOnlyByUpdate` | maas-api/internal/api_keys/store_postgres.go:852-860 | the time of last use changes only in an update for that very key, and alone |
| `KeyStore.FirstEndDecides` | maas-api/internal/api_keys/store_postgres.go:671-850 | the first event that ends a key fixes its status for good: expired after an expiry write, revoked otherwise |
| `KeyStore.RevocationDecides` | maas-api/internal/api_keys/store_postgres.go:703-771 | from the revocation time on a key validates if and only if it did before and is out of scope, or expires at that very instant and is asked about at that instant |
| `KeyStore.RevokedForGood` | maas-api/internal/api_keys/store_postgres.go:729-771 | after a bulk revocation no key of its scope validates on any later table at any later time |
| `KeyStore.RevocationsElsewhere` | maas-api/internal/api_keys/store_postgres.go:703-771 | however many bulk revocations follow one another, a key in the scope of none keeps its row and its validation outcome |
| `KeyStore.InvalidatedForGood` | maas-api/internal/api_keys/store_postgres.go:775-828 | keys invalidated with their tenant or subscription never validate again |
| `KeyStore.PreviewIsEffect` | maas-api/internal/api_keys/store_postgres.go:741-771 | the dry-run rows are exactly the rows the revocation changes, each from active to revoked, and none is left to revoke |
| `KeyStore.PostgresStore.AddKey` | maas-api/internal/api_keys/store_postgres.go:176-236 | inserts exactly when all fields are valid, the tenant matches and identifier and hash are free; each error exactly when its check is the first to fail; the query is counted once validation has passed |
| `KeyStore.PostgresStore.BulkRevoke` | maas-api/internal/api_keys/store_postgres.go:729-771 | error cases, count equal in both modes, and in the real mode equal to the number of rows changed |
| `KeyStore.PostgresStore.InvalidateTenant` | maas-api/internal/api_keys/store_postgres.go:775-799 | tenant mismatch, or soft deletion of every live row of the tenant |
| `KeyStore.PostgresStore.InvalidateSubscription` | maas-api/internal/api_keys/store_postgres.go:802-828 | tenant mismatch, blank subscription, or soft deletion of the subscription's live rows |
| `KeyStore.PostgresStore.Revoke` | maas-api/internal/api_keys/store_postgres.go:831-849 | not found exactly when the tenant has no active key with the identifier; otherwise only that row changes |
| `KeyStore.PostgresStore.UpdateLastUsed` | maas-api/internal/api_keys/store_postgres.go:852-860 | stamps the row of the tenant with the identifier |
| `KeyStore.PostgresStore.DeleteExpiredEphemeral` | maas-api/internal/api_keys/store_postgres.go:866-885 | removes the ephemeral rows past the grace period and reports how many |
| `KeyStore.PostgresStore.DeleteSoftDeleted` | maas-api/internal/api_keys/store_postgres.go:888-908 | refuses a negative retention, otherwise removes and counts rows past it |
| `KeyStore.LookupMeans` | maas-api/internal/api_keys/store_postgres.go:639-692 | not found if and only if no live row of the tenant has the hash, invalid if and only if that row is not active or past its expiry, otherwise that row |
| `KeyStore.ViewMeans` | maas-api/internal/api_keys/store_postgres.go:127-158 | a pool's definite answer counts only if query, iteration and close succeeded; the close error wins over the iteration error |
| `KeyStore.WroteMeans` | maas-api/internal/api_keys/store_postgres.go:674-686 | a lookup writes exactly the expiry it found, on the tenant's row if still active, and nothing else |
| `KeyStore.PostgresStore.ConsumeRow` | maas-api/internal/api_keys/store_postgres.go:651-692 | the answer is that of the table shown; the only write is the conditional expiry of the row found expired |
| `KeyStore.PostgresStore.QueryView` | maas-api/internal/api_keys/store_postgres.go:127-158 | a query, iteration or close error overrides the answer, but not the expiry already written |
| `KeyStore.PostgresStore.GetByHash` | maas-api/internal/api_keys/store_postgres.go:639-698 | the routed answer, the expiries written and the counters; any error on the replica of an uncancelled request sends the lookup to the primary, clears health and counts one fallback; a sound replica answer is final and restores health |
| `KeyStore.NoticedEnables` | maas-api/internal/api_keys/store_postgres.go:674-686 | a noticed expiry is one the history justifies, whatever earlier table the pool shows |
| `ReadRouting.ReadRouter.ReadWithFallback` | maas-api/internal/api_keys/store_postgres.go:77-110 | pools contacted, answer, health and counters are those of the routing specification |
| `ReadRouting.ReadRouter.Get` | maas-api/internal/api_keys/store_postgres.go:544-605 | the separately written routing has the same contacts, answer, health and counters |
| `ReadRouting.ReadRouter.RecordQuery` | maas-api/internal/api_keys/store_metrics.go:96-107 | one more for the operation and pool, nothing else |
| `ReadRouting.ReadRouter.CollectPings` | maas-api/internal/api_keys/store_metrics.go:210-230 | a failed replica ping is counted and clears health; a successful ping never sets it |
| `ReadRouting.PrimaryAtMostOnce` | maas-api/internal/api_keys/store_postgres.go:77-110 | each pool is contacted at most once, and the primary after the replica only on a failure of an uncancelled request |
| `ReadRouting.CountersExact` | maas-api/internal/api_keys/store_metrics.go:96-113 | in every run the replica count equals the routed reads, the primary count the fallbacks (plus mutations), the fallback counter their total |
| `ReadRouting.HealthIsLastSignal` | maas-api/internal/api_keys/store_metrics.go:210-230 | health holds exactly when no replica failure was seen, or a direct read succeeded since the last one |
| `Debounce.StepKeepsInv` | maas-api/internal/api_keys/service.go:394-460 | every step of callers, failing writers and sweep keeps the chain invariant |
| `Debounce.EpochsSpaced` | maas-api/internal/api_keys/service.go:426-448 | in every interleaving, slots granted between two removals of the entry are a chain with consecutive slots at least the TTL apart |
| `Debounce.GrantIsReading` | maas-api/internal/api_keys/service.go:430-435 | a granted slot is what the clock showed when its caller read it |
| `Debounce.ChainSpread` | maas-api/internal/api_keys/service.go:426-448 | two grants of a chain are as many TTLs apart as there are positions between them |
| `Debounce.ClearsOwnSlot` | maas-api/internal/api_keys/service.go:450-460 | a clear removes a slot equal to the writer's own reading; with distinct readings, its own grant |
| `Debounce.ClearWithinEpoch` | maas-api/internal/api_keys/service.go:450-460 | within its epoch a writer removes its own grant or nothing, even with equal readings |
| `Debounce.ClearsAnothersIff` | maas-api/internal/api_keys/service.go:450-460 | a clear removes another caller's grant if and only if the entry equals the writer's slot and the writer has no grant in the open epoch |
| `Debounce.EqualReadingsClearAnothersSlot` | maas-api/internal/api_keys/service.go:450-460 | with equal readings a clear can remove another caller's slot: a concrete run |
| `Debounce.SweepRaceBreaksSpacing` | maas-api/internal/api_keys/service.go:394-418 | the sweep's bare delete can remove a fresh slot and let two writes through within the TTL: a concrete run |
| `Debounce.SweepSuppressesWrite` | maas-api/internal/api_keys/service.go:394-447 | the sweep can delete a slot a caller is about to swap, so that a due write is not made: a concrete run |
| `Debounce.GuardedSweepsKeepSpacing` | maas-api/internal/api_keys/service.go:394-418 | when every deletion of the sweep meets the exact condition below, all grants between two clears, across any number of sweeps, are one chain spaced by the TTL |
| `Debounce.NextGrantIff` | maas-api/internal/api_keys/service.go:426-448 | over every continuation, the grants that can come next before any removal are exactly the arrivals late enough for the slot and the swaps under way |
| `Debounce.DeletionKeepsSpacingIff` | maas-api/internal/api_keys/service.go:406-413 | whatever happens next, the next grant is a TTL after the slot a sweep deletes if and only if the clock and every clock reading already made by a waiting caller are |
| `Debounce.DeletionKeepsSwapsIff` | maas-api/internal/api_keys/service.go:406-413 | a deletion refuses no swap that would have been granted if and only if no caller is about to swap the deleted slot |
| `Debounce.DeletionInvisibleIff` | maas-api/internal/api_keys/service.go:386-413 | a deletion changes nothing about which grants can come next if and only if both conditions hold |
| `Debounce.SweepsInvisibleIff` | maas-api/internal/api_keys/service.go:394-418 | all deletions of a run are invisible if and only if each meets both conditions when it happens |
| `Debounce.RefusedOnlyIfTaken` | maas-api/internal/api_keys/service.go:437-447 | a swap is refused only if, between its load and its swap, another caller was granted, a failing writer cleared the entry, or the sweep deleted the very slot |
| `Debounce.UnnoticedSweepsRefuseNothing` | maas-api/internal/api_keys/service.go:394-447 | when every deletion meets both conditions, a refused swap always lost to another grant or a clear |
| `Debounce.UndisturbedCall` | maas-api/internal/api_keys/service.go:426-448 | the steps of one caller, uninterrupted, reserve exactly what the sequential method does |
| `Debounce.Service.ShouldUpdateLastUsed` | maas-api/internal/api_keys/service.go:426-448 | always proceeds when disabled, otherwise reserves exactly when the slot is absent or old enough |
| `Debounce.Service.ClearDebounceSlot` | maas-api/internal/api_keys/service.go:455-460 | undoes a reservation still in place and nothing else |
| `Debounce.Service.Sweep` | maas-api/internal/api_keys/service.go:404-415 | an undisturbed sweep changes no later decision |
| `KeyValidation.ValidateAPIKey` | maas-api/internal/api_keys/service.go:216-313 | the verdict is that of format, digest, routed lookup, bound subscription and identifier syntax; with it the expiry writes, counters and health of the lookup, and the last-used reservation, which a found key gets even if it is then refused |
| `KeyValidation.VerdictMeans` | maas-api/internal/api_keys/service.go:216-313 | each verdict on one table exactly when it is due: malformed, no such row, row not in force, no subscription, corrupt identifier |
| `KeyValidation.VerdictIff` | maas-api/internal/api_keys/service.go:216-313 | on one table a key string is valid for a row if and only if it is well formed and its digest validates that row |
| `KeyValidation.KeyStringValidIff` | maas-api/internal/api_keys/service.go:216-313 | over every run a key string is valid for an identifier if and only if it is well formed and the identifier was created for its digest in this tenant, is still present, and nothing has ended it |
| `KeyValidation.OnlyTheIssuedKey` | maas-api/internal/api_keys/service.go:216-313 | with an injective digest the only string ever valid for a key is the one it was issued as |
| `KeyGen.EncodeBase62` | maas-api/internal/api_keys/keygen.go:180-200 | the result is the base62 numeral without leading zeros that decodes to the big-endian value |
| `KeyGen.AlphabetIncreases` | maas-api/internal/api_keys/keygen.go:181 | the alphabet is the base62 characters in increasing order |
| `KeyGen.BigEndianHead` | maas-api/internal/api_keys/keygen.go:183 | the first byte weighs most |
| `KeyGen.CanonicalUnique` | maas-api/internal/api_keys/keygen.go:180-200 | a value has one such numeral |
| `KeyGen.EncodingInjective` | maas-api/internal/api_keys/keygen.go:180-200 | equal-length inputs have equal encodings only when equal |
| `KeyGen.LengthOfEncoding` | maas-api/internal/api_keys/keygen.go:180-200 | more than k digits if and only if the value reaches 62 to the k |
| `KeyGen.LengthBounds` | maas-api/internal/api_keys/keygen.go:24-28 | at most 17 digits for 12 bytes and 43 for 32 bytes |
| `KeyGen.KeyIdLength` | maas-api/internal/api_keys/keygen.go:38-39 | a key identifier has twelve characters or more if and only if its value reaches 62 to the 11 |
| `KeyGen.ShortKeyId` | maas-api/internal/api_keys/keygen.go:38-39 | twelve zero bytes are encoded as one character |
| `KeyGen.ParsesIff` | maas-api/internal/api_keys/keygen.go:91-110 | parsing inverts printing: a key parses to two parts if and only if it is prefix, identifier, separator and secret with neither part empty and no separator in the identifier |
| `KeyGen.ParseErrorIff` | maas-api/internal/api_keys/keygen.go:91-110 | a key that does not parse fails by its prefix, else by a missing separator, else by an empty part |
| `KeyGen.HashMeans` | maas-api/internal/api_keys/keygen.go:79-132 | a key is hashed from identifier, null character and secret; one that does not parse has no hash |
| `KeyGen.AcceptedIff` | maas-api/internal/api_keys/keygen.go:137-176 | the format check accepts exactly the printed forms of two non-empty base62 strings |
| `KeyGen.OwnPreHashIff` | maas-api/internal/api_keys/keygen.go:79-110 | no other parseable key is hashed from the same string if and only if that string splits into identifier and secret nowhere else |
| `KeyGen.AcceptedPreHashInjective` | maas-api/internal/api_keys/keygen.go:79-86 | accepted keys with one pre-hash string are the same key |
| `KeyGen.ParsedKeysCollide` | maas-api/internal/api_keys/keygen.go:79-110 | keys that parse but are not accepted can share a pre-hash string: a concrete pair |
| `KeyGen.GenerateAPIKey` | maas-api/internal/api_keys/keygen.go:47-77 | every generated key is accepted, parses back to its parts and hashes to the returned hash, within the length bounds |
| `AdminCache.JoinInjective` | maas-api/internal/auth/cached_admin_checker.go:159-164 | joining null-free names is injective except for the empty list and one empty name |
| `AdminCache.CacheKeyIdentifies` | maas-api/internal/auth/cached_admin_checker.go:159-164 | the same name with the same groups in any order (or no named group) always gives the same cache key; for null-free names nothing else does |
| `AdminCache.OwnKeyIff` | maas-api/internal/auth/cached_admin_checker.go:159-164 | no other named user shares a named user's cache key if and only if there is at most one group, it is null-free, and the name has no null character after its first position |
| `AdminCache.NulNamesCollide` | maas-api/internal/auth/cached_admin_checker.go:159-164 | a null character in a group name breaks this: a concrete pair |
| `AdminCache.CachedAdminChecker.IsAdmin` | maas-api/internal/auth/cached_admin_checker.go:78-128 | hit, miss, failure, cancellation and missing user: answer, cache, counters, and the size bound |
| `AdminCache.CachedAdminChecker.EvictExpired` | maas-api/internal/auth/cached_admin_checker.go:134-140 | removes exactly the entries past their expiry |
| `AdminCache.StoredMeans` | maas-api/internal/auth/cached_admin_checker.go:115-140 | what a store does to every later lookup: expired entries are gone, others are untouched, and the answer is served exactly as long as the lifetime for its sign if there was room |
| `AdminCache.StoreBounded` | maas-api/internal/auth/cached_admin_checker.go:115-123 | a store never takes the cache past its maximum |
| `AdminCache.RunsKeepInv` | maas-api/internal/auth/cached_admin_checker.go:78-140 | in every interleaving of checks each entry is backed by a delegate answer deposited under its key |
| `AdminCache.ServedFromDelegate` | maas-api/internal/auth/cached_admin_checker.go:78-128 | every cached answer served is a delegate answer for the same cache key (the same user and groups when both have null-free names), deposited less than its lifetime before the check read the clock; failed and cancelled checks deposit nothing |
| `AdminCache.ServedInSteps` | maas-api/internal/auth/cached_admin_checker.go:78-128 | the same in the steps of the run: a start, a delegate answer, a clock reading before the store and one at the start of the check served, closer together than the lifetime |
| `AdminCache.NeverTooLarge` | maas-api/internal/auth/cached_admin_checker.go:115-123 | the cache never exceeds its maximum size in any run |
| `AdminCache.CacheAgreesIff` | maas-api/internal/auth/cached_admin_checker.go:78-128 | in every run the cache agrees with a delegate of fixed verdicts if and only if the delegate gives one verdict to all users of one cache key |
| `Orders.LessIff` | maas-common/pkg/guardrail/merge.go:186-200 | the string order is decided at the first difference, a proper prefix coming first |
| `Text.TrimSpaceIs` | maas-discovery/internal/cache/informer.go:742-757 | trimming keeps one stretch of the string and drops only spaces around it |
| `Text.IsSpaceIff` | maas-discovery/internal/cache/informer.go:742-757 | what counts as space, by code point |
| `Text.DecimalReads` | maas-common/pkg/guardrail/compose.go:109-121 | the index in a source path is printed in decimal and reads back |
| `Orders.LessTotal` | maas-common/pkg/guardrail/merge.go:186-200 | the string order behind every comparator is a strict total order |
| `Orders.SortForgetsOrder` | maas-common/pkg/guardrail/merge.go:186-200 | stable sorting of tie-free elements forgets the input order |

## Left out

- HTTP handlers, middleware, logging, tracing, metrics export and audit records.
- Parsing of unstructured Kubernetes objects; the model starts from parsed values.
- The attachment resolver and the access checker are inputs: the resolver may give a different snapshot on every call, and the authorized set may be absent or its computation may fail.
- Texts of error messages.
- Construction of tenant infos from gateways and routes; a published list only has to name the tenants of the store.
- Timers, maximum waits and shutdown of the discovery workers; draining and rebuilding happen at any time.
- Convergence of the implicit default tenant when it is not listed: marking everything does not reach it.
- Failures of listers (subscriptions, model objects, informer stores).
- Inventory listings, highest-priority selection and the organization-admin views of the selector.
- Rate-limit identifiers are represented by the string that is hashed.
- List and Search of keys, key creation above the store, and the mock store; the syntax of UUIDs is a parameter.
- SQL text, connection pools, replication lag queries, and wrap-around of the 64-bit counters.
- Interleaving inside one routed read: a run of `ReadRouting` orders reads by the moment they set the health flag.
- Strings are sequences of code points; ill-formed UTF-8 is not represented.
- The background write of a reserved last-use time: its success or failure is a later UpdateLastUsed or ClearDebounceSlot.
- TLS, certificates, webhooks, Loki query enforcement, manager bootstrap and CRD types.
