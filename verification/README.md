# Verified models of authentik's core logic

This project models the self-contained state machines and interpreters at the centre of authentik and
proves properties of them in Dafny. Django, Postgres, Redis and the serializers appear only as maps,
sets and oracle functions. `dafny verify dfyconfig.toml` checks everything.

| files | component |
|---|---|
| `Tags.dfy`, `TagResolver.dfy`, `TagMeaning.dfy`, `TagAnswers.dfy` | the blueprint tag language: meaning, the mutable resolver, scoping and tag-freedom, what each tag answers |
| `Importer.dfy`, `ImportLaws.dfy`, `ImportSuccess.dfy`, `References.dfy` | the blueprint importer: one run, re-application, when it succeeds, primary-key rewriting |
| `FlowPlan.dfy`, `PlannerCache.dfy` | the flow plan object, the planner, its cache and the invalidating signals |
| `PolicyEngine.dfy`, `Groups.dfy` | the policy engine and the recursive group query |
| `Rbac.dfy` | mirroring group members into roles |
| `Licensing.dfy` | licence status over time |
| `Settings.dfy` | the closure of app settings |
| `Workers.dfy` | gunicorn worker ids |
| `Names.dfy` | repair of duplicate names |
| `Common.dfy` | what several components share |

## What the proofs say

**Tags.** `BlueprintEntry` is the resolver as written: a stack of the Enumerates entered through
`tag_resolver`, one mutable cell per Enumerate, and two ways in, one of which does not push. For every
tree and every blueprint whose context tags refer to one another acyclically it terminates, restores
the stack on a normal return, and gives the lexically scoped meaning of `!Value d` and `!Index d`. Values
that come out hold no tags when raw operands hold none. On failure the stack is not restored. Resolving
again on the same entry, above any leftover frames, is still right for every tree that is well-scoped (each
reference names an Enumerate entered around it) and for every tree that a fresh entry would resolve.
`RetryAfterFailure` shows a tree that is neither: it fails first and then resolves. What each tag answers is
stated on values: which branch `!If` takes, the truth tables of `!Condition`, first matches, Python indexing,
`!Enumerate` as a map, and merging key by key.

**Importer.** `validate` has no visible effect on a normal return, and a positive verdict is kept by
`apply`. A blueprint of plain entries is applied exactly when every entry, on the database its predecessors
leave, is inactive, to be absent, or accepted; the result is then exactly the effects of the entries in order,
and otherwise the first entry that does not run decides how the import ends. Entries with tag-free natural keys
settle: applying the blueprint again, whatever its second verdict, leaves the database as it was. Saved
references, in attributes and identifiers alike, are the primary keys of the objects that earlier entries kept
or saved, in one simultaneous pass that stops inside a list at its first unhashable element. `MUST_CREATED`
protects existing objects only when it is written as a literal.

**Flows.** Every run of edits keeps bindings and markers paired and loses no stage; without insertions a
plan is a queue. A plan holds one entry for each binding of the flow whose policies, if evaluated on planning,
pass, by `order`. A cached planner answers as a rebuilding one after every run of saves and deletions,
except that it serves an empty plan which rebuilding would refuse. A binding that moves to another flow
makes the cache stale exactly when the old flow's cached plans show it; a plan that is built between the deletion
signal and the deletion does so exactly when it is stored and contains the binding.

**Policies and groups.** The verdict is stated on the answers of the policies: negation turns a verdict around,
a failed policy counts as its binding says, a crash denies. The counting query and the evaluation of each
binding agree in MODE_ANY; in MODE_ALL they agree unless every policy passes while static bindings disagree.
The verdict does not depend on which results came from a correct cache. The group query is sound on every
parent graph. It is complete exactly when one more level would find nothing new, and for one starting group
exactly when its chain visits at most 20 groups.

**Licences.** READ_ONLY is absorbing, and erasing the cleanups from a run changes no later status. The comment
at authentik/enterprise/models.py:72 promises that the user limit is enforced, and it is not: a status inside
the two-week grace period is itself recorded as VALID and renews that period. With too many users ever since
the first VALID record, the status stays VALID exactly while rows are at most a fortnight apart. For any history
of user counts it is VALID exactly when such rows lead from a time when the limit held up to now; every other
status of every run has its exact condition too.

**The rest.** RBAC mirroring is exact along a run exactly when every event is followed: the handlers update the
roles of the changed groups only, so a change in a parent group must make no difference below it. Without
parents every event is followed. Removing a role that a group does not have breaks the mirror exactly when the
groups share users. Settings loading yields the same closure in every iteration order. Worker ids never have
more than two claims, and a reload keeps that exactly when no reopened id is held twice. The name migration
always ends with distinct names.

## Model

| member | source | states |
|---|---|---|
| `TagResolver.BlueprintEntry.Resolver` | authentik/blueprints/v1/common.py:133-153 | `tag_resolver` gives the meaning of the tree in the current stack and cells; on a normal return stack and cells are as before, on failure the stack may keep frames of Enumerates of the tree and keeps the frame of an Enumerate at its root |
| `TagResolver.BlueprintEntry.ResolverAll` | authentik/blueprints/v1/common.py:143-148 | the loops over lists and mappings resolve every element and keep stack and cells |
| `TagResolver.BlueprintEntry.DirectTag` | authentik/blueprints/v1/common.py:239-680 | each tag's own `resolve`, entered without pushing, gives its meaning in the current stack and cells |
| `TagResolver.BlueprintEntry.OperandValue` | authentik/blueprints/v1/common.py:491-503 | an operand that is a tag is resolved directly, any other is taken as it stands |
| `TagResolver.BlueprintEntry.OperandValues` | authentik/blueprints/v1/common.py:355-361 | the argument loops of Format and Condition, in order, stopping at the first error |
| `TagResolver.BlueprintEntry.GetItem` | authentik/blueprints/v1/common.py:114-131 | `!Value d` and `!Index d` read the d-th entered Enumerate from the top, and fail on a bad depth or an empty cell |
| `TagResolver.BlueprintEntry.RunEnumerateTag` | authentik/blueprints/v1/common.py:531-561 | an Enumerate resolves its iterable with its own slot empty and then visits the pairs |
| `TagResolver.BlueprintEntry.VisitAll` | authentik/blueprints/v1/common.py:561-577 | the loop fills the cell for each pair, folds the bodies, and resets the cell on every exit |
| `TagResolver.EnumerateNotReentered` | authentik/blueprints/v1/common.py:531-577 | with acyclic context tags no Enumerate is reached again from its own iterable or body, however context values are shared |
| `TagMeaning.SameResolve` | authentik/blueprints/v1/common.py:133-153 | environments that show the same items below a depth limit, where no reachable Enumerate is in use, give the same result to every tree scoped below the limit; to every tree that resolves in the second one, if it shows nothing beyond the limit; without a limit to every tree |
| `TagMeaning.MachineIsLexical` | authentik/blueprints/v1/common.py:114-153 | stack and cells give every tree its lexically scoped meaning, also above frames that failures of other trees left |
| `TagMeaning.ScopedIsLexical` | authentik/blueprints/v1/common.py:114-153 | a tree whose `!Value d` and `!Index d` all have d below the number of entered Enumerates around them keeps its lexical meaning above any leftover frames, its own included |
| `TagMeaning.ResolvedIsLexical` | authentik/blueprints/v1/common.py:114-153 | so does every tree that a fresh entry resolves, stray references in branches never taken included |
| `TagMeaning.Retry` | authentik/blueprints/v1/common.py:133-153 | resolving such trees again on an entry is right after any number of failures |
| `TagMeaning.ResolveFresh` | authentik/blueprints/v1/common.py:95-96 | a fresh entry resolves every tree to its lexically scoped meaning |
| `TagMeaning.EnumerateRebuildsSequence` | authentik/blueprints/v1/common.py:513-519 | enumerating a sequence into SEQ with body `!Value 0` gives the sequence back |
| `TagMeaning.EnumerateRebuildsMapping` | authentik/blueprints/v1/common.py:513-577 | enumerating a mapping into MAP with body `[!Index 0, !Value 0]` gives the mapping back, in order |
| `TagMeaning.MergedFieldReadsBack` | authentik/blueprints/v1/common.py:515-518 | merging one scalar field into a MAP result: it reads back under its key through `!AtIndex`, and every other key reads as before |
| `TagMeaning.RetryAfterFailure` | authentik/blueprints/v1/common.py:133-153 | the witness that scoping is needed, as there is no `finally` around the stack: a tree that is not well-scoped fails and then, resolved again on the same entry, succeeds |
| `TagMeaning.ResolveTagFree` | authentik/blueprints/v1/common.py:133-153 | resolution of a tree with tag-free raw operands in a tag-free environment holds no tags |
| `TagMeaning.VisitTagFree` | authentik/blueprints/v1/common.py:563-577 | every pair an Enumerate exposes is tag-free, so its result is |
| `TagMeaning.TagFreeIsFixed` | authentik/blueprints/v1/common.py:133-153 | data without tags resolves to itself |
| `TagAnswers.IfAnswers` | authentik/blueprints/v1/common.py:491-503 | `!If` resolves its second branch for null, false, 0, "" and empty collections, its first for anything else, and turns a TypeError there into an invalid entry |
| `TagAnswers.IfSelects` | authentik/blueprints/v1/common.py:498-501 | with plain branches it is the chosen branch |
| `TagAnswers.CollectedAnswers` | authentik/blueprints/v1/common.py:355-361 | several results are all their values in order, or the first error |
| `TagAnswers.CollectionAnswers` | authentik/blueprints/v1/common.py:143-148 | a list resolves to its resolved elements, a mapping to the same keys over them |
| `TagAnswers.ConditionAnswers` | authentik/blueprints/v1/common.py:436-471 | AND holds iff all arguments are true, OR iff one is, XOR iff an odd number is, with their negations; no arguments or an unknown mode are invalid |
| `TagAnswers.ContextAnswers` | authentik/blueprints/v1/common.py:317-323 | `!Context` is the context value under the key, or the default without it |
| `TagAnswers.KeyOfAnswers` | authentik/blueprints/v1/common.py:239-252 | `!KeyOf` is the key of the first entry with the id and an instance, the binding target's key for policy bindings, and fails without one |
| `TagAnswers.ExternalAnswers` | authentik/blueprints/v1/common.py:270-339 | variables fall back when unset or empty, files when unreadable, and bad JSON is invalid |
| `TagAnswers.AtList` | authentik/blueprints/v1/common.py:662-674 | indices count around a list from either end; outside it the default applies, and without one the entry is invalid |
| `TagAnswers.AtMapping` | authentik/blueprints/v1/common.py:675-680 | a mapping gives the value under the key, or the default |
| `TagAnswers.EnumerateRefuses` | authentik/blueprints/v1/common.py:532-559 | an Enumerate over its own item, over nothing iterable or with an unknown output is invalid |
| `TagAnswers.EnumerateMaps` | authentik/blueprints/v1/common.py:556-577 | an Enumerate into SEQ is the list of its bodies, each resolved with its own pair, or the first error |
| `TagAnswers.EnumerateCollects` | authentik/blueprints/v1/common.py:515-577 | an Enumerate into MAP whose bodies are pairs with distinct keys is the mapping of those pairs |
| `TagAnswers.ItemAnswers` | authentik/blueprints/v1/common.py:591-633 | `!Value d` and `!Index d` read the d-th slot outwards |
| `TagAnswers.MergeAnswers` | authentik/blueprints/v1/common.py:515-518 | merging joins lists, merges mappings key by key, and replaces anything else |
| `Importer.BlueprintImporter.RenameInPlace` | authentik/blueprints/v1/importer.py:214-232 | the loop over a list renames known keys in place up to the first unhashable element |
| `Importer.BlueprintImporter.UpdatePks` | authentik/blueprints/v1/importer.py:211-232 | every attribute is renamed once, whatever the order of the attributes |
| `Importer.RaisingChangesOnlyFailures` | authentik/blueprints/v1/importer.py:400-408 | `raise_errors` changes how a run fails, never whether it fails or what it did |
| `Importer.BlueprintImporter.ApplyModels` | authentik/blueprints/v1/importer.py:384-444 | the loop over entries is the specified run from an empty primary-key map |
| `Importer.BlueprintImporter.Apply` | authentik/blueprints/v1/importer.py:372-382 | the database changes only if every entry was applied |
| `Importer.BlueprintImporter.Validate` | authentik/blueprints/v1/importer.py:446-463 | the database is always as before, entry states are as before on a normal return, a wrong version is rejected |
| `Importer.BlueprintImporter.ValidateThenApply` | authentik/blueprints/v1/importer.py:446-463 | validating first does not change what applying does; a positive verdict implies a successful apply |
| `ImportLaws.TagLanguageKeepsPlainData` | authentik/blueprints/v1/common.py:155-169 | the tag language meets the assumption that plain fields resolve to themselves |
| `ImportLaws.PlainDecision` | authentik/blueprints/v1/importer.py:252-361 | for a tag-free entry with a natural key the decision depends only on the desired state and the matching objects |
| `ImportLaws.WriteLaw` | authentik/blueprints/v1/importer.py:412-432 | saving gives the object the entry's key and data, is idempotent, and is invisible to entries with other keys |
| `ImportLaws.DeleteLaw` | authentik/blueprints/v1/importer.py:437-443 | ABSENT leaves no matching object and is invisible to entries with other keys |
| `ImportLaws.TurnLaw` | authentik/blueprints/v1/importer.py:387-443 | one successful turn settles its entry, idempotently, and no other |
| `ImportLaws.PrefixLaw` | authentik/blueprints/v1/importer.py:384-444 | after n successful turns the first n entries are settled, and a settled database is not changed |
| `ImportLaws.SecondApply` | authentik/blueprints/v1/importer.py:372-444 | a successful apply settles every entry, and a second one changes nothing |
| `ImportLaws.ApplyTwice` | authentik/blueprints/v1/importer.py:372-382 | after an accepted apply a second apply, whatever its verdict, leaves the database as it was |
| `ImportLaws.MustCreatedUpdatesExactly` | authentik/blueprints/v1/importer.py:304-338 | an entry resolving to MUST_CREATED updates an existing object exactly when its model is known, it validates, it finds an object, and its unresolved state is not the literal |
| `ImportLaws.MustCreatedLiteral` | authentik/blueprints/v1/importer.py:319-327 | spelled out, MUST_CREATED neither saves, keeps nor deletes when an object is found |
| `ImportLaws.TaggedMustCreatedUpdates` | authentik/blueprints/v1/importer.py:304-318 | the witness: with `must_created` coming from a `!Context` tag an existing object is overwritten |
| `ImportLaws.ValidatedDecision` | authentik/blueprints/v1/importer.py:398-443 | whatever tags an entry holds: valid it is saved, kept or deleted by the state it asks for, invalid it is refused unless it is to be absent |
| `ImportSuccess.StepExactly` | authentik/blueprints/v1/importer.py:387-443 | a turn for a plain entry runs exactly when model and shapes are right and the entry is inactive, to be absent, or accepted; it then has exactly the entry's effect on the database, and none otherwise |
| `ImportSuccess.PrefixExactly` | authentik/blueprints/v1/importer.py:384-444 | so for the first n entries, each judged on the database its predecessors leave |
| `ImportSuccess.ApplyPlain` | authentik/blueprints/v1/importer.py:372-382 | applying plain entries is accepted exactly when all of them run and leaves exactly their effects; otherwise nothing, with the verdict of the first that does not run |
| `ImportSuccess.SteadySuccess` | authentik/blueprints/v1/importer.py:384-444 | with a serializer that does not look at the database, success is read off the entries beforehand |
| `ImportSuccess.UnresolvedFields` | authentik/blueprints/v1/importer.py:254-289 | conditions and identifiers that do not resolve make the entry invalid or stop the import, by the kind of error |
| `ImportSuccess.UnresolvedAttributes` | authentik/blueprints/v1/importer.py:339-342 | so do attributes, where a ValueError is invalid too |
| `ImportSuccess.SavedUnder` | authentik/blueprints/v1/importer.py:299-338 | an object is saved under the one found, else under its given primary key, else under a new one |
| `ImportSuccess.CollectionAsKey` | authentik/blueprints/v1/importer.py:433-434 | a raw primary key that is a collection stops the import after the save |
| `ImportSuccess.HitsExactly` | authentik/blueprints/v1/importer.py:234-250 | identifiers find the objects of the model that have all their values, mappings by containment |
| `ImportSuccess.PkHits` | authentik/blueprints/v1/importer.py:234-250 | a primary key finds its own object; with other identifiers either is enough |
| `ImportSuccess.ImportedKeyOf` | authentik/blueprints/v1/common.py:239-252 | in an import `!KeyOf` refers to the instance of the first such entry, by its other key for a policy binding |
| `References.Import.AppliedInstance` | authentik/blueprints/v1/importer.py:412-436 | an applied entry records the very object it kept or saved, which is in the database, and maps its raw key to that object's key |
| `References.Import.MapIsReferent` | authentik/blueprints/v1/importer.py:433-435 | the renaming map sends a raw key to the primary key of the object of the last entry applied under it, which stays recorded, and knows no other keys |
| `References.Import.RenameIsActual` | authentik/blueprints/v1/importer.py:214-218 | rewriting is one simultaneous renaming |
| `References.Import.ValueRewritten` | authentik/blueprints/v1/importer.py:220-232 | the pass replaces a scalar reference, and the elements of a list or mapping before its first unhashable one, by the actual primary keys |
| `References.Import.SavedReferences` | authentik/blueprints/v1/importer.py:289-344 | every field the saved object gets from attributes, identifiers or both is the merge of the rewritten attribute and the rewritten identifier, with a mapping `{pk: x}` standing for `x` |
| `References.Import.ExpectedIdentifiers` | authentik/blueprints/v1/importer.py:289-293 | a scalar identifier is its referent's primary key even if attributes have the field, a list is rewritten and appended to a list attribute, a mapping with a `pk` is its rewritten `pk` |
| `References.DeciderIsHonest` | authentik/blueprints/v1/importer.py:252-361 | the program's decisions meet the assumptions of the reference theorems |
| `FlowPlans.FlowPlan.Append` | authentik/flows/planner.py:74-77 | appends one pair |
| `FlowPlans.FlowPlan.InsertStage` | authentik/flows/planner.py:79-82 | inserts one pair where Python's list insertion puts it |
| `FlowPlans.FlowPlan.Next` | authentik/flows/planner.py:90-108 | drops exactly the longest rejected prefix and returns the first accepted binding, if any |
| `FlowPlans.RejectedExactly` | authentik/flows/markers.py:41-75 | the dropped prefix is exactly the re-evaluated stages in front whose policies do not pass |
| `FlowPlans.FlowPlan.Pop` | authentik/flows/planner.py:110-115 | drops the first pair, if any |
| `FlowPlans.FlowPlan.RequiresFlowExecutor` | authentik/flows/planner.py:122-139 | true exactly when no silent types are given or some stage is not silent or is re-evaluated |
| `FlowPlans.FlowPlan.Play` | authentik/flows/planner.py:70-115 | any run of edits on the two lists is the run on pairs |
| `FlowPlans.Conservation` | authentik/flows/planner.py:70-115 | every planned, appended or inserted entry is left over or was removed exactly once |
| `FlowPlans.PlannedOrder` | authentik/flows/planner.py:90-115 | without insertions removed entries followed by the rest are the plan followed by what was appended; popped stages are a subsequence of it |
| `PlannerCache.PrefixIsFlow` | authentik/flows/planner.py:51-56 | a key starts with a flow's prefix exactly when it is that flow's key |
| `PlannerCache.KeysAreDistinct` | authentik/flows/planner.py:51-56 | different flows or users have different keys |
| `PlannerCache.Server.BuildPlan` | authentik/flows/planner.py:315-360 | the appending loop builds the filter of the ordered bindings with their markers |
| `PlannerCache.FreshExactly` | authentik/flows/planner.py:315-360 | a built plan has one entry for each binding of the flow whose policies, if evaluated on planning, pass, and no other, by `order`, marked for re-evaluation exactly when its binding asks for it |
| `PlannerCache.Server.Plan` | authentik/flows/planner.py:241-293 | planning is the specified step: policies, cache hit, build, store before the emptiness check |
| `PlannerCache.PlanExactly` | authentik/flows/planner.py:241-293 | a denied flow does not apply, a cached plan is served unless the caller or the flow forbids it, and a built plan is refused exactly when nothing may be shown and empty plans are not allowed |
| `PlannerCache.Server.DeleteCachePrefix` | authentik/flows/signals.py:16-20 | removes exactly the keys with the flow's prefix and counts them |
| `PlannerCache.Server.InvalidateStage` | authentik/flows/signals.py:44-49 | the loop over bindings removes exactly the plans of the flows that use the stage |
| `PlannerCache.CacheAfter` | authentik/flows/signals.py:31-49 | a save or deletion forgets the plans of exactly the flows it concerns |
| `PlannerCache.StepKeepsCoherent` | authentik/flows/signals.py:31-49 | plans, saves, deletions and expiry keep every cached plan equal to a fresh build |
| `PlannerCache.RunKeepsCoherent` | authentik/flows/signals.py:31-49 | so does every run |
| `PlannerCache.CacheRefinesRebuilding` | authentik/flows/planner.py:274-293 | after any run the cached planner answers as a rebuilding one, except exactly for a hit on an empty plan |
| `PlannerCache.EmptyPlanIsServed` | authentik/flows/planner.py:288-293 | the empty plan is stored before the check: a second request succeeds where the first raised |
| `PlannerCache.MovingABinding` | authentik/flows/signals.py:41-43 | moving a binding leaves a stale plan exactly when a cached plan of the old flow shows it |
| `PlannerCache.MovedAfterPlanning` | authentik/flows/signals.py:41-43 | the witness: one binding, planned and then moved, leaves a stale plan |
| `PlannerCache.PlanDuringDelete` | authentik/flows/signals.py:31-43 | a plan built between the deletion signal and the deletion breaks the cache exactly when the flow passes, the cache is used and the plan contains the binding |
| `PolicyEngine.CountingIsEvaluating` | authentik/policies/engine.py:105-141 | for a user with a primary key the counted result is "some static binding passes", and is absent exactly without static bindings |
| `PolicyEngine.CountingAnonymousUsers` | authentik/policies/engine.py:105-141 | a user without a primary key is denied by any static binding; evaluation would pass them exactly for a negated one |
| `PolicyEngine.OutcomeExactly` | authentik/policies/process.py:83-106 | a binding lets the user pass exactly when its policy's verdict, or the user's or group's match, differs from `negate`; a failed policy counts as `failure_result`, a crash denies |
| `PolicyEngine.Engine.Evaluate` | authentik/policies/engine.py:163-187 | the loop gathers one result for each binding, from the cache or by evaluation, keeps the cache correct, stores nothing of a crashed policy, and raises exactly for root policies |
| `PolicyEngine.Engine.Result` | authentik/policies/engine.py:190-211 | sorts the processes by order and combines results and messages |
| `PolicyEngine.Engine.Check` | authentik/policies/engine.py:143-211 | closed form of the verdict over a queryset, independent of a correct cache |
| `PolicyEngine.Engine.CheckEach` | authentik/policies/engine.py:158-163 | closed form of the verdict over a plain iterable |
| `PolicyEngine.CountingAgainstEach` | authentik/policies/engine.py:158-207 | the two paths agree in MODE_ANY, and in MODE_ALL exactly unless all policies pass while static bindings disagree; always with at most one static binding |
| `PolicyEngine.StaticBindingsDisagree` | authentik/policies/engine.py:158-207 | the witness: two user bindings, one fitting, on which counting passes and evaluating does not |
| `PolicyEngine.SortedLaws` | authentik/policies/engine.py:193-194 | sorting orders the processes and keeps them all |
| `Groups.WithParents` | authentik/core/models.py:140-170 | the recursive query terminates with at most 20 rows for each starting group and returns exactly the ancestors at depth below 20 |
| `Groups.QueryIsSound` | authentik/core/models.py:140-170 | on every parent graph the result lies between the start and its closure |
| `Groups.QueryIsClosure` | authentik/core/models.py:65-65 | for any starting groups it is the closure exactly when one more level would find no new group; chains that visit at most 20 groups each are enough |
| `Groups.OneChainExactly` | authentik/core/models.py:65-65 | for one starting group the closure is reached exactly when the chain visits at most 20 groups |
| `Groups.TwentiethParentIsLost` | authentik/core/models.py:65-65 | the witness: a group 20 parents up is an ancestor that the query does not return |
| `Groups.AllGroups` | authentik/core/models.py:310-312 | the groups of a user are the groups of the query's rows |
| `Groups.Membership` | authentik/core/models.py:229-231 | `is_member` and `is_superuser` are about the ancestors fewer than 20 parents up; they imply membership in the closure, and are equivalent to it when one more level would find nothing new |
| `Rbac.UpdateRoles` | authentik/rbac/signals.py:54-59 | the loop adds or removes the users in exactly the given roles |
| `Rbac.UpdateGroups` | authentik/rbac/signals.py:80-87 | the nested loops add or remove the user in exactly the roles of the given groups |
| `Rbac.Directory.AddRoles` | authentik/rbac/signals.py:36-60 | roles used by another group are refused; otherwise the users of the group and its parents are added |
| `Rbac.Directory.RemoveRoles` | authentik/rbac/signals.py:57-59 | the users of the group and its parents are removed from the roles |
| `Rbac.Directory.ChangeUsers` | authentik/rbac/signals.py:63-79 | membership changes on the group side reach the group's roles |
| `Rbac.Directory.ChangeGroups` | authentik/rbac/signals.py:80-87 | membership changes on the user side reach the roles of all the groups |
| `Rbac.Directory.DeleteGroup` | authentik/rbac/signals.py:25-31 | the roles of a deleted group lose all users |
| `Rbac.Directory.DeleteRole` | authentik/rbac/signals.py:32-33 | a deleted role disappears with its users |
| `Rbac.UsesAfter` | authentik/rbac/signals.py:36-60 | adding roles takes place exactly when no other group uses one of them; removals and deletions take exactly their own assignments |
| `Rbac.RunMirrors` | authentik/rbac/signals.py:25-87 | over every run a role has at most one group and its user set contains the group's direct members |
| `Rbac.EventExactly` | authentik/rbac/signals.py:25-87 | an event keeps every user set equal to the users of the role's group and its parents exactly when it is followed: users gained by a parent are users already, users lost by a group are not provided by a parent, users lost by a parent still are, and a deleted group's chain provides no others |
| `Rbac.RunExactly` | authentik/rbac/signals.py:25-87 | on every parent graph the user sets are exact all along a run exactly when every event is followed |
| `Rbac.RunIsExact` | authentik/rbac/signals.py:25-87 | without parents every event is followed: the user set equals the members, and is empty without a group |
| `Rbac.ParentIsNotFollowed` | authentik/rbac/signals.py:72-79 | the witness: a user added to a parent group does not get the role of its child |
| `Rbac.RemovingForeignRoles` | authentik/rbac/signals.py:57-59 | removing a role the group does not have keeps the mirror exactly when the owner shares no user with it |
| `Rbac.ForeignRoleIsLost` | authentik/rbac/signals.py:57-59 | the witness: a common member of two groups loses a role when the other group removes it |
| `Licensing.GetTotal` | authentik/enterprise/license.py:131-143 | the loop sums the valid licences and finds the latest expiry |
| `Licensing.SumsAddUp` | authentik/enterprise/license.py:134-138 | allowances add up over licences, each counting until it expires |
| `Licensing.LatestIsMaximum` | authentik/enterprise/license.py:139-142 | the total expiry is the maximum of the expiries |
| `Licensing.LastValidIsLatest` | authentik/enterprise/license.py:160-168 | the last valid date is the latest date of a valid row, or the epoch |
| `Licensing.UsageTable.RecordUsage` | authentik/enterprise/license.py:200-215 | adds a row with the current status unless one is eight hours old or younger |
| `Licensing.UsageTable.CleanExpired` | authentik/core/tasks.py:25-32 | drops exactly the expired rows |
| `Licensing.CleanupIsInvisible` | authentik/enterprise/models.py:20-28 | erasing every cleanup from a run leaves the status unchanged at the end and at every later time |
| `Licensing.ReadOnlyIsAbsorbing` | authentik/enterprise/license.py:170-215 | once READ_ONLY, a fixed installation stays so through every later run |
| `Licensing.ValidRunExactly` | authentik/enterprise/license.py:170-215 | for every history of user counts and every run, VALID holds exactly when a licence is far from expiry and the limit holds now, or rows at most a fortnight apart lead from a time when it held up to now |
| `Licensing.StatusExactly` | authentik/enterprise/license.py:170-198 | every status exactly: by the age of the last valid row at two, four and six weeks while the limit is exceeded, else by the latest expiry |
| `Licensing.RunStatusExactly` | authentik/enterprise/license.py:170-215 | the same over every run and every history of user counts, with valid rows described by record times, user counts and expiry |
| `Licensing.LimitIsNeverEnforced` | authentik/enterprise/license.py:176-198 | while the newest row is at most a fortnight old at every event, with cleanups and redundant records in between, the status stays VALID for any later history of user counts |
| `Licensing.LimitIsEnforcedExactly` | authentik/enterprise/license.py:176-198 | with the limit exceeded ever since a first VALID record, the status is VALID exactly for such a run: one gap of more than a fortnight ends it for good |
| `Licensing.ExceededAndValid` | authentik/enterprise/license.py:176-198 | the witness: one licensed user, five users, records two weeks apart, and VALID after four weeks |
| `Settings.Loader.FilterAndUpdate` | authentik/root/settings.py:532-536 | in any order, loads every app it is given and every app that appears, and terminates |
| `Settings.Loader.UpdateSettings` | authentik/root/settings.py:539-562 | lists what the module declares and loads everything new |
| `Settings.Setup.ClosureIsLeast` | authentik/root/settings.py:528-562 | derivable apps lie in every closed pair of lists that holds the starting lists |
| `Settings.LoadAll` | authentik/root/settings.py:575-580 | the lists hold exactly the derivable apps in every iteration order; INSTALLED_APPS has no duplicates and equals the final SHARED_APPS, in which the shared apps come first, the starting ones in front, then the tenant-only apps in the order of TENANT_APPS |
| `Settings.DedupeAbsorbs` | authentik/root/settings.py:578-580 | appending names that are already there changes nothing after deduplication |
| `Settings.DedupeSplits` | authentik/root/settings.py:578-580 | the first occurrence of every name survives, in order |
| `Workers.ReloadExactly` | lifecycle/gunicorn.conf.py:95-97 | a reload keeps the bound exactly when no reopened id has two live holders |
| `Workers.ReloadTooSoon` | lifecycle/gunicorn.conf.py:95-97 | the witness: a second reload while both generations live gives an id a third claim |
| `Workers.RunIsBounded` | lifecycle/gunicorn.conf.py:70-102 | over every calm run live holders plus openness of an id are at most 2 |
| `Workers.FreshId` | lifecycle/gunicorn.conf.py:89-92 | outside a reload a new id is in range and unheld |
| `Workers.AnIdExists` | lifecycle/gunicorn.conf.py:84-92 | an id exists while fewer workers live than there should be |
| `Workers.ReloadReissuesAll` | lifecycle/gunicorn.conf.py:84-102 | the n forks after a reload with n workers get each id from 1 to n exactly once |
| `Workers.Server.PreFork` | lifecycle/gunicorn.conf.py:84-102 | takes an open id, else a free one; fails only when there is none |
| `Names.FreeSuffix` | authentik/lib/migrations.py:23-31 | the search ends, by pigeonhole, at the least free suffix, at most the number of rows |
| `Names.DecimalReads` | authentik/lib/migrations.py:23-31 | suffixes are decimal numbers that read back |
| `Names.Migrate` | authentik/lib/migrations.py:13-33 | all names end up distinct; first occurrences keep theirs and later ones get a suffix of at least 2 |

## Modelling decisions

- Tag trees: a mapping is two parallel lists in insertion order; Python's equality of `True` and `1` as
  keys is not modelled. Every Enumerate carries an identity, so equal trees may be different objects.
- Environment variables, files, JSON, percent formatting and database lookups are oracle functions.
- The serializer stores the merged data: partially over an existing object, over the model's defaults
  for a new one. Its validation is an oracle, and saving does not fail.
- Natural keys: two entries of one model differ on an identifying scalar field that both have.
- Policy verdicts in the planner depend on the binding and the user only. Flow primary keys are UUIDs.
- Stage bindings with equal `order` come back in one fixed order, which dropping a row does not change.
- Adding to a many-to-many relation signals what was missing; removing signals everything asked for.
- Licences expire after the epoch, and events happen more than six weeks after it.

## Left out

- Views, middleware, websocket consumers, the OCI client, outpost controllers and the Go servers: they are I/O around
  this logic.
- YAML parsing and dumping, JWT and certificate checks, pickling: foreign code.
- Meta models, object permissions and IntegrityErrors raised while saving, in the importer: they would need the
  serializers.
- Aliasing between the blueprint context and resolved attributes: `!Context` returns the stored object itself, which
  the in-place rewriting may then change; the model works on values there.
- Markers that edit the plan they are processed in, and the plan's context dictionary.
- Invalidation of cached policy results: the key pattern of the signal names a policy key that cached results do not
  carry, so the engine is modelled with any correct cache.
- PolicyEngine.Engine.Check: the closed form assumes that each binding sets exactly one of policy, group and user,
  because the two counts filter other bindings differently.
- Role-side assignment and `clear` in RBAC, and deletion of users.
- Changing the parent of a group: no handler runs, so runs keep their parent graph up to deletions.
- Middleware, authentication backends and other settings that apps may extend: they would only add easy members.
- Time zones in licence expiry.
