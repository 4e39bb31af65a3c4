# Verification of the config compiler, DNS pipeline, core lifecycle and stores

This project models, in Dafny, the parts of ice-box where a small mistake changes
where traffic goes or loses track of a process, and proves what those parts keep.

| files | what they hold |
|---|---|
| `JsonValue`, `RuleKeys`, `RuleSemantics`, `FirstMatch`, `RuleRefs` | JSON values, rule members, the meaning of a rule and of a rule list, rule-set references |
| `ShareRules`, `ShareTable` | the share rewrite of route and DNS rules, as a function and as it runs on one table of definitions |
| `GeoListProofs`, `ShareMeaning`, `ShareNormalForm`, `SharePortable`, `ShareWitnesses`, `ShareDefinitions` | that the rewrite keeps the meaning of rules and lists, when nothing is lost, that its output is a normal form, the rules for which it is not faithful, and the definitions it adds |
| `ShareTags`, `ShareItems`, `ShareGroups` | unique tags, the items of a pasted document and the group trimming loop |
| `GeoBuild`, `GeoFiles`, `RouteBuild`, `RouteFilter`, `RouteValidation`, `RouteSteps`, `RoutePlan`, `RouteModes`, `RouteEmission`, `GeoResidue` | the runtime builder: geo expansion and its files, layering, filters, validation, download planning, decisions, what is emitted, and the legacy matchers it leaves behind |
| `DnsMode`, `DnsStrip`, `FakeIp`, `FakeIpServers`, `DnsPipeline`, `DnsClosure` | the legacy / modern DNS split, fake-ip narrowing, the three steps together |
| `CoreSpec`, `CoreOutcomes`, `CoreController` | the core lifecycle as a transition function, what each call comes to, and the controller that updates its fields |
| `JsonPointer`, `ForbiddenWalk`, `ForbiddenExemptions` | RFC 6901 pointers, the sanitizer walk that reports them, and the places it lets through |
| `Favorites`, `FavoritesLock`, `RuleOverrides`, `Cidr` | the favorites file and its lock, rule marks and their migration, address blocks |

`dafny verify dfyconfig.toml` checks everything.

## How the model reads the program

* **Meaning of a rule.** List values are alternatives, the fields of one rule must
  all hold, `invert` negates the whole rule, an empty list places no condition.
  That is the reading the code states itself (`crates/ice-config/src/build.rs:1746-1748`,
  `crates/ice-config/src/remote_rule_set.rs:158-160`, `crates/ice-config/src/share.rs:780-781`).
  A member the code does not interpret (`domain`, `port`, …) is an arbitrary condition
  on the flow, the same one before and after a rewrite. A logical rule is decided by
  its sub-rules, its mode and its `invert` alone. The first matching rule whose action
  ends the search decides; `sniff`, `resolve` and `route-options` do not end it.
* **Members that are no conditions** are those of `RULE_META_KEYS`
  (`crates/ice-config/src/share.rs:36-54`). `strategy` is not among them, so the share
  path treats it as a condition, and so does the model.
* **Objects** are finite maps: member order plays no part. Member names the rule code
  looks at are constructors of `RuleKeys.Key`, all others `Other(name)`.
* **The environment** of the core controller (spawner, probe, signal, `stop_process`,
  pid file writes, process table) answers each question of a call with an arbitrary
  value. `stop_process` returning Ok means the process is gone. There is one pid file.
* **Files** (downloaded rule-sets, `node-favorites.json`, `rules.json`) are values that
  change in one step. Which rule-set files exist, fingerprints, the text form of ids
  and the parsing of addresses are parameters; the lemmas about fingerprints assume no
  collisions and that no hash is canonical JSON text.
* **Masks** are a bitwise `and` on the numbers below 2^32 or 2^128.

## What the proofs found

The code is modelled as it is. Where a property one would expect fails, a lemma
names an input, and the condition under which the code does meet it is stated.

* Sharing a `geoip` / `geosite` list keeps its meaning if and only if `GeoListFaithful`
  holds (`GeoListExact`): `["private", "!private"]` is narrowed to private addresses
  (`PrivatePairRuleNarrows`), and a list whose codes are all invalid disappears, which
  widens a rule with another condition (`InvalidCodeRuleWidens`) and drops one without
  (`InvalidCodeAloneDropped`).
* A rule is shared with everything below it if and only if it is `Portable`, a condition
  on the rule and the tags defined before it (`PortableExact`). Otherwise
  it is dropped, or some `or` group in it loses an alternative. The copy may then miss a flow
  (`LostAlternativeNarrows`), or, under an odd number of `invert`s, capture a new one
  (`InvertedGroupWidens`). `ExpandWithin` bounds the copy on the side where nothing is lost.
* `geosite: "!cn"` is the category `!cn` for the runtime builder and the negation of
  `cn` for the share path; both read a list alike if and only if `SameReading` holds
  (`VerbatimExact`, `NegatedCategoryReadTwice`).
* A rule-set of a stored profile that stays remote and has the tag of a geo set keeps
  the downloaded file from being added; the local-only filter then removes it and every
  rule that needs it, although everything planned is on disk (`ShadowedRuleIsDropped`).
  Profiles as the parser leaves them hold local sets and markers only, so this concerns
  profiles stored before that filter; on parsed ones planner and builder agree without
  exception (`ParsedRulesEmitted`).
* The builder expands the legacy matchers of top-level rules only: a logical rule keeps
  those nested in it, and the emitted route or DNS rules hold one exactly when an emitted
  rule nests one (`RouteGeoExactly`, `DnsGeoExactly`, `NestedGeoIsEmitted`).
* A custom rule is looked at for its own outbound only: one whose nested rule names an
  outbound that is gone is emitted, and the whole build is refused
  (`CustomRuleValid`, `NestedOutboundRefused`).
* A filtered rule that would have decided is missed: a `hijack-dns` rule of a stored
  profile, when no earlier rule decides (`HijackRuleIsVisible`). When the deciding rule
  passes the filter, in any mode, the filter cannot be seen (`DroppedRulesInvisible`).
* A rule for another `clash_mode` is silent in Rule mode if and only if it is not
  inverted, so removing an inverted one is visible (`SilentInRuleMode`).
* Narrowing a fake-ip DNS rule leaves A queries alone, and keeps AAAA away from the
  server, in exactly the cases `KeepsA` and `BlocksAaaa` list: among rules that are not
  logical, inverted ones, `query_type: []` and non-textual types fall outside
  (`KeepsAExact`, `BlocksAaaaExact`). Narrowing a logical rule changes nothing it matches, so one can
  still send AAAA to a v4-only server (`LogicalNarrowingIsInert`,
  `LogicalRuleAnswersAaaa`).
* A favorites file that is there but cannot be read passes for empty, and the next
  favorite overwrites it (`UnreadableFileIsLost`). The file stays serial through a run if
  and only if no call ends on such a copy with another result (`RunsAreSerialExactly`).
* Un-favoriting does not bring back tags that were cut off at 500: the list equals the
  newest 500 if and only if the tag was not stored or nothing had been cut off
  (`UnfavoriteForgets`).
* The calls after which a core runs without a handle are listed exactly by
  `CoreSpec.Loses`, those that bring one up beside another by `CoreSpec.Beside`
  (`LosesExactly`, `BesideExactly`). `start` over a core that refused to stop is among
  them (`StartOverRetainedHandle`). A run never has two cores, if and only if it has no
  such call (`CarefulRunNeverTwo`).
* The sanitizer exempts `path` below any member called `transport`, at every depth, and
  below a number in `dns.servers` and `route.rule_set`, whether that is an array or an
  object with numbers for names; no other names can imitate these places
  (`ExemptExactly`, `CleanExactly`).
* The cleanup of marks on custom rules also re-enables a subscription rule that is
  equal to a removed custom rule (`CleanupExact`).

## Model

| member | source | states |
|---|---|---|
| `GeoListProofs.GeoAtomsKept` | `crates/ice-config/src/share.rs:795-828` | for every code list, the emitted atoms are the valid codes' conditions with `!private` swallowed by `private`, and the tag of every set they name is in the table |
| `GeoListProofs.GeoCodesExactly` | `crates/ice-config/src/share.rs:988-998` | a text is one code, trimmed and in lower case; a list gives the non-empty ones of its texts; anything else none |
| `GeoListProofs.GeoCodeExactly` | `crates/ice-config/src/share.rs:1000-1011` | a valid code has up to 64 letters, digits and dashes, and a `!` only after a dash |
| `GeoListProofs.CodeLiteralExactly` | `crates/ice-config/src/share.rs:802-815` | a leading `!` negates the code after it; `private` and `lan` of geo-ip lists are address classes, all else names a set |
| `GeoListProofs.OrAtomsMeaning` | `crates/ice-config/src/share.rs:830-874` | the rule compiled from a list of atoms matches a flow exactly when some atom does |
| `GeoListProofs.GeoListExact` | `crates/ice-config/src/share.rs:752-788` | the emitted list matches every flow as the original one does, if and only if `GeoListFaithful` |
| `GeoListProofs.GeoListBoundedExact` | `crates/ice-config/src/share.rs:752-788` | the emitted list is no wider, or no narrower, than the original on every flow, if and only if `GeoListBounded` on that side |
| `GeoListProofs.PlainListsAreFaithful` | `crates/ice-config/src/share.rs:795-828` | valid codes without a `private` / `!private` pair are enough |
| `GeoListProofs.PrivatePairNarrows` | `crates/ice-config/src/share.rs:806-815` | a flow the list `["private", "!private"]` matches and its copy does not |
| `GeoListProofs.InvalidCodeWidens` | `crates/ice-config/src/share.rs:795-828` | the conditions emitted for the list `["a.b"]`, none, hold of a flow the list itself does not match |
| `ShareMeaning.MergeMeaning` | `crates/ice-config/src/share.rs:920-941` | merging a single condition into the action members matches what the condition matches, the two `invert` flags combined by exclusive or |
| `ShareMeaning.AndRulePartsMeaning` | `crates/ice-config/src/share.rs:876-918` | the compiled rule matches exactly when the other fields and every geo part hold, negated by the rule's own `invert`, and keeps the action |
| `ShareMeaning.RewriteMeaning` | `crates/ice-config/src/share.rs:729-788` | a rule that survives the geo rewrite matches the same flows and has the same action, when its lists are faithful |
| `ShareMeaning.ExpandMeaning` | `crates/ice-config/src/share.rs:658-727` | the same for whole rule trees, nested and inverted, when no alternative of an `or` is lost |
| `ShareMeaning.ExpandWithin` | `crates/ice-config/src/share.rs:658-727` | the copy of a rule is no wider, or no narrower, than the rule, when everything lost and every list changed stands where that is harmless: alternatives are lost below an even number of `invert`s for the upper bound, an odd number for the lower |
| `ShareMeaning.ListDecision` | `crates/ice-config/src/share.rs:163-168` | a flow gets the same decision from the shared list when the deciding rule has a copy bounded from below and every rule before it is non-terminal or has a copy, if any, bounded from above; rules after it, and faithfulness of what is dropped, play no part |
| `SharePortable.SettledDecision` | `crates/ice-config/src/share.rs:163-168` | the same by a condition on the rules and the tags defined before the list: each rule up to the deciding one is faithful and portable, or survives and is safe on the side that matters; a flow no rule decides still gets the default |
| `SharePortable.VanishesIsDropped` | `crates/ice-config/src/share.rs:658-712` | a rule that vanishes by its own form and the tags there can be is dropped |
| `SharePortable.SurvivesIsShared` | `crates/ice-config/src/share.rs:658-712` | a rule that survives by its own form and the tags there are is shared, if not whole |
| `SharePortable.SafeIsBounded` | `crates/ice-config/src/share.rs:658-712` | a rule that is safe by its own form and those tags has a bounded copy, whatever was shared before |
| `SharePortable.TagsBounded` | `crates/ice-config/src/share.rs:962-986` | sharing a rule defines tags of its own geo lists only |
| `SharePortable.PortableExact` | `crates/ice-config/src/share.rs:658-788` | a rule is shared with all alternatives at every depth if and only if it is portable, and then defines exactly the tags of its geo lists |
| `ShareMeaning.ExpandNeverWidens` | `crates/ice-config/src/share.rs:674-712` | without inverted groups, the copy of a faithful rule matches nothing the original does not |
| `ShareWitnesses.LostAlternativeNarrows` | `crates/ice-config/src/share.rs:688-694` | an `or` rule and a flow it matches, where the copy has lost the alternative and does not match |
| `ShareWitnesses.InvertedGroupWidens` | `crates/ice-config/src/share.rs:688-694` | an inverted `or` rule and a flow it lets pass, where the copy has lost an alternative and matches |
| `ShareWitnesses.PrivatePairRuleNarrows` | `crates/ice-config/src/share.rs:806-815` | the shared copy of the rule `geoip: ["private", "!private"]` misses a flow the rule matches |
| `ShareWitnesses.InvalidCodeRuleWidens` | `crates/ice-config/src/share.rs:772-778` | the shared copy of a domain rule with an invalid category is the plain domain rule and matches a flow the rule does not |
| `ShareWitnesses.InvalidCodeAloneDropped` | `crates/ice-config/src/share.rs:772-778` | a rule of nothing but an invalid category is dropped |
| `ShareRules.ExpandShareRules` | `crates/ice-config/src/share.rs:658-727` | one input rule gives at most one output rule |
| `ShareTable.RuleSetTable.PushOwnSets` | `crates/ice-config/src/share.rs:564-574` | the loop over a profile's portable sets gives the table `ShareDefinitions.OwnSetsExactly` is about |
| `ShareTable.RuleSetTable.EnsureShareGeoSet` | `crates/ice-config/src/share.rs:962-986` | the returned tag and the new table are those of the specification that the meaning lemmas and `ShareDefinitions.EnsureDefines` are about |
| `ShareTable.RuleSetTable.PushGeoAtom` | `crates/ice-config/src/share.rs:795-828` | same, for one code pushed onto the atoms |
| `ShareTable.RuleSetTable.PushCodes` | `crates/ice-config/src/share.rs:752-763` | same, for the loop over one code list |
| `ShareTable.RuleSetTable.RewriteGeoShareRule` | `crates/ice-config/src/share.rs:729-788` | same, for one non-logical rule |
| `ShareTable.RuleSetTable.ExpandShareRules` | `crates/ice-config/src/share.rs:658-712` | same, for a rule tree, threading one table through the children |
| `ShareTable.RuleSetTable.ExpandAll` | `crates/ice-config/src/share.rs:163-168` | same, for a whole list: the result `ListDecision` and `ShareTwice` speak of |
| `ShareDefinitions.EnsureDefines` | `crates/ice-config/src/share.rs:962-986` | a valid code gets its tag; where that is free, one definition is appended, the remote binary set with this tag and the upstream URL of the code, and nothing else changes |
| `ShareDefinitions.ExpandDefines` | `crates/ice-config/src/share.rs:658-828` | sharing a rule appends such definitions only, for codes of its own geo lists, one for a tag, and the tags grow by exactly theirs |
| `ShareDefinitions.ListDefines` | `crates/ice-config/src/share.rs:163-168` | the same for a whole list |
| `ShareDefinitions.ExpandResolves` | `crates/ice-config/src/share.rs:658-727` | a shared rule names known outbounds and, at every depth, only sets whose tag has a definition |
| `ShareDefinitions.SharedRulesResolve` | `crates/ice-config/src/share.rs:158-168` | from a table that defines its own tags, every reference of every shared rule has its definition in the final table, whatever the rules are |
| `ShareDefinitions.SharedDocumentValid` | `crates/ice-config/src/share.rs:158-218` | with route and DNS rules shared through one table, the final validation fails if and only if the default outbound is unknown, and the DNS rules resolve too |
| `ShareDefinitions.OwnSetsExactly` | `crates/ice-config/src/share.rs:158-162` | the table a document starts from defines exactly the tags of the profile's portable sets, by these sets |
| `ShareDefinitions.SharingNeverRefused` | `crates/ice-config/src/share.rs:145-218` | whatever sets, rules, DNS rules and default outbound a profile brings, the validation at the end of sharing passes |
| `ShareNormalForm.RewriteStable` | `crates/ice-config/src/share.rs:782-787` | the final reference check never drops a compiled rule, and the output expands to itself under every larger table |
| `ShareNormalForm.ExpandStable` | `crates/ice-config/src/share.rs:658-712` | every output of the expansion expands, with the final tables, to that same single rule |
| `ShareNormalForm.ShareTwice` | `crates/ice-config/src/share.rs:163-168` | sharing a shared list again returns it and adds no definition |
| `ShareNormalForm.ExpandGeoFree` | `crates/ice-config/src/share.rs:658-788` | outputs of well-formed rules hold no `geoip` or `geosite` at any depth |
| `SharePortable.PortableIsShared` | `crates/ice-config/src/share.rs:658-788` | a rule whose outbounds, sets and codes are available is shared as exactly one rule and loses no alternative |
| `SharePortable.PortableMeaning` | `crates/ice-config/src/share.rs:658-941` | a portable, faithful rule is shared as one rule with the same matches and action |
| `ShareTags.PushUniqueOutbound` | `crates/ice-config/src/share.rs:446-457` | an outbound is added exactly when its tag is new; tags stay unique and complete |
| `ShareTags.PushShareItem` | `crates/ice-config/src/share.rs:311-344` | nodes, groups and tags after one item of a pasted document; groups stay stored under their own, unique tags |
| `ShareItems.PushedLookup` | `crates/ice-config/src/share.rs:311-344` | one item changes what is on record under its own tag only: it is recorded where the tag was free, and replaces a node if it is a WireGuard item |
| `ShareItems.DocumentExactly` | `crates/ice-config/src/share.rs:255-266` | after a whole document a tag is taken if and only if an item that passes its checks has it, and such an item is on record under it, as a group or as a node |
| `ShareTags.FreshShareTag` | `crates/ice-config/src/share.rs:551-562` | the preferred tag or the first free numbered one; never a taken one unless about 2^32 tags exist |
| `ShareGroups.RefreshTwice` | `crates/ice-config/src/share.rs:462-472` | refreshing a group against a smaller tag set after a larger one is refreshing it once against the smaller |
| `ShareGroups.RefreshLookup` | `crates/ice-config/src/share.rs:496-525` | a refreshed group keeps its live members in order, a default that is still a member, else the first member, else none, and every other field |
| `ShareGroups.Pass` | `crates/ice-config/src/share.rs:460-491` | one pass refreshes every group, then removes exactly the empty ones and their tags |
| `ShareGroups.TrimShareGroups` | `crates/ice-config/src/share.rs:459-494` | the loop ends, with the largest set of tags in which every group has a live member, and the surviving outbounds refreshed against it |
| `ShareGroups.ProfilePass` | `crates/ice-config/src/share.rs:347-375` | one pass over the groups of a profile refreshes each, then removes exactly the empty ones and their stored tags |
| `ShareGroups.TrimProfileGroups` | `crates/ice-config/src/share.rs:346-376` | the loop over a profile's groups ends with the same result, specified the same way |
| `ShareGroups.TrimmedIsClosed` | `crates/ice-config/src/share.rs:459-525` | in the result of either loop every group has members, all of them live tags, and a selector's default is one of them |
| `ShareGroups.ReachableSurvives` | `crates/ice-config/src/share.rs:346-376` | in either loop, a group from which a tag that is no group's is reachable through members is never removed; the outbound of that tag need not be in the list |
| `ShareGroups.OutboundSurvives` | `crates/ice-config/src/share.rs:474-477` | an outbound that is no group is kept as it is |
| `ShareGroups.TrimmedIsUnique` | `crates/ice-config/src/share.rs:459-494` | the result does not depend on the order of passes |
| `GeoBuild.PlannedRuleDrops` | `crates/ice-config/src/build.rs:1872-1913` | with every planned URL cached, a route or DNS rule is dropped if and only if its matcher is invalid or a code has neither a bundled file nor an upstream |
| `GeoBuild.PlannedMarkersResolve` | `crates/ice-config/src/build.rs:1707-1721` | with every planned URL cached, each download marker with a tag resolves to its downloaded copy |
| `GeoBuild.PlanIsEnough` | `crates/ice-config/src/remote_rule_set.rs:219-240` | one expansion of rules and rule-sets never reads a cached download outside their plan |
| `GeoBuild.VerbatimExact` | `crates/ice-config/src/build.rs:1879-1888` | the builder's rule-set list matches what the geo matcher says, if and only if every code is read as the share path reads it |
| `GeoBuild.ExpandedMeaning` | `crates/ice-config/src/build.rs:1872-1913` | a rule kept by the expansion matches the same flows with the same action |
| `GeoBuild.NegatedCategoryReadTwice` | `crates/ice-config/src/remote_rule_set.rs:106-120` | `geosite: "!cn"` has an upstream URL of its own, and the two paths read it differently |
| `GeoFiles.InvalidExactly` | `crates/ice-config/src/remote_rule_set.rs:161-190` | a matcher is invalid if and only if both kinds are there, or a kind that is expanded stands beside a `rule_set` or holds no text; otherwise its codes are the texts it holds |
| `GeoFiles.UpstreamExactly` | `crates/ice-config/src/remote_rule_set.rs:106-120` | the upstream URL of a two-letter country or a well-formed category, and none for any other code |
| `GeoFiles.GeoSetExactly` | `crates/ice-config/src/build.rs:1695-1705` | a code reads the bundled file of its name, else its downloaded copy, as a local set with its tag, and has no definition if and only if neither is there |
| `GeoFiles.MarkerExactly` | `crates/ice-config/src/build.rs:1707-1784` | a marker reads its downloaded copy, else a bundled file, under its own tag, and goes if and only if it has no tag or neither is there |
| `GeoFiles.ExpansionAddsFiles` | `crates/ice-config/src/build.rs:1891-1905` | an expansion appends the files of codes of its rules that had no definition, one for a name, and keeps all others |
| `GeoFiles.PlanIsNeeded` | `crates/ice-config/src/remote_rule_set.rs:219-240` | every planned URL that is not downloaded is missed by a marker, which does without its copy, or by a rule, which goes |
| `RouteValidation.KnownExactly` | `crates/ice-config/src/build.rs:2026-2060` | a rule passes the reference filter if and only if, at every depth, its `rule_set` is text or a list of texts that all have a definition, and no group is empty |
| `RouteValidation.ValidRouteExactly` | `crates/ice-config/src/build.rs:1949-2006` | a route passes validation if and only if its default outbound is known and each rule, at every depth, names a known outbound and defined sets and lists the rules of its group |
| `RouteFilter.FilterConcat` | `crates/ice-config/src/build.rs:706-728` | what a filter keeps of two lists in a row is what it keeps of each, so order and multiplicity stay |
| `RouteEmission.SubscriptionExactly` | `crates/ice-config/src/build.rs:706-728` | the emitted subscription rules are exactly what those rules become that are neither disabled nor the builder's own and whose references are defined |
| `RouteEmission.PlainRuleEmitted` | `crates/ice-config/src/build.rs:1480-1499` | an enabled rule without a geo matcher whose references are defined is emitted if and only if its action is neither `sniff` nor `hijack-dns` and its `clash_mode` is absent, no text, or `rule` in any case |
| `RouteEmission.CustomExactly` | `crates/ice-config/src/build.rs:739-767` | the emitted custom rules are exactly what those rules become that are not disabled, whose outbound is there and whose references are defined |
| `RouteEmission.DnsRuleEmitted` | `crates/ice-config/src/build.rs:1823-1938` | with everything planned on disk, a DNS rule is emitted if and only if it has no `geoip`, its `geosite` is valid and sourced, and the sets it names are defined |
| `RouteEmission.DefinitionsAreFiles` | `crates/ice-config/src/build.rs:719-775` | every definition of a built route reads a local file, and comes from a set of the profile or from a code of one of its rules |
| `RouteEmission.LocalDefinitionsStay` | `crates/ice-config/src/build.rs:719-775` | local sets of the profile stay, and so do the copies its markers get |
| `RouteEmission.BuiltRouteValid` | `crates/ice-config/src/build.rs:1949-2006` | a built route passes if and only if the default outbound and the outbounds of its rules are known, at every depth |
| `RouteEmission.CustomRuleValid` | `crates/ice-config/src/build.rs:2010-2024` | an emitted custom rule passes validation if and only if the rules nested in it name known outbounds |
| `RouteEmission.NestedOutboundRefused` | `crates/ice-config/src/build.rs:729-757` | a custom rule with which every build is refused, although its own outbound is there |
| `RouteBuild.ClosedReferences` | `crates/ice-config/src/build.rs:689-808` | every rule-set reference of every emitted route and DNS rule, at every depth of logical rules, is defined, and every definition is a local file |
| `RouteBuild.ValidationOnlySeesOutbounds` | `crates/ice-config/src/build.rs:1949-2008` | validating a built route can fail only on an unknown outbound, never on a rule-set or a missing rule list |
| `RouteBuild.ExpandedKnown` | `crates/ice-config/src/build.rs:1898-1912` | a rule whose references were defined still has them defined after expansion, and definitions only grow |
| `RouteSteps.SetList.constructor` | `crates/ice-config/src/build.rs:1760-1786` | profile rule-sets become local files or are dropped, in order |
| `RouteSteps.SetList.Lookup` | `crates/ice-config/src/build.rs:1891-1897` | all sets of a rule are found, or none is used |
| `RouteSteps.SetList.ExpandGeoRule` | `crates/ice-config/src/build.rs:1872-1913` | the rule and the list of definitions are those `ExpandedMeaning` and `ExpandedKnown` are about; a rule that is dropped adds no definition |
| `RouteSteps.SetList.ExpandGeoRules` | `crates/ice-config/src/build.rs:1788-1800` | same, for a list of rules sharing the definitions |
| `RouteSteps.BuildRoute` | `crates/ice-config/src/build.rs:689-808` | the layered list and its filters, step by step, give the route that `RouteModes`, `RouteBuild` and `RouteEmission` reason about |
| `RouteModes.RouteRefinesLayers` | `crates/ice-config/src/build.rs:689-776` | for every profile and flow: reserved and per-app rules decide first, then Global mode goes to the global target and Direct mode to `direct`, and only Rule mode sees custom, then subscription rules, then `final` |
| `RouteModes.SilentInRuleMode` | `crates/ice-config/src/build.rs:1480-1499` | a non-logical rule for another mode matches no flow in Rule mode, if and only if it is not inverted |
| `RouteModes.DroppedRulesInvisible` | `crates/ice-config/src/build.rs:708-718` | in every mode, removing the rules the filter removes changes no decision, unless nothing ahead decides and one of them would have |
| `RouteModes.HarmlessRulesInvisible` | `crates/ice-config/src/build.rs:1488-1499` | in Rule, Global and Direct mode that never happens if each removed rule is non-terminal or a plain rule for another mode |
| `RouteModes.HijackRuleIsVisible` | `crates/ice-config/src/build.rs:1488-1494` | a `hijack-dns` rule that decides is removed and the flow gets the default |
| `RoutePlan.PlannedRulesEmitted` | `crates/ice-config/src/build.rs:706-728` | planner and builder agree: with the planned URLs cached, a subscription rule is emitted if and only if its geo matcher is valid, each code has a source, no remote profile set holds the tag of one, and its own references are defined |
| `RoutePlan.ParsedRulesEmitted` | `crates/ice-subscription/src/lib.rs:535-553` | the same without the clause on remote sets, for profiles of local, `download` and `bundled` sets |
| `RoutePlan.ShadowedRuleIsDropped` | `crates/ice-config/src/build.rs:719-729` | a profile where that clause alone fails, and the rule is not emitted |
| `RoutePlan.SubscriptionEmitted` | `crates/ice-config/src/build.rs:712-729` | with everything planned on disk, a subscription rule is emitted if and only if it passes the filter, each of its codes has an unshadowed source and its references are defined |
| `RoutePlan.CustomEmitted` | `crates/ice-config/src/build.rs:739-767` | with everything planned on disk, a custom rule is emitted if and only if it is usable, its geo matcher is valid and each code has a source |
| `RoutePlan.DefinedTags` | `crates/ice-config/src/build.rs:719-728` | the tags rules may refer to are the profile's local sets and the unshadowed names of kept rules |
| `RoutePlan.BuildReadsOnlyThePlan` | `apps/desktop/src-tauri/src/rule_set_watch.rs:46-64` | with the URLs of the profile and the custom rules cached, subscription, custom and DNS expansion together do not depend on any other cached download |
| `GeoResidue.RouteGeoExactly` | `crates/ice-config/src/build.rs:1788-1800` | the emitted route holds a legacy geo matcher at some depth if and only if one of the builder's own rules does or an emitted profile rule nests one |
| `GeoResidue.DnsGeoExactly` | `crates/ice-config/src/build.rs:1832-1857` | the same for the DNS rules |
| `GeoResidue.PreparedGeoFree` | `crates/ice-config/src/build.rs:810-829` | the later DNS steps bring no legacy matcher back |
| `GeoResidue.NestedGeoIsEmitted` | `crates/ice-config/src/build.rs:1879-1882` | every build of a subscription with a certain logical rule emits the `geosite` nested in it |
| `RouteModes.SubscriptionDecides` | `crates/ice-config/src/build.rs:706-776` | a flow left to the profile that no emitted custom rule decides gets the decision of the subscription's original list, if the rule that decides it is emitted and each terminal rule up to it that is emitted is read as a plain set reference |
| `RouteModes.ProfileDecides` | `crates/ice-config/src/build.rs:689-776` | in every mode the emitted route decides as the layers over the original custom and subscription rules; of flows left to the profile this asks that the deciding rule is emitted and each emitted terminal rule up to it is read as a plain set reference |
| `RouteModes.PlannedProfileDecides` | `crates/ice-config/src/build.rs:689-776` | the same with everything planned on disk, by what is known before the build |
| `DnsMode.VisitRule` | `crates/ice-config-guard/src/lib.rs:386-396` | the visitor's flag ends true exactly when it was true or some object at any depth has the signal |
| `DnsMode.VisitRules` | `crates/ice-config-guard/src/lib.rs:377-384` | same, for a block |
| `DnsMode.StripAddressFamilyFields` | `crates/ice-config-guard/src/lib.rs:287-330` | the rule, count and verdict of the specification that `DnsStrip.DroppedExactly` and the strip lemmas are about |
| `DnsMode.StripSubRules` | `crates/ice-config-guard/src/lib.rs:266-282` | the index loop that removes rules in place gives the kept rules in order and the total count |
| `DnsMode.StripCounts` | `crates/ice-config-guard/src/lib.rs:291-296` | the count is the number of `query_type` and `ip_version` fields in the input, dropped subtrees included |
| `DnsMode.StripRemovesFamily` | `crates/ice-config-guard/src/lib.rs:287-308` | no rule at any depth keeps either field |
| `DnsMode.StripTwice` | `crates/ice-config-guard/src/lib.rs:287-330` | stripping a kept rule again changes and counts nothing |
| `DnsMode.StrippedStillConditional` | `crates/ice-config-guard/src/lib.rs:313-329` | a rule that lost a field is kept only with a condition or sub-rules left, so none comes to match every query; which rules that drops is `DnsStrip.DroppedExactly` |
| `DnsStrip.DroppedExactly` | `crates/ice-config-guard/src/lib.rs:309-330` | a rule is dropped if and only if every rule nested in it is, and it has nothing but the wrapper and the two fields, or it or a rule below it loses a field and it has no other condition |
| `DnsStrip.ConditionKeepsRule` | `crates/ice-config-guard/src/lib.rs:309-330` | a condition other than the two fields, at any depth, keeps the rule |
| `DnsStrip.LegacyBlockKept` | `crates/ice-config/src/build.rs:328-353` | in legacy mode a block keeps its length if and only if no rule is such, and then each rule stays in its place with every other member |
| `DnsStrip.ModernBlockUntouched` | `crates/ice-config/src/build.rs:328-353` | a block without a legacy signal is left alone |
| `DnsStrip.ConditionalBlockKept` | `crates/ice-config/src/build.rs:328-353` | rules that each have a condition somewhere all stay, in order |
| `DnsStrip.SomeNodeExactly` | `crates/ice-config-guard/src/lib.rs:386-396` | the visitor reaches exactly the rule objects some path of indices leads to |
| `DnsMode.StripKeepsSignals` | `crates/ice-config-guard/src/lib.rs:287-330` | stripping creates no signal that does not depend on the removed fields |
| `DnsMode.ReconcileLegacyDnsRules` | `crates/ice-config/src/build.rs:328-353` | the classification, rejection and strip give the result the consistency lemma is about |
| `DnsMode.ReconcileConsistent` | `crates/ice-config/src/build.rs:315-353` | an accepted block has no legacy signal at any depth, or has neither address-family fields nor modern features |
| `FakeIp.StripFakeIp` | `crates/ice-config/src/build.rs:369-423` | the retained rules are those `PlainRulesAreSafe` and `FakeIpServers.NoAaaaWithoutIpv6` are about |
| `FakeIp.NarrowOne` | `crates/ice-config/src/build.rs:396-422` | keep or drop one rule, and how its `query_type` is narrowed |
| `FakeIp.KeepsAExact` | `crates/ice-config/src/build.rs:396-422` | A queries are matched by the narrowed rule as before, if and only if `KeepsA` |
| `FakeIp.LogicalNarrowingIsInert` | `crates/ice-config/src/build.rs:407-413` | a logical rule that stays matches every query as before |
| `FakeIp.LogicalRuleAnswersAaaa` | `crates/ice-config/src/build.rs:407-413` | a logical rule that, narrowed, still sends an AAAA query to a v4-only fake-ip server |
| `FakeIp.ListKeepsA` | `crates/ice-config/src/build.rs:369-423` | A decisions of a whole list are unchanged when every rule meets `KeepsA` |
| `FakeIp.BlocksAaaaExact` | `crates/ice-config/src/build.rs:396-422` | the narrowed rule matches no AAAA query, if and only if it is dropped, or is a logical rule that matched none, or is not inverted and textual |
| `FakeIp.ListBlocksAaaa` | `crates/ice-config/src/build.rs:369-423` | no rule of the narrowed list that matches an AAAA query uses a v4-only server when every rule of such a server meets `BlocksAaaa` |
| `FakeIp.PlainRulesAreSafe` | `crates/ice-config/src/build.rs:355-423` | if the rules of v4-only fake-ip servers are plain, A decisions of the whole list are unchanged and no rule that matches an AAAA query uses such a server |
| `FakeIp.V4OnlyExactly` | `crates/ice-config/src/build.rs:375-391` | a server counts as v4-only if and only if it is of type `fakeip` and its `inet6_range` is absent, no text, blank, or a range all of whose addresses lie in `fc00::/7` |
| `FakeIpServers.NoAaaaWithoutIpv6` | `crates/ice-config/src/build.rs:369-423` | if the rules that send to such a server are plain, no rule of the narrowed list that matches an AAAA query names its tag, and A decisions are unchanged |
| `FakeIpServers.OtherRulesStay` | `crates/ice-config/src/build.rs:396-403` | a rule whose tag is that of no such server stays where it is and as it is |
| `FakeIpServers.NarrowedMembers` | `crates/ice-config/src/build.rs:404-422` | of the others, exactly those that list nothing but AAAA go; the rest keep every member, and AAAA is all their `query_type` loses |
| `DnsPipeline.RemoveDnsRuleStrategy` | `crates/ice-config/src/build.rs:288-299` | the recursive removal leaves every other member and every rule in place |
| `DnsPipeline.NoStrategyLeft` | `crates/ice-config/src/build.rs:288-299` | no rule at any depth keeps `strategy` |
| `DnsPipeline.LegacyAfterRemoval` | `crates/ice-config/src/build.rs:282-299` | after the removal, a block is legacy by its own fields exactly when the profile had an address filter |
| `DnsPipeline.RejectedExactly` | `crates/ice-config/src/build.rs:328-342` | a build is refused if and only if the profile's rules combine an address filter or an IP-only rule-set with a modern feature |
| `DnsPipeline.PreparedExactly` | `crates/ice-config/src/build.rs:810-829` | otherwise a legacy block is stripped, and a modern one loses `strategy` alone, and AAAA in fake-ip rules where IPv6 is on |
| `DnsPipeline.PrepareDnsRules` | `crates/ice-config/src/build.rs:810-829` | the three steps, as run, give the result the pipeline lemmas are about |
| `DnsPipeline.PipelineConsistent` | `crates/ice-config/src/build.rs:810-829` | whatever leaves the pipeline is mode-consistent at every depth, the narrowed fake-ip rules included |
| `DnsClosure.PreparedDefined` | `crates/ice-config/src/build.rs:267-423` | removing, stripping and narrowing keep every rule-set reference defined at every depth of logical rules |
| `DnsClosure.EmittedDnsIsSound` | `crates/ice-config/src/build.rs:796-829` | from profile to runtime config: the emitted DNS rules refer only to defined sets and are on one side of the legacy / modern split at every depth |
| `DnsClosure.SharedDnsIsSound` | `crates/ice-config/src/share.rs:169-193` | the same for the DNS rules of a shared document, which come after its route rules |
| `CoreController.Controller.BeginStart` | `crates/ice-core/src/lib.rs:251-258` | the whole new state and result are those of `CoreSpec.Step` |
| `CoreController.Controller.Start` | `crates/ice-core/src/lib.rs:326-369` | same, for every failure on the way |
| `CoreController.Controller.AdoptExternal` | `crates/ice-core/src/lib.rs:265-324` | same |
| `CoreController.Controller.Stop` | `crates/ice-core/src/lib.rs:371-419` | same |
| `CoreController.Controller.Reload` | `crates/ice-core/src/lib.rs:426-469` | same |
| `CoreController.Controller.RestartInPlace` | `crates/ice-core/src/lib.rs:472-512` | same |
| `CoreController.Controller.SpawnAndProbe` | `crates/ice-core/src/lib.rs:514-540` | same |
| `CoreController.Controller.KillChildAndClearPid` | `crates/ice-core/src/lib.rs:702-716` | same; the handle goes only once the process is gone |
| `CoreController.Controller.ReapExitedChild` | `crates/ice-core/src/lib.rs:731-750` | same |
| `CoreController.Controller.ReclaimOrphanPid` | `crates/ice-core/src/lib.rs:669-700` | same |
| `CoreController.Controller.ClearNeedsProxyRestore` | `crates/ice-core/src/lib.rs:246-248` | same |
| `CoreSpec.StepConsistent` | `crates/ice-core/src/lib.rs:251-540` | every public call, under every environment, keeps: never Stopping; Running exactly when both inbound fields are set; Running has a handle, its pid in the pid file and no pending proxy restore; Stopped has no handle; Error has a message |
| `CoreSpec.SessionConsistent` | `crates/ice-core/src/lib.rs:251-750` | the same in every state of every run from the initial one |
| `CoreSpec.UnstoppableStaysOnRecord` | `crates/ice-core/src/lib.rs:472-490` | if the process cannot be stopped, in stop or reload, handle and pid file stay, the status is Error and nothing is spawned |
| `CoreSpec.StoppedMeansGone` | `crates/ice-core/src/lib.rs:371-419` | a call other than reclaim reaches Stopped only as a stop after which the process is gone and the pid file cleared; that such a stop does reach it is `CoreOutcomes.StopExactly` |
| `CoreOutcomes.StopExactly` | `crates/ice-core/src/lib.rs:371-419` | from every state between calls, a stop answers Ok and reaches Stopped if and only if it was Stopped already or the process stops and the pid file goes; it leaves no handle, pid file or inbound address if and only if the latter, or there was none to clear |
| `CoreOutcomes.CleanStopRests` | `crates/ice-core/src/lib.rs:398-405` | such a stop also leaves no message and no pending proxy restore, and ends no other process |
| `CoreOutcomes.UncleanStopFails` | `crates/ice-core/src/lib.rs:406-417` | any other stop leaves Error with the stop-failed message, the pid file, and the handle of a process that refused |
| `CoreOutcomes.SessionCanStop` | `crates/ice-core/src/lib.rs:251-750` | whatever calls a session made, a clean stop brings it to rest |
| `CoreOutcomes.StartExactly` | `crates/ice-core/src/lib.rs:326-369` | a start is refused without a trace, fails with its reason, or serves on the host and port it was given; it succeeds if and only if nothing is in its way |
| `CoreOutcomes.AdoptExactly` | `crates/ice-core/src/lib.rs:265-324` | the same for a core started from outside |
| `CoreOutcomes.ReloadExactly` | `crates/ice-core/src/lib.rs:426-512` | a reload keeps the core, replaces it by one that serves on the new address, or fails and leaves a proxy restore pending, each in exactly the cases listed |
| `CoreOutcomes.BeginStartExactly` | `crates/ice-core/src/lib.rs:251-258` | announcing a start is allowed from Stopped and Error and changes the status and the message only |
| `CoreOutcomes.ReapExactly` | `crates/ice-core/src/lib.rs:731-750` | reaping lets go of a core that exited, and only a running one turns to Error |
| `CoreOutcomes.SpawnExactly` | `crates/ice-core/src/lib.rs:514-540` | a spawned process that does not come up is stopped again; one that refuses keeps a handle if its pid was written |
| `CoreOutcomes.ReclaimExactly` | `crates/ice-core/src/lib.rs:669-700` | reclaiming ends a core of an earlier session unless it cannot be killed, and only forgets the pid of an unrelated process |
| `CoreOutcomes.StartThenStop` | `crates/ice-core/src/lib.rs:326-419` | a clean stop undoes a start: all is as before but the log |
| `CoreOutcomes.ReapThenStart` | `crates/ice-core/src/lib.rs:326-369` | a core that exited comes back with a reap and a start |
| `CoreSpec.ReloadSpawnsAlone` | `crates/ice-core/src/lib.rs:426-512` | a reload spawns at most once and never while the old core runs; hot reload keeps the process; a failed reload leaves Error and a pending proxy restore |
| `CoreSpec.LosesExactly` | `crates/ice-core/src/lib.rs:251-750` | a call leaves a running core without a handle if and only if `Loses` |
| `CoreSpec.BesideExactly` | `crates/ice-core/src/lib.rs:265-369` | a core comes up while another one runs if and only if `Beside` |
| `CoreSpec.NeverTwoExactly` | `crates/ice-core/src/lib.rs:251-750` | a call keeps every core tracked and alone, if and only if it neither loses one nor brings one up beside another |
| `CoreSpec.CarefulRunNeverTwo` | `crates/ice-core/src/lib.rs:251-750` | after every call of a run there is at most one core, tracked and come up alone, if and only if no call of the run is in either list |
| `CoreSpec.SessionNeverTwo` | `crates/ice-core/src/lib.rs:251-750` | the same for whole sessions |
| `CoreSpec.StartOverRetainedHandle` | `crates/ice-core/src/lib.rs:149-153` | a start after a refused stop leaves two cores running, one without a handle |
| `JsonPointer.PointerRoundTrip` | `crates/ice-config-guard/src/lib.rs:1466-1468` | a pointer written with the escapes, read by section 4 of RFC 6901, finds the node it was written for, for all member names |
| `JsonPointer.PointerTokensUnique` | `crates/ice-config-guard/src/lib.rs:1466-1468` | equal pointers have equal tokens, so member names cannot imitate structure |
| `ForbiddenWalk.WalkForbidden` | `crates/ice-config-guard/src/lib.rs:1331-1364` | Clean exactly when no refused member exists at any depth, otherwise the pointer of one that does |
| `ForbiddenWalk.WalkMember` | `crates/ice-config-guard/src/lib.rs:1338-1354` | same, for one member and everything below it |
| `ForbiddenWalk.ReportedPointerResolves` | `crates/ice-config-guard/src/lib.rs:1331-1364` | a reported pointer resolves to a member that is forbidden where it stands |
| `ForbiddenExemptions.ExemptExactly` | `crates/ice-config-guard/src/lib.rs:1366-1435` | the tests on the text of a pointer hold if and only if it points to one of six places: equal text means equal place, whatever characters the member names hold |
| `ForbiddenExemptions.CleanExactly` | `crates/ice-config-guard/src/lib.rs:1331-1455` | a document is let through if and only if every member with a forbidden name, at every depth, stands in such a place or has an exempt name |
| `ForbiddenWalk.ExemptionIsStructural` | `crates/ice-config-guard/src/lib.rs:1417-1435` | the numbered `path` exemptions apply only at the real location three levels down |
| `Favorites.SetNodeFavorite` | `crates/ice-config/src/favorites.rs:193-216` | the edit is `Apply`, and a save is due exactly when the list changed |
| `Favorites.RunValid` | `crates/ice-config/src/favorites.rs:183-229` | after any calls every list is non-empty, duplicate-free and at most 500 long |
| `Favorites.StoredIsPrefix` | `crates/ice-config/src/favorites.rs:193-211` | after any calls the list is a prefix of the one without a cap |
| `Favorites.FavoritesKeepNewest` | `crates/ice-config/src/favorites.rs:194-202` | after any run of favorite calls the list is the first 500 of the distinct tags, newest first |
| `Favorites.UnfavoriteForgets` | `crates/ice-config/src/favorites.rs:203-211` | removing a tag keeps that equality if and only if the tag was not stored or nothing was cut off |
| `Favorites.NothingForgotten` | `crates/ice-config/src/favorites.rs:193-229` | while a list never outgrows 500 tags, it is exactly what the calls make of it, other subscriptions playing no part |
| `Favorites.CleanTags` | `crates/ice-config/src/favorites.rs:139-153` | the loop with its early exit gives the first 500 distinct text tags |
| `Favorites.ParseFavorites` | `crates/ice-config/src/favorites.rs:102-158` | what a load returns: refused versions, and every readable entry cleaned |
| `Favorites.SaveFavorites` | `crates/ice-config/src/favorites.rs:166-177` | the written document holds every list under its id and nothing else |
| `Favorites.LoadIsValid` | `crates/ice-config/src/favorites.rs:102-158` | every load is well formed, whatever the file holds |
| `Favorites.LoadAfterSave` | `crates/ice-config/src/favorites.rs:102-177` | loading what was saved gives the same store |
| `FavoritesLock.NextFileSerial` | `crates/ice-config/src/favorites.rs:183-229` | a step leaves the file the result of the finished calls, if and only if it does not end a call on a stale copy with another result |
| `FavoritesLock.NextSerial` | `crates/ice-config/src/favorites.rs:183-229` | one caller inside the lock, its copy current, the file serial: every step of every caller keeps this, if and only if it is not a read error of a file that is there |
| `FavoritesLock.RunsAreSerialExactly` | `crates/ice-config/src/favorites.rs:183-229` | read errors included, the file is serial throughout a run if and only if none of its steps is such an end |
| `FavoritesLock.InterleavingsAreSerial` | `crates/ice-config/src/favorites.rs:183-229` | after any interleaving of lock, load, save and release steps without such a read error, the file is what running the finished calls one after another gives; a file with an unknown version is untouched |
| `FavoritesLock.UnreadableFileIsLost` | `crates/ice-config/src/favorites.rs:78-90` | after a read error one favorite replaces the whole file |
| `FavoritesLock.SaveRecordsOwnCall` | `crates/ice-config/src/favorites.rs:212-215` | a call counts as finished once, at its own save, and with its own arguments |
| `RuleOverrides.MigrationPreserves` | `crates/ice-config/src/rule_overrides.rs:142-155` | migration changes for no rule whether it is disabled |
| `RuleOverrides.MigrationCompletes` | `crates/ice-config/src/rule_overrides.rs:142-155` | no rule that was passed keeps a mark in the old format |
| `RuleOverrides.MigrationIdempotent` | `crates/ice-config/src/rule_overrides.rs:142-155` | migrating again changes nothing |
| `RuleOverrides.CleanupExact` | `crates/ice-config/src/rule_overrides.rs:176-197` | no custom rule is disabled afterwards, and a rule is disabled exactly when it was and is no custom rule |
| `RuleOverrides.CleanupIdempotent` | `crates/ice-config/src/rule_overrides.rs:176-197` | cleaning up again changes nothing |
| `RuleOverrides.DeletionExact` | `crates/ice-config/src/rule_overrides.rs:157-169` | deleting by a fingerprint in either format removes exactly that rule and its marks |
| `RuleOverrides.RemainingInOrder` | `crates/ice-config/src/rule_overrides.rs:157-169` | the rules a deletion leaves keep their order and number |
| `RuleOverrides.UnlistedInOrder` | `crates/ice-config/src/rule_overrides.rs:176-197` | the same for the rules a cleanup leaves |
| `RuleOverrides.Overrides.SetRuleDisabled` | `crates/ice-config/src/rule_overrides.rs:111-121` | the rule has the asked state and no old mark; no other rule changes |
| `RuleOverrides.Overrides.MigrateLegacyFingerprints` | `crates/ice-config/src/rule_overrides.rs:142-155` | the marks become those of the migration lemmas; it reports a change exactly when a passed rule had an old mark |
| `RuleOverrides.Overrides.RemoveCustom` | `crates/ice-config/src/rule_overrides.rs:157-169` | the rules and marks become those `DeletionExact` is about |
| `RuleOverrides.Overrides.RemoveLegacyDisabledCustomRules` | `crates/ice-config/src/rule_overrides.rs:176-197` | the rules and marks become those of the cleanup lemmas; it reports a change exactly when a rule is removed |
| `Cidr.ExclusionExact` | `crates/ice-config/src/build.rs:429-442` | the test holds exactly for the ranges all of whose addresses lie in `fc00::/7` |
| `Cidr.NetworkExact` | `crates/ice-config/src/build.rs:1396-1430` | the masked address is the start of the aligned block around the address, the addresses of that block and no others have it as their network, and it is its own network |
| `Cidr.PrefixEnds` | `crates/ice-config/src/build.rs:1396-1430` | prefix 0 is the whole space, and only prefixes past the width are refused |

## Left out

- Loading a block in the core: proved are the reference and mode conditions and where legacy geo matchers remain; the core itself is not part of this model.
- Object member order, and so which of several forbidden members the walk reports first: the walk is proved for every order.
- ShareGroups.TrimShareGroups: asks for unique tags that are all in the tag set; `push_unique_outbound` establishes it (`ShareTags.PushUniqueOutbound`).
- ShareGroups.TrimProfileGroups: asks for groups stored under their own unique tags; `push_share_item` establishes it (`ShareTags.PushShareItem`).
- ShareDefinitions.OwnSetsExactly: takes the portable form of a profile's sets as given; how `portable_rule_set` makes it is not part of this model.
- FakeIpServers.NoAaaaWithoutIpv6: does not cover logical rules, as `FakeIp.PlainRulesAreSafe`.
- RouteEmission.BuiltRouteValid: asks that the builder's own reserved and per-app rules refer to no rule-set.
- SharePortable.SettledDecision: says nothing about a flow whose deciding rule was dropped or narrowed away from it; it may go to a later rule or to the default.
- RouteModes.ProfileDecides: says nothing about a flow whose deciding rule is not emitted, such as a filtered `hijack-dns` rule or one whose set is missing.
- FakeIp.PlainRulesAreSafe: does not cover logical rules that name a v4-only fake-ip server, for which its AAAA half is false (`FakeIp.LogicalRuleAnswersAaaa`): the code adds `query_type` to the group itself, where it is no condition in this reading.
- FakeIp.BlocksAaaaExact: what a logical rule matches is left to its sub-rules, whose conditions are uninterpreted.
- DnsMode.StripTwice: is about rules that are kept; a rule the strip drops has no second run.
- CoreSpec.CarefulRunNeverTwo: speaks of the cores this controller started or adopted, not of foreign processes.
- FavoritesLock.InterleavingsAreSerial: treats reading and writing the file as one step each, a poisoned lock as taken over (as in the code), and a file that is no JSON as an empty store.
- Replacing `strategy` in route rules by the build-wide value (`override_route_rule_strategy`), the choice of resolver, inbounds, outbound selection, WireGuard endpoints and TUN parameters.
- The remaining members of shared documents (DNS servers, portable route extras, portable rule-set definitions) and the per-type allowlists of the guard.
- Timeouts, polling and log excerpts of the health checks: a probe answers Ok or an error.
- Killing and inspecting processes: `stop_process` is a contract, its code is not part of this model.
- `rule_type_of`, `favorite_rank` and the other pure lookups: easy members.
- Parsing of URLs, addresses and UUIDs, SHA-256, and the contents of rule-set files.
