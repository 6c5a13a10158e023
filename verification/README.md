# WAF management plane: model and proofs

A Dafny model of the management plane of a web application firewall, and proofs about it. SQL tables
are fields of classes (or plain sequences and maps where a function only reads them), each statement
is one atomic step, and time is an integer number of seconds that never goes back. A method in the
source that changes state is a method here, proved equal to a function of the old state; the lemmas
are about those functions and about runs of them, of any length and in any interleaving.

Run `dafny verify dfyconfig.toml` in this directory to check everything.

## What is modelled

**Request sequences** (`SequenceEngine`, `SequenceTheorems`, `AccountTakeover`). A window of fifteen
requests per client, a one-pass scanner with carried "last seen" values, seven rules in priority
order, and a reset on each verdict. The scan is proved exact against counts stated without a loop; the
catalogue-scraping verdict is characterised by the shape of the window that draws it; and verdicts are
paid for by requests in every interleaving of ingests and evaluations.

**Leader lease** (`LeaderLease`, `LeaderTheorems`). Instances share one table and tick: heartbeat,
sweep, SELECT, acquire or renew. Safety at the level of statements, uniqueness at the level of
uninterrupted ticks, healing after a step-down, availability and failover times.

**Policy compiler** (`PolicyCompiler`, `PolicyMeaning`, `RuleIds`, `PolicyPrinter`, `SecLang`,
`PolicyReader`, `PolicyText`, `PolicyFormats`, `CorazaJson`, `PolicySync`, `MonitorRewrite`,
`ExceptionWizard`). Rows become directives, directives become lines, lines become one text, and the
text becomes a JSON document. Every stage is proved, and then the whole of it: decode the pushed
document, read every line of it with the engine's own words, and a perimeter rule denies a request
exactly when a row of the tables does and nothing in the document takes the rule of that row out.

**Granular exceptions** (`GranularExceptions`). First-match evaluation, expiry, report and purge.

**Tiered evaluation and containment** (`PolicyChain`, `PayloadOrder`, `Containment`). The ten-tier chain
with its trace, when its decision depends on the order of the parameters, and the blocklist that
incident handling writes and the chain reads.

**Snapshots and backups** (`ConfigHistory`, `BackupRestore`). Pushes, saved versions and rollbacks; and
the restore of a backup bundle as one transaction of upserts, column by column.

## Where the code differs from its own words

The model follows the code. These are the places where that matters.

- The leader SELECT has no ORDER BY. `Stabilises` therefore asks for a fixed reading order,
  `AlternatingPicksNeverHeal` shows two leaders renewing for ever without one, and `StabilisedIff` tells
  from the steps of a run whether it has healed.
- The leader SELECT and the acquiring UPDATE are separate statements. `RacingAcquires` gives the race,
  `AcquireKeepsUniqueIff` the exact condition under which the UPDATE is harmless.
- The comment in the step-down handler speaks of promoting "another" standby; the statement promotes
  all of them. `StepDownUniqueIff` says when that leaves one leader.
- An instance that was swept OFFLINE goes on sending heartbeats, but only registration makes it ACTIVE
  again (`OnlyRegistrationRecovers`).
- The scraping threshold is ten, but an enumeration verdict usually comes first: scraping is reported
  for exactly one shape of window (`ScrapingVerdictExact`). One request can raise the scraping count by
  two, in exactly one situation (`ScrapingRiseExact`), unlike the enumeration and login counts.
- Exceptions for a path come behind the perimeter and cannot weaken it, but a GLOBAL exception can, and
  so can any line of the custom, patch or base rules that takes rules out at load time
  (`LoadRemovalsExact`, `HandWrittenLineOpens`).
- Row fields are printed as they are. A quote, a line break, a bare apostrophe in a name (`Let's
  Encrypt`), or a comma in the rule of an exception changes what the line says; `RowIsPlainIff` gives
  the exact condition under which a row survives.
- The chain concatenates request parameters in the iteration order of a Go map, so one request can be
  both blocked and let through. `OrderIsIrrelevant` and `OrderDecides` say when, and
  `SomeOrderInjectsIff` when an order can make an injection at all.
- A MONITOR override for the injection rule also skips the search for scripts: appending an injection
  to a blocked script lets it through (`OverrideShieldsScript`).
- The rewriting of monitoring rules knows two lower-case words. `DENY`, `drop` and `redirect` keep their
  effect (`MonitorKeepsIff`, `OtherSpellingsSurvive`, `OtherActionsStay`).
- Tier 1 calls trusted addresses "bypassed"; they are evaluated like all others
  (`ListedIffTierThree` holds for them too).
- The source condition of a granular exception is read but never decides.
- The expiry report and the evaluator disagree at the single instant of expiry
  (`ReportAgreesWithEvaluator`).
- The restore reports eleven tables, among them threat indicators; it writes ten, and the export holds
  twenty-one. Rows with a null in a column the export reads strictly are dropped, and columns such as
  the expiry of a custom rule are neither exported nor written: `RestoresEverythingIff` gives the exact
  condition, and `ExpiredPatchReturns` shows an expired patch in force again.
- Saving the settings pushes the base rules without the perimeter and records no snapshot
  (`ServedIsLatestPush`).
- Families of rule ids can run into each other. Ten thousand advances of each are always safe;
  `DistinctIff` gives the exact condition, `AddressesReachExceptionsIff` the one for the two families
  that are closest.

## Model

| member | source | states |
|---|---|---|
| SequenceEngine.MatchResourceExact | management-plane/sequence_engine.go:71 | the search for the enumeration pattern captures a collection and a number exactly when the path is that collection, a slash and digits, with one segment after `/api/` |
| SequenceEngine.MatchProductExact | management-plane/sequence_engine.go:77 | the scraping pattern captures exactly the digits after `/api/product/` |
| SequenceEngine.ProductIsResource | management-plane/sequence_engine.go:71-77 | the two patterns agree: a product page is precisely an item of the collection `/api/product` |
| SequenceEngine.Scan | management-plane/sequence_engine.go:71-129 | the single pass with carried values computes, for every window, the declarative counts: adjacent hits of one collection with different items, GET visits to a product other than the previous visit's, exact calls, and whether the cart was visited |
| SequenceEngine.VerdictUnique | management-plane/sequence_engine.go:131-175 | "the first rule in priority order that fires, none under three requests" determines the verdict |
| SequenceEngine.Verdict | management-plane/sequence_engine.go:131-175 | the verdict fires, and no rule of lower rank does; none means no rule fires or fewer than three requests |
| SequenceEngine.SequenceWindow.Append | management-plane/sequence_engine.go:273-277 | append, then drop the oldest once there are more than fifteen |
| SequenceEngine.SequenceWindow.Evaluate | management-plane/sequence_engine.go:46-176 | returns the specified verdict, including the velocity score of 40 as a full window under five seconds, and empties the window exactly on a verdict |
| SequenceEngine.SequenceTracker.GetSequenceWindow | management-plane/sequence_engine.go:34-43 | one window per client, created empty once, never shared |
| SequenceEngine.SequenceTracker.IngestAccessLog | management-plane/sequence_engine.go:256-278 | an entry without address changes nothing; any other slides into its client's window and no other |
| SequenceEngine.SequenceTracker.EvaluateClient | management-plane/sequence_engine.go:46-176 | evaluating one client leaves all other windows as they were |
| SequenceTheorems.SlackZeroIsWeave | management-plane/sequence_engine.go:70-108 | in every window twice the scraping count is at most its length plus one plus the enumeration count (less one when split), with equality exactly for the interwoven shape |
| SequenceTheorems.ScrapingVerdictExact | management-plane/sequence_engine.go:70-158 | the scraping verdict is returned if and only if the window is full and consists of ten product GETs, no two in a row for one product, and five other hits each alone between two of them; the enumeration count is then exactly four |
| SequenceTheorems.ChallengeExact | management-plane/sequence_engine.go:55-68 | CHALLENGE if and only if the window is full, spans under five seconds and no other rule fires |
| SequenceTheorems.VerdictMeaning | management-plane/sequence_engine.go:111-175 | every verdict from the requests themselves: the five limits on named calls, the missing cart, the priority of each rule over the later ones, and BLOCK for all but the velocity rule |
| SequenceTheorems.CheckoutVerdictExact | management-plane/sequence_engine.go:146-151 | the checkout verdict is returned if and only if the last of at least three requests posts to /checkout, no request visited /cart, and neither enumeration nor a login burst is reported first |
| SequenceTheorems.AmortisedBound | management-plane/sequence_engine.go:46-175 | over every interleaving of ingests and evaluations, three times the verdicts plus the window length never exceeds the requests ingested, and the window never exceeds fifteen |
| SequenceTheorems.WindowIsRecentHistory | management-plane/sequence_engine.go:270-278 | the window is the last fifteen (or fewer) of the requests ingested since the last verdict |
| SequenceTheorems.EagerWindowIsCalm | management-plane/sequence_engine.go:280-281 | with an evaluation after every request each count stays below its threshold between requests |
| SequenceTheorems.DroppingHead | management-plane/sequence_engine.go:275-277 | trimming the oldest request raises neither the enumeration nor the login count |
| SequenceTheorems.EagerVerdictsFireAtFive | management-plane/sequence_engine.go:131-145 | then the enumeration and login verdicts come exactly when their count reaches five, never later |
| SequenceTheorems.ScrapingRiseExact | management-plane/sequence_engine.go:100-108 | one request raises the scraping count by at most two, and by two if and only if the window is full, its head visited a product otherwise than by GET, the next visit is a GET of that product, and the request itself is counted |
| SequenceTheorems.ClientsAreIsolated | management-plane/sequence_engine.go:34-43 | in any run of all clients, a client's window is that of its own events alone |
| AccountTakeover.SessionWindow.Evaluate | management-plane/sequence_engine.go:179-227 | one more address is recorded if new, and a second distinct one revokes and resets |
| AccountTakeover.AtMostOneAddress | management-plane/sequence_engine.go:200-226 | between evaluations a session holds at most the address of its latest request |
| AccountTakeover.RevokedExactly | management-plane/sequence_engine.go:200-226 | a request revokes if and only if its address differs from that of the request before it, which did not revoke itself; afterwards the window is empty on a revocation and holds that address otherwise |
| AccountTakeover.RevokedIffTwoAddresses | management-plane/sequence_engine.go:200-226 | over any run a token is revoked at some point if and only if two different addresses presented it |
| LeaderLease.ControlPlane.Register | management-plane/control_plane_ha.go:137-145 | inserts a follower or reactivates the row, keeping its leader flag and lease |
| LeaderLease.ControlPlane.SelectLeader | management-plane/control_plane_ha.go:166-170 | returns some live row, or nothing exactly when there is none |
| LeaderLease.ControlPlane.Tick | management-plane/control_plane_ha.go:149-192 | the table after heartbeat, sweep, SELECT and the statement its result calls for |
| LeaderLease.ControlPlane.StepDown | management-plane/control_plane_ha.go:315-337 | every leader is reset and every ACTIVE instance other than the one read as leader is promoted |
| LeaderLease.ControlPlane.Drain | management-plane/control_plane_ha.go:352-369 | a known instance becomes DRAINING and loses the leader flag; an unknown one changes nothing |
| LeaderTheorems.SaneAtStatementLevel | management-plane/control_plane_ha.go:137-191 | however single statements of all instances and handlers interleave, the leader flag implies ACTIVE and every leader's lease ends within twelve seconds |
| LeaderTheorems.AcquireKeepsUniqueIff | management-plane/control_plane_ha.go:165-183 | the acquiring UPDATE keeps the leader unique if and only if it changes no row or nobody else is live when it executes |
| LeaderTheorems.RacingAcquires | management-plane/control_plane_ha.go:165-183 | two ACTIVE instances that both saw no leader both become live leaders |
| LeaderTheorems.StepDownUniqueIff | management-plane/control_plane_ha.go:319-337 | a step-down leaves at most one live leader if and only if at most one instance besides the former leader is ACTIVE |
| LeaderTheorems.UniqueLeader | management-plane/control_plane_ha.go:137-191 | over every run of registrations, uninterrupted ticks, drains and time, with any number of instances and no step-down, at most one row is live |
| LeaderTheorems.Stabilises | management-plane/control_plane_ha.go:149-192 | from any sane state, however many leaders a step-down or a race has left, at most one row is live at every time twelve seconds later or more, when the SELECT reads live rows in one fixed order |
| LeaderTheorems.LiveIffHeld | management-plane/control_plane_ha.go:149-192 | twelve seconds after any sane state, without step-down, an instance is live if and only if some step of the run elected it while it was ACTIVE, less than twelve seconds before the end, and no later step drained it |
| LeaderTheorems.StabilisedIff | management-plane/control_plane_ha.go:149-192 | so, with no assumption on the reading order, at most one row is live then if and only if the steps of the run hold at most one instance in that way |
| LeaderTheorems.TwoLeadersReachable | management-plane/control_plane_ha.go:332-337 | two registrations and a step-down make two live leaders |
| LeaderTheorems.AlternatingPicksNeverHeal | management-plane/control_plane_ha.go:166-170 | if the SELECT may alternate, two live leaders last as long as one likes |
| LeaderTheorems.TickLeavesLeader | management-plane/control_plane_ha.go:165-191 | after a tick a live leader exists if and only if the SELECT saw one or the ticking instance is ACTIVE |
| LeaderTheorems.DrainLasts | management-plane/control_plane_ha.go:355-359 | once drained, an instance is DRAINING, does not lead, and keeps the heartbeat and lease it had through any ticks, step-downs, drains and time until it registers again |
| LeaderTheorems.SweptIff | management-plane/control_plane_ha.go:158-163 | another's tick takes an ACTIVE instance OFFLINE, and off the lead, if and only if its heartbeat is more than twenty seconds old, and otherwise leaves it as it is |
| LeaderTheorems.OfflineKeepsBeating | management-plane/control_plane_ha.go:150-163 | an OFFLINE instance's own tick refreshes its heartbeat and nothing else |
| LeaderTheorems.FollowerOnlyBeats | management-plane/control_plane_ha.go:150-191 | so does the tick of an ACTIVE instance that sees another leader |
| LeaderTheorems.RegistrationActivates | management-plane/control_plane_ha.go:137-145 | registering makes the instance ACTIVE with a fresh heartbeat, keeps flag and lease of a known one, and touches no other |
| LeaderTheorems.ElectedForTwelve | management-plane/control_plane_ha.go:172-190 | an elected or renewed leader holds the lease for twelve seconds from its tick |
| LeaderTheorems.StepDownHandsOver | management-plane/control_plane_ha.go:319-337 | after a step-down every ACTIVE instance but the one read as leader leads for twelve seconds; any other leader's lease has ended |
| LeaderTheorems.OnlyRegistrationRecovers | management-plane/control_plane_ha.go:150-163 | once no instance is ACTIVE, ticks, drains and step-downs never produce a leader until one registers |
| LeaderTheorems.NeverSwept | management-plane/control_plane_ha.go:151-163 | an instance that ticks at least every twenty seconds and is not drained is ACTIVE at the end of every run, step-downs included |
| LeaderTheorems.LeaderKeepsLease | management-plane/control_plane_ha.go:184-190 | without step-down, a live leader that ticks with gaps under twelve seconds stays live until drained |
| LeaderTheorems.FailoverWithinSixteen | management-plane/control_plane_ha.go:133-191 | after the leader's crash, while one other ACTIVE instance ticks every four seconds, somebody else is live at some point no later than sixteen seconds after |
| PolicyCompiler.CompileBlockedIPs | management-plane/main.go:1919-1935 | the loop over addresses emits the specified rules with the specified ids |
| PolicyCompiler.CompileExceptions | management-plane/main.go:1937-1988 | the loop over live exceptions: GLOBAL rows, target scopes, and chains of two for a method |
| PolicyCompiler.CompileGeo | management-plane/main.go:1990-2006 | the loop over countries; rows that do not block still use up an id |
| PolicyCompiler.CompileEndpoints | management-plane/main.go:2048-2070 | the loop over blocked endpoints, with chains of two for a method |
| PolicyCompiler.CompileBots | management-plane/main.go:2072-2096 | the loop over bots: deny, challenge as deny, allow as pass; any other action uses up an id silently |
| PolicyCompiler.CompileIndicators | management-plane/main.go:2098-2126 | the loop over indicators; unknown kinds neither emit nor use up an id |
| PolicyCompiler.EveryRowAdvances | management-plane/main.go:1972-2004 | the id of the i-th country or exception row is the first id plus i, whatever the rows before it emit |
| PolicyCompiler.BotsAdvance | management-plane/main.go:2084-2094 | that of the i-th bot row counts the rows before it whose expression is not blank |
| PolicyMeaning.RunRow | management-plane/main.go:1919-2126 | unless it was taken out, the rule or chain of one row denies exactly the requests the row is meant to deny, and otherwise lets the rest of the policy decide |
| PolicyMeaning.RunFamily | management-plane/main.go:1919-2126 | a whole family denies with one of its own ids exactly when one of its rows denies and the rule of that row was not taken out |
| PolicyMeaning.RunExempt | management-plane/main.go:1950-1986 | an exception takes effect exactly on requests under its path, with its method, and only on what comes behind it |
| PolicyMeaning.LoadRemovalsExact | management-plane/main.go:1970-1974 | exactly the live GLOBAL exceptions and the lines behind the exceptions take rules out at load time |
| PolicyMeaning.HandWrittenLineOpens | management-plane/main.go:2146-2170 | a custom, patch or base line that removes the rule of a blocked address at load time lets that address through |
| PolicyMeaning.PerimeterExact | management-plane/main.go:1919-2184 | for all tables, requests and rules behind the perimeter, a perimeter rule denies if and only if a blocked address, a BLOCK country, a BLOCKED endpoint, an enabled BLOCK or CHALLENGE bot or an active BLOCK indicator does and nothing takes the rule of that row out at load time; any other denial is by a rule behind the perimeter |
| PolicyMeaning.ArmedTablesDeny | management-plane/main.go:1919-2184 | a request that the tables deny escapes only if something selects a perimeter id at load time |
| PolicyMeaning.PerimeterMeansTables | management-plane/main.go:1919-2184 | so when nothing does, the perimeter denies exactly what the tables deny |
| RuleIds.FamilyIds | management-plane/main.go:1926-2124 | the ids of one family are pairwise distinct and lie within as many numbers as the family advances |
| RuleIds.GeneratedIdsAreDistinct | management-plane/main.go:1926-2124 | no two generated rules of any families share an id as long as no family advances more than ten thousand times |
| RuleIds.FamilyCarries | management-plane/main.go:1926-2124 | the ids of a family are exactly those at which its emitting rows stand |
| RuleIds.GaplessFamily | management-plane/main.go:1926-2124 | address, endpoint and indicator rows use every id they advance over |
| RuleIds.DistinctIff | management-plane/main.go:1926-2124 | for tables of any content the generated ids are distinct if and only if no emitting row of a family has the id of an emitting row of a later one |
| RuleIds.AddressesReachExceptionsIff | management-plane/main.go:1926-1944 | addresses and exceptions collide if and only if the addresses number more than ten thousand and the place of some exception that is not GLOBAL |
| SecLang.QuotedExact | management-plane/main.go:1931-2120 | a field in quotes reads back as written, and ends where it was meant to, exactly when it holds no quote and does not end in a protecting backslash |
| SecLang.QuotedItem | management-plane/main.go:1931-2120 | a value in apostrophes is one action whatever commas it holds, as long as it holds no bare apostrophe and ends in no backslash |
| PolicyReader.ActionsReadIff | management-plane/main.go:1959-1986 | an action list, cut at bare commas outside apostrophes, reads back as its id, chain mark and action if and only if the message holds no bare apostrophe, or the removal neither bare comma nor apostrophe nor a stray semicolon |
| PolicyReader.SurvivesIffPlain | management-plane/main.go:1931-2120 | a directive prints as one line that reads back as itself if and only if its fields are plain |
| PolicyReader.RowIsPlainIff | management-plane/main.go:1930-2120 | the exact condition on the fields of a row, as cleaned by the compiler, under which all its directives survive being printed |
| PolicyFormats.BlockedIPLines | management-plane/main.go:1929-1933 | the line of a blocked address, character by character, for all addresses and ids; a blank one has none |
| PolicyFormats.ExceptionLines | management-plane/main.go:1950-1986 | the lines of an exception: a load-time removal when GLOBAL, otherwise the passing rule for its path with the removal its scope asks for, and the line for its method |
| PolicyFormats.GeoLines | management-plane/main.go:1998-2003 | the line of a blocked country |
| PolicyFormats.EndpointLines | management-plane/main.go:2055-2067 | the line of a blocked endpoint, or the two lines of a chain when it has a method |
| PolicyFormats.BotLines | management-plane/main.go:2080-2093 | the line of a bot to block, to challenge or to allow |
| PolicyFormats.IndicatorLines | management-plane/main.go:2112-2122 | the line of a listed address or domain |
| PolicyFormats.FirstIds | management-plane/main.go:1926-2108 | the first id of each family |
| PolicyFormats.DlpLine | management-plane/main.go:2043 | the line of a data-loss row |
| PolicyFormats.LearnerText | management-plane/main.go:2188 | the learner rule |
| PolicyFormats.BlocksInOrder | management-plane/main.go:2146-2184 | the whole text of a policy with one rule in each block |
| PolicyFormats.EmptyBlocksVanish | management-plane/main.go:2150-2184 | with all blocks empty the text is the base text |
| PolicyText.Assemble | management-plane/main.go:2146-2189 | the conditional prepends build the specified text |
| PolicyText.SplitConcat | management-plane/xds.go:56 | splitting a text joined by a line break is splitting both parts |
| PolicyText.AssembledLines | management-plane/main.go:2146-2189 | the clean lines of the assembled text are those of the ten blocks in order of precedence, whatever they contain, behind the learner rule exactly when "id:1000" does not occur |
| CorazaJson.ParseEscaped | management-plane/xds.go:63-67 | undoing the escapes of section 7 of RFC 8259 gives every encoded string back |
| CorazaJson.DecodeWrapped | management-plane/xds.go:69-77 | the document of any list of lines, the empty one included, decodes to exactly that list |
| CorazaJson.EscapedIsSafe | management-plane/xds.go:63 | no control character, angle bracket, ampersand or line separator stands in an encoded line |
| CorazaJson.EscapedKeepsIff | management-plane/xds.go:63 | a line is written as it is if and only if it holds none of these, no quote and no backslash |
| CorazaJson.DocumentText | management-plane/xds.go:70-77 | the document around the directives, character by character |
| CorazaJson.TwoDirectives | management-plane/xds.go:69 | two directives are separated by a comma, a line break and three tabs |
| CorazaJson.BuildCorazaJSON | management-plane/xds.go:54-78 | the document built from any text decodes to the text's lines, trimmed, in order, blanks dropped |
| CorazaJson.PolicyRoundTrip | management-plane/main.go:2146-2191 | decoding the document of the assembled policy gives back the lines of the ten blocks in order |
| PolicySync.CompilePatches | management-plane/main.go:2128-2144 | the loop over virtual patches keeps the trimmed codes that are not blank |
| PolicySync.DlpInOrder | management-plane/main.go:2033-2046 | there is one data-loss directive for each row whose expression is not blank, behind those of the rows before it, with the expression as stored |
| PolicySync.DlpIsNotGenerated | management-plane/main.go:2033-2046 | none of them reads as a generated rule, whatever its name and expression hold |
| PolicySync.SyncDynamicWAFRules | management-plane/main.go:1912-2191 | the whole synchronisation: what is pushed decodes to the printed rows of every table, in order of precedence |
| PolicySync.RunIgnoresMessages | management-plane/main.go:1931-2120 | the wording of a message never changes what a policy does |
| PolicySync.PushedPolicyExact | management-plane/main.go:1912-2191 | end to end: decode the pushed document, read every line of it, and a perimeter rule denies a request if and only if a row of the tables does and nothing in the document takes the rule of that row out |
| PolicySync.PushedPolicyMeansTables | management-plane/main.go:1912-2191 | so when no line selects a perimeter id at load time, the proxies deny at the perimeter exactly what the tables deny |
| MonitorRewrite.NothingCreated | management-plane/main.go:2024-2027 | replacing never creates an occurrence, inside a replacement or across its ends |
| MonitorRewrite.MonitorIsTotal | management-plane/main.go:2024-2027 | the rewritten code contains neither "deny" nor "block" |
| MonitorRewrite.MonitorIsStable | management-plane/main.go:2024-2027 | rewriting again changes nothing |
| MonitorRewrite.MonitorLength | management-plane/main.go:2024-2027 | the code grows by exactly nine for each "deny" and eight for each "block" of the original |
| MonitorRewrite.CompileCustomRules | management-plane/main.go:2008-2031 | the loop over custom rules in force, rewriting those that monitor |
| MonitorRewrite.CustomRulesExact | management-plane/main.go:2008-2031 | an enabled, unexpired rule with a code contributes exactly its trimmed code when it enforces and the rewritten code when it monitors, behind those of the contributing rows before it; no other row contributes |
| MonitorRewrite.MonitorKeepsIff | management-plane/main.go:2024-2027 | a code passes through untouched if and only if it contains neither word |
| MonitorRewrite.OtherSpellingsSurvive | management-plane/main.go:2024-2027 | so every code in upper case passes through untouched |
| MonitorRewrite.OtherActionsStay | management-plane/main.go:2024-2027 | in every code, whatever is replaced around them, the actions drop and redirect are still there afterwards |
| MonitorRewrite.MonitoredRulesHoldNeitherWord | management-plane/main.go:2008-2031 | when every enabled rule only monitors, no compiled custom rule contains "deny" or "block" |
| ExceptionWizard.PickParameter | management-plane/main.go:8171-8180 | the loop over the query string picks the first name that is not blank |
| ExceptionWizard.AutoGenerate | management-plane/main.go:8146-8216 | the row generated from an event |
| ExceptionWizard.CoveringExceptionApplies | management-plane/main.go:1950-1986 | among any exceptions that do not remove one another, each that covers the request takes effect on everything behind them |
| ExceptionWizard.WizardCoversIff | management-plane/main.go:8146-8190 | the generated exception covers a repetition of its own event if and only if the event's path does not start with a query mark or a blank (or is blank altogether) and its recorded method, cleaned, is the request's or none |
| ExceptionWizard.OrdinaryEventIsCovered | management-plane/main.go:8146-8190 | events with an absolute path and an upper-case method or none are always covered |
| ExceptionWizard.WizardRemovesTheRule | management-plane/main.go:1950-1986 | once the row is stored and until it expires, the compiled exceptions remove the event's rule from all that follows, in any table of exceptions that do not remove exceptions |
| ExceptionWizard.ActiveUntilExpiry | management-plane/main.go:8206-8209 | the stored row is compiled if and only if no time was given or it is not up yet |
| ExceptionWizard.ExpiredAddsNothing | management-plane/main.go:1940-1946 | once it is up, and with no other exception, every request runs as if there were none |
| ExceptionWizard.RuleAndScope | management-plane/main.go:8146-8194 | the event's rule, or 942100 when it has none, and the scope asked for, or the path |
| ExceptionWizard.FirstNameExact | management-plane/main.go:8171-8187 | the parameter is the first name that is not blank among the pairs of the query string |
| ExceptionWizard.TargetParameter | management-plane/main.go:8195-8197 | a parameter-scoped exception always names one, "q" when the query string names none |
| GranularExceptions.AnswerUnique | management-plane/rule_lifecycle.go:617-663 | "the first exempting row, or none" determines the answer |
| GranularExceptions.ExemptsExactly | management-plane/rule_lifecycle.go:605-646 | which rows exempt a request, written out on their columns |
| GranularExceptions.WithoutExactly | management-plane/rule_lifecycle.go:683 | deleting leaves exactly the rows with other ids |
| GranularExceptions.PurgeExactly | management-plane/policy_simulator_explainability.go:654-658 | a purge switches off exactly the active rows whose time is up and touches nothing else |
| GranularExceptions.SoonIsUnderEightDays | management-plane/policy_simulator_explainability.go:622-632 | a live row is expiring soon if and only if fewer than eight days remain |
| GranularExceptions.ExceptionTable.Create | management-plane/rule_lifecycle.go:557-587 | inserts an active row with the defaults for expiry and method |
| GranularExceptions.ExceptionTable.Delete | management-plane/rule_lifecycle.go:675-687 | removes the row of that id and keeps the others in order |
| GranularExceptions.ExceptionTable.Evaluate | management-plane/rule_lifecycle.go:597-672 | names the first row that is admitted and applies, and reports none, with id 0, only when there is none |
| GranularExceptions.ExceptionTable.ExpiryReport | management-plane/policy_simulator_explainability.go:599-649 | every row counted once: active and expired add up to the total, and each counter is the number of rows of its status |
| GranularExceptions.ExceptionTable.PurgeExpired | management-plane/policy_simulator_explainability.go:652-681 | deactivates exactly the active rows that have expired, and lists their ids |
| GranularExceptions.ReportAgreesWithEvaluator | management-plane/policy_simulator_explainability.go:617-638 | a row is reported live exactly when the evaluator admits it, except when it expires at that instant |
| GranularExceptions.PurgePreservesAnswers | management-plane/policy_simulator_explainability.go:654-658 | at or after a purge every query is answered as without it |
| GranularExceptions.PurgesAreInvisible | management-plane/policy_simulator_explainability.go:652-681 | over any run of inserts, deletes, time and purges, leaving all purges out changes no answer from the end on |
| PolicyChain.RunPolicyEngineChain | management-plane/policy_engine_v2.go:173-342 | the trace is steps 1 to k, only the last terminated and only on a block, all ten exactly when let through; the decision, tier and rule are those of the first tier that blocks; trusted addresses and monitored signatures are recorded as such |
| PolicyChain.BuildPayload | management-plane/policy_engine_v2.go:272-275 | the searched text is path, body and the parameters in the order met |
| PolicyChain.DecisionUnique | management-plane/policy_engine_v2.go:173-342 | two responses to the same evaluation agree in decision, tier and trace length |
| PolicyChain.DecisionExactly | management-plane/policy_engine_v2.go:196-341 | decision, tier and rule name from the request, with the scanners, methods and signatures themselves |
| PolicyChain.TraceWhenLetThrough | management-plane/policy_engine_v2.go:177-341 | the ten steps of a request that is let through |
| PolicyChain.ListedIffTierThree | management-plane/policy_engine_v2.go:196-216 | a request is blocked at tier 3 if and only if its address is listed, trusted or not |
| PayloadOrder.PayloadInjects | management-plane/policy_engine_v2.go:272-277 | the concatenated text holds an injection signature if and only if a single piece does, or two or three neighbours make one across the blanks between them |
| PayloadOrder.PayloadScripts | management-plane/policy_engine_v2.go:302 | a script signature is found in a single piece or not at all, whatever the order |
| PayloadOrder.SomeOrderInjectsIff | management-plane/policy_engine_v2.go:272-277 | some order of the parameters makes the text an injection if and only if a signature is there under every order, a value links to another value or to the body, or three pieces make one |
| PayloadOrder.OrderIsIrrelevant | management-plane/policy_engine_v2.go:173-320 | all orders of the parameters give the same decision, tier and rule when an earlier tier blocks, when path, body or a value holds a signature or path and body make one, or when no order makes one |
| PayloadOrder.NoEnderCannotInject | management-plane/policy_engine_v2.go:277 | no order makes a new one when no value starts with what can end a signature |
| PayloadOrder.LoneLinkExact | management-plane/policy_engine_v2.go:272-277 | when two values make a signature and no other neighbours can, the text is an injection exactly under the orders that put them side by side |
| PayloadOrder.OrderDecides | management-plane/policy_engine_v2.go:272-320 | two orders, one with the pair side by side and one without, then decide differently if and only if the MONITOR override and a script signature are both there or both missing |
| PayloadOrder.BothOrdersExist | management-plane/policy_engine_v2.go:273 | orders of both kinds exist for any two parameters |
| PayloadOrder.OverrideShieldsScript | management-plane/policy_engine_v2.go:277-303 | appending to a blocked text lets it through if and only if the path has a MONITOR override, the text held a script and no injection, and the addition completes an injection |
| Containment.IncidentDesk.TransitionIncident | management-plane/risk_posture_engine.go:412-474 | status, resolve time, log entry and quarantine of one transition, or nothing when it is refused |
| Containment.IncidentDesk.ApplyAnomalyAction | management-plane/policy_engine_v2.go:467-503 | the signal's new action, and its address listed, with the score in the reason, exactly when that is BLOCK |
| Containment.IncidentDesk.ContainCampaign | management-plane/attack_intelligence.go:412-439 | a known campaign is contained and its source address listed; an unknown one changes nothing |
| Containment.IncidentDesk.AddBlockedIP | management-plane/main.go:2307-2329 | lists the trimmed address, or refuses a blank one |
| Containment.IncidentDesk.DeleteBlockedIP | management-plane/main.go:2340-2352 | removes the address as it is written, or refuses a blank one |
| Containment.BlocklistIsWhatWasKept | management-plane/risk_posture_engine.go:459-466 | over any run of all writers, an address is listed if and only if some step added it, or it was listed at first, and no later step deleted it |
| Containment.ContainmentHolds | management-plane/risk_posture_engine.go:459-466 | once an incident is CONTAINED, every evaluation of a request from its attacker is blocked at tier 3, whatever else it holds, until that address is deleted |
| Containment.DeletionEndsContainment | management-plane/main.go:2347 | after the deletion, and until it is added again, the address is not blocked at tier 3 |
| Containment.LogIsUnbroken | management-plane/risk_posture_engine.go:436-457 | for each incident the log is a chain from its first status to its present one, each entry starting where the last ended, and a resolve time is set if and only if one was set at first or the incident was ever resolved |
| Containment.ListedBy | management-plane/main.go:2307-2352 | the addresses each of the six events lists or strikes |
| Containment.ReasonExactly | management-plane/risk_posture_engine.go:468-473 | the reason a listed address carries, by writer |
| Containment.TransitionLogged | management-plane/risk_posture_engine.go:427-465 | status and log entry of an accepted transition with their defaults; nothing when refused |
| Containment.EnforcementRecorded | management-plane/policy_engine_v2.go:479-494 | the recorded action of a signal, and the status of a contained campaign, with everything else unchanged |
| Containment.ResolveTimeIsLast | management-plane/risk_posture_engine.go:443-453 | over any run an incident's resolve time is that of its last resolution |
| ConfigHistory.ConfigStore.UpdateWAFConfig | management-plane/xds.go:107-112 | raises the version and serves the new text |
| ConfigHistory.ConfigStore.SaveConfigSnapshot | management-plane/main.go:2200-2216 | appends the next version and keeps the fifty newest rows |
| ConfigHistory.ConfigStore.SyncRules | management-plane/main.go:2191-2194 | pushes the compiled text and records it |
| ConfigHistory.ConfigStore.Rollback | management-plane/main.go:4144-4159 | pushes and records the named snapshot, or changes nothing when it is not there |
| ConfigHistory.ConfigStore.UpdateBaseRules | management-plane/main.go:1677-1702 | pushes the stored base rules as they are and records nothing |
| ConfigHistory.TableIsRecentHistory | management-plane/main.go:2200-2216 | after any run that recorded n texts the table is exactly the last fifty (or fewer) of them, with ids and versions counting to n, so none is used twice in spite of the purge |
| ConfigHistory.FiftyAreKept | management-plane/main.go:2215 | fifty snapshots are kept, or all while there are fewer, the newest with the number of all texts recorded |
| ConfigHistory.VersionCountsPushes | management-plane/xds.go:111 | over any run the xDS version counts the synchronisations, settings changes and successful rollbacks |
| ConfigHistory.RollbackRestores | management-plane/main.go:4144-4159 | a rollback to any of the last fifty texts, and to no other, makes the served text, the newest snapshot and the chosen one equal, under an unused version, and raises the xDS version by one |
| ConfigHistory.ServedIsLatestPush | management-plane/main.go:1677-1702 | the proxies are served the latest push; after a recorded one it is the newest snapshot, and after a push of the base rules it differs from it exactly when the base text is not the last recorded text |
| BackupRestore.Store.Restore | management-plane/main.go:5976-6150 | either every entry is upserted and committed, or the tables are as before |
| BackupRestore.RestoreSucceedsIff | management-plane/main.go:5988-6150 | a restore of any bundle onto any state succeeds if and only if the schema accepts every record and no inserted record brings an id that the state, or an earlier insert, gives to another key |
| BackupRestore.RestoreEffect | management-plane/main.go:5988-6141 | a committed restore keeps every row the bundle does not name, and gives each named row the last record's columns over what was there or was first inserted |
| BackupRestore.RestoredColumn | management-plane/main.go:5988-6141 | each column after a restore: the last record's, the present time, what was there, the first record's or the default |
| BackupRestore.ColumnsAccountedFor | management-plane/main.go:5991-6140 | for every table, which columns of its schema an insert sets, a conflict sets, and the export reads |
| BackupRestore.RestoredTables | management-plane/main.go:5988-6141 | the ten tables the restore writes |
| BackupRestore.RestoreIsIdempotent | management-plane/main.go:5988-6141 | restoring a bundle again, at any later time, succeeds and changes nothing but the heartbeat of the nodes it names |
| BackupRestore.RestoreOwnExport | management-plane/main.go:5728-5963 | a bundle restored onto the state it was taken from succeeds and changes nothing but the heartbeat of the exported nodes |
| BackupRestore.RestoreOntoEmpty | management-plane/main.go:5988-6150 | onto an empty system exactly the exported rows come back, each column as it was if the bundle carries it, as the present time if it is the heartbeat, and as a new row has it otherwise |
| BackupRestore.RestoresEverythingIff | management-plane/main.go:5728-6150 | so the old state comes back if and only if every row is of a restored table and scans without nulls, and every column the bundle does not carry held what a new row has |
| BackupRestore.ExpiredPatchReturns | management-plane/main.go:6009-6021 | a custom rule comes back without its expiry, so an enabled patch that had expired is in force again at every later time |

## Left out

- HTTP and JSON request decoding, routing, response bodies, audit log, latencies, SHA-256, random values, the dashboard and the anomaly model: I/O or one-branch code.
- The gRPC and xDS transport, Envoy and Coraza: the rule engine is a parameter (`Engine`) for address matching, expressions, which rules a removal text selects, and what every line not of a generated form does at load time and during a run. Assumed of it: phase 1 in list order, the first denial stops, a chain is a conjunction, a removal during a run affects later rules, one at load time affects all; a quoted field ends at the first quote that no backslash protects, and actions end at commas outside apostrophes that no backslash precedes.
- Regular expressions other than the two path patterns, which are modelled exactly.
- PolicySync.PushedPolicyExact: asks that every compiled row survives being printed (`RowIsPlainIff` is the exact condition; what a line means when a field breaks out of it is the engine's affair), that the engine goes on at the learner rule, and that no line outside the generated block reads as a denial with a perimeter id. The text round trip (`PolicyRoundTrip`) has no such condition.
- PolicyMeaning.PerimeterExact: asks that the rules behind the perimeter do not deny with its ids, since the theorem tells denials apart by id. What a line does at load time is to take rules out; a line that gives a generated rule another action, such as a denial to the rule of an ALLOW bot, is excluded.
- ExceptionWizard.WizardRemovesTheRule: asks that no exception removes the ids of exceptions, since one that does can switch off a later one.
- PolicyText.AssembledLines: states the presence of the learner rule by the substring test of the code, which ids such as 10001 also satisfy.
- LeaderTheorems.UniqueLeader: takes each tick as one step; the statement-level race is `RacingAcquires`.
- LeaderTheorems.Stabilises: assumes a fixed reading order of the SELECT, which the code does not ask for; `AlternatingPicksNeverHeal` shows why it is needed, and `StabilisedIff` needs no such order.
- SequenceEngine.SequenceWindow.Evaluate: stops at the verdict. What follows writes a column that the table of indicators (management-plane/main.go:596-608) does not declare.
- SequenceEngine.SequenceTracker.GetSequenceWindow: creation is one step; two first requests of one client that race to create a window are not modelled. Timestamps are part of the entry.
- AccountTakeover.SessionWindow.Evaluate: does not model the eight characters of the token that the log line needs.
- ConfigHistory.TableIsRecentHistory: assumes that saves are serialised, although the code starts them in goroutines, and that no insert fails.
- Upper and lower case are the ASCII mappings; invalid UTF-8 in a directive, and surrogate pairs in a document, which the encoder never writes, are not modelled.
- GranularExceptions.ExceptionTable.Create: the expiry a month ahead is a parameter; the day count of the report truncates whole seconds instead of floating-point hours. Rows are read in table order, as the evaluator's query states none.
- PolicyChain.RunPolicyEngineChain: reasons, tier names and condition texts of the response are left out, and the stored override is a parameter.
- Containment: failing inserts. A transition does not synchronise the pushed rules, so containment concerns the chain until the next synchronisation.
- BackupRestore.Store.Restore: schema constraints other than the conflict target and the unique id (foreign keys, lengths) are the parameter `accepts`, and the defaults of the columns are a parameter. A null in a conflict target, which never conflicts, is not modelled.
- Rule lifecycle order from draft to enforcement: the handlers do not check the current status, so no order holds.
- Concurrent calls of the synchronisation, and failing queries in it.
- Risk scores, governance reports, canary weights, request-rate counters, edge routing, chaos and resilience labs: constants, sums and single branches.
