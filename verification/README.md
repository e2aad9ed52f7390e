# A model of the Publisher scaffolder, its test harness and two of its runtime pieces

This project models, in Dafny, the parts of the repository whose behaviour is hardest to see by
reading one function, and proves what those parts promise. `dafny verify dfyconfig.toml` checks
all of it.

| Module | What it models |
|---|---|
| `Text` | JavaScript's `trim`, `split`, `join`, `includes` and prefix facts about strings |
| `ShellWords` | the quote-aware tokeniser, the plain tokeniser, a grammar of command lines, and where the three agree |
| `Loopback` | the loopback test, against loopback names written out |
| `StartScript` | the start-script analyser of `scaffold.ts` and, as its reference, the argument loop of `server.ts` |
| `StartScriptSoundness` | what an adopted (or declined) script makes the server do |
| `StartScriptGenerated` | the commands the tool writes, at any published version, read back; and scripts that are adopted by mistake |
| `StartScriptShape` | the analyser's tests written out: characters, commands, versions, values, reasons; and the server's flags one by one |
| `Paths` | what Node's `path` module does to text: resolving, joining, normalising |
| `LinkResolution` | `realPathOf` against a walk that follows links the way the kernel does |
| `WorkQueue` | the shared counter that workers pull indices from, in both forms the harness uses |
| `Cluster` | one scenario's publishers: ports, boots, reboots, stops |
| `HammerRun` | all workers together, every awaited point a step, all interleavings |
| `Slugs` | scenario slugs and the database, environment, catalog and directory names built on them |
| `ScenarioMode` | the mode the scenario parser records against the mode the interpreter runs in |
| `ScenarioTable` | tables in scenario sections, printed and read back |
| `Csv` | the harness's CSV reader against a writer in the form of section 2 of RFC 4180 |
| `RegistryFetch` | the single-settlement state machine around one HTTP request |
| `AdbcShim` | the C driver shim's self-wrap guard and its integer validator |
| `Registration` | repeated package registration in a config object updated in place |
| `Gitignore` | the append-only `.gitignore` merge |
| `Themes` | theme sanitising and merging |

Code that changes things step by step is a method with loops, or a class with fields, proved to
compute a function of its inputs or of its old state; the theorems are about those functions.

## What turned out false, and what holds exactly

- **Repeated `--watch-env`.** A comment in `scaffold.ts` (lines 1293-1294) says a flag given twice is
  read the way the server reads it, last one wins. The server gathers repeated `--watch-env`
  values with commas instead (`server.ts`, lines 152-158). `RepeatedWatchAdopted` gives the script;
  `ExactAdoption` says the watched environment is right exactly when the flag is given once.
- **A quoted blank.** The flag reader splits on blanks, the shell does not split inside quotes.
  `SplitsAgree` makes this the exact boundary between the two tokenisers; `QuotedBlankAdopted`
  gives a script adopted as a reset whose server is never told to reset.
- **A name every object inherits.** `GENERATED_FLAGS[flag]` answers for `constructor` and its
  kin, so such a name, standing where a flag should, hides the next word from the analyser.
  `ExactAdoption` says the boot is the promised one exactly when the server drops every word so
  hidden (or the word is `--init`, in a reset); `InheritedNameAdopted` gives a script whose
  server resets. Of a hidden flag that is one of the analyser's own four, both can be true:
  `HiddenFlagOverridden` and `HiddenFlagLast`.
- **Any number of publishers.** A comment in `run.ts` (lines 181-189) promises distinct ports no
  matter how many named publishers a run accumulates. The eleventh of one scenario takes the
  ports of the next worker's first (`EleventhNameCollides`). `AlwaysApartIff` says which runs
  keep the promise, exactly; `NamesApartIff` says which states do; and up to ten names a
  scenario is always enough (`SmallPlanApart`).
- **A failed first probe.** `boot` starts a server, then asks for its status; if that rejects,
  the scenario ends, and the server is registered nowhere, so nothing stops it.
  `FailedProbeSharesPorts` shows the worker's next scenario spawning its own server for the same
  ports, which it will find taken. The port theorems are about all other servers.
- **Repeated ids.** Resources are kept in a map by scenario id, so a scenario copied without a
  new id shares everything with the last of its id: source database, environments, catalogs,
  server roots (`CopiedScenarioShares`). The sharing theorems are stated on ids, both ways.
- **Publisher names as paths.** A server root is `path.join`ed, so a name with slashes in it is
  normalised: `a/b` and `a//b` are two publishers in one directory (`DoubledSlashShares`), and a
  name that climbs reaches another scenario's directory (`ClimbingNameShares`).
  `ServerRootsSharedIff` and `SameNameSharedIff` say when roots are one, exactly.
- **Ownership by prefix.** A 40-character cut that ends in an underscore right after another
  scenario's whole slug makes that scenario's prefix match too. `ClaimsIff` says when, exactly;
  `OwnerMistaken` gives two ids.
- **Front-matter mode.** The parser starts from the front matter's mode, the interpreter always
  from `on`. `ModesAgreeIff` says exactly which scenarios this matters to.
- **Links that climb back out of links.** `realPathOf` reads a link's target as text.
  `ClimbingBackDiffers` shows, for all names, what this does to `a/../b` when `a` is a link; the
  theorems ask that no link met on the way climb out of a path with a link on it.
- **The hop bound.** Where it cuts a resolution short, the answer is not final:
  `CutoffNotIdempotent` resolves a chain of eighty links half way, and then the rest.
- **The root directory.** Nothing but `/` is within `/`, because the comparison looks for `//`.
  `WithinIsDescendant` carries that case.

## Model

| member | source | states |
|---|---|---|
| ShellWords.ShellTokens | packages/create-malloy-package/src/scaffold.ts:1599-1628 | the loop computes the tokeniser's words, whose meaning the grammar below fixes |
| ShellWords.HasUnterminatedQuote | packages/create-malloy-package/src/scaffold.ts:1573-1583 | the shorter quote-only loop agrees with the tokeniser's own quote state on every string |
| ShellWords.TokensOfLayout | packages/create-malloy-package/src/scaffold.ts:1585-1628 | words written as any mix of bare and quoted pieces (empty ones too), apart by any blanks, are read back as exactly those words |
| ShellWords.UnterminatedIffNoLayout | packages/create-malloy-package/src/scaffold.ts:1572-1583 | a quote is left open on exactly the strings the grammar of command lines cannot write |
| ShellWords.LayoutOf | packages/create-malloy-package/src/scaffold.ts:1599-1628 | every string with its quotes closed has a layout in the grammar, so the round trip covers all of them |
| ShellWords.RawSplitsMore | packages/create-malloy-package/src/scaffold.ts:1384-1386 | the plain split never makes fewer words of a line than the shell, and makes more once a quote holds a blank |
| ShellWords.SplitsAgree | packages/create-malloy-package/src/scaffold.ts:1381-1392 | with quotes closed and no blank inside them, the plain split and the shell split see the same words, and only then |
| ShellWords.UnquoteIsDequote | packages/create-malloy-package/src/scaffold.ts:1344-1346 | a balanced token whose outer quotes come off to quote-free text is that same text to the shell |
| ShellWords.RawTokensOfJoin | packages/create-malloy-package/src/scaffold.ts:1384-1392 | plain tokens joined by single spaces split back into themselves |
| Loopback.LoopbackIff | packages/create-malloy-package/src/scaffold.ts:1677-1687 | a host passes exactly when, in any brackets, it is localhost in any case, ::1, or 127 and three octets of one to three digits |
| Loopback.QuadAccepted | packages/create-malloy-package/src/scaffold.ts:1685-1685 | every 127.a.b.c is loopback |
| Loopback.NamesAccepted | packages/create-malloy-package/src/scaffold.ts:1681-1684 | localhost in both cases, ::1 and [::1] are loopback |
| Loopback.WildcardsRefused | packages/create-malloy-package/src/scaffold.ts:1677-1687 | 0.0.0.0, :: and the empty name are not |
| StartScriptShape.WhatPartsWords | packages/create-malloy-package/src/scaffold.ts:1381-1381 | a space, a tab and a line feed part words, and no other character does |
| StartScriptShape.QuotedIsOneWord | packages/create-malloy-package/src/scaffold.ts:1604-1616 | text between two single quotes, or two double ones, is one word |
| StartScriptShape.UnquoteTakesOne | packages/create-malloy-package/src/scaffold.ts:1344-1346 | one quote of either kind goes from each end of a token, and no more |
| StartScriptShape.EnvironmentNameIff | packages/create-malloy-package/src/names.ts:117-147 | which environment names are valid, character by character |
| StartScriptShape.VersionIff | packages/create-malloy-package/src/scaffold.ts:1516-1522 | a version is letters, digits, dots and dashes, starts with none of the last two, and ends in no tarball extension of any case |
| StartScriptShape.SingleServerIff | packages/create-malloy-package/src/scaffold.ts:1479-1537 | a command passes exactly when it is one of six runners, its flags, the server package, and a rest |
| StartScriptShape.WhyDeclined | packages/create-malloy-package/src/scaffold.ts:1199-1214 | the four reasons that come before any flag, each with exactly the scripts it is given for |
| StartScriptShape.WhyDeclinedAfter | packages/create-malloy-package/src/scaffold.ts:1215-1252 | the reasons after those: no host, a host that is not loopback, no --init, another invocation |
| StartScriptShape.FlagsStartPastSpec | packages/create-malloy-package/src/scaffold.ts:1306-1315 | the flag reader starts past the first token that begins with the package name |
| StartScriptShape.ValuesVerdict | packages/create-malloy-package/src/scaffold.ts:1263-1278 | the four flags with any plain values are adopted exactly when root, config, host and environment are ones the tool could mean |
| StartScriptShape.InheritedNamesListed | packages/create-malloy-package/src/scaffold.ts:1322-1323 | the names a plain object answers to without owning them |
| StartScriptShape.AlternatePortsText | packages/create-malloy-package/src/scaffold.ts:354-359 | the alternate ports, with npm's separator after an npm script and without it after a command |
| StartScriptShape.ServerFlags | packages/server/src/server.ts:119-135 | each of these flags sets its own setting of the server and no other |
| StartScriptShape.ServerFlagsMore | packages/server/src/server.ts:136-159 | and so do the rest, --watch-env adding to what it finds |
| StartScriptShape.ServerSwitches | packages/server/src/server.ts:148-213 | the flags without a value |
| StartScriptShape.Binds | packages/server/src/server.ts:247-256 | where the two listeners bind, by the flags that were given |
| StartScriptShape.ServerNeedsValue | packages/server/src/server.ts:122-122 | a flag with no value after it, or an empty one, is passed over |
| StartScript.HostFlagOf | packages/create-malloy-package/src/scaffold.ts:1630-1664 | the index loop computes the --host walk over the arguments past the package spec |
| StartScript.ReadFlags | packages/create-malloy-package/src/scaffold.ts:1313-1334 | the flag loop computes the analyser's walk, with its early exits on an unknown flag and a missing value |
| StartScript.AcceptsAll | packages/create-malloy-package/src/scaffold.ts:1335-1340 | the second loop holds exactly when every required flag has a value allowed for it |
| StartScript.MatchesGeneratedInvocation | packages/create-malloy-package/src/scaffold.ts:1301-1342 | the whole-command matcher is the composition of the two over the tokens past the package spec |
| StartScriptSoundness.HostWalkIsServerHost | packages/create-malloy-package/src/scaffold.ts:1630-1664 | for every argument list, the analyser's --host walk gives the host the server's full argument loop ends with |
| StartScriptSoundness.AdoptedBindsLoopback | packages/create-malloy-package/src/scaffold.ts:1191-1253 | however it is quoted, an adopted script makes the server listen on loopback, REST and (unless --mcp_host) MCP |
| StartScriptSoundness.DeclinedHostIsBound | packages/create-malloy-package/src/scaffold.ts:1215-1231 | where a script is declined over its host or for want of --init, the address reported is the one the server would bind, 0.0.0.0 if none |
| StartScriptSoundness.SpecIndicesAgree | packages/create-malloy-package/src/scaffold.ts:1479-1537 | the three searches for the package spec, raw, unquoted and shell-split, stop at the same token |
| StartScriptSoundness.WalksInStep | packages/create-malloy-package/src/scaffold.ts:1313-1334 | the analyser's flag map and the server's settings stay related over every token list in which nothing the server acts on is hidden |
| StartScriptSoundness.HiddenBreaks | packages/create-malloy-package/src/scaffold.ts:1321-1333 | a word hidden by an inherited name, acted on by the server and none of the four own flags, leaves settings no later argument can mend |
| StartScriptSoundness.ExactAdoption | packages/create-malloy-package/src/scaffold.ts:1191-1342 | an adopted script sets root, config, loopback host and --init as required and nothing else, exactly when no word is hidden; it then watches the environment asked about exactly when --watch-env is given once |
| StartScriptGenerated.StartCommandVerdict | packages/create-malloy-package/src/scaffold.ts:298-304 | for every published version and valid environment name, the start command is adopted exactly as the start script of that environment |
| StartScriptGenerated.ResetCommandVerdict | packages/create-malloy-package/src/scaffold.ts:314-316 | for every published version and valid environment name, the reset command is adopted exactly as the reset script of that environment |
| StartScriptGenerated.CommandsServed | packages/create-malloy-package/src/scaffold.ts:298-316 | a server given either command ends with exactly its root, config, host and environment set, and --init in the reset alone |
| StartScriptGenerated.AlternatePortsDeclined | packages/create-malloy-package/src/scaffold.ts:354-359 | with the alternate ports appended, neither command, of any version, is adopted for any environment or purpose |
| StartScriptGenerated.RepeatedWatchAdopted | packages/server/src/server.ts:152-159 | a script with --watch-env twice is adopted for the last one while the server watches both |
| StartScriptGenerated.InheritedNameAdopted | packages/create-malloy-package/src/scaffold.ts:1321-1333 | an inherited property name passes for a value flag and hides --init from the analyser |
| StartScriptGenerated.HiddenFlagOverridden | packages/create-malloy-package/src/scaffold.ts:1321-1333 | a --host hidden ahead of the generated flags is adopted and changes nothing in the server |
| StartScriptGenerated.HiddenFlagLast | packages/create-malloy-package/src/scaffold.ts:1321-1333 | a --server_root hidden after them is adopted and moves the server's root |
| StartScriptGenerated.QuotedBlankAdopted | packages/create-malloy-package/src/scaffold.ts:1306-1321 | one quoted word holding a blank is adopted as a reset the server never performs |
| Paths.CollapseLaws | packages/create-malloy-package/src/skills.ts:206-206 | a dot and an empty part stay put, two dots take back the name before them, and at the root they stay too |
| Paths.AbsoluteResolves | packages/create-malloy-package/src/skills.ts:221-221 | an absolute name resolves to itself, wherever it is read |
| Paths.RelativeResolves | packages/create-malloy-package/src/skills.ts:221-221 | a relative one resolves below the directory it is read in |
| Paths.JoinedTextIs | hammer/run.ts:246-249 | the text of a joined path, with and without a slash at the end |
| LinkResolution.LeadingClimbsAreFree | packages/create-malloy-package/src/skills.ts:220-223 | a target whose `..` all come first is one the theorems cover, from any link-free directory |
| LinkResolution.AllClimbFreely | packages/create-malloy-package/src/skills.ts:205-228 | where every link of a file system climbs freely, every resolution is covered |
| LinkResolution.RealPathWalks | packages/create-malloy-package/src/skills.ts:205-228 | when the links met climb freely and none is met with the hops spent, the resolver's end is where a kernel-style walk ends, and no prefix of it is a link |
| LinkResolution.WalkDeterministic | packages/create-malloy-package/src/skills.ts:198-204 | where the reference walk ends does not depend on how many links it was allowed |
| LinkResolution.EnoughHops | packages/create-malloy-package/src/skills.ts:212-215 | a name the kernel resolves through at most 40 links meets no link with the hops spent |
| LinkResolution.RealPathIsKernelPath | packages/create-malloy-package/src/skills.ts:198-228 | for every such name, existing or not, the resolver's answer is the kernel's |
| LinkResolution.RealPathIdempotent | packages/create-malloy-package/src/skills.ts:205-228 | resolving a resolved path changes nothing, unless the hop bound cut it short |
| LinkResolution.CutoffNotIdempotent | packages/create-malloy-package/src/skills.ts:212-215 | on a chain of eighty links the first resolution stops at the fortieth and a second goes on |
| LinkResolution.WithinIsDescendant | packages/create-malloy-package/src/skills.ts:192-196 | the text comparison holds exactly when the resolved target is the resolved root or a component-wise descendant; for the root directory only itself |
| LinkResolution.AbsoluteLinkFollowed | packages/create-malloy-package/src/skills.ts:220-223 | a link to an absolute path leads there, whatever directory it stands in |
| LinkResolution.RelativeLinkFollowed | packages/create-malloy-package/src/skills.ts:220-223 | a link to a relative path leads below its own directory |
| LinkResolution.LinkOutIsOutside | packages/create-malloy-package/src/skills.ts:192-196 | a link to an absolute, link-free path outside a directory is not within it |
| LinkResolution.ClimbingBackDiffers | packages/create-malloy-package/src/skills.ts:220-223 | a link to a/../b through a link a resolves to /b here and elsewhere in the kernel, for all names |
| WorkQueue.RunAccounted | hammer/run.ts:818-833 | in every reachable state of every interleaving, each index handed out is held by one worker or finished once |
| WorkQueue.HeldApart | hammer/run.ts:358-368 | no two workers hold the same index, nor one already finished or past the end |
| WorkQueue.ExactlyOnce | hammer/run.ts:353-368 | when all workers have stopped, every index was processed exactly once and no other was, under both forms of the loop |
| WorkQueue.RunsAreShort | hammer/run.ts:359-364 | no run is longer than three steps an item and one a worker |
| WorkQueue.StuckMeansDone | hammer/run.ts:359-367 | a run can go no further exactly when every worker has stopped |
| Cluster.PublisherCluster.PortsFor | hammer/run.ts:190-201 | a name keeps the ports it has, and a new name takes the next pair |
| Cluster.PublisherCluster.Boot | hammer/run.ts:232-278 | the whole new state of cluster and host after a boot that serves, never serves, or fails its first probe |
| Cluster.PublisherCluster.Use | hammer/run.ts:204-221 | a publisher in the same mode with no init and no environment asked for is handed out untouched; anything else boots |
| Cluster.PublisherCluster.Reboot | hammer/run.ts:224-230 | always a boot |
| Cluster.PublisherCluster.Stop | hammer/run.ts:292-301 | stops every registered server and no other, and forgets them; ports stay assigned |
| Cluster.PrepareKeepsPorts | hammer/run.ts:181-201 | handing out ports moves no name's ports and gives no two names the same |
| Cluster.BootKeepsPorts | hammer/run.ts:232-278 | a boot, however it goes, keeps that and leaves every other name's server alone |
| Cluster.BootServes | hammer/run.ts:253-277 | after a boot that serves, the named server runs on the name's ports in the mode asked for |
| Cluster.BootLeaves | hammer/run.ts:238-276 | what a boot leaves, by how it goes: which servers live, on which ports, under which names, with which roots |
| HammerRun.InitAsked | hammer/run.ts:204-230 | a publisher boots with --init unless told otherwise where it is used, and only if told where it is rebooted |
| HammerRun.InitPassedOn | hammer/run.ts:253-266 | a spawned server has the name, mode and --init it was asked for with |
| HammerRun.StepInv | hammer/run.ts:190-302 | every step of every worker keeps the invariant tying processes to the clusters that know them |
| HammerRun.RunInv | hammer/run.ts:818-833 | so does every run |
| HammerRun.PlanClearIff | hammer/run.ts:714-723 | REST and MCP blocks stay apart exactly when the gap between the bases is no multiple of 100 within the workers' reach |
| HammerRun.OffGridGapKeepsKindsApart | hammer/run.ts:181-201 | with a gap that is no multiple of 100, no REST port is an MCP port, however many names there are |
| HammerRun.SmallPlanApart | hammer/run.ts:710-723 | with at most ten names a scenario and a clear plan, blocks and kinds stay apart |
| HammerRun.NamesApartIff | hammer/run.ts:190-201 | in every reachable state the ports of all names of all workers are distinct exactly when no block reaches one in use and no REST port is an MCP port |
| HammerRun.LivePortsDistinct | hammer/run.ts:181-201 | in every such state live servers share no REST or MCP port |
| HammerRun.EleventhNameCollides | hammer/run.ts:714-723 | with two workers and two scenarios there is a run in which a publisher is spawned on the ports of the worker before's eleventh |
| HammerRun.RoundGapCollides | hammer/run.ts:190-201 | with a gap that is a multiple of 100 there is a run in which a publisher is spawned with a REST port that is an MCP port |
| HammerRun.AlwaysApartIff | hammer/run.ts:181-201 | no run ever has two servers spawned and not stopped on one port, whatever is named, exactly when the gap is no multiple of 100 and there is one worker or one scenario |
| HammerRun.OneServerAName | hammer/run.ts:238-244 | a name within a cluster never has two live servers |
| HammerRun.NamesKeepPorts | hammer/run.ts:190-201 | while a scenario runs, no step of any worker changes the ports its names have |
| HammerRun.NamesKeepPortsThroughout | hammer/run.ts:190-201 | nor does any run of steps that does not finish the scenario |
| HammerRun.RunRefinesQueue | hammer/run.ts:815-833 | forgetting the servers, a run is a run of the work queue |
| HammerRun.RunsEachScenarioOnce | hammer/run.ts:818-833 | when all workers have stopped, each scenario ran exactly once and every server a cluster knew of is stopped |
| HammerRun.StuckMeansDone | hammer/run.ts:819-832 | a reachable state with no step left has every worker stopped |
| HammerRun.FailedProbeSharesPorts | hammer/run.ts:269-276 | a run in which a server left by a failed first probe has the ports of the one its worker's next scenario spawns |
| Slugs.BaseIsWords | hammer/run.ts:329-332 | the base of an id is its words of letters and digits, in lower case, one underscore between two |
| Slugs.WordsOf | hammer/run.ts:329-332 | every id is such words and gaps |
| Slugs.SlugIs | hammer/run.ts:333-334 | a slug is the first forty characters of the base, an underscore and the index in decimal |
| Slugs.SlugInjective | hammer/run.ts:328-335 | equal slugs have equal scenario indices, whatever the ids |
| Slugs.Provision | hammer/run.ts:432-435 | the loop leaves each id with the resources of the last scenario that has it |
| Slugs.SameSlugSameId | hammer/run.ts:432-435 | two scenarios use one slug exactly when they have one id |
| Slugs.OwnerOf | hammer/run.ts:543-549 | the loop gives an environment the resources of the last scenario whose prefix it carries, looked up by id, and none if there is none |
| Slugs.ClaimsIff | hammer/run.ts:547-547 | a scenario's prefix is on an environment exactly when their ids are one, or a cut ends in an underscore after the other's slug |
| Slugs.OwnerIsOwn | hammer/run.ts:543-549 | the resources found are those it was named by exactly when no scenario after the last of its id has a prefix on it by that accident |
| Slugs.SoleOwner | hammer/run.ts:543-549 | when no cut ends in an underscore, each environment is claimed by the scenarios of its id alone |
| Slugs.SourceDbsSharedIff | hammer/run.ts:448-451 | two scenarios use one source database exactly when they have one id |
| Slugs.CopiedScenarioShares | hammer/run.ts:432-435 | two scenarios with one id share source database, environments, catalogs and server roots |
| Slugs.ServerRootsSharedIff | hammer/run.ts:246-249 | for names that stay inside their directory, roots are one exactly when the ids and the normalised names are |
| Slugs.ServerRootsDistinct | hammer/run.ts:246-249 | server roots differ for different ids or publisher names, where parts past a slash are proper components, slash-free names included |
| Slugs.SameNameSharedIff | hammer/run.ts:246-249 | under one publisher name, scenarios of different ids share a root exactly when the name climbs out of it |
| Slugs.DoubledSlashShares | hammer/run.ts:246-249 | names that differ by a doubled slash share a root |
| Slugs.ClimbingNameShares | hammer/run.ts:246-249 | a name that climbs out and down again has the root of the scenario it names, for any two scenarios |
| Slugs.CatalogsSharedIff | hammer/run.ts:347-347 | two connections share a catalog exactly when ids and connections are one, or one cut ends in an underscore after the other's slug and the connection name supplies the rest |
| Slugs.CatalogsDistinct | hammer/run.ts:347-347 | catalog databases of different ids or connections differ, when no cut ends in an underscore |
| Slugs.OwnerMistaken | hammer/run.ts:334-334 | two ids for which the loop gives an environment to the wrong scenario |
| ScenarioMode.ParseMarkdown | hammer/lib/scenario_md.ts:500-546 | each section's step carries what its header says and the last mode a Publisher section set: by mode=, else by off, write-only or on, else in its body; else the start mode |
| ScenarioMode.InStepAgrees | hammer/lib/scenario_md.ts:1761-1780 | from any point where parser and interpreter are in step, they stay so through every section, name and failure |
| ScenarioMode.PublisherStepRuns | hammer/lib/scenario_md.ts:2468-2480 | a Publisher step makes its publisher the active one, running in its mode, and touches no other |
| ScenarioMode.RestartStepRuns | hammer/lib/scenario_md.ts:2512-2523 | a Restart step starts the active publisher anew, with --init only if it says so |
| ScenarioMode.WorkStepRuns | hammer/lib/scenario_md.ts:1764-1780 | a step aimed at a publisher by name needs it running; any other is the active one's, booted at need |
| ScenarioMode.UnannouncedDisagrees | hammer/lib/scenario_md.ts:2468-2523 | a scenario that starts in another mode and uses the active publisher before announcing one shows a disagreement |
| ScenarioMode.ModesAgreeIff | hammer/lib/scenario_md.ts:500-554 | the recorded mode is the running mode of every step on the active publisher, whatever fails, exactly when the scenario starts in on or announces its publisher first |
| ScenarioTable.OutsideFences | hammer/lib/scenario_md.ts:1104-1115 | the loop keeps exactly the lines outside fenced code |
| ScenarioTable.ParseTableBlock | hammer/lib/scenario_md.ts:1072-1101 | the index loop reads the first contiguous block of rows, and no table from fewer than two |
| Text.WhiteSpaceListed | hammer/lib/scenario_md.ts:1074-1079 | what trimming takes off, character by character |
| Text.LowerListed | hammer/lib/scenario_md.ts:1089-1095 | lower-casing takes the twenty-six capitals to their letters and leaves every other character |
| ScenarioTable.FenceIff | hammer/lib/scenario_md.ts:1108-1108 | a fence is white space, three backticks and anything |
| ScenarioTable.LabelIff | hammer/lib/scenario_md.ts:1133-1133 | a label is the word expect in any case, perhaps a colon, and white space |
| ScenarioTable.RowIff | hammer/lib/scenario_md.ts:1073-1074 | a row is white space around text that starts and ends with a bar |
| ScenarioTable.LooseRowReads | hammer/lib/scenario_md.ts:1081-1085 | however its cells are padded, a row reads as the cells |
| ScenarioTable.HeaderReads | hammer/lib/scenario_md.ts:1086-1097 | a header without a colon is a text column; the type follows the first colon; case and padding go |
| ScenarioTable.NothingAsserted | hammer/lib/scenario_md.ts:1131-1136 | without a label outside code there is no table, nor after one with fewer than two rows |
| ScenarioTable.PrintedLines | hammer/lib/scenario_md.ts:1081-1100 | every line of a printed table is a row and no fence, and the lines read back as the table |
| ScenarioTable.ExpectTableReadsBack | hammer/lib/scenario_md.ts:1131-1136 | a table printed after an Expect label reads back as that table, whatever tables and balanced fences stand before the label or in the gap |
| ScenarioTable.DataTableReadsBack | hammer/lib/scenario_md.ts:1121-1123 | a table printed as the first outside balanced fences reads back as the section's own |
| Csv.ParseLine | hammer/lib/postgres.ts:235-255 | the character loop computes the fields |
| Csv.LineReadsBack | hammer/lib/postgres.ts:235-255 | a written line reads back as its fields, any of them quoted, with inner quotes doubled, newlines included |
| Csv.MixedField | hammer/lib/postgres.ts:239-252 | quotes may open in the middle of a field: bare, quoted and bare text run together |
| Csv.TableReadsBackIff | hammer/lib/postgres.ts:232-263 | a written table, its rows of any length, reads back under its headers, short rows filled up and long ones cut, with no other keys, exactly when no field holds a newline |
| RegistryFetch.Request.OnResponse | packages/create-malloy-package/src/registry_check.ts:171-180 | the whole state after a response |
| RegistryFetch.Request.OnData | packages/create-malloy-package/src/registry_check.ts:181-199 | the whole state after a chunk: gathered, and settled to nothing past the cap |
| RegistryFetch.Request.Settle | packages/create-malloy-package/src/registry_check.ts:160-165 | the first settlement resolves and disarms the deadline; a later one changes nothing |
| RegistryFetch.OneChunk | packages/create-malloy-package/src/registry_check.ts:172-200 | a 200 is kept up to a million bytes of UTF-8 and given up past them; any other status is given up |
| RegistryFetch.BytesCounted | packages/create-malloy-package/src/registry_check.ts:187-187 | the bytes counted are those of the encoding |
| RegistryFetch.Utf8ReadsBack | packages/create-malloy-package/src/registry_check.ts:187-187 | every character reads back from its bytes |
| RegistryFetch.ArmedUntilSettled | packages/create-malloy-package/src/registry_check.ts:204-224 | after any events, settled exactly when resolved, and unsettled exactly when the deadline is armed |
| RegistryFetch.SettlesWithFirstVerdict | packages/create-malloy-package/src/registry_check.ts:152-225 | for every order of events the promise resolves to the verdict of the first event that has one |
| RegistryFetch.SettlesOnce | packages/create-malloy-package/src/registry_check.ts:160-165 | once resolved, nothing that comes later changes what it resolved to |
| RegistryFetch.NeverHangs | packages/create-malloy-package/src/registry_check.ts:204-211 | any run in which the deadline has come has settled |
| RegistryFetch.BodyIsWholeAndCapped | packages/create-malloy-package/src/registry_check.ts:171-201 | a body is only ever that of a 200, all chunks up to the end event, at most the byte cap |
| AdbcShim.Shim.DriverInit | packages/server/adbc-shim/shim.c:136-186 | the statics and the driver table after one init, on each of its exits |
| AdbcShim.WrapCases | packages/server/adbc-shim/shim.c:163-170 | already wrapped, lacking a function and passed through, or wrapped now |
| AdbcShim.RunSound | packages/server/adbc-shim/shim.c:158-170 | over any inits of any tables, the captured StatementNew is never the shim's own |
| AdbcShim.CallsReachDriverOnce | packages/server/adbc-shim/shim.c:121-134 | a call through any wrapped table reaches the driver exactly once |
| AdbcShim.InitWraps | packages/server/adbc-shim/shim.c:155-170 | an init that succeeds leaves the table wrapped and the driver's own function captured |
| AdbcShim.Strtol | packages/server/adbc-shim/shim.c:59-62 | the saturating conversion of a digit string, with its range error |
| AdbcShim.DecimalReadsBack | packages/server/adbc-shim/shim.c:61-61 | the value of a number written in decimal is the number |
| AdbcShim.IsPositiveInteger | packages/server/adbc-shim/shim.c:51-64 | accepts exactly the digit strings, of any length, whose value is from 1 to INT_MAX |
| Registration.PublisherConfig.TargetEnvironment | packages/create-malloy-package/src/config.ts:197-213 | finds the first environment of that name, else the first, skipping what is not an object |
| Registration.PublisherConfig.AddPackage | packages/create-malloy-package/src/config.ts:315-339 | the config and verdict of every call: refused exactly when frozen or when the first entry of the name in the target environment has another location; already there; or one entry more at the end; or a first environment made |
| Registration.TargetIs | packages/create-malloy-package/src/config.ts:205-212 | the target is the lowest index with the name, else the lowest that is an object |
| Registration.AddComesOut | packages/create-malloy-package/src/config.ts:275-339 | every outcome of a call, written out |
| Registration.AddGrows | packages/create-malloy-package/src/config.ts:275-339 | a call touches one environment, and there only appends its own entry |
| Registration.AddAllGrows | packages/create-malloy-package/src/config.ts:315-339 | over any calls environments keep their places and names, and lists only grow at the end |
| Registration.TargetStaysThroughout | packages/create-malloy-package/src/config.ts:197-213 | once a name resolves to an environment, no later calls change which |
| Registration.LandsWhereResolved | packages/create-malloy-package/src/config.ts:222-227 | the name resolved before a call is that of the environment the package lands in, and stays so over any later calls |
| Registration.AddAllKeepsUnique | packages/create-malloy-package/src/config.ts:286-297 | package names stay unique in every environment where they were |
| Registration.RepeatIsNoOp | packages/create-malloy-package/src/config.ts:333-336 | repeating a call that succeeded, after any others, succeeds and changes nothing |
| Gitignore.Workspace.MergeGitignore | packages/create-malloy-package/src/scaffold.ts:2158-2201 | the file and the report after a merge, on each of its four exits |
| Gitignore.RuleIsBody | packages/create-malloy-package/src/scaffold.ts:2208-2214 | a rule is what stands between the slashes at either end of a line |
| Gitignore.NoRule | packages/create-malloy-package/src/scaffold.ts:2210-2212 | blank lines and comments ignore nothing |
| Gitignore.MissingInOrder | packages/create-malloy-package/src/scaffold.ts:2183-2185 | the missing entries are those whose rule is not there, in order |
| Gitignore.AppendedText | packages/create-malloy-package/src/scaffold.ts:2191-2196 | the text appended, with the blank line before it |
| Gitignore.FreshFileText | packages/create-malloy-package/src/scaffold.ts:2124-2143 | the text of the file written where there was none |
| Gitignore.MergeAddsExactly | packages/create-malloy-package/src/scaffold.ts:2180-2196 | the old text stays in front, and the rules become the old ones and the required ones, for every text |
| Gitignore.FreshFileRules | packages/create-malloy-package/src/scaffold.ts:2141-2143 | a file written from nothing holds exactly the required rules |
| Gitignore.MergeIdempotent | packages/create-malloy-package/src/scaffold.ts:2158-2201 | a second merge changes nothing, whatever the first one found |
| Themes.SanitizeTheme | packages/server/src/config.ts:1215-1288 | the field-by-field builder computes the reading of the JSON value |
| Themes.SanitizedReads | packages/server/src/config.ts:1219-1287 | each setting is read when the JSON has a value of its type in its place, whatever stands in the others |
| Themes.SeriesStrings | packages/server/src/config.ts:1258-1260 | the strings of a series in order, anything else passed over |
| Themes.ColorKeysListed | packages/server/src/config.ts:97-105 | the seven colour keys |
| Themes.MergeThemes | packages/server/src/config.ts:1299-1323 | setting by setting, colour modes included, the override's where it has one and the base's where it has not |
| Themes.MergedIsLayered | packages/server/src/config.ts:1305-1322 | that describes the merge of two themes, and no other theme |
| Themes.MergeAssociative | packages/server/src/config.ts:1290-1323 | layers may be merged in any grouping |
| Themes.MergeIdentityAndIdempotent | packages/server/src/config.ts:1303-1304 | no theme is the identity on both sides, and a theme over itself is itself |
| Themes.SanitizeIdempotent | packages/server/src/config.ts:1215-1288 | sanitising a sanitised theme changes nothing, for every JSON value |
| Themes.MergeOfSanitized | packages/server/src/config.ts:1299-1323 | sanitising the merge of two sanitised themes changes nothing |
| Themes.SaneReadsBack | packages/server/src/config.ts:1252-1287 | every theme with nothing empty in it, written as JSON, reads back as it was |

## Left out

- StartScriptSoundness.ExactAdoption: leaves open a script whose first hidden word is one of the analyser's own four flags, which may go either way; and of a script with a quoted blank it says nothing, though such a script may boot as promised.
- HammerRun.LivePortsDistinct: says nothing of servers whose first probe failed, which no cluster knows about (`FailedProbeSharesPorts`).
- LinkResolution.RealPathIsKernelPath: assumes no link met climbs out of a path with a link on it, which is not always necessary (the link may lead to its own neighbour).
- LinkResolution.RealPathIdempotent: is false in general once the hop bound cut the resolution short (`CutoffNotIdempotent`), where the source judges the path as it stands.
- Scripts: `~` and `*` expansion, what npm and npx themselves do with the line, `joinedHostFlagOf`, the wording of messages, and an environment in which PUBLISHER_HOST, MCP_HOST or PUBLISHER_WATCH is already set.
- Lower-casing is that of ASCII; other characters that JavaScript lowers, in ids or in column names, are not modelled, and the table round trips keep to column names and kinds of ASCII without capitals.
- Characters are Unicode scalar values, where a JavaScript string holds UTF-16 code units; every character the modelled code looks for is ASCII, so only unpaired surrogates are lost.
- Inherited property names are a fixed list of what a plain object answers to; none can be added at run time.
- The file system is a map that does not change during a resolution; permission errors and unreadable links are not modelled.
- Processes, HTTP, docker, psql and file writes are outcomes handed to the model; a stop that itself fails is not modelled, nor an item of `pooled` that rejects, nor a server that dies by itself.
- Postgres identifier truncation, storage directories, and `--keep`.
- Scenario sections are taken as already split, with their attributes parsed and valid; header syntax, the body pattern for the mode, hooks, and what a work step does with its publisher are left out, as are expected results and their comparison.
- Environment bindings of a REST client: a publisher serves all environments, so only its name matters here.
- JSON parsing and the other checks of `readConfig`: the model takes the environments it would let through, and entries that are not objects.
- Parsing the registry's answer, comparing versions, and cancelling before the request is made.
- The shim's option setting, logging, and finding the real driver; there is one driver per process, whose entries are not null.
- Package names, identifiers, agent briefings, templates, the MCP config merge and skill copying would add only easy members.
