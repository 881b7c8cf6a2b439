# Verified model of the 3x-ui panel's core logic

The panel generates configurations for a proxy core and for sidecar processes, keeps them in step with
what is running, accounts for traffic, and prints subscriptions for clients. This project states what
that logic promises and proves it, component by component:

- **Hot configuration diff** (`Text`, `Json`, `JsonLayout`, `JsonCanonical`, `TagDiff`, `HotDiff`, `HotApply`,
  `HotRuns`, `SectionTexts`). When a hot diff exists, its operations lead a running core to the core the new
  configuration stands for, and no operation fails on the way. It rests on the canonical JSON printer being
  injective, and on the reader taking exactly the layouts of the grammar, in which texts of one value compare as
  equal. Over every run of restarts, hot applies and crashes the stored snapshot and API port describe the
  running core.
- **Jalali conversion** (`Jalali`). The closed-form day number and the walks over months agree with calendars
  that only know the next day, with exact conditions where truncating division breaks the formula.
- **Sidecar manager** (`MtgConfig`, `MtgFile`, `MtgFleet`, `MtgManager`, `MtgTraffic`, `LogWriter`). Reconciling
  converges and is idle the second time; the file a process is started with says exactly what the instance asks
  for; when the restart fingerprint can be trusted and when traffic collected without the lock is over-counted
  is said exactly; log lines do not depend on how the stream is cut.
- **Subscriptions** (`ProxyNames`, `Percent`, `ShareLink`, `ShareEndpoints`, `LinkImport`, `Endpoints`,
  `EndpointFields`, `EndpointMaps`, `RemarkTemplate`, `Aggregate`). Proxy names become unique, links read back
  line by line and, where net/url takes the host, by the panel's importer, what each endpoint's stream holds and
  when endpoints leak into each other is said exactly, templates survive their second translation, the header
  depends on row order exactly if some limits, but not all, cancel out.
- **Online presence** (`Online`), **core traffic** (`StatsDelta`), **SQL dump** (`SqlDump`) and **event bus**
  (`EventBus`). A pruned map agrees with the whole history; differences never exceed the counters; dumped rows
  read back; every subscriber sees events once and in order.

Code that works in place is a class or a method proved against a function of the old state, and the promises are
lemmas about that function: `MtgManager` is the manager's code and `MtgFleet` its functions, `EndpointMaps` the
code on maps and `Endpoints` its functions, `EventBus.Bus` the code and `EventBus.Next` its steps. Go maps are
walked in an arbitrary order (`Text.PickOne`). Strings are sequences of characters that stand for bytes, except
in `RemarkTemplate` and `Json`, where a character is a Unicode scalar value: a pair of surrogate escapes is read
as the one character it stands for, and characters sort like the bytes of their UTF-8 form. Random choices,
ports handed out by the system, clocks and the answers of processes are parameters.

## Results that qualify what the code or its comments say

- `HotRuns.TrailingTextIsNotSeen`: the section comparison decodes only the first JSON value, so text after
  it counts as no change although a restart would fail on it; a hot apply equals a restart exactly if the
  new configuration can be printed (`HotRuns.HotApplyEqualsRestart`).
- `HotRuns.NamedInboundKeptExactly`: the diff never touches the inbound tagged `api` (`HotRuns.ApiPortStays`),
  nor the one whose tag the new `api.tag` names, but it does not guard the one the old `api.tag` named. The
  tag is decoded without regard to case, so sections that compare as equal may name different inbounds, and
  then a hot apply may remove the one named before (`HotRuns.RunRemovesNamedInbound`).
- `MtgConfig.FingerprintDecidesConfig`: fields joined by `|` are told apart exactly if there is no `|` in
  `PreferIP` or the fronting IP, the address and secret cannot be cut at another bar, and the end of the
  secret does not read as flags.
- `MtgTraffic.NeverOverCounted`: a process started during a collection on the port of another inbound's row,
  while a row of its own inbound is outstanding, may have bytes counted twice (`MtgTraffic.HarmfulStartOverCounts`);
  no other process ever has, in the same run or another.
- `Endpoints.IsolatedExactly`: the comment on the stream clone promises isolation between endpoints; a
  reality inbound's server name does leak, exactly under the stated condition.
- `ShareLink.LinkReadsBack`: hosts are printed raw, so a host with one of `# ? / @` does not read back;
  `LinkImport.ImportGivesBack`: the panel's own importer decodes remarks twice and takes fewer hosts than are printed.
- `SqlDump.TableReadsBack`: table names are printed without doubling quotes.
- `Aggregate.AnyOrderSameSummary`: the summary depends on the order of the rows exactly if no limit is 0, the
  limits do not add up to 0, and some of them do; a sum that happens to be 0 reads as unlimited.
- `Online.PresenceIsExact`: pruning forgets a client who is within grace now exactly if the clock or the grace
  made it miss an earlier refresh.
- `StatsDelta.SharedTagLosesTraffic`, `Jalali.JdnCountsOne`, `Jalali.CycleExactly`: where the law stops holding.

## Model

| member | source | states |
|---|---|---|
| JsonCanonical.ReadBack | internal/xray/hot_diff.go:273-291 | Printing any decoded value and decoding the text again gives the same tree and leaves what follows untouched |
| JsonCanonical.EncodeInjective | internal/xray/hot_diff.go:286-291 | Two decoded values with the same canonical bytes are the same tree |
| JsonCanonical.RawEqualDecidesMeaning | internal/xray/hot_diff.go:255-268 | The comparison holds exactly for sections with the same meaning: same tree up to member order and spacing, same number digits, null like absent, unreadable text equal only to itself |
| JsonCanonical.CanonicalKeepsMeaning | internal/xray/hot_diff.go:273-291 | Canonical text means what the original meant, and is its own canonical text |
| JsonLayout.ReadsExactly | internal/xray/hot_diff.go:277-281 | Decoding a text takes the longest value at its front, in every layout of the grammar: white space of the four kinds between tokens, every spelling of characters and numbers, members in any order; and no other text is decoded |
| JsonLayout.UnmarshalsExactly | internal/xray/hot_diff.go:355-361 | A text is unmarshalled exactly if it is one value in some layout between white space |
| JsonLayout.MeaningExactly | internal/xray/hot_diff.go:273-291 | A section means the value its text starts with, and nothing exactly if that is null or there is no text |
| JsonLayout.SpellingsCompareByValue | internal/xray/hot_diff.go:255-268 | Texts that spell values compare as equal exactly if the values are the same, whatever their layouts |
| JsonLayout.CanonicalSpells | internal/xray/hot_diff.go:286-291 | The canonical text of a value spells it |
| JsonLayout.LastMemberWins | internal/xray/hot_diff.go:277-281 | Of members with one key the last one counts, and the order of others does not matter |
| Json.EscapedIsSafe | internal/xray/hot_diff.go:286-291 | Printed text holds no control character, none of `<`, `>` and `&`, and no line separator |
| TagDiff.RemovedExactly | internal/xray/hot_diff.go:103-125 | A tag is removed exactly if its handler is gone or means something else, and once |
| TagDiff.AddedExactly | internal/xray/hot_diff.go:118-137 | The added handlers are exactly the new ones that are not already there with the same content |
| TagDiff.DiffReachesNew | internal/xray/api.go:376-396 | On the table of old handlers no removal misses its tag, no addition meets a taken one, and the table of the new handlers is reached |
| TagDiff.NothingToDo | internal/xray/hot_diff.go:23-30 | There are no handler operations exactly if both lists build the same table |
| TagDiff.StaleTableExactly | internal/web/service/xray.go:968-1042 | From any running table, tolerant removals and replacing additions fix every tag they touch; the new table is reached if and only if the untouched tags were right |
| HotDiff.ConfigEquals | internal/xray/config.go:30-79 | The field-by-field comparison is equality of configurations |
| HotDiff.InboundEqualDecidesMeaning | internal/xray/hot_diff.go:238-246 | Inbounds compare as equal exactly if tag, port, protocol and the meaning of all four sections agree |
| HotDiff.TagKeyExactly | internal/xray/hot_diff.go:353-361 | A key decodes as the tag exactly if it is `tag` in lower case |
| HotDiff.RoutingTextDecidesRest | internal/xray/hot_diff.go:217-234 | Two routing sections leave the same text without their reloadable keys exactly if the remaining trees are equal |
| HotDiff.InboundsByTag | internal/xray/hot_diff.go:295-308 | Succeeds exactly if no tag is empty or repeated, and then is the table of the inbounds |
| HotDiff.DiffInbounds | internal/xray/hot_diff.go:90-139 | Succeeds exactly if all inbounds are addressable, the API inbound is unchanged and every added one can be marshalled; then the operations are the removed and added ones |
| HotDiff.ParseOutbounds | internal/xray/hot_diff.go:319-349 | Succeeds exactly if the section is an array of objects with non-empty, distinct tags; every entry keeps its meaning and canonical text |
| SectionTexts.ElementsExactly | internal/xray/hot_diff.go:319-333 | A section lists outbounds exactly if it is empty or spells null or an array; each element's own text spells that element |
| SectionTexts.OutboundsExactly | internal/xray/hot_diff.go:319-349 | For a section that spells an array there are as many entries as values, each with the tag and content of its value, exactly if every value has a readable tag; a tag is not to be written twice |
| HotDiff.IndexOutbounds | internal/xray/hot_diff.go:158-165 | The index holds every tag with the content the table of entries has |
| HotDiff.DiffOutbounds | internal/xray/hot_diff.go:141-185 | Succeeds exactly if both sections are addressable and the default outbound stays the same; then the operations are the removed and added ones |
| HotDiff.DiffRouting | internal/xray/hot_diff.go:191-213 | Succeeds exactly if nothing but rules and balancers changed in meaning; replaces the routing exactly if its text changed |
| HotDiff.ComputeHotDiff | internal/xray/hot_diff.go:36-85 | Succeeds exactly if both configurations exist and the change is hot-appliable in meaning; its operations are those that lead from one to the other |
| HotApply.DefaultStays | internal/xray/hot_diff.go:150-157 | The default outbound is never removed and none is added where there was none |
| HotApply.HandlersReachNew | internal/web/service/xray.go:968-993 | All handler operations are enabled in the order they run and give the new inbounds, outbounds and default |
| HotApply.HotApplyReachesNew | internal/web/service/xray.go:943-1003 | From any core that realises the old configuration the hot apply gives the core of the new one; only the routing call can fail, exactly if the new routing text is not one whole JSON value |
| HotApply.RefusalIsNeeded | internal/xray/hot_diff.go:40-84 | When a section the core cannot reload changes in meaning, or the routing section beyond rules and balancers, no operations whatsoever lead to the new core |
| HotRuns.HotApplyEqualsRestart | internal/web/service/xray.go:897-935 | A hot apply that goes through gives the core a restart would give, if and only if the new configuration can be printed |
| SectionTexts.PrintableExactly | internal/xray/config.go:8-28 | A configuration can be printed exactly if each of its sections and of its inbounds' sections is absent or one whole value |
| SectionTexts.MarshalsExactly | internal/xray/hot_diff.go:118-137 | An added inbound can be marshalled exactly if each of its four sections is absent or one whole value |
| HotRuns.TrailingTextIsNotSeen | internal/xray/hot_diff.go:277-281 | Text after the first value of an inbound's sniffing section, which the database holds as text (internal/database/model/model.go:305), is not seen by the comparison, although a restart fails on it |
| HotRuns.ApiInboundUntouched | internal/xray/hot_diff.go:98-130 | The inbound whose tag the new API section names, and the one tagged `api`, are never removed or added; they are unchanged in meaning |
| HotRuns.ApiPortStays | internal/xray/hot_diff.go:88-100 | No hot apply touches the inbound tagged `api`, whatever the sections say, and the port the panel would find for it stays the same |
| HotRuns.LoadKeepsPort | internal/xray/process.go:476-484 | The port found in a configuration is the one on which the core loaded from it listens under the tag `api` |
| HotRuns.NamedInboundKeptExactly | internal/xray/hot_diff.go:98-130 | Between API sections that compare as equal, every hot apply that can dial the core leaves the inbound that the old section names alone if and only if both name the same one or the old one names `api` |
| HotRuns.RemovesNamedInbound | internal/xray/hot_diff.go:109-125 | Otherwise a hot-appliable change between bootable configurations with an unchanged inbound `api` removes exactly that inbound |
| HotRuns.RunRemovesNamedInbound | internal/web/service/xray.go:943-1003 | It happens in a run of two requests: after a start and one hot apply, without a restart, the inbound is gone from the core |
| HotRuns.SameMeaningSameApiTag | internal/xray/hot_diff.go:353-361 | API sections that mean the same name the same inbound, which no hot apply touches, if the tag is written once and nothing trails |
| HotRuns.ApiTagDependsOnMemberOrder | internal/xray/hot_diff.go:353-361 | For all different tags, two texts of one API section, with the services the panel adds in place (internal/web/service/xray.go:596-629), that compare as equal and name the one and the other; a hot apply that can dial the core goes from the first to the second and removes the inbound the first names |
| HotDiff.HotDiff.Empty | internal/xray/hot_diff.go:23-30 | The test of the five fields holds exactly for the diff without operations |
| HotRuns.EmptyExactly | internal/xray/hot_diff.go:23-30 | A diff is empty exactly if handlers mean the same and the routing text is the same; equal configurations give an empty one |
| HotRuns.EveryRunStaysInStep | internal/web/service/xray.go:903-935 | Over every run of restarts, hot applies, failures and crashes the snapshot describes the running core, the port that is dialled is that of its inbound `api`, and what runs after a request is the core of the requested configuration |
| HotRuns.RequestOutcome | internal/web/service/xray.go:902-935 | A forced request, one that asks to restart for the same configuration and one for a change that is not hot-appliable start the process anew; another one for the same configuration changes nothing; a hot-appliable change reaches the new core without a new process if the API answers and the routing section is whole |
| Jalali.GregorianToJalali | internal/sub/remark_vars.go:360-400 | For any integers both walks end at a valid date. For every date from year -4799 on: if it is the n-th day after 2024-01-01 on a calendar that only knows the next day, the result is the n-th day after 1402-10-11 on another such calendar |
| Jalali.CalendarsAgree | internal/sub/remark_vars.go:360-370 | The day number ties the two calendars together day by day, forward and backward from 2024-01-01, which is 1402-10-11 |
| Jalali.EveryDateIsReached | internal/sub/remark_vars.go:361-366 | Every date from year -4799 on is some n-th day before or after 2024-01-01 |
| Jalali.KnownDates | internal/sub/remark_vars_test.go:346-361 | The three documented pairs of dates, and the two around the leap day 1403-12-30 |
| Jalali.KnownLeapYears | internal/sub/remark_vars.go:418-424 | The leap years of the years 1387 to 1419 by name |
| Jalali.WalkForward | internal/sub/remark_vars.go:372-388 | Walking forward over months arrives exactly that many days later |
| Jalali.WalkBack | internal/sub/remark_vars.go:389-400 | Walking backward arrives exactly that many days earlier |
| Jalali.CountOrders | internal/sub/remark_vars.go:403-424 | Day counts order valid Jalali dates and determine them |
| Jalali.JdnCountsOne | internal/sub/remark_vars.go:361-366 | From each date to the next the day number rises by one, if and only if the date is from year -4799 on or is not the end of February of an early leap year, where it stands still, or of the year after one, where it rises by two |
| Jalali.JdnOrders | internal/sub/remark_vars.go:361-366 | Of any two Gregorian dates the later one has the larger day number, or the same exactly for an early leap day and the day after it |
| Jalali.NextDayToNextDay | internal/sub/remark_vars.go:360-400 | The next Gregorian day is converted to the next Jalali day, under the same exact condition |
| Jalali.ConversionOrders | internal/sub/remark_vars.go:360-400 | The conversion keeps the order of all dates and tells them apart, but for an early leap day and the day after it |
| Jalali.CycleExactly | internal/sub/remark_vars.go:418-424 | 33 Jalali years have 12053 days if and only if they start from year -2 on |
| Jalali.CyclesJump | internal/sub/remark_vars.go:372-400 | Jumping over whole cycles gives the date that walking gives, if and only if the start is in year -2 or later or no cycle is jumped |
| MtgConfig.FingerprintReadsOneWay | internal/mtproto/manager.go:53-66 | Every instance with the same fingerprint has the same fields, if and only if the fingerprint is not ambiguous: no bar in PreferIP or the fronting IP, no other cut of address and secret, no flags at the end of the secret |
| MtgConfig.FingerprintDecidesConfig | internal/mtproto/manager.go:43-66 | Then every instance with the same fingerprint has the same file text on every metrics port, whatever the quoting verb does; with quoting that shows where a text ends, only then |
| MtgConfig.BarFreeIsUnambiguous | internal/mtproto/manager.go:53-66 | Free-text fields without bars are never ambiguous |
| MtgConfig.JsonQuoteIsSelfDelimiting | internal/mtproto/manager.go:338-371 | Quoting with escapes shows where a text ends |
| MtgFile.FileSaysExactly | internal/mtproto/manager.go:334-371 | Read back by sections and keys, the file holds exactly what the instance asks for: secret, address with `0.0.0.0` for none, flags, preference, fronting exactly if one of its fields is set, the proxy exactly if routed with a positive port, the metrics address |
| MtgFile.JsonQuotes | internal/mtproto/manager.go:338-349 | Quoting with escapes is read back, whatever the text holds |
| MtgFleet.EnsuredAllOwn | internal/mtproto/manager.go:177-207 | Each instance is judged by its own state and start attempt only; one that is started runs for that instance on the port the attempt gave |
| MtgFleet.ReconcileConverges | internal/mtproto/manager.go:224-244 | After a reconciliation the managed ids are exactly the desired ones whose process matched or could be started; matching processes are kept, others are started for their own instance and port, a failed start concerns its own id |
| MtgFleet.SecondReconcileIsIdle | internal/mtproto/manager.go:224-244 | A second reconciliation changes nothing if and only if every instance matched, was started, or cannot be started the second time either |
| MtgFleet.SettledRunsDesired | internal/mtproto/manager.go:180-186 | A process that is left running for an instance whose fingerprint is not ambiguous runs the text that would be rendered now |
| MtgFleet.EveryRunSweepsFirst | internal/mtproto/manager.go:167-175 | Over every run orphans are swept at most once, before the first start, and no two ids share a process |
| MtgFleet.ReconciledRunsDesired | internal/mtproto/manager.go:224-244 | After every run that ends in a reconciliation, every managed desired id whose fingerprint is not ambiguous runs, with the file that would be rendered for it |
| MtgFile.ReconciledFileSaysExactly | internal/mtproto/manager.go:224-244 | The file of every such process reads back as exactly what its instance asks for |
| MtgFleet.AmbiguousRunsAnother | internal/mtproto/manager.go:180-186 | For every instance whose fingerprint is ambiguous, a run that ends with a process with another file kept running for it |
| MtgManager.Manager.SweepOrphans | internal/mtproto/manager.go:167-175 | Does what the function of the same name does to the fleet |
| MtgManager.Manager.EnsureLocked | internal/mtproto/manager.go:177-207 | The map, entries and processes end as the fleet function Ensured says; succeeds exactly if the id is managed |
| MtgManager.Manager.Ensure | internal/mtproto/manager.go:156-161 | Sweeps, then ensures |
| MtgManager.Manager.Remove | internal/mtproto/manager.go:210-219 | Exactly the given id is dropped |
| MtgManager.Manager.DropUnwanted | internal/mtproto/manager.go:228-237 | In whatever order the map is walked, exactly the wanted ids are kept |
| MtgManager.Manager.Reconcile | internal/mtproto/manager.go:224-244 | The fleet becomes the reconciled one |
| MtgManager.Manager.StopAll | internal/mtproto/manager.go:247-255 | Nothing stays managed |
| MtgTraffic.NeverOverCounted | internal/mtproto/manager.go:257-320 | In every interleaved run, the deltas reported for a process whose own start was not harmful never exceed its counter; harmful is a start on the port of another inbound's row that has a baseline, while a row of its own inbound is outstanding |
| MtgTraffic.HarmfulStartOverCounts | internal/mtproto/manager.go:257-320 | From every reachable state, every harmful start can be continued to a run that reports more for the started process than it counted |
| MtgTraffic.ReportsTelescope | internal/mtproto/manager.go:289-316 | In every run, the reports of a process whose own start was not disturbed are its last scrape less its first; disturbed is a start while a row of its inbound or on its port is outstanding, unless it is its own row without a baseline |
| MtgTraffic.DisturbedStartBreaksSum | internal/mtproto/manager.go:289-316 | From every reachable state, every disturbed start can be continued to a run after which they are not |
| MtgTraffic.SwappedPortsOverCount | internal/mtproto/manager.go:257-320 | A run with swapped metrics ports in which bytes are counted twice |
| LogWriter.TrimmedBetweenSpaces | internal/mtproto/process.go:91-94 | A line is its forwarded text between encodings of Unicode white space; the text has white space at neither end |
| LogWriter.TrimmedIsTheOnly | internal/mtproto/process.go:91-94 | No other text is |
| LogWriter.FedTwice | internal/mtproto/process.go:63-77 | Two writes do what one write of both chunks does |
| LogWriter.BufferHoldsNoNewline | internal/mtproto/process.go:67-75 | Between calls the buffer holds no newline |
| LogWriter.ChunkingDoesNotMatter | internal/mtproto/process.go:63-104 | However a stream is cut, the lines forwarded are its trimmed non-blank lines in order, and LastLine is the last of them |
| LogWriter.ProcLogWriter.Write | internal/mtproto/process.go:63-77 | The loop over the buffer emits all complete lines and keeps the rest |
| LogWriter.ProcLogWriter.Flush | internal/mtproto/process.go:81-89 | The unfinished line goes out and the buffer is empty |
| LogWriter.ProcLogWriter.EmitLocked | internal/mtproto/process.go:91-98 | Blank lines change nothing, others are forwarded trimmed and remembered |
| ProxyNames.AssignedUnique | internal/sub/clash_service.go:118-134 | The rule leaves exactly one choice of names |
| ProxyNames.FreeName | internal/sub/clash_service.go:125-131 | The unbounded search ends at the first candidate nobody has |
| ProxyNames.AskedNames | internal/sub/clash_service.go:118-144 | A proxy asks for its own name, without one for type, server and port joined by hyphens, or else for its place in the list |
| ProxyNames.AskedPorts | internal/sub/clash_service.go:137-144 | Ports that are no integer are shown as they are, missing ones as `<nil>` |
| ProxyNames.EnsureUniqueProxyNames | internal/sub/clash_service.go:118-134 | Every proxy gets the first free candidate for its name in turn, and nothing else of it changes |
| ProxyNames.RunMakesNamesUnique | internal/sub/clash_service.go:114-134 | Names are non-empty and distinct, a non-empty name no earlier proxy took is kept, a second run changes nothing |
| ProxyNames.SuffixesCollide | internal/sub/clash_service.go:125-131 | A suffixed name can take away a later proxy's own name |
| Percent.QueryReadsBack | internal/sub/service.go:1538-1541 | Query escaping of any byte string is undone by decoding and needs no reserved character |
| Percent.UserinfoReadsBack | internal/sub/service.go:682-691 | The encoding of passwords and remarks is undone by plain percent-decoding, for any byte string |
| Percent.EscapesOnlyTheRest | internal/sub/service.go:682-691 | Unreserved characters are never escaped and all others always are, with upper-case digits; a plus sign stands for a space in queries and nowhere else |
| Percent.UnescapeStays | internal/util/link/outbound.go:704-712 | Decoding leaves exactly the texts alone that hold neither plus nor percent sign |
| ShareLink.AppendQueryAndFragment | internal/sub/service.go:1527-1560 | In any order of the map, the link gets the effective parameters sorted and the remark |
| Text.AtMostExactly | internal/sub/service.go:1542 | The order in which keys are printed: the first difference, or a prefix before the longer text |
| ShareEndpoints.BuildEndpointLinks | internal/sub/endpoint.go:76-103 | The loop prints one line per endpoint, each a function of the inbound's parameters, that endpoint and its remark alone, and leaves the parameters as they were |
| ShareEndpoints.NextParams | internal/sub/endpoint.go:89-93 | The four override steps on a clone amount to one override per key |
| ShareEndpoints.ApplyEndpointTLSParams | internal/sub/service.go:1282-1301 | Exactly the TLS fields the endpoint gives are written, for TLS links only |
| ShareEndpoints.ApplyEndpointRealityParams | internal/sub/host_sub.go:278-288 | Server name and fingerprint are written for reality links of hosts only |
| ShareEndpoints.ApplyEndpointHostPath | internal/sub/host_sub.go:252-266 | Host and path replace what the transport has and add nothing |
| ShareEndpoints.ApplyEndpointAllowInsecure | internal/sub/host_sub.go:293-300 | The flag is written unless the link is plaintext |
| ShareEndpoints.TlsLinkCarries | internal/sub/service.go:1282-1301 | A TLS link carries the endpoint's server name, fingerprint, ALPN, pins, ECH and insecure flag where it has them, the inbound's otherwise |
| ShareEndpoints.RealityLinkCarries | internal/sub/host_sub.go:278-288 | A reality link carries a host's server name and fingerprint, and otherwise what the inbound has |
| ShareEndpoints.PlainLinkCarries | internal/sub/service.go:1534-1540 | A link without security carries no server name, fingerprint, ALPN or pins |
| ShareEndpoints.OtherKeysCarried | internal/sub/host_sub.go:252-266 | Host and path are replaced where the transport has them, every other key is the inbound's own |
| ShareEndpoints.DefaultCarriesInbound | internal/sub/endpoint.go:46-55 | An endpoint without overrides that forces nothing carries the inbound's own parameters exactly if their security is the stream's |
| ShareEndpoints.LinesReadBack | internal/sub/endpoint.go:76-103 | The joined lines read back to each endpoint's own password, address, port, parameters and remark, if and only if every host holds no line break and none of `# ? / @` and no port is negative |
| ShareLink.HostPortReadsBack | internal/sub/service.go:693-700 | Host and port read back, brackets printed once and stripped, unless the port is negative |
| Text.DigitsAreShortest | internal/sub/service.go:699 | A port is printed in decimal without a leading zero |
| ShareLink.HostBetweenBrackets | internal/sub/service.go:693-700 | Brackets are taken off both ends of a host, all of them and nothing else, and put back around one with a colon |
| ShareLink.QueryTextReadsBack | internal/sub/service.go:1533-1549 | Every key and value of a query reads back, whatever they hold |
| ShareLink.LinkReadsBack | internal/sub/service.go:631-680 | A Trojan link reads back to its password, host, port, parameters and remark if and only if the host holds none of `# ? / @` and the port is not negative |
| LinkImport.ImportGivesBack | internal/util/link/outbound.go:288-331 | The panel's importer gives a link back exactly if the host holds only bytes a URL host may hold unescaped, no opening bracket, and a colon only as an IPv6 address; the port is positive; and the remark holds neither plus nor percent sign, or a percent sign that starts no escape |
| LinkImport.HostPortImports | internal/util/link/outbound.go:297-298 | A printed host and port come out of the importer as the decoded host and the same digits, or not at all, as their bytes say |
| LinkImport.UnescapeHostExactly | internal/util/link/outbound.go:289-292 | Decoding leaves a host as it is exactly if all its bytes may stand in one; escapes make it shorter |
| LinkImport.HostCharExactly | internal/util/link/outbound.go:289-292 | Of ASCII, what may stand in a host is everything that can be seen but the delimiters of links and six more |
| LinkImport.OtherPortsBecome443 | internal/util/link/outbound.go:298 | A link whose port is 0 or no machine integer is imported with port 443 |
| Endpoints.IsolatedExactly | internal/sub/host_sub.go:138-149 | An endpoint's stream is the one it would get alone if and only if no earlier endpoint wrote the shared reality settings, or it overwrites or drops them, or the name was already there |
| Endpoints.NotRealityNotWritten | internal/sub/service.go:1323-1339 | A base that is not reality is never written |
| EndpointMaps.CloneStreamForExternalProxy | internal/sub/service.go:1327-1339 | The clone has the same content and fresh TLS maps, and shares the rest |
| EndpointFields.BuiltSaysExactly | internal/sub/service.go:1341-1389 | What an endpoint's stream holds, field by field: security as forced; for an external TLS endpoint server name, ALPN, fingerprint in both places, pins, ECH and insecure flag are the endpoint's where it has them, and the forced base's otherwise; socket options and masks of the endpoint; every other key the base's |
| EndpointFields.LaterSaysExactly | internal/sub/host_sub.go:121-151 | The same for an endpoint behind others, for the base as the earlier ones left it |
| EndpointMaps.TlsStepsAre | internal/sub/service.go:1341-1389 | The writes in sequence amount to plain fields and nested settings written side by side |
| EndpointMaps.ApplyExternalProxyTLSToStream | internal/sub/service.go:1341-1389 | Exactly the asked TLS fields and settings are written, only into the stream's own maps |
| EndpointMaps.MergeFinalMask | internal/sub/json_service.go:509-542 | In any order of both maps: mask lists joined, quicParams of the base kept, other keys overwritten, in a fresh map |
| EndpointMaps.ApplyHostStreamOverrides | internal/sub/host_sub.go:121-151 | Socket options and masks are replaced, the server name is written through the reality settings exactly for hosts of reality streams that name one |
| EndpointMaps.ForceTls | internal/sub/clash_service.go:179-191 | The switch on forceTls, with the reality settings dropped by the Clash renderer and kept by the JSON one |
| EndpointMaps.BuildEndpoint | internal/sub/json_service.go:179-204 | One turn of the loop builds the endpoint's stream in fresh maps, which hold field by field what base and endpoint say, and leaves the base as it was, but for reality settings |
| EndpointMaps.RenderEndpoints | internal/sub/clash_service.go:169-207 | Each rendered stream holds, field by field, what its endpoint and what earlier endpoints left of the base say; nothing but reality settings of the base can change |
| EndpointMaps.RenderIsolated | internal/sub/service.go:1323-1339 | For bases that are not reality, every endpoint gets the stream it would get alone, with the fields it and the base say, and the base with its nested maps is unchanged |
| RemarkTemplate.TranslateUISingleBrackets | internal/sub/remark_vars.go:79-103 | The index walk computes the translation |
| RemarkTemplate.InternalExactly | internal/sub/remark_vars.go:61-74 | Which tokens are translated, and to which names |
| RemarkTemplate.TokenTranslatedExactly | internal/sub/remark_vars.go:79-103 | A token in single braces becomes its name in double braces exactly if it is one of those, and stays as it is otherwise |
| RemarkTemplate.NamesOfUsage | internal/sub/remark_vars.go:465-471 | All translated names but the address, the protocol and the transport are usage information |
| RemarkTemplate.OtherUsage | internal/sub/remark_vars.go:465-471 | So are the byte counts, both directions, the raw date and the status, and no other name |
| RemarkTemplate.TranslationIsIdempotent | internal/sub/remark_vars.go:76-103 | Translating twice is translating once, for every text |
| RemarkTemplate.NameOnlyTemplate | internal/sub/remark_vars.go:476-489 | Cuts at the first usage placeholder and trims decoration, and nothing more |
| RemarkTemplate.DecorationIsCut | internal/sub/remark_vars.go:484-489 | A head that ends in a letter, a digit or a closing brace is what is left when decoration and the first usage placeholder follow |
| RemarkTemplate.NamePartIsSettled | internal/sub/remark_vars.go:471-489 | The name part is a prefix free of usage placeholders, and translating it again does not change it |
| RemarkTemplate.Links.EffectiveTemplate | internal/sub/remark_vars.go:491-505 | A client's first link gets the full template, every later one a name part, and the second translation changes neither |
| Aggregate.Fold | internal/sub/service.go:282-316 | Sums of traffic, the sum of limits unless one is 0 or they cancel out, the common expiry or 0, the latest time online |
| Aggregate.ResetLimitsDoNotShow | internal/sub/service.go:268-301 | Rows whose limits were reset to 0 make the same summary while the clients table has them |
| Aggregate.OneRowSummary | internal/sub/service.go:286-328 | One row is summed up as it says: its own limits win over the table's, a negative expiry counts from now |
| Aggregate.OrdersAgreeExactly | internal/sub/service.go:303-310 | All orders of a list of limits fold to the same total if and only if one is 0, all add up to 0, or no part of them does |
| Aggregate.AnyOrderSameSummary | internal/sub/service.go:282-316 | Every order of the rows gives the same summary, if and only if their limits are such; limits that are not negative always are |
| Aggregate.NegativeLimitsDependOnOrder | internal/sub/service.go:305-310 | Two orders of rows with limits 5, -5 and 3 with different summaries |
| Online.RefreshAgrees | internal/xray/process.go:413-447 | For any times and graces, the pruned map holds exactly who was within grace at every refresh since the latest activity |
| Online.PresenceIsExact | internal/xray/process.go:407-447 | For given times and graces, every pattern of activity shows exactly who is within grace of now, if and only if activity that is within grace at the end was so at every refresh since |
| Online.PresentIsWithinGrace | internal/xray/process.go:407-413 | On such a clock, present are exactly those who were active within grace of now |
| Online.SteadyIsReliable | internal/xray/process.go:407-413 | A clock that never goes back, with a fixed grace, is such |
| Online.UnreliableClockForgets | internal/xray/process.go:413-447 | On every other clock some client is within grace and not listed, because it was pruned |
| Online.Presence.RefreshLocalOnline | internal/xray/process.go:413-447 | After every refresh both lists are free of duplicates and hold exactly who and what the full histories say is present |
| Online.Presence.GetOnlineClients | internal/xray/process.go:310-338 | A duplicate-free union of the local clients, which come first, and all clients registered nodes report |
| Online.Presence.GetMergedNodeTrees | internal/xray/process.go:361-389 | Per panel, exactly the clients some registered node reports there, once; no empty sets or names |
| Online.Presence.SetNodeOnlineTree | internal/xray/process.go:453-460 | Replaces one node's report |
| Online.Presence.ClearNodeOnlineClients | internal/xray/process.go:465-469 | Drops one node's report |
| StatsDelta.NeverOverCounted | internal/xray/api.go:580-598 | Across polls, core restarts and forgotten values, what is booked for a counter of a core generation is at most its last value |
| StatsDelta.BookedTelescopes | internal/xray/api.go:580-598 | For every counter from any sighting on, in any generation of the core: until it is restarted or the values are forgotten, what is booked is the last value less the sighted one, and a first sighting books nothing |
| StatsDelta.TagHoldsLastDelta | internal/xray/api.go:657-681 | A tag's entry holds the last difference of each direction, 0 where there is none |
| StatsDelta.TagIsOfFirstSide | internal/xray/api.go:657-681 | A tag counts as an inbound's or an outbound's as it was first reported; `api` is never counted |
| StatsDelta.ClientHoldsLastDelta | internal/xray/api.go:683-699 | A client's entry holds the upload and the download as last reported |
| StatsDelta.SharedTagLosesTraffic | internal/xray/api.go:657-681 | An inbound and an outbound with one tag share an entry; it holds the traffic of both in a direction if and only if all differences but the last one of that tag and direction are 0 |
| StatsDelta.XrayAPI.GetTraffic | internal/xray/api.go:577-599 | The result maps hold exactly the differences booked, and every counter's last value is remembered |
| SqlDump.SqliteLiteral | internal/database/dump_sqlite.go:179-208 | Writes the literal of a value |
| SqlDump.ValidExactly | internal/database/dump_sqlite.go:196-204 | A blob counts as text exactly if its bytes are the UTF-8 encodings of code points, without surrogates, one after the other |
| SqlDump.DumpTableData | internal/database/dump_sqlite.go:143-176 | Appends one statement per row, in order |
| SqlDump.LiteralReadsBack | internal/database/dump_sqlite.go:179-212 | Every literal reads back as the value it stores, whatever its text holds |
| SqlDump.UnchangedExactly | internal/database/dump_sqlite.go:179-208 | A value is stored unchanged exactly if it is NULL, an integer, a text or a blob that is not UTF-8 |
| SqlDump.TableReadsBack | internal/database/dump_sqlite.go:143-176 | A dumped table reads back row by row if and only if its name holds no double quote |
| EventBus.EveryRunIsSound | internal/eventbus/bus.go:47-106 | For every interleaving ids are unique, the queue is bounded by the given size, 256 for none, accepted events are those dispatched, in hand and buffered in this order, and calls are exactly those to the copied subscribers |
| EventBus.EverySubscriberSeesInOrder | internal/eventbus/bus.go:87-106 | Every subscriber sees accepted events in publish order, none twice, and of those dispatched exactly those for which it was registered when the subscribers were copied |
| EventBus.SubscribedIsUnique | internal/eventbus/bus.go:47-57 | Subscribing replaces or adds exactly one subscriber |
| EventBus.UnsubscribedIsUnique | internal/eventbus/bus.go:60-69 | Unsubscribing removes exactly the subscriber of the id |
| EventBus.Bus.Subscribe | internal/eventbus/bus.go:47-57 | The loop in place is the step Subscribe |
| EventBus.Bus.Unsubscribe | internal/eventbus/bus.go:60-69 | The loop in place is the step Unsubscribe |
| EventBus.Bus.Publish | internal/eventbus/bus.go:73-82 | The event is at the end of the queue and of those accepted exactly if the queue had room, and dropped otherwise |
| EventBus.Bus.ReceiveEvent | internal/eventbus/bus.go:90-94 | The oldest event is taken from the channel |
| EventBus.Bus.CopySubscribers | internal/eventbus/bus.go:95-98 | The subscribers of that moment, which may differ from those when the event was received, are copied |
| EventBus.Bus.CallHandler | internal/eventbus/bus.go:98-100 | The next copied subscriber is called with the oldest event not yet dispatched |
| EventBus.Bus.FinishEvent | internal/eventbus/bus.go:99-105 | When all copied subscribers were called, the event counts as dispatched and the dispatcher waits again |

## Left out

- HTTP, gRPC, TLS, cron and process plumbing; GORM queries; the frontend; monitoring exporters.
- The proxy core itself: `HotApply` models the state its API addresses (handlers by tag, default outbound, rules), not what handlers do; the core's own validation of handler contents is not part of this model.
- JSON texts that are not valid UTF-8, and the nesting limit of the decoder.
- `ComputeHotDiff` marshals added inbounds; the model keeps the inbound itself, and that marshalling succeeds exactly if its raw sections are empty or whole values.
- HotRuns.EveryRunStaysInStep: requests that change handlers of the running core behind the snapshot are not steps of the run; `TagDiff.StaleTableExactly` says what a hot apply then achieves, for the handler tables.
- HotRuns.SameMeaningSameApiTag: sufficient only; HotRuns.NamedInboundKeptExactly is exact.
- Jalali.GregorianToJalali: the 64-bit wrap-around of the day difference is not modelled.
- In `MtgTraffic` counters are two numbers; parsing of the metrics page is left out. In `MtgManager` the search for a free port and the write of the file are answers of the system.
- MtgFile.FileSaysExactly: for quoting that is read back; `%q` writes some control characters in ways a TOML reader refuses. The reader takes the TOML the panel writes, not all of TOML.
- LogWriter: the log is the sequence of lines; the label and the log level are left out.
- ProxyNames: `%v` of values that are neither text nor integer is a given text.
- ShareLink.LinkReadsBack: the reader takes the host as raw text; LinkImport.ImportGivesBack makes the checks of `net/url`, as Go 1.26 has them.
- LinkImport.ImportGivesBack: the test for an IPv6 address is a parameter; a path behind the host and upper case in the scheme, which no printed link has unless its host breaks it, are not looked at.
- ShareEndpoints.BuildEndpointLinks: which parameters a protocol and its stream settings start with, and the rendering of remarks, are given; VLESS and Shadowsocks links differ in the part before the query only.
- EndpointMaps.RenderEndpoints: endpoints are records of the fields their readers find; remark rendering, the choice of server name and of the outbound printed from each stream are left out. Lists are values, so a nil and an empty list are not told apart.
- RemarkTemplate: which runes are letters or digits is a parameter; the expansion of placeholders to values is left out.
- Aggregate: the two database queries are parameters; 64-bit wrap-around is not modelled.
- StatsDelta.XrayAPI.GetTraffic: counter names are already split, which the source does with two regular expressions.
- SqlDump: floating-point values, schema statements and the database driver are left out; a blob that is valid UTF-8 is stored as text by design.
- EventBus: time stamps, panics of handlers (recovered by the source) and the log are left out.
