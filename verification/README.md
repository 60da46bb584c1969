# Verified models of the stack's scripts and services

A home media stack is kept running by small Python programs: a watchdog that
restarts Plex, an exporter that publishes download metrics, a wizard that writes
`.env`, a rename pass over the shell functions, an installer that links them, and
the control panel's host and queue operations. Each module here models one of
them and proves what it is for, over every input or every run.

| module | program | main results |
|---|---|---|
| `FishRename` | `scripts/fish-rename.py` | the regex scan is a token renaming; when it is idempotent, complete, undone |
| `HealthMonitor`, `HealthReports` | `scripts/plex-health-monitor.py` | what the loop variables mean after any run; alerts, recoveries, restarts, told from the polls alone |
| `EnvFile`, `EnvReports` | `scripts/setup_wizard.py` | print / parse round trip, re-rendering, agreement of the two readers; the lines written and read, spelled out |
| `FishInstall`, `FishConvergence`, `FishReports` | `scripts/fish-functions-install.py` | what a run touches and what never, by file name; exactly when one run converges |
| `PrometheusFormat` | `nzbdav-exporter/exporter.py` | sample keys read back, so they never collide |
| `MetricsRegistry`, `RegistryReports` | `nzbdav-exporter/exporter.py` | atomic steps on the shared registry; what any render shows |
| `Scrape`, `ScrapeResults`, `ScrapeReports` | `nzbdav-exporter/exporter.py` | conservation of the published totals over whole runs; the text of `/metrics` after any run |
| `PlexArrReconcile`, `PlexArrReports` | `scripts/plex-arr-reconcile.py` | the balance of every library; what the batched query misses |
| `HostHelper` | `scripts/host-helper/helper.py`, `control-panel-django/core/host_helper_client.py` | newline framing under every chunking |
| `ArrBlocklist` | `control-panel-django/core/arr_client.py` | delete / search accounting under timeouts |
| `SonarrIndex`, `SonarrReports` | `scripts/checkrr-badfiles-report.py` | the filtered index against the full one, and what it holds |
| `RestartOrder`, `RestartReports` | `control-panel-django/host/services.py`, `control-panel-django/core/docker_client.py` | mount-ordered restarts |
| `RecentValues` | `control-panel-django/core/settings.py` | the most-recently-used lists |
| `Text`, `Selection` | shared | strings, lines, sorting; filtered lists |

Code that loops or updates fields is a method or a class whose contract ties it to
a specification function; the results are lemmas about that function. The modules
whose names end in `Reports` state the outcome of an operation on its inputs alone,
with the names, endings, limits and values spelled out. Replies of
the network, Docker, the clock and the shell are parameters, and range over
everything they could be.

Run `dafny verify dfyconfig.toml`.

## Where the code differs from what it says

- `plex-arr-reconcile.py` joins the batched paths without a final newline, so the
  shell's `read` loop never sees the last one: a last path that is on disk is
  reported as gone or stale, and so is every path with a newline in it
  (`BatchSkipsLast`, `BatchedReportIff`, `NewlinePathIsReportedGone`).
- `plex-health-monitor.py` calls its restarts edge-triggered (lines 54-55); they are
  level-triggered with a cooldown (`BusyDbRestartsAgain`). It says analysis never
  counts as lag (lines 31-45); the flat-progress clock runs on through it
  (`AnalysisStillCountsAsLag`).
- `fish-functions-install.py` does not always converge in one run: a correct link
  that leads through another installed name can be spoilt (`DetourDoesNotConverge`),
  a repo file that links back loses its file (`LinkBackLosesFile`), and a relative
  `--repo-dir` can leave dangling links (`RelativeRepoRelinksForever`). `ConvergesIff`
  and `PlanApplyPlan` say exactly when it does.
- `checkrr-badfiles-report.py` loses wanted files when one series folder lies inside
  an earlier one (`NestedFoldersExample`).
- `arr_client.py` can report an item as failed that is gone (`ReportedButGoneIff`).

## Model

| member | source | states |
|---|---|---|
| `FishRename.RenameTextIsTokenRename` | scripts/fish-rename.py:39-53 | For every text, every map with keys of name characters and every order of the alternation, the leftmost regex scan with its two lookarounds replaces exactly the maximal name runs that are keys. |
| `FishRename.KeysMustBeNames` | scripts/fish-rename.py:39-53 | Why the keys must be names: for a one-entry map that changes its key, scan and token renaming agree on every text iff the key is a non-empty run of name characters. |
| `FishRename.WholeNamesAreTokens` | scripts/fish-rename.py:40-53 | A name stands in a text between two non-name boundaries iff it is one of the text's runs, so whole names are what the pass replaces. |
| `FishRename.RenameTwice` | scripts/fish-rename.py:40-48 | Two passes are one pass of the composed map, so a single pass never chains a rename into another. |
| `FishRename.IdempotentIff` | scripts/fish-rename.py:39-53 | Renaming twice equals renaming once on all texts iff no target is itself renamed to something else. |
| `FishRename.NoSourceLeftIff` | scripts/fish-rename.py:40-53 | No source is left as a whole name in any renamed text iff no target is a source. |
| `FishRename.CutoverIsComplete` | scripts/fish-rename.py:39-53 | With targets disjoint from sources, one regex pass leaves no old name and a second pass changes nothing. |
| `FishRename.UndoneIff` | scripts/fish-rename.py:39-53 | Renaming by an injective map and then by its inverse restores a text iff every target that occurs in it as a whole name is also a source. |
| `HealthMonitor.Watchdog.Poll` | scripts/plex-health-monitor.py:204-298 | One poll of the loop, failed or answered, moves the six variables and posts the notifications as the step function says; `AlertMeans`, `RestartMeans` and `OutageIsReportedOnce` say what it then posts and why. |
| `HealthMonitor.Monitor` | scripts/plex-health-monitor.py:194-298 | The loop over any polls ends in the state and with the notifications of the run that the `HealthReports` lemmas describe. |
| `HealthMonitor.AlwaysTracks` | scripts/plex-health-monitor.py:194-243 | After every history, `last_progress_ts` is the start of the current flat stretch, a set `lag_started_ts` equals it, the failure counter is the number of trailing failed polls, and the unreachable alert is on iff that is at least 4. |
| `HealthMonitor.StateAfterAnswer` | scripts/plex-health-monitor.py:226-298 | After every answered poll all six variables are read off the history: the progress, since when, the alert (the class iff failing, else none), and exactly when the lag start is set. |
| `HealthReports.AlertMeans` | scripts/plex-health-monitor.py:169-191 | The alert after an answered poll, from what the polls said: hard hang iff D-state threads or the mount down; else busy database iff errors; else scan lag iff there is no analysis and the progress of the first library scan activity of the polls has stood still for 30 s. The state "scanning" alone never alerts. |
| `HealthReports.ScanProgressShows` | scripts/plex-health-monitor.py:169-173 | The progress of a poll is that of the first activity of kind library.update.section, wherever it stands in the list, and none without such an activity. |
| `HealthMonitor.LagIsFlatTime` | scripts/plex-health-monitor.py:232-242 | The lag a poll is judged by is the time since the progress last moved, when the class is scan_lag and there is a progress, else 0. |
| `HealthMonitor.EventsAreBracketed` | scripts/plex-health-monitor.py:209-298 | In every run each notification is legal in view of the earlier ones, and the alert an observer infers from them is `active_alert`. |
| `HealthMonitor.AlertsAndRecoveries` | scripts/plex-health-monitor.py:260-298 | Every recovery and every restart belongs to the latest alert, which still stood; a class is alerted again only after its last alert was ended by an alert of another class, an unreachable notice or its own recovery; no restart belongs to a hard hang. |
| `HealthMonitor.OutagePostsOnce` | scripts/plex-health-monitor.py:209-230 | A maximal stretch of n failed polls that ends posts one unreachable and one responding-again notice if n is at least 4, and neither otherwise. |
| `HealthMonitor.UnreachableIff` | scripts/plex-health-monitor.py:209-230 | The unreachable alert is active exactly while at least 4 polls in a row have failed. |
| `HealthMonitor.RestartIff` | scripts/plex-health-monitor.py:283-293 | A poll restarts Plex iff the class is busy_db, or scan_lag with 90 s of lag, and the last restart is 600 s back. |
| `HealthReports.RestartMeans` | scripts/plex-health-monitor.py:283-293 | A poll restarts Plex iff there is no hang, and the database is busy or (no analysis) the first scan activity has stood still for 90 s, and no restart of the run is less than 600 s back; it restarts once and reports how the call ended. |
| `HealthReports.RestartCause` | scripts/plex-health-monitor.py:283-293 | Every restart happens without D-state threads and with the mount up, at a poll with busy database errors, or without analysis at the end of a span of at least 90 s in which all answered polls showed one progress of their first scan activity. |
| `HealthReports.OutageIsReportedOnce` | scripts/plex-health-monitor.py:209-230 | For any run, a maximal stretch of n failed polls posts "unreachable" at its fourth poll and "responding" with the count n when it ends, if n is at least 4, and no such notice otherwise. |
| `HealthMonitor.RestartsAreSpaced` | scripts/plex-health-monitor.py:283-290 | In every run any two restarts are at least 600 s apart. |
| `HealthMonitor.RestartCount` | scripts/plex-health-monitor.py:283-290 | A run between two clock readings has at most 1 + (last - first) / 600 restarts. |
| `HealthMonitor.AnalysisStillCountsAsLag` | scripts/plex-health-monitor.py:234-244 | A run in which time spent on analysis makes the next poll alert and restart at once. |
| `HealthMonitor.BusyDbRestartsAgain` | scripts/plex-health-monitor.py:283-290 | A run in which one unbroken busy_db alert restarts Plex twice. |
| `EnvFile.RenderEnvFile` | scripts/setup_wizard.py:153-165 | The line loop writes the text whose lines `LinesWritten` describes. |
| `EnvFile.ParseEnvValues` | scripts/setup_wizard.py:83-93 | The parser loop keeps the last assignment of each key, both sides trimmed. |
| `EnvFile.EnvGet` | scripts/plex-health-monitor.py:80-87 | The watchdog's reader takes the first line that starts with the key and an equals sign. |
| `EnvFile.RoundTrip` | scripts/setup_wizard.py:83-93 | With distinct keys and one-line values, the written file parses to the trimmed chosen value of every field, and to no keys the example lacks. |
| `EnvReports.LinesWritten` | scripts/setup_wizard.py:153-165 | Every example line that reads KEY=default becomes KEY= and the trimmed submission if that is not blank, else the existing value, else the default; every other line is kept. |
| `EnvReports.ValuesReadBack` | scripts/setup_wizard.py:159-162 | For every such line the written file parses to the trimmed submission if it is not blank, whatever existed before; else to the trimmed existing value; else to the trimmed default. |
| `EnvReports.ParsedIff` | scripts/setup_wizard.py:83-93 | The parser gives a key a value iff that is what the last uncommented line assigning the key gives it, both sides trimmed. |
| `EnvReports.FirstMatchIff` | scripts/plex-health-monitor.py:80-87 | The watchdog's reader returns a value iff that is what follows the first equals sign, trimmed, on the first line that starts with the key and an equals sign. |
| `EnvFile.ReadsBackIff` | scripts/setup_wizard.py:83-93 | With existing values as the parser leaves them, trimmed or of one line: every field reads back as its trimmed value iff no value contains a line break. |
| `EnvFile.RerenderIff` | scripts/setup_wizard.py:153-165 | Re-rendering with nothing submitted reproduces the file exactly iff every written value is trimmed. |
| `EnvFile.ReadersAgree` | scripts/plex-health-monitor.py:80-87 | On every field of the example the first-match reader and the last-match parser return the same value. |
| `EnvFile.ResubmittingChangesNothing` | scripts/setup_wizard.py:96-101 | Sending back the pre-filled form, in whole or in part, writes the file that a blank form writes. |
| `FishInstall.FileSystem.Plan` | scripts/fish-functions-install.py:63-94 | The three loops compute the plan whose lists `PlanSpelled` describes; the second prune pass adds nothing. |
| `FishInstall.FileSystem.Apply` | scripts/fish-functions-install.py:97-122 | Carries a plan out and reports one line per action; a dry run reports the same lines and changes nothing; it stops iff a directory is in the way, and leaves that directory there. |
| `FishInstall.PlanMembers` | scripts/fish-functions-install.py:63-94 | Which paths are linked, relinked, kept and pruned, as iff conditions on the file system, without duplicates. |
| `FishInstall.PlanPartitions` | scripts/fish-functions-install.py:66-69 | The four lists are disjoint and duplicate-free; link, relink and keep together are exactly the managed names. |
| `FishReports.PlanSpelled` | scripts/fish-functions-install.py:41-94 | With names spelled out: a path is linked, relinked or kept iff the repo has a file of its name, stack-x.fish or __stack_x.fish, and there is nothing, a wrong thing or a link to the same file; pruned iff it is an installed stack-x.fish without a repo file. |
| `FishReports.ManagedInOrder` | scripts/fish-functions-install.py:41-47 | Commands come before helpers, each by name. |
| `FishReports.ForeignNamesStay` | scripts/fish-functions-install.py:50-60 | A run changes nothing outside the installed directory, nor in it any name of neither form, nor any __stack_x.fish without a repo file. |
| `FishReports.StaleCommandsGo` | scripts/fish-functions-install.py:83-94 | A carried-out plan leaves no stack-x.fish without a repo file. |
| `FishReports.TargetsAreLinked` | scripts/fish-functions-install.py:97-122 | A right link stays as it is, and every other managed name becomes a link to its repo file. |
| `FishReports.ReportSpelled` | scripts/fish-functions-install.py:97-122 | The report has one line for each link, then for each relink, then for each prune, with target and source, and the number of links kept. |
| `FishInstall.ForeignFilesUntouched` | scripts/fish-functions-install.py:50-60 | The same frame for any plan of the installer, in terms of its own name tests. |
| `FishInstall.SourcesStay` | scripts/fish-functions-install.py:41-47 | Applying a plan leaves the repo's managed names as they were. |
| `FishConvergence.ConvergesIff` | scripts/fish-functions-install.py:63-122 | For every file system: planning again after a run links and prunes nothing; it relinks nothing, and keeps exactly the managed names, iff every managed name settles, that is, its chain of links and its source's, followed over what the run changes, end at one file. |
| `FishConvergence.NameAfterApply` | scripts/fish-functions-install.py:75-83 | For every file system the second plan keeps a managed name if it settles and relinks it otherwise. |
| `FishConvergence.EndsIff` | scripts/fish-functions-install.py:106-119 | Where a chain of links ends after a run, as a condition on the file system before it: the first changed path on the chain is read as a link to its source, and so on. |
| `FishConvergence.UndisturbedConvergesIff` | scripts/fish-functions-install.py:63-122 | When no source leads through a path that the run changes: one run converges iff every source exists and each right link stays right, its first changed path, if any, being installed for a source with the same end. |
| `FishConvergence.PlainSourcesUndisturbed` | scripts/fish-functions-install.py:41-47 | Sources that are no links, in another directory, lead through nothing that a run changes. |
| `FishConvergence.PlanApplyPlan` | scripts/fish-functions-install.py:125-136 | Plan, apply and plan again: the second plan is empty iff no directory was in the way of the first and every managed name settles. |
| `FishConvergence.LinkBackLosesFile` | scripts/fish-functions-install.py:107-114 | A repo file that links to the installed one: the run turns the two into a cycle of links and the file is gone. |
| `FishConvergence.RelativeRepoRelinksForever` | scripts/fish-functions-install.py:107-114 | Where a relative repo path, read from the installed directory, names no such file, a run leaves a dangling link, and so does every further run. |
| `FishConvergence.DetourDoesNotConverge` | scripts/fish-functions-install.py:75-83 | A file system of plain sources and two crossed links on which the first run does not converge. |
| `FishConvergence.SameDirectoryLosesFile` | scripts/fish-functions-install.py:107-115 | Installing a directory into itself replaces every plain command by a link to itself. |
| `PrometheusFormat.EscapeIsOnePass` | nzbdav-exporter/exporter.py:36-43 | The three sequential replacements equal one pass that escapes each character by itself. |
| `PrometheusFormat.ReadsEscaped` | nzbdav-exporter/exporter.py:36-43 | A label value reads back from its escaped form up to the closing quote, whatever follows. |
| `PrometheusFormat.KeyReadsBack` | nzbdav-exporter/exporter.py:46-52 | A sample key parses back to its metric name and label map. |
| `PrometheusFormat.KeysAreInjective` | nzbdav-exporter/exporter.py:46-52 | Two samples have the same key iff name and labels are the same. |
| `PrometheusFormat.KeyIsOneLine` | nzbdav-exporter/exporter.py:36-52 | No label value can break a sample line. |
| `PrometheusFormat.OneLabelKey` | nzbdav-exporter/exporter.py:36-52 | The key of a sample with one label, character by character. |
| `PrometheusFormat.TwoLabelKey` | nzbdav-exporter/exporter.py:39-43 | Two labels stand in the order of their names with one comma between. |
| `MetricsRegistry.Registry.Set` | nzbdav-exporter/exporter.py:46-52 | One locked write is one step of the registry's history, which `SampleIff` and `HelpInOrder` turn into what the registry holds. |
| `MetricsRegistry.Registry.RemoveFamily` | nzbdav-exporter/exporter.py:55-61 | One locked clearing is one step: exactly the samples of that metric go. |
| `MetricsRegistry.Registry.RenderMetrics` | nzbdav-exporter/exporter.py:295-304 | The rendering loops print the groups of the current samples and change nothing. |
| `MetricsRegistry.InFamilyIff` | nzbdav-exporter/exporter.py:55-61 | The prefix test picks exactly one metric's samples, also when one metric name is a prefix of another. |
| `MetricsRegistry.FamilyEvolves` | nzbdav-exporter/exporter.py:46-61 | A family changes only by the operations on its own name, in their order. |
| `MetricsRegistry.KeysStayDistinct` | nzbdav-exporter/exporter.py:46-61 | No history of operations makes two samples with one key. |
| `MetricsRegistry.RenderSeesNoMix` | nzbdav-exporter/exporter.py:157-177 | A render after any prefix of a scrape's steps prints, of a metric that the scrape clears once, what a render before the scrape printed, or samples of this scrape only. |
| `MetricsRegistry.RenderedOnce` | nzbdav-exporter/exporter.py:295-304 | A sample is printed once if its metric has a help text, and not at all otherwise. |
| `MetricsRegistry.RenderIsGrouped` | nzbdav-exporter/exporter.py:295-304 | Every printed sample stands below HELP and TYPE lines of its metric with only that metric's samples between. |
| `MetricsRegistry.HeaderPairs` | nzbdav-exporter/exporter.py:295-304 | A metric announced twice in a text is announced by a HELP line and by the TYPE line right below it, so it has one group. |
| `MetricsRegistry.RenderedIsPresent` | nzbdav-exporter/exporter.py:295-304 | Every printed sample line is a sample of the registry. |
| `MetricsRegistry.PrintedIsFamily` | nzbdav-exporter/exporter.py:295-304 | Of each metric a render prints exactly the registry's samples in their order, if the metric has a help text, and nothing otherwise. |
| `MetricsRegistry.RenderMeetsFormat` | nzbdav-exporter/exporter.py:295-304 | A render after any history: its sample lines are samples of the registry, each in the group of its metric; no metric has a second HELP or TYPE line, so one group, as "Grouping and sorting" of the Prometheus text exposition format requires; the samples of registered metrics are printed once; the HELP lines are the registered texts. |
| `RegistryReports.SampleIff` | nzbdav-exporter/exporter.py:46-61 | After any operations the registry holds a sample iff some step wrote it and no later step wrote its key or cleared its metric. |
| `RegistryReports.HelpInOrder` | nzbdav-exporter/exporter.py:50-51 | A metric is registered iff some write brought a non-empty text for it; its text is that of the first such write, and the metrics stand in the order of these writes. |
| `RegistryReports.SamplePrinted` | nzbdav-exporter/exporter.py:295-304 | A render after any operations prints a sample once if it was written, neither replaced nor removed since, and some write brought a text for its metric, and otherwise not at all. |
| `RegistryReports.HelpPrinted` | nzbdav-exporter/exporter.py:295-304 | The HELP lines of a render are the texts of those first writes, in their order. |
| `RegistryReports.HeadersArePaired` | nzbdav-exporter/exporter.py:298-300 | Every HELP line has the TYPE line of its metric right below it, and every TYPE line such a HELP line above it. |
| `RegistryReports.SampleStandsUnder` | nzbdav-exporter/exporter.py:298-303 | Every printed sample stands below the HELP and TYPE lines of its metric with nothing but samples of this metric in between. |
| `Scrape.CatBytes` | nzbdav-exporter/exporter.py:160-163 | The loop tallies the sizes by category. |
| `Scrape.StatusCounts` | nzbdav-exporter/exporter.py:170-173 | The loop counts the items by status. |
| `Scrape.TallyConserves` | nzbdav-exporter/exporter.py:160-173 | A tally has distinct keys and the total of its items. |
| `Scrape.TallyPerKey` | nzbdav-exporter/exporter.py:160-173 | Under each key a tally holds the total of the items with that key. |
| `Scrape.PartsNearDepth` | nzbdav-exporter/exporter.py:154-167 | Truncating n non-negative totals separately loses at most n - 1 against truncating their sum, and gains nothing. |
| `Scrape.Exporter.ScrapeOnce` | nzbdav-exporter/exporter.py:126-276 | One scrape makes its writes in order, latencies included, whatever fetches failed, and replaces the retained configuration only by an answered one; what the writes show is `ScrapeReports.AfterRun`. |
| `Scrape.Exporter.Scraper` | nzbdav-exporter/exporter.py:111-123 | A run of the loop is the concatenation of its rounds, each a scrape and its duration. |
| `ScrapeResults.StatusCountsAddUp` | nzbdav-exporter/exporter.py:169-177 | After any scrape on any registry the published status counts sum to the published item total. |
| `ScrapeResults.CategoryBytesNearDepth` | nzbdav-exporter/exporter.py:146-167 | For non-negative sizes the n published category gauges sum to between depth - (n - 1) and the published depth. |
| `ScrapeResults.HistoryGaugesAgree` | nzbdav-exporter/exporter.py:195-205 | The history gauges are the multiplicities of the two outcomes, none when the fetch failed, and the published ratio, within 0.00005 and between 0 and 1, is the completed share of the two. |
| `ScrapeResults.ConfigIsLastAnswer` | nzbdav-exporter/exporter.py:220-244 | The configuration in use is that of the last answered fetch, however many failed since. |
| `ScrapeReports.AfterRun` | nzbdav-exporter/exporter.py:126-276 | The text of `/metrics` after any run, by metric name: the four flags are 1 iff the last answered configuration has for their key a text that reads t, r, u, e in any case; the numbers, the mode, up, healthy and config success; active downloads, items and bytes left; one line per status and per category with its count or bytes; the history counts and their ratio to four digits; all five durations. Each is printed once and with no other value. Also: keys are distinct and the status counts sum to the total. |
| `ScrapeReports.GaugesShown` | nzbdav-exporter/exporter.py:126-304 | After any run with at least one round, a render prints every plain gauge of the last round, once. |
| `ScrapeReports.TableShown` | nzbdav-exporter/exporter.py:157-177 | Of each labelled metric a render prints exactly one line per entry of the last round. |
| `ScrapeReports.StatusMeans` | nzbdav-exporter/exporter.py:169-177 | A status, or "unknown" for an empty one, has an entry iff slots have it, with their number. |
| `ScrapeReports.CategoryMeans` | nzbdav-exporter/exporter.py:157-167 | A category, or "unknown", has an entry iff slots have it, with the megabytes left in them times 1048576, cut to a whole number. |
| `ScrapeReports.ReadsTrueIff` | nzbdav-exporter/exporter.py:250-251 | The lower-case form of a text is "true" iff it is four characters that read t, r, u, e in any case. |
| `ScrapeReports.RatioMeans` | nzbdav-exporter/exporter.py:197-205 | The ratio is the multiple of 0.0001 nearest to the completed share, the even one in the middle, and 0 without outcomes. |
| `ScrapeReports.InUseIff` | nzbdav-exporter/exporter.py:220-244 | The configuration in use is that of the last round whose fetch was answered, and empty before the first. |
| `ScrapeResults.NoRenderShowsAMix` | nzbdav-exporter/exporter.py:157-177 | At any point inside any round of any run, a render prints of each labelled metric what a render before that round printed, or samples of that round only. |
| `ScrapeResults.EveryRenderIsGrouped` | nzbdav-exporter/exporter.py:295-304 | Every render of every run, also in the middle of a scrape, meets the format in the sense above. |
| `PlexArrReconcile.Reconcile` | scripts/plex-arr-reconcile.py:205-232 | The two bucketing loops give every library the counts and lists of its row, with the batched query's answer as disk state. |
| `PlexArrReconcile.Balance` | scripts/plex-arr-reconcile.py:213-232 | In every library arr - (missing + gone + unsupported) = plex - (orphan + stale). |
| `PlexArrReconcile.BucketsMean` | scripts/plex-arr-reconcile.py:178-232 | For each of the five lists, which paths it holds, as an iff on what Arr has, what Plex serves and what is on disk. |
| `PlexArrReports.RowMeans` | scripts/plex-arr-reconcile.py:178-232 | The same with folders and endings spelled out (/data/movies/ and the other three; .iso, .img, .mk3d, .bin, .nrg in any case), and the two counts of each library. |
| `PlexArrReports.QueriesMean` | scripts/plex-arr-reconcile.py:211-213 | The query asks about the paths of the four folders that only one side has, each once and in order. |
| `PlexArrReports.ListsKeepOrder` | scripts/plex-arr-reconcile.py:213-232 | Each list has its paths in the order of its side's listing. |
| `PlexArrReconcile.OneBucketEach` | scripts/plex-arr-reconcile.py:215-232 | Over the whole report a path is in at most one bucket of one library, and there once. |
| `PlexArrReconcile.BatchSkipsLast` | scripts/plex-arr-reconcile.py:155-168 | For all paths: the batched query answers for the lines of all paths, newlines splitting a path, but the very last line, which it never asks for. |
| `PlexArrReconcile.BatchIsExactIff` | scripts/plex-arr-reconcile.py:155-168 | For all paths: it agrees with checking each path by itself iff it asks for every path that is on disk and nothing else it asks for is there. |
| `PlexArrReconcile.BatchedReportIff` | scripts/plex-arr-reconcile.py:205-232 | For all paths: the report is the one of separate checks iff every queried path that is on disk is among the lines asked for. |
| `PlexArrReconcile.AskedIsRead` | scripts/plex-arr-reconcile.py:163-166 | What the shell loop reads from the joined paths is the lines of all paths without the last. |
| `PlexArrReconcile.OneLineReportIff` | scripts/plex-arr-reconcile.py:205-232 | For paths without newlines: the report is the one of separate checks iff the last queried path, in sorted order, is not on disk. |
| `PlexArrReconcile.NewlinePathIsReportedGone` | scripts/plex-arr-reconcile.py:155-168 | A path with a newline that only Arr has is reported gone, and one that only Plex has stale, whatever is on disk. |
| `PlexArrReconcile.LastOffDiskIsNotEnough` | scripts/plex-arr-reconcile.py:155-168 | A family of reports whose last queried path is not on disk and that are still wrong, because of a newline in the first. |
| `PlexArrReconcile.MovieIsReportedGone` | scripts/plex-arr-reconcile.py:155-168 | A report with one movie, on disk and unknown to Plex, that lists it as gone. |
| `HostHelper.RecvRequest` | scripts/host-helper/helper.py:109-118 | The receive loop yields what the specification makes of the chunks: a message, or a refusal beyond 4096 bytes. |
| `HostHelper.ReadToEnd` | control-panel-django/core/host_helper_client.py:41-46 | The client's loop returns everything sent before end of stream. |
| `HostHelper.NeverTooMuch` | scripts/host-helper/helper.py:111-117 | Under every chunking an accepted message is a prefix of the stream of at most 4096 bytes. |
| `HostHelper.ArrivesWholeIff` | scripts/host-helper/helper.py:109-118 | A request of at most 4096 bytes arrives whole under every chunking iff no byte before its last is a newline. |
| `HostHelper.RefusedIff` | scripts/host-helper/helper.py:109-118 | A longer request is refused under every chunking iff its first 4096 bytes hold no newline. |
| `HostHelper.OneActionOneResponse` | control-panel-django/core/host_helper_client.py:35-52 | However both directions are cut, one connection hands the server exactly the JSON text and the client exactly its answer, or the refusal if it is too long. |
| `HostHelper.BlankIsEmpty` | scripts/host-helper/helper.py:121-132 | A request of blanks alone gets the empty-request answer under every chunking and never reaches the handler. |
| `ArrBlocklist.BlocklistAndResearch` | control-panel-django/core/arr_client.py:171-211 | The loop over the items yields the fixed titles, the errors and the requests sent, for every pattern of replies. |
| `ArrBlocklist.DeleteItem` | control-panel-django/core/arr_client.py:180-195 | One item gets one delete, or two if the first timed out; the last reply decides between fixed and one error. |
| `ArrBlocklist.EachReportedOnce` | control-panel-django/core/arr_client.py:176-198 | Fixed titles and titles blamed in errors together are the items' titles, with repeats. |
| `ArrBlocklist.DeleteCount` | control-panel-django/core/arr_client.py:181-195 | As many deletes as items plus one for each first reply that timed out. |
| `ArrBlocklist.DeletesFitItems` | control-panel-django/core/arr_client.py:151-184 | The deletes belong to the items in their order, one for each and two iff its first reply timed out; each leaves the new search to the server iff its item is monitored: the flag inside the entry says so, or there is none and the lookup by target does not deny it. |
| `ArrBlocklist.SearchesExactly` | control-panel-django/core/arr_client.py:199-208 | The search command carries the target ids of exactly the fixed, monitored items that have one, in the order of the items. |
| `ArrBlocklist.FixedExactly` | control-panel-django/core/arr_client.py:181-198 | The fixed titles are, in order, those of the items whose first reply, or second after a timeout, was 200 to 299 or 404. |
| `ArrBlocklist.BlamedExactly` | control-panel-django/core/arr_client.py:189-197 | Every other item has, in order, one error: timed out if both replies timed out, else the reply that ended its turn. |
| `ArrBlocklist.FixedMeansGone` | control-panel-django/core/arr_client.py:181-198 | Against a truthful server every fixed item is absent from the queue at the end, also when the reply to the delete that removed it was lost. |
| `ArrBlocklist.OnlyListedLeave` | control-panel-django/core/arr_client.py:181-195 | An entry is absent at the end of a run iff it was absent at the start or a delete for it was carried out. |
| `ArrBlocklist.ReportedButGoneIff` | control-panel-django/core/arr_client.py:189-197 | In a whole run an item reported as an error is gone at the end iff its deciding request got no answer and the entry was missing or removed by then, or a later item has the same entry removed. |
| `ArrBlocklist.LostRepliesExample` | control-panel-django/core/arr_client.py:181-195 | A run in which it happens: the first delete works, and both replies are lost. |
| `SonarrIndex.BuildSonarrIndex` | scripts/checkrr-badfiles-report.py:279-317 | The nested loops build the index over the folders that the wanted paths need, skipping failed requests. |
| `SonarrIndex.FindNeeded` | scripts/checkrr-badfiles-report.py:289-294 | The loop with `break` collects, for each wanted path, the first folder that holds it. |
| `SonarrIndex.WantedPathsAgreeIff` | scripts/checkrr-badfiles-report.py:279-317 | With folders not nested and files under their own folder, filtered and full index agree on a wanted path iff it is unknown or its series' request was answered. |
| `SonarrIndex.FoundIff` | scripts/checkrr-badfiles-report.py:289-305 | For any folders at all: a path is found iff the first folder of some wanted path lists it. |
| `SonarrIndex.AgreeIff` | scripts/checkrr-badfiles-report.py:289-317 | For any folders and any failed requests: filtered and full index agree on a path iff no folder lists it, or the last one in sorted order that does is needed and its request was answered. |
| `SonarrReports.IndexIff` | scripts/checkrr-badfiles-report.py:279-317 | For any input: the index holds for a path the record (series and last listed file) of the last folder in order that some wanted path needs and whose answered request lists the path, and nothing otherwise. |
| `SonarrReports.FolderIff` | scripts/checkrr-badfiles-report.py:289-294 | The folder looked into for a path is that of the first listed series with a path whose folder, without final slashes, and one slash begin the path. |
| `SonarrReports.CollectedIff` | scripts/checkrr-badfiles-report.py:287 | A folder stands for the last listed series with that path. |
| `SonarrIndex.EarlierFolderHidesFile` | scripts/checkrr-badfiles-report.py:289-294 | A wanted file of a second folder that also lies under the first is missing from the filtered index and present in the full one. |
| `SonarrIndex.NestedFoldersExample` | scripts/checkrr-badfiles-report.py:289-294 | Such input, spelled out. |
| `RestartOrder.Worker.RestartAll` | control-panel-django/host/services.py:164-217 | Whatever restarts fail, the worker's steps are the schedule of the targets; nothing happens when there are none. |
| `RestartOrder.Worker.RestartEach` | control-panel-django/host/services.py:182-186 | One restart loop attempts every container in order and logs exactly the failures. |
| `RestartOrder.PanelUntouched` | control-panel-django/host/services.py:169-179 | No step concerns the panel itself or a container outside the project. |
| `RestartOrder.RestartCounts` | control-panel-django/host/services.py:175-214 | Every target is restarted exactly once, prerequisites exactly twice. |
| `RestartOrder.PrereqsBeforeProviders` | control-panel-django/host/services.py:182-195 | Before any step of a provider, each prerequisite has been restarted and then waited for. |
| `RestartOrder.ProvidersBeforeConsumers` | control-panel-django/host/services.py:189-205 | Before any step of any other container, each provider has been restarted and then waited for. |
| `RestartOrder.OthersBeforeDependents` | control-panel-django/host/services.py:196-205 | Containers outside the mount stages are restarted before any dependent. |
| `RestartOrder.PrereqsRebindLast` | control-panel-django/host/services.py:206-214 | After every other restart each prerequisite is restarted again, and the run ends with these restarts. |
| `RestartOrder.StackIsDisjoint` | control-panel-django/core/docker_client.py:44-46 | The three name sets do not overlap, which the counts and the order rest on. |
| `RestartOrder.FailuresAre` | control-panel-django/host/services.py:182-214 | The log names exactly the failed attempts, in their order. |
| `RestartOrder.WaitsAre` | control-panel-django/host/services.py:187-195 | The worker waits for each prerequisite, then for each provider, and for nothing else. |
| `RestartReports.MountsComeFirst` | control-panel-django/host/services.py:182-205 | For the stack itself: nzbdav is restarted and waited for before any step of nzbdav_rclone, and that one before any step of another container. |
| `RestartReports.DependentsComeLast` | control-panel-django/host/services.py:196-205 | radarr, sonarr, plex, unpackerr and cleanuparr come after every container outside the stages. |
| `RestartReports.RestartedOnce` | control-panel-django/host/services.py:164-214 | The panel is not restarted, nzbdav twice, every other container once. |
| `RestartReports.WaitedOnce` | control-panel-django/host/services.py:187-195 | Only nzbdav and nzbdav_rclone are waited for, each once. |
| `RestartReports.NzbdavRebindsLast` | control-panel-django/host/services.py:206-214 | After every step of another container the run ends with restarts of nzbdav. |
| `RestartOrder.WaitForHealthy` | control-panel-django/core/docker_client.py:119-134 | Polls begin only before the deadline, at most ceil(timeout / 2) of them; a wait ends early at the first healthy report and only then; it lasts exactly its polls and 2 s after each but a healthy one, and 10 s more iff no poll reported any status. |
| `RecentValues.Store.RememberValue` | control-panel-django/core/settings.py:51-58 | One call moves the value to the front of its list and cuts the list; on the first call the dictionary is the one in DEFAULTS, so the list is left there too. |
| `RecentValues.Session` | control-panel-django/core/settings.py:29-58 | Any calls on an empty table store what the specification of the call history says; only the first reaches the defaults. |
| `RecentValues.ListsAreNewest` | control-panel-django/core/settings.py:51-58 | After any calls with one `keep`, each argument's list is the first `keep` of its values, newest first. |
| `RecentValues.NewestFirstIsByRecency` | control-panel-django/core/settings.py:51-58 | That order, defined by the time of last use: each used value once, later last use first. |
| `RecentValues.StoredIsRecalled` | control-panel-django/core/settings.py:51-58 | After any calls, each argument's list has at most `keep` values, later last use first, and lacks a used value only if it is full of values used later. |
| `RecentValues.StoredArguments` | control-panel-django/core/settings.py:51-58 | The table has a list for exactly the arguments that were used. |

## Left out

- Text: lines end at the newline character only, blanks and lower case are those of ASCII, and Python's `\w` is an arbitrary set of name characters; bytes of requests are characters, without UTF-8 decoding errors.
- Floating point: progress, clock, sizes and gauge values are reals.
- `fish-rename.py`: the `RENAMES` table itself is not instantiated (the results hold for every table), nor are file selection, renaming of files, the final `git grep` (a substring search, coarser than whole names) and the command line.
- `plex-health-monitor.py`: message wording, the diagnostic line and the HTTP calls; a poll is given by its parsed answer. Values of the wrong type, which would end the daemon with an exception, are not modelled.
- `setup_wizard.py`: the HTML form, `parse_env_example`, the web server and the atomic write; keys in `.env` that the example lacks are dropped by the code and so by the model.
- `fish-functions-install.py`: completions and the command line. The repo path as link text is read as one directory, `links`, the repo itself when the path is absolute. A directory has one name: an installed directory that is itself a link to the repo would have to be given the repo's name. Link loops count as non-existing; older Python versions raise an error there.
- Scrape.Exporter.Scraper: does not model an exception that escapes `_scrape`; statuses, categories and config values are strings here, so none does.
- `exporter.py`: HELP wording, the HTTP server, labels that are not strings. Whether a config value is a number is a parameter; the seconds that requests take are arbitrary.
- `plex-arr-reconcile.py`: fetching and parsing the Arr and Plex listings, and printing.
- HostHelper.OneActionOneResponse: takes the client's stream to be the answer. When a long request is refused with bytes still unread, closing the socket can reset the connection, and the client can raise an error instead of reading the refusal.
- `host-helper`: running the verbs and parsing JSON; `handle_request` is an arbitrary function from the request text to the response text.
- `settings.py`: `update_settings`, other keys, a negative `keep`, concurrent requests and the database itself.
- `arr_client.py`: other changes of the server's queue while the loop runs, and request headers; the other queue functions.
- `checkrr-badfiles-report.py`: the Radarr index, CSV and YAML reading, port lookup and command output; a record is its series and file.
- `services.py`: the background thread and the list of names in the answer's wording; other endpoints.
- Django views, authentication, provisioning and import scripts: wiring and sequences of remote calls.
- `update-fish-api-paths.py`, `fish-completions-generate.py`, `generate-bug-graph.py`: ad hoc text patterns without a specification to prove.
