# iMonitor registry and agent, modelled in Dafny

iMonitor is a small server-monitoring system with two parts. A registry keeps a SQLite table `nodes` of monitored machines. A Rust server (`src/main.rs`) and an older Python store (`app/storage.py`) both implement it. An agent (`src/bin/agent.rs`) runs on each machine. It reads `/proc` and `/etc/os-release`, turns counters into rates and pushes one report per interval to the registry.

This project models three pieces:

- **The registry's `nodes` table in the Rust server** (`node_table.dfy`, `server.dfy`). The table is an in-memory sequence of rows. The class `NodeTable.Registry` changes it in place, with methods for:
  - reserving a node;
  - applying a report, including the not-found error and the deduplication DELETE;
  - renaming and deleting a node;
  - listing the nodes in `created_at` order.

  `server.dfy` holds the pure pieces:
  - the pending/online/offline status rule;
  - the mapping from error to HTTP status;
  - the admin gate (the credential check of the Basic scheme, section 2 of RFC 7617);
  - the shape of node tokens.
- **The same table in the Python store** (`py_storage.dfy`). The class `PyStorage.PyStore` keeps the same rows. Its report sets `hostname = COALESCE(hostname', hostname)`. It never deletes other rows and raises nothing on an unknown token. Lemmas state where the two implementations agree and where they differ.
- **The agent's pure parts:**
  - counter arithmetic and the per-tick state (`agent_rates.dfy`);
  - the parsers of `/proc/stat`, `/proc/meminfo`, `/proc/net/dev`, `/etc/os-release` and `/proc/cpuinfo` (`agent_proc.dfy`). Each file is given as a sequence of lines. Each parser's loop is a method, proved equal to a fold function, and the lemmas are about those folds;
  - `load_config` and the report URL (`agent_config.dfy`).

The other files hold shared helpers:

- `common.dfy`: `Option` and `Result`, `u64` bounds, and saturating and wrapping arithmetic.
- `text.dfy`: the Rust string operations the parsers use: `split_whitespace`, `split_once`, `split(':').nth(1)`, the `trim` family, and `parse::<u64>`.
- `tables.dfy`: `WHERE` filtering, and the `ORDER BY` sort, which is a permutation.

Inputs from outside the program become parameters:

- clock readings (`now`, and one `nows[i]` per listed row);
- fresh UUIDs;
- random draws for tokens: 40 digits below 16, or 20 bytes in Python;
- the base64/UTF-8 decoder;
- the peer address;
- the contents of the files the agent reads.

Integer counters are `nat` values with explicit `u64` bounds. Floating-point results are `real` values, without rounding.

## Model

| member | source | states |
|---|---|---|
| Common.SatSub | src/bin/agent.rs:276-277 | `saturating_sub`: never above `a`; equals `a - b` when `b <= a`; 0 when `a <= b` |
| Common.SatAdd | src/bin/agent.rs:340-341 | `saturating_add` of two u64 values is their sum capped at `u64::MAX` |
| Common.WrappingMul | src/bin/agent.rs:304 | `total * 1024` of a release build: the product modulo 2^64 |
| Text.StripPrefix | src/bin/agent.rs:197-205 | `strip_prefix` succeeds exactly when the text starts with the prefix, and gives back the rest |
| Text.TrimStartMatches | src/main.rs:552 | `trim_start_matches("Basic ")` removes every leading copy: the result is no longer, does not start with the pattern, and is the text itself when it did not start with it |
| Text.TrimStartMatchesIsSuffix | src/main.rs:552 | the result is a suffix of the text: only a prefix is removed |
| Text.TrimStartMatchesDropsCopy | src/main.rs:552 | one more leading copy of the pattern does not change the result |
| Text.TrimMatchesEnclosed | src/bin/agent.rs:379 | `trim_matches('"')` on a quoted value gives the value back |
| Text.SplitJoinWords | src/bin/agent.rs:251 | `split_whitespace` of words joined by spaces gives the words back |
| Text.SplitOnce | src/main.rs:555-557 | `split_once(':')` splits at the first colon; `None` exactly when there is no colon |
| Text.SplitOnceJoin | src/main.rs:555-557 | splitting `a + ":" + b` with a colon-free `a` gives `(a, b)` |
| Text.SecondPiece | src/bin/agent.rs:415 | `split(':').nth(1)` exists exactly when there is a colon, and holds no colon |
| Text.SecondPieceOfJoin | src/bin/agent.rs:415 | for colon-free `a` and `b`, the second piece of `a:b`, and of `a:b:d`, is `b` |
| Text.ParseU64 | src/bin/agent.rs:256 | `parse::<u64>` yields only values below 2^64 |
| Text.ParseShowNat | src/bin/agent.rs:256 | `parse::<u64>` of the decimal form of a u64 value gives that value |
| Tables.Where | src/main.rs:509 | `DELETE ... WHERE` leaves exactly the rows that do not match the condition, and adds none |
| Tables.SortBy | src/main.rs:425 | `ORDER BY created_at ASC` returns a permutation of the rows, sorted by the key |
| Tables.InsertStable | src/main.rs:425 | inserting into a sorted sequence puts the new row after every row with the same key |
| Tables.SortByStable | src/main.rs:425 | rows with equal keys keep their table order: the rows of any one key come out in the order they were stored |
| Server.DeriveStatus | src/main.rs:84-88 | pending iff `last_seen` is NULL; online iff `now - last_seen <= offline_timeout`; offline iff it is later |
| Server.OfflineIsPermanentWithoutReports | src/main.rs:84-88 | an offline node stays offline as the clock advances until it reports again |
| Server.Respond | src/main.rs:152-163 | 404 iff NotFound, 401 iff Unauthorized, 400 iff BadRequest, 500 for database, io and serialization errors; the detail is the error's display text |
| Server.RespondIsInjective | src/main.rs:136-163 | two errors that produce the same status and detail are the same error |
| Server.RequireAuth | src/main.rs:539-563 | every refusal is `Unauthorized` |
| Server.RequireAuthAdmitsExactlyTheConfiguredPair | src/main.rs:535-563 | admits iff user or password is unset, or: the header is visible ASCII, starts with "Basic ", and decodes to the configured user, ':', and the configured password, with a colon-free user |
| Server.ColonInUserLocksEveryoneOut | src/main.rs:555-562 | with a configured user containing ':', every request is refused, because the split is at the first colon |
| Server.HexDigit | src/main.rs:531 | lower-case hex formatting of a value below 16 is a lowercase hex character whose hex value is that value |
| Server.Message | src/main.rs:136-150 | every error has a non-empty display text, ending with the foreign detail for the database, io, serialization and bad-request errors |
| Server.GenerateToken | src/main.rs:528-533 | 40 lowercase hex characters, the i-th being the i-th draw |
| Server.GenerateTokenIsInjective | src/main.rs:528-533 | different draws give different tokens |
| NodeTable.CountToken | src/main.rs:509-512 | the number of affected rows is 0 iff no row holds the token |
| NodeTable.Apply | src/main.rs:472-489 | the UPDATE keeps `id`, `token` and `created_at`, keeps a non-blank label, and stamps `last_seen = now` |
| NodeTable.EvictDuplicates | src/main.rs:494-503 | the deduplication DELETE only removes rows; after it, with a non-empty hostname or address, no row of another token shares either |
| NodeTable.AfterReport | src/main.rs:472-503 | a report never adds rows |
| NodeTable.Delete | src/main.rs:507-514 | `DELETE ... WHERE token = ?` never adds rows, and no remaining row holds that token |
| NodeTable.ReservedIsPending | src/main.rs:446-455 | a reserved row has no `last_seen`, so it reads as pending at any time |
| NodeTable.ReserveKeepsWellFormed | src/main.rs:406-417 | inserting a row with a fresh id and token keeps the table consistent: unique `id` and `token`, and no shared non-blank hostname or address |
| NodeTable.ReportUpdatesTheReporter | src/main.rs:472-489 | after a report, the reporter's row exists and has the reported hostname (even ""), address, meta and metrics, `last_seen = now`, and the hostname as label only if the label was NULL or "" |
| NodeTable.ReportLeavesNoDuplicates | src/main.rs:494-503 | after a report with a non-empty hostname or address, no other row holds the reported hostname or the reported address |
| NodeTable.ReportSparesBystanders | src/main.rs:494-503 | rows of other tokens that share neither value survive, and every row of another token left afterwards was there before, unchanged |
| NodeTable.ReportKeepsWellFormed | src/main.rs:472-503 | a report keeps the table consistent |
| NodeTable.EmptyHostnameEvictsEmptyHostnames | src/main.rs:494-502 | a report with hostname "" and an address deletes another row whose hostname is "" |
| NodeTable.ReinstalledHostReplacesItsOldRow | src/main.rs:494-502 | when a second reservation reports the first one's hostname, the old row is deleted |
| NodeTable.Relabel | src/main.rs:518-521 | only the label of the row with that token changes, to the given value (possibly NULL) |
| NodeTable.DeleteRemovesExactlyThatToken | src/main.rs:507-514 | the remaining rows are exactly the old rows without that token, so a second delete of it finds nothing |
| NodeTable.RelabelKeepsWellFormed | src/main.rs:516-526 | renaming keeps the table consistent |
| NodeTable.DeleteKeepsWellFormed | src/main.rs:507-514 | deleting keeps the table consistent |
| NodeTable.IntoResponse | src/main.rs:79-88 | the response carries the row and the status rule against the clock reading taken for it |
| NodeTable.ToReport | src/main.rs:349-352 | the address is the reported `ip_address`, else the peer's; the other fields pass through |
| NodeTable.Registry.constructor | src/main.rs:403-420 | the table starts empty and consistent |
| NodeTable.Registry.CreateNode | src/main.rs:446-455 | succeeds iff the id and token are fresh, appending a pending row with the generated token; otherwise a database error and no change |
| NodeTable.Registry.UpdateNodeMetrics | src/main.rs:457-505 | `NotFound`, changing nothing, iff no row holds the token; otherwise the table is the UPDATE followed by the deduplication DELETE |
| NodeTable.Registry.ReportHandler | src/main.rs:341-362 | empty meta or metrics gives `BadRequest("meta/metrics required")` and no change; otherwise it is `update_node_metrics` with the resolved address |
| NodeTable.Registry.DeleteNode | src/main.rs:507-514 | `NotFound` iff no row holds the token; the table loses exactly the rows with that token |
| NodeTable.Registry.UpdateNodeLabel | src/main.rs:516-526 | `NotFound` iff no row holds the token, changing nothing; otherwise that row's label is replaced |
| NodeTable.Registry.ListNodes | src/main.rs:423-444 | every row once, ordered by `created_at` with ties in table order (the rows are `SortBy` of the table), each with the status for its own clock reading |
| PyStorage.DecodeColumn | app/storage.py:42-43 | meta/metrics decode to `None` exactly when the column is NULL or "" |
| PyStorage.RowToDict | app/storage.py:41-61 | keeps id, label, hostname, address, `created_at` and `last_seen`; meta and metrics are the decoded columns; pending iff `last_seen` is None, online iff `now - last_seen <= offline_timeout`, else offline |
| PyStorage.StatusAgreesWithRust | app/storage.py:46-49 | for the same clock reading and timeout, the Python status equals the Rust one |
| PyStorage.HexByte | app/storage.py:72 | one byte of `token_hex` is two lowercase hex digits whose value is that byte |
| PyStorage.HexBytes | app/storage.py:72 | `token_hex` is twice as long as its bytes, all lowercase hex, with byte i in characters 2i and 2i+1 |
| PyStorage.TokenHex | app/storage.py:72 | `token_hex(20)` is a 40-character lowercase hex token that decodes to its 20 bytes |
| PyStorage.ChooseToken | app/storage.py:72 | `token or token_hex(20)`: a non-empty supplied token is used as is; otherwise a 40-hex-digit token |
| PyStorage.PyApply | app/storage.py:104-124 | the UPDATE keeps `id`, `token` and `created_at`, keeps the hostname when None is given, and keeps a label that is neither NULL nor "" |
| PyStorage.PyAfterReport | app/storage.py:104-124 | the UPDATE neither inserts nor deletes rows |
| PyStorage.PyReportTouchesOnlyItsRow | app/storage.py:103-125 | an unknown token changes nothing; rows of other tokens are never changed or deleted |
| PyStorage.PyReportUpdatesTheReporter | app/storage.py:104-124 | hostname kept when None, else replaced; label filled from the hostname only if NULL or ""; address, meta, metrics and `last_seen` overwritten |
| PyStorage.PyReinstalledHostKeepsBothRows | app/storage.py:104-124 | unlike the Rust server, two rows can end up holding the same hostname |
| PyStorage.PyStore.constructor | app/storage.py:18-38 | the table starts empty |
| PyStorage.PyStore.CreateNode | app/storage.py:70-80 | succeeds iff the id and chosen token are fresh, appending a row without hostname, address or `last_seen`; the result is pending and carries the token |
| PyStorage.PyStore.UpdateNodeMetrics | app/storage.py:91-125 | the table becomes the UPDATE of the old table, whatever the token |
| PyStorage.PyStore.DeleteNode | app/storage.py:128-131 | removes exactly the rows with that token; silent and unchanged when there is none |
| PyStorage.PyStore.GetNodeByToken | app/storage.py:83-88 | `None` iff no row has the token; otherwise the dict of a row with that token |
| PyStorage.PyStore.ListNodes | app/storage.py:64-67 | one dict per row, ordered by `created_at`, each the dict of a stored row, with the stored ids as a multiset; the i-th dict is that of the i-th row of `SortBy`, so ties keep table order |
| PyStorage.FindByToken | app/storage.py:85 | `fetchone` finds a row with the token iff one exists |
| PyStorage.SamePermutationSameIds | app/storage.py:66 | reordering the rows reorders their ids the same way |
| AgentRates.ComputeCpuUsage | src/bin/agent.rs:271-283 | 0 when the saturated total delta is 0; never above 100 |
| AgentRates.CpuUsageIsBusyShare | src/bin/agent.rs:271-283 | once ticks elapsed and the idle sum did not fall, usage × elapsed ticks = 100 × the busy ticks elapsed (user, nice, system, irq, softirq, steal) |
| AgentRates.BusyTicksReadAsFull | src/bin/agent.rs:271-283 | with idle and iowait frozen and the total grown, the usage is 100 |
| AgentRates.CpuUsageInRange | src/bin/agent.rs:271-283 | in [0, 100] when no counter went backwards |
| AgentRates.IdleTicksReadAsZero | src/bin/agent.rs:271-283 | 0 when only idle and iowait advanced |
| AgentRates.CpuUsageCanBeNegative | src/bin/agent.rs:271-283 | when more idle ticks than total ticks elapsed between the samples (a busy counter went backwards), the usage is negative |
| AgentRates.MemoryPercent | src/bin/agent.rs:85-91 | the used share is never negative, and is 0 when the available memory is at least the total |
| AgentRates.MemoryPercentInRange | src/bin/agent.rs:85-91 | in [0, 100]; 0 when the total is 0 or the available memory is at least the total; 100 when none is available |
| AgentRates.BytesPerSecToMb | src/bin/agent.rs:445-451 | non-negative; 0 for a zero interval; otherwise mb × interval × 2^20 = bytes |
| AgentRates.BytesToGb | src/bin/agent.rs:453-455 | non-negative, and gb × 2^30 = bytes |
| AgentRates.SleepFor | src/bin/agent.rs:158-161 | sleeps only when the tick took less than the interval, and then exactly up to the interval |
| AgentRates.TickCpu | src/bin/agent.rs:75-83 | 0 when either sample is missing, else the usage between the two samples |
| AgentRates.Start | src/bin/agent.rs:69-70 | the first CPU sample is kept even if missing; a missing network reading starts at (0, 0) |
| AgentRates.Tick | src/bin/agent.rs:75-102 | one tick remembers the current CPU reading (even a missing one) and the network counters or (0, 0); its rates and totals are non-negative; no memory reading gives 0 % |
| AgentRates.TickProperties | src/bin/agent.rs:75-102 | `prev_cpu` becomes the current reading even when missing; `prev_net` becomes the reading or (0, 0); memory in [0, 100]; rates non-negative and 0 when a counter went backwards |
| AgentRates.TickCpuInRange | src/bin/agent.rs:75-83 | the tick's CPU usage is in [0, 100] when counters only advance |
| AgentRates.Run | src/bin/agent.rs:72-162 | one sample per reading |
| AgentRates.RunRemembersLastReading | src/bin/agent.rs:72-162 | after any run, the state holds the last reading's CPU sample and network counters |
| AgentRates.ReportLoop | src/bin/agent.rs:69-162 | the loop produces exactly the samples and final state of the tick-by-tick fold |
| AgentProc.NthWord | src/bin/agent.rs:251-253 | the n-th whitespace-separated word, present iff there are more than n words |
| AgentProc.ParsedNumbers | src/bin/agent.rs:256 | `filter_map(parse::<u64>)` yields u64 values, no more than there are words |
| AgentProc.ParsedNumbersOfShown | src/bin/agent.rs:256 | parsing the decimal forms of u64 values gives the values back |
| AgentProc.ReadCpuTimes | src/bin/agent.rs:246-269 | with a first line: a result iff its first word is "cpu" and at least eight of the later words parse, and then the counters are the first eight of those; no file gives None; counters are u64 values |
| AgentProc.ReadCpuTimesOfLine | src/bin/agent.rs:246-269 | a line "cpu" followed by eight counters (and anything after) gives those counters in the order user, nice, system, idle, iowait, irq, softirq, steal |
| AgentProc.MemValue | src/bin/agent.rs:292-294 | the second word parsed as u64 |
| AgentProc.ReadMeminfo | src/bin/agent.rs:285-306 | both values are u64 |
| AgentProc.ReadMeminfoLoop | src/bin/agent.rs:285-306 | the loop, with its early exits and the break once both are positive, computes the fold |
| AgentProc.NoMemTotalNoResult | src/bin/agent.rs:300-302 | without a "MemTotal:" line the result is None |
| AgentProc.MemLineParts | src/bin/agent.rs:291-294 | a "Key: v kB" line starts with its key and yields v |
| AgentProc.MemStep | src/bin/agent.rs:291-295 | only a MemTotal or MemAvailable line without a readable value ends the scan; a line changes only the value it names |
| AgentProc.ScanMeminfo | src/bin/agent.rs:290-299 | the scan fails only when some line is a MemTotal or MemAvailable line |
| AgentProc.MeminfoOfKernelLayout | src/bin/agent.rs:285-306 | a positive MemTotal on the first line and a positive MemAvailable after any other lines give both values × 1024, modulo 2^64 |
| AgentProc.NetLineBytes | src/bin/agent.rs:331-343 | a line counts iff it has a ':', a non-blank interface name before it and at least nine fields after it; the counters read are u64 |
| AgentProc.ReadNetBytes | src/bin/agent.rs:324-346 | a result iff the file opens, and both totals fit in u64 |
| AgentProc.SatAddCapped | src/bin/agent.rs:340-341 | saturating accumulation equals the true sum capped at `u64::MAX` |
| AgentProc.ReadNetBytesLoop | src/bin/agent.rs:324-346 | the loop computes the capped sums of field 0 (recv) and field 8 (sent) over the lines after the first two |
| AgentProc.NetLineOfFields | src/bin/agent.rs:331-343 | an "iface: f0 ... f8 ..." line contributes field 0 and field 8, with an unparseable field counting as 0 |
| AgentProc.OsNames | src/bin/agent.rs:387-403 | os_short is PRETTY_NAME if non-empty, else "NAME VERSION", else NAME, else "Linux"; os_full is PRETTY_NAME if non-empty, else os_short; neither is empty |
| AgentProc.ReadOsInfo | src/bin/agent.rs:372-404 | both names are non-empty; without the file both are "Linux" |
| AgentProc.ReadOsInfoLoop | src/bin/agent.rs:372-404 | the loop computes the fold over the lines |
| AgentProc.PrettyIsLastOccurrence | src/bin/agent.rs:378-379 | PRETTY_NAME takes its last occurrence |
| AgentProc.NameIsFirstNonEmpty | src/bin/agent.rs:380-381 | once NAME is non-empty, later lines do not change it |
| AgentProc.VersionIsFirstNonEmpty | src/bin/agent.rs:382-383 | once VERSION is non-empty, later lines do not change it |
| AgentProc.FieldValueOfQuoted | src/bin/agent.rs:379 | `KEY="v"` yields v |
| AgentProc.OsInfoFromNameAndVersion | src/bin/agent.rs:372-404 | NAME and VERSION lines without PRETTY_NAME give "NAME VERSION" for both names |
| AgentProc.OsInfoWithoutFile | src/bin/agent.rs:373-404 | without the file both names are "Linux" |
| AgentProc.ReadCpuInfo | src/bin/agent.rs:406-443 | at least one core; without the file ("Unknown CPU", 1) |
| AgentProc.CpuInfoStep | src/bin/agent.rs:413-427 | one line adds at most one core, and only if it is a "processor" line; a known model and a set hypervisor flag are kept; only a flags line can set the flag |
| AgentProc.ScanCpuInfo | src/bin/agent.rs:409-428 | the core count never exceeds the number of lines |
| AgentProc.ReadCpuInfoLoop | src/bin/agent.rs:406-443 | the loop computes the fold over the lines |
| AgentProc.StepCountsProcessor | src/bin/agent.rs:413-427 | one line adds a core iff it starts with "processor", sets the hypervisor flag iff it is a flags line naming "hypervisor", and never changes a known model |
| AgentProc.CoresCountProcessorLines | src/bin/agent.rs:420-430 | cores is the number of "processor" lines, raised to 1 when there are none |
| AgentProc.HypervisorIffFlagged | src/bin/agent.rs:418-419 | the hypervisor flag is set iff some line is a flags line containing "hypervisor" |
| AgentProc.ModelIsFirstKnown | src/bin/agent.rs:414-417 | the first "model name" value sticks |
| AgentProc.VirtualMachineLabel | src/bin/agent.rs:431-439 | under a hypervisor the model reads "虚拟 CPU (vendor)", or "虚拟 CPU / model" without a vendor |
| AgentConfig.FromEnv | src/bin/agent.rs:166-171 | the environment's interval is a parsed u64 or nothing |
| AgentConfig.ScanArgs | src/bin/agent.rs:173-208 | the argument scan only ever stores parsed u64 intervals |
| AgentConfig.LoadConfig | src/bin/agent.rs:165-221 | "missing --token" iff no token; "missing --endpoint" iff a token but no endpoint; a loaded config has the scanned token and endpoint, the scanned flag or the default, and an interval of at least 1 |
| AgentConfig.LoadConfigLoop | src/bin/agent.rs:165-221 | the loop over the arguments computes `LoadConfig` |
| AgentConfig.ScanAppend | src/bin/agent.rs:173-208 | scanning a concatenation scans its parts in turn, unless the first part ends on a bare option |
| AgentConfig.LastTokenWins | src/bin/agent.rs:176-198 | a final `--token v` or `--token=v` overrides earlier options and the environment |
| AgentConfig.LastEndpointWins | src/bin/agent.rs:181-200 | a final `--endpoint v` or `--endpoint=v` overrides earlier options and the environment |
| AgentConfig.LastIntervalWins | src/bin/agent.rs:186-202 | a final `--interval v` or `--interval=v` sets the interval to v parsed, or clears it when v does not parse |
| AgentConfig.LastFlagWins | src/bin/agent.rs:191-204 | a final `--flag v` or `--flag=v` overrides earlier options and the environment |
| AgentConfig.IntervalDefaults | src/bin/agent.rs:212 | no parsed interval gives 5; 0 is raised to 1; others are kept |
| AgentConfig.TrailingBareOptionIgnored | src/bin/agent.rs:176-195 | a bare option with no value after it changes nothing |
| AgentConfig.InlineTokenAndEndpoint | src/bin/agent.rs:165-221 | `--token=T --endpoint=E` with an empty environment loads (T, E, 5, the default flag) |
| AgentConfig.ReportUrl | src/bin/agent.rs:47-50 | the endpoint without trailing slashes, then "/api/report" |
| AgentConfig.ReportUrlIgnoresTrailingSlash | src/bin/agent.rs:47-50 | a trailing slash on the endpoint does not change the URL |

## Left out

- I/O and the environment are parameters, not modelled:
  - HTTP routing and the handlers' transport layer, in axum and FastAPI;
  - the asset, installer and agent-binary endpoints;
  - the background-image settings and upload;
  - the login handler.
- SQLite itself is not modelled. The table is a sequence of rows in rowid order. SQL leaves the order of `ORDER BY` ties open; the model keeps them in table order (`Tables.SortByStable`).
- Database errors other than a `UNIQUE`/primary-key violation on insert are not modelled. Neither is the atomicity of the report's UPDATE and DELETE, which are separate statements.
- JSON (de)serialisation is not modelled:
  - Rust meta/metrics are maps from member name to serialised value;
  - Python meta/metrics are JSON text;
  - the `Serde` error path of `into_response` and of the report is out.
- Base64 decoding, UTF-8 validation, UUIDs and the random generators are not modelled. Their results are parameters.
- Wall-clock time, `thread::sleep`, the HTTP push, `detect_ip`, `get_hostname`, `statvfs` and file opening are not modelled. Their results are parameters (a file that cannot be opened is `None`).
- `Url::parse` of the report URL, and its failure path, are not modelled.
- Lines that are not valid UTF-8 are not modelled. `lines().flatten()` drops them; here each file is the sequence of its readable lines.
- `read_disk_percent`, `read_loadavg`, `read_uptime`, `round2`/`round3` and the f64 conversions are floating point. The formulas use exact `real` values.
- The meta/metrics payload assembled in `main` is not modelled.
- `scripts/agent.py` is a thin loop over psutil and requests. `app/config.py` only reads the environment. Neither is part of this model.
- AgentRates.ComputeCpuUsage: requires each sample's counter sums to fit in u64. In a release build the Rust `+` would wrap, and a debug build would panic; that case is not modelled.
- Common.WrappingMul: `total * 1024` and `available * 1024` in `read_meminfo` follow a release build, which wraps modulo 2^64. A debug build would panic on that overflow; the panic is not modelled.
- AgentProc.ReadCpuInfo: the core counter is unbounded. The Rust `u64` counter cannot overflow at any realistic line count.
- The constructors `NodeTable.Registry.constructor` and `PyStorage.PyStore.constructor` stand for `init_db`, which creates the empty table.

Behaviours of the code worth knowing:

- The Rust report always overwrites the hostname, even with "". `COALESCE` receives a non-null string.
- Each listed row's status uses the clock reading taken when that row is converted, not one shared reading.
- CPU usage drops below 0 when a non-idle counter goes backwards while idle time advances faster than the total (`AgentRates.CpuUsageCanBeNegative`). Only the upper bound holds in general.
