# Verified kernels of a hosting control plane

A Dafny model of the parts of a web-hosting control plane whose correctness does not show from reading one
function: what several statements, activities, printers and parsers do together. SQL tables are maps, sets or
multisets of rows and every SQL statement is one atomic step. nft, HAProxy, PowerDNS, the kernel's routing
table, the shell and the language model are small state machines or readers of their own. Random draws, query
answers whose order nothing fixes, network errors, crashes and the cipher are parameters, so every statement
holds for all of them. Beside the laws about runs, the main operations have a law in literal columns, record types,
addresses, statuses and texts, stated without the functions that model them.

| module | what it models |
|---|---|
| `DesiredState` | the batch loader of a web shard, proved equal to the nested definition |
| `Envelope`, `EnvVars` | data keys wrapped by a master key, secrets, vault tokens, and their readers |
| `DnsZones`, `DnsRecords`, `DnsLaws`, `DnsOverride`, `DnsActivity` | the zone search, automatic records in two stores, what each activity leaves there, crashes and retries, custom overrides |
| `WireGuardConfig` | the printed client configuration and the CLI parser |
| `EnvFile`, `LbMap`, `ShellQuote` | the env file, the HAProxy map file, shell quoting: each with its reader |
| `Egress` | generated nftables chains and the verdict on packets |
| `Ipv6`, `AddressPlan` | address text, the address plan, routes, shard index allocation |
| `CronJobs`, `Incidents`, `AgentLoop`, `Placement`, `Paging` | protocols, allocators and loops |
| `Text`, `Ordering`, `Arithmetic` | strings, sorting, powers of two and quotients |

Where a promised property is false of the code, the code is kept, a lemma gives the failing case, and the exact
condition under which the property holds is proved:

- A custom DNS record is written first and the record set of its name and type is cleared afterwards
  (`internal/workflow/zone_record.go:50-70`), so in a zone PowerDNS has the record is lost exactly when there was
  something to override: `DnsOverride.CustomServedIffNoAutoRecord`, `DnsOverride.OverridingRecordIsLost`. An
  automatic creation before the record is marked active is served beside it: `DnsOverride.CreationInBetween`.
- Deleting one of several custom records of a name and type clears all of them from PowerDNS:
  `DnsOverride.AfterCustomDeleted`.
- The search for a jump rule in the printed output chain finds the rule of a longer user id:
  `Egress.SyncRestrictsIff`, `Egress.FiveThousandEscapes`. A list nft refuses leaves the tenant unrestricted:
  `Egress.EmptyOrRefusedOpens`.
- Routes are configured under shard indices, which start from 1 in every shard, and transit addresses repeat
  between shards of one role: `AddressPlan.ShardPlanReachesIff`, `AddressPlan.TransitPlanReachesIff`,
  `AddressPlan.TwoDatabaseShardsClash`, `AddressPlan.UnlistedMachineShares`. A database machine whose index is the
  web machine's own is never asked: `AddressPlan.WebNeverReachesDatabase`. Client configurations advertise services under transit indices:
  `AddressPlan.AdvertisedIsConfiguredIff`.
- Setting an entry the map file cannot hold leaves the file behind the run-time map:
  `LbMap.LoadBalancer.SetLBMapEntry`. Run-time commands are sent outside the mutex of the file, so updates of one
  key can take effect in two orders: `LbMap.AlwaysInStepIff`.
- The SQL filter for names under a zone is the label-boundary test exactly for zone names without LIKE
  metacharacters: `DnsZones.FilterIsSuffixIffPlain`.
- The unquoted path in the dump command stands for itself exactly when nothing in it is special to the shell,
  tildes and expansions included: `ShellQuote.DumpCommandMeansPipeline`.
- A failure report can turn off a job that is below its threshold by then: exactly when the counter was cleared
  between its two statements and not filled again, `CronJobs.StaleDisableIff`, as in `CronJobs.StaleReportDisables`.
- Reopening a closed incident beside a live one of its key: `Incidents.KeepsUniqueIff`, `Incidents.ReopeningBreaks`.
- Daemons placed for one shard on a node that serves another as well unbalance the other:
  `Placement.SpreadStaysBounded`, `Placement.SharedNodeUnbounded`.

## Model

| member | source | states |
|---|---|---|
| `DesiredState.LoadWebState` | internal/core/desired_state.go:90-322 | The loader fails exactly when a secret of an active webroot of an active or suspended tenant of the shard does not open; otherwise its batches, index maps and key cache give the nested state. Column by column: the active and suspended tenants by id, their active webroots by id, the active names in order, the active and auto-disabled cron jobs by id, the texts of the active SSH keys, each with its own row's columns, and every variable opened. |
| `DesiredState.LoadWebroots` | internal/core/desired_state.go:120-288 | The listed webroots come out in order, each exactly as the nested definition describes it and with its own row's columns, or the whole load fails because one value does not open. |
| `DesiredState.LoadEnvs` | internal/core/desired_state.go:154-232 | Third reader: every listed webroot gets its own plaintext map, or the load fails exactly when some value does not open; without a master key stored values are taken as they are. |
| `DesiredState.LoadVars` | internal/core/desired_state.go:191-232 | The decryption loop with cached data keys computes what fetching the key for every row computes. |
| `DesiredState.LoadFqdns` | internal/core/desired_state.go:233-254 | Grouping one sorted batch by webroot gives each webroot the sorted list of its own active names, each with the flag and status of its row. |
| `DesiredState.LoadCrons` | internal/core/desired_state.go:256-277 | Likewise for cron jobs that are active or auto-disabled, by id, each enabled exactly if its row is. |
| `DesiredState.LoadSshKeys` | internal/core/desired_state.go:290-309 | Each tenant gets the key of each of its active SSH keys once, in some order. |
| `DesiredState.IndexByParent` | internal/core/desired_state.go:135-149 | The remembered positions of a tenant point at exactly its webroots, in order. |
| `DesiredState.Assemble` | internal/core/desired_state.go:311-319 | Putting tenants, positions and keys together gives the nested tenants. |
| `DesiredState.GroupRows` | internal/core/desired_state.go:243-251 | A row loop that appends to a map of lists leaves under every parent the items of exactly its rows, in row order. |
| `DesiredState.HavingSorted` | internal/core/desired_state.go:233-277 | The rows of one parent in a sorted batch are the sorted listing of that parent's rows. |
| `DesiredState.NestedIsTold` | internal/core/desired_state.go:90-322 | The nested state says of every tenant, webroot, name, cron job, key and variable exactly what its row says, and leaves out no row of the listed statuses. |
| `DesiredState.LoadableIff` | internal/core/desired_state.go:191-232 | The loader can go through exactly when every secret that belongs to the shard opens with its tenant's data key, or there is no master key. |
| `Ordering.LessIsLexicographic` | internal/core/desired_state.go:92-97 | The order of keys: the first difference decides, and a text comes before its continuations. |
| `Envelope.RunsAreSound` | internal/core/webroot_env_var.go:92-262 | Over every serial run of bulk sets, deletions and token issues for any tenants: a stored data key never changes, every issued token still opens to its plaintext, every stored variable stands for what was last set. |
| `Envelope.EmptyIsSound` | migrations/core/00038_webroot_env_vars.sql:2-17 | Empty key and variable tables are sound, whatever webroots there are, so the statement holds of every run from the start. |
| `Envelope.ApplyKeepsSound` | internal/core/webroot_env_var.go:92-262 | One operation keeps all of that, also when it stops half way on an error. |
| `Envelope.SealedOpens` | internal/core/webroot_env_var.go:168-207 | A value sealed under the tenant's key, made on the way if need be, opens again under the stored key; sealing fails exactly without a valid master key. |
| `Envelope.SetVarsStands` | internal/core/webroot_env_var.go:103-124 | Whatever stops the insert loop, a repeated name or a missing key, the variables left stand for exactly the inputs accepted before it. |
| `Envelope.TokenIsFresh` | internal/core/webroot_env_var.go:168-207 | A token just issued opens to its plaintext. |
| `Envelope.BulkSetLaw` | internal/core/webroot_env_var.go:92-137 | A bulk set succeeds if and only if the webroot exists, no name is given twice, and nothing is secret or the master key is valid. The webroot then has exactly the inputs, in clear or sealed with the stored data key and the drawn nonce as asked; after a failure, those before the first that could not be stored. |
| `Envelope.KeyMadeLaw` | internal/core/webroot_env_var.go:226-262 | A stored data key is reused; otherwise the drawn key is stored wrapped; without a valid master key there is none, and no other tenant's key changes. |
| `Envelope.DeleteByNameLaw` | internal/core/webroot_env_var.go:140-148 | Deleting succeeds if and only if the variable is there, and takes that one alone. |
| `Envelope.VaultEncryptLaw` | internal/core/webroot_env_var.go:168-185 | A token is issued if and only if the webroot exists and the master key is valid: "vault:v1:" and the plaintext sealed with the tenant's stored data key. |
| `Envelope.VaultDecryptLaw` | internal/core/webroot_env_var.go:188-207 | A token is opened with the data key of the webroot's tenant after its prefix is taken off. |
| `EnvVars.WebrootEnvVarService.BulkSet` | internal/core/webroot_env_var.go:92-137 | New tables and result of a bulk set: missing webroot, cleared rows, key creation, stop at the first error; what that means is `Envelope.BulkSetLaw`. |
| `EnvVars.WebrootEnvVarService.DeleteByName` | internal/core/webroot_env_var.go:140-148 | The one row goes, or an error is returned and nothing changes. |
| `EnvVars.WebrootEnvVarService.GetOrCreateTenantDEK` | internal/core/webroot_env_var.go:226-262 | An existing key is unwrapped, a missing one is made, wrapped and stored. |
| `EnvVars.WebrootEnvVarService.VaultEncrypt` | internal/core/webroot_env_var.go:168-185 | Token and new tables. |
| `EnvVars.WebrootEnvVarService.VaultDecrypt` | internal/core/webroot_env_var.go:188-207 | Plaintext of a token, or the error. |
| `EnvVars.WebrootEnvVarService.ListDecrypted` | internal/core/webroot_env_var.go:55-89 | First reader: the rows in name order with their values opened, failing exactly when one does not open or the webroot is missing. |
| `EnvVars.DecryptEnvVars` | internal/activity/core_db_context.go:382-447 | Second reader: with cached keys it fails exactly when some row does not open and else sorts every row under its webroot; without a master key it gives nothing. |
| `EnvVars.CollectedIsEnv` | internal/activity/core_db_context.go:405-444 | What a batch collects for a webroot is that webroot's own environment. |
| `EnvVars.ReadersAgree` | internal/activity/core_db_context.go:382-447 | In every database state, for any row order, a batch that succeeds gives each webroot the same names and plaintexts as its list, which succeeds too. |
| `EnvVars.BatchOpensIff` | internal/activity/core_db_context.go:405-444 | A batch succeeds if and only if the values of each of its webroots all open. |
| `EnvVars.ListedIffOpen` | internal/core/webroot_env_var.go:55-89 | The list succeeds if and only if every value of the webroot opens. |
| `EnvVars.ListedLaw` | internal/core/webroot_env_var.go:55-89 | The list has the rows in their order, secrets opened with the tenant's data key; it fails exactly without the webroot or where a secret does not open. |
| `EnvVars.BatchLaw` | internal/activity/core_db_context.go:382-447 | The batch gives each webroot exactly its own names, secrets opened; it fails exactly where a secret of a listed webroot does not open. |
| `EnvVars.RunsReadBack` | internal/core/webroot_env_var.go:55-262 | After every serial run everything stored for a webroot opens and is exactly what was set. |
| `EnvVars.ReadersReadBack` | internal/activity/core_db_context.go:405-444 | So the list of each webroot, and its part of any batch of rows, is what was set. |
| `DesiredState.ReadThreeWays` | internal/core/desired_state.go:154-232 | After every serial run the list, the batch reader and the loader return the same map, the one that was set; without a master key the batch reader alone returns nothing. |
| `DnsRecords.RetryConverges` | internal/activity/dns.go:33-89 | An attempt at creating address, mail or retroactive records that dies after any number of statements, followed by a rerun, leaves both stores and reports the outcome as one clean run. |
| `DnsRecords.RetriesConverge` | internal/activity/dns.go:137-219 | The same after any number of attempts that died at any points. |
| `DnsRecords.FailingRun` | internal/activity/powerdns_db.go:71-88 | When the zone is not in PowerDNS the first insert is refused and neither store changes. |
| `DnsRecords.FullRun` | internal/activity/dns.go:33-89 | The effect of a complete run on each store: last write wins at the written keys, guarded inserts in order. |
| `DnsRecords.PrefixAbsorbed` | internal/activity/dns.go:604-637 | Making a list of guarded inserts again after any prefix of them changes nothing. |
| `DnsRecords.CleanServesAddresses` | internal/activity/dns.go:33-89 | After a clean run every address has its core row, of type A for family 4 and AAAA for family 6, and is served once with time to live 300, unless a custom A or AAAA record is active, and then nothing served changes. |
| `DnsRecords.CleanServesMail` | internal/activity/dns.go:137-219 | After a clean run every mail record is recorded under its purpose and, unless overridden, served once with its priority. |
| `DnsRecords.CleanServesFound` | internal/activity/dns.go:443-476 | After a clean retroactive run every address of every name found, A for family 4 and AAAA for family 6, is recorded under the zone and, unless its own type is overridden, served once. |
| `DnsRecords.PlanFineOrFails` | internal/activity/dns.go:390-516 | No activity writes to an overridden name and type, to an unknown domain after the first statement, or to a name it is not about. |
| `DnsLaws.HostNameLaw` | internal/activity/dns.go:33-89 | The whole effect for a host name on any stores. It fails, changing nothing, exactly when PowerDNS lacks the zone and there is an address of family 4 or 6 to write. Otherwise exactly the A records of its family 4 addresses and the AAAA records of its family 6 addresses are served, for 300 seconds, unless a custom one is active, and each gets one core row unless an automatic row has it; no other key and no other row changes. |
| `DnsLaws.MailLaw` | internal/activity/dns.go:137-219 | The whole effect for a mail domain: exactly the MX record with priority 10, the SPF, DKIM and DMARC texts that its parameters call for, under their names, each served for 300 seconds unless overridden or the zone is not in PowerDNS, and each recorded once unless its purpose is; nothing else changes. |
| `DnsLaws.SendersAre` | internal/activity/dns.go:687-703 | The SPF text: "v=spf1 mx ", an include term for each entry that is not blank, "~all". |
| `DnsLaws.FoundLaw` | internal/activity/dns.go:390-516 | The whole effect of the retroactive run on what is served, by family and by type, and no core row other than of names and mail domains found. |
| `DnsLaws.FoundRecorded` | internal/activity/dns.go:443-476 | Every address of every name found has its core row afterwards. |
| `DnsLaws.FoundMailRecorded` | internal/activity/dns.go:478-516 | And every record of every mail domain found, by its purpose. |
| `DnsLaws.InsertedExactly` | internal/activity/dns.go:71-82 | Guarded inserts that do not clash add each of their rows once, unless a row that clashes is there. |
| `DnsActivity.DNS.WriteDNSRecord` | internal/activity/powerdns_db.go:71-88 | Delete then insert, with a possible death between them and the foreign key on the domain. |
| `DnsActivity.DNS.CreateAutoRecord` | internal/activity/dns.go:604-637 | Follows its plan statement by statement under any budget. |
| `DnsActivity.DNS.AutoCreateDNSRecords` | internal/activity/dns.go:33-89 | Follows its plan statement by statement under any budget. |
| `DnsActivity.DNS.AutoCreateEmailDNSRecords` | internal/activity/dns.go:137-219 | Follows its plan statement by statement under any budget. |
| `DnsActivity.DNS.BuildSPFRecord` | internal/activity/dns.go:687-703 | The loop computes the SPF content: the includes that are not blank, trimmed, in order. |
| `DnsActivity.DNS.RetroactiveAutoRecords` | internal/activity/dns.go:390-516 | Follows its plan statement by statement under any budget, ignoring errors of address records as the code does. |
| `DnsActivity.DNS.HasCustomRecord` | internal/activity/dns.go:663-684 | True exactly when an active custom record of the name and one of the types exists. |
| `DnsActivity.DNS.DeactivateAutoRecords` | internal/activity/dns.go:281-320 | The record set is gone from every domain that has an active automatic record of it, and nothing else changes. |
| `DnsActivity.DNS.ReactivateAutoRecords` | internal/activity/dns.go:325-377 | Nothing while a custom record is active; otherwise each active automatic row is written, in whatever order the query gave. |
| `DnsOverride.OverrideIsSafe` | internal/activity/dns.go:278-377 | While a custom record of a name and type is active, no run of automatic creations, complete or cut short, retroactive ones and reactivations changes what is served for that name and type. |
| `DnsOverride.OtherNamesServedAlike` | internal/activity/dns.go:33-89 | An attempt leaves what is served for all other names alone. |
| `DnsOverride.OtherNamesRecordedAlike` | internal/activity/dns.go:33-89 | And the core rows of all other names. |
| `DnsOverride.ReactivationServesAuto` | internal/activity/dns.go:325-377 | On a clear record set, afterwards exactly the contents of the active automatic rows are served, one row each. |
| `DnsOverride.DeactivationLaw` | internal/activity/dns.go:281-319 | The record set goes from exactly the domains with an active automatic row of the name and type; all else stays. |
| `DnsOverride.ReactivationLaw` | internal/activity/dns.go:325-377 | Nothing happens while a custom record of the name and type is active; otherwise every active automatic row whose zone PowerDNS has is served at its key, with its own time to live and priority, and other keys stay. |
| `DnsOverride.CustomServedIffNoAutoRecord` | internal/workflow/zone_record.go:38-77 | After the creation workflow the custom record is served if and only if PowerDNS has its zone and no active automatic record of its name and type was known in that domain; without the zone nothing is written and the record does not override. Other names and types are served as before. |
| `DnsOverride.OverridingRecordIsLost` | internal/workflow/zone_record.go:50-77 | A custom record over an automatic one of its zone leaves nothing served there. |
| `DnsOverride.CreationInBetween` | internal/workflow/zone_record.go:63-77 | When an automatic creation of any kind runs between the deactivation and the marking, the record set serves what the workflow alone would serve and, beside it, exactly the keys the creation plans, unless its first write is refused; the override then keeps both. |
| `DnsOverride.HostNameInBetween` | internal/activity/dns.go:33-89 | For a host name these are its addresses of the type, if its zone is served and no address record of the name is overridden. |
| `DnsOverride.AfterCustomDeleted` | internal/workflow/zone_record.go:170-203 | After the deletion workflow the domain serves nothing there if another custom row of the name and type was active before, and else exactly the automatic contents, one row each. |
| `DnsOverride.CustomCreatedLaw` | internal/workflow/zone_record.go:38-77 | The whole effect of the creation workflow, at every key and on the core rows, in terms of the rows alone. |
| `DnsOverride.CustomDeletedLaw` | internal/workflow/zone_record.go:170-203 | The whole effect of the deletion workflow at every key: the record set goes from the record's domain, and without another active custom record the automatic rows come back in every domain. |
| `DnsZones.FindZoneForFQDN` | internal/activity/dns.go:642-659 | The longest active zone that is the name or a label-boundary suffix of it, or none if there is none. |
| `DnsZones.SuffixIsCandidate` | internal/activity/dns.go:642-646 | Every label-boundary suffix is looked up. |
| `DnsZones.CandidateIsSuffix` | internal/activity/dns.go:642-646 | Nothing else is. |
| `DnsZones.FilterIsSuffixIffPlain` | internal/activity/dns.go:422-426 | The SQL filter agrees with the label-boundary test on all names if and only if the zone name has no LIKE metacharacter. |
| `DnsZones.FilterGoesWrong` | internal/activity/dns.go:422-426 | For every other zone name, a name on which they differ. |
| `DnsZones.FilterFindsLookups` | internal/activity/dns.go:422-426 | For plain zone names the filter selects exactly the names whose search may test the zone. |
| `WireGuardConfig.PrintedConfigReadsBack` | internal/core/wireguard_peer.go:101-151 | Parsing the printed configuration gives every key, the address, endpoint, allowed range, keepalive and all services in order; it fails exactly for a peer index above 0xFFFF or an empty private or public key. |
| `WireGuardConfig.PrintedConfigLaw` | internal/core/wireguard_peer.go:101-151 | The client ends up with its own keys and endpoint, the address fd00:hash:ffff::index/128, the range fd00::/16, keepalive 25, and for each target a service of its kind at the tenant's address on that machine, under index plus 256 for a database and 512 for a cache, if the fields fit. |
| `WireGuardConfig.PrintedInterface` | internal/core/wireguard_peer.go:140-143 | The printed interface section, line by line. |
| `WireGuardConfig.PrintedPeer` | internal/core/wireguard_peer.go:144-150 | The printed peer section, line by line. |
| `WireGuardConfig.PrintedServices` | internal/core/wireguard_peer.go:131-137 | The service comments, none without services. |
| `WireGuardConfig.AllowedIPsAppended` | internal/cli/config.go:69-166 | A comma-separated list of networks is read in order, white space around each dropped. |
| `WireGuardConfig.FirstBadNetwork` | internal/cli/config.go:69-166 | The first entry that is no network is reported. |
| `WireGuardConfig.ParseConfigReader` | internal/cli/config.go:69-166 | The scanner loop computes the section and service-comment state machine, with its errors. |
| `WireGuardConfig.BuildClientConfig` | internal/core/wireguard_peer.go:139-151 | The printed text, line by line. |
| `WireGuardConfig.BuildServiceLines` | internal/core/wireguard_peer.go:101-137 | The service comments of the tenant's targets in order; which addresses they are is in `WireGuardConfig.PrintedConfigLaw`. |
| `EnvFile.RoundTrip` | internal/activity/node_local.go:1024-1042 | For identifier keys and any order of the lines, reading the written file gives back the map if and only if no value has a line break. |
| `EnvFile.UnescapeInvertsEscape` | internal/activity/node_local.go:1079-1087 | The one-pass unescape undoes the escape on every string. |
| `EnvFile.ShellReadsEscaped` | internal/activity/node_local.go:1078-1087 | Read by the rules for double quotes (section 2.2.3 of the POSIX Shell Command Language), every escaped value is itself, with nothing expanded. |
| `EnvFile.ReadsUnquotedLine` | internal/agent/daemon.go:293-311 | A value without quotes is taken as it is. |
| `EnvFile.SkipsOtherLines` | internal/agent/daemon.go:293-311 | Comments, blank lines and lines without a name or an equals sign say nothing. |
| `EnvFile.WriteWebrootEnv` | internal/activity/node_local.go:1024-1046 | The file, in key order, or its removal when there is nothing to write. |
| `EnvFile.ReadEnvFile` | internal/agent/daemon.go:284-313 | The loop computes the reader's line-by-line function, empty for a missing file. |
| `EnvFile.ReadValuesAreLines` | internal/agent/daemon.go:293-311 | No file gives a value with a line break. |
| `EnvFile.WriteThenRead` | internal/agent/daemon.go:284-313 | Writer and reader composed: the same map if and only if no value has a line break. |
| `LbMap.RoundTrip` | internal/activity/lb.go:135-164 | For any iteration order, reading the written map file gives back the map if and only if its keys and values are tokens and no key starts a comment. |
| `LbMap.ReadMapFile` | internal/activity/lb.go:135-156 | The loop computes the parsed map, empty for a missing file. |
| `LbMap.WriteMapFile` | internal/activity/lb.go:158-164 | One line for each entry, in some order; the file reads back as the map if and only if its keys and values are tokens and no key starts a comment. |
| `LbMap.ParseIsClean` | internal/activity/lb.go:135-156 | Whatever the file holds, what is read can be written and read again. |
| `LbMap.ReadsFirstTwoWords` | internal/activity/lb.go:145-154 | A line means its first two words, whatever follows. |
| `LbMap.SkipsCommentsAndWords` | internal/activity/lb.go:145-154 | Comments, blank lines and single words say nothing. |
| `LbMap.HostKeyDropsOneDot` | internal/activity/lb.go:53-53 | Exactly one trailing dot is taken from a name. |
| `LbMap.NoUpdateIsLost` | internal/activity/lb.go:50-132 | In every interleaving of run-time commands and locked updates, at every step, run-time map and file hold the starting map with the updates sent, or written, so far applied once each in that order, and one activity at most is between lock and unlock. |
| `LbMap.InStepIff` | internal/activity/lb.go:50-106 | When no activity is under way, run-time map and file agree if and only if the last update of every key has the same effect in the order of the commands and in the order of the writes. |
| `LbMap.AlwaysInStepIff` | internal/activity/lb.go:50-106 | They agree in every such state of every interleaving if and only if no two of the updates set one key to different things. |
| `LbMap.LoadBalancer.SetLBMapEntry` | internal/activity/lb.go:50-82 | For any name and backend that are words without white space: set or add at run time, then persist. The run-time map is the intended one; the file follows if and only if it can hold the entry. |
| `LbMap.LoadBalancer.DeleteLBMapEntry` | internal/activity/lb.go:85-106 | Likewise for deletion. |
| `LbMap.LoadBalancer.Serve` | internal/activity/lb.go:50-132 | Over any serial run of such calls the run-time map, the disk map and the intended map stay equal up to the first set the file cannot hold, keys taken without one trailing dot, and part there. |
| `ShellQuote.ShellReadsBackArguments` | internal/agent/database.go:350-356 | Reading the quoted and joined list by the quoting rules of sections 2.2.1, 2.2.2 and 2.3 of the POSIX Shell Command Language gives exactly the arguments, for every list of strings. |
| `ShellQuote.ReadsArgumentsBefore` | internal/agent/database.go:350-356 | And so it does in front of any further text. |
| `ShellQuote.QuoteArgs` | internal/agent/database.go:350-356 | The loop fills the array with each argument quoted. |
| `ShellQuote.DumpCommandMeansPipeline` | internal/agent/database.go:311-312 | The dump command reads as the intended pipeline with the intended arguments, no word left to an expansion, if and only if the unquoted path is plain: not empty, no leading comment sign, no blank, quote, operator, and no sign of a tilde, parameter, command, pathname or brace expansion anywhere. |
| `ShellQuote.PathReadsAsItselfIffPlain` | internal/agent/database.go:312-312 | An unquoted path reads as one word, itself, whatever files there are, if and only if it is plain. |
| `Egress.EgressIsWhitelist` | internal/agent/tenant_ula.go:350-439 | With prefix-free user ids, after any run of syncs for any users: a packet goes out if and only if the list in force for its user is empty or a network in it, matched as IPv6 exactly if it has a colon, contains the destination. |
| `Egress.RunVerdict` | internal/agent/tenant_ula.go:350-439 | The exact verdict after any run, for any user ids. |
| `Egress.OtherUsersUnaffected` | internal/agent/tenant_ula.go:354-408 | No sync from any state changes what another user may reach. |
| `Egress.SyncRestrictsIff` | internal/agent/tenant_ula.go:396-406 | After a sync nft takes, a destination outside the list is reachable if and only if the user had no jump and its id is the beginning of the id in another jump. |
| `Egress.SyncKeepsListed` | internal/agent/tenant_ula.go:378-394 | A listed destination stays reachable. |
| `Egress.EmptyOrRefusedOpens` | internal/agent/tenant_ula.go:361-394 | An empty list, and a list nft refuses, leave the user unrestricted, also when the emptied chain stays because the jump refers to it. |
| `Egress.FiveThousandEscapes` | internal/agent/tenant_ula.go:396-406 | The list of user 5000 has no effect once user 50000 has one. |
| `Egress.ListingContains` | internal/agent/tenant_ula.go:396-399 | The text search in the printed chain succeeds if and only if the id of some jump starts with the sought digits. |
| `Egress.TenantULAManager.SyncEgressRules` | internal/agent/tenant_ula.go:354-408 | Chains, jumps and result after the nft commands, one by one, with their failures; what that means is `Egress.SyncLaw`. |
| `Egress.SyncLaw` | internal/agent/tenant_ula.go:354-408 | A sync fails exactly when nft refuses a network under its family, and then leaves the user's chain empty. A list that is taken becomes, in order, an accept rule for each network, IPv6 exactly if it has a colon, and a reject. Without a list the chain goes, or is emptied where a jump refers to it. At most the user's jump is added, and no other chain changes. |
| `Egress.TenantULAManager.RemoveEgressChain` | internal/agent/tenant_ula.go:430-439 | The chain is emptied and goes unless it is still referred to. |
| `Ipv6.AddrReadsBackIffFits` | internal/core/ula.go:19-22 | Printed address text reads back as its fields (section 2.2 of RFC 4291) if and only if each fits sixteen bits. |
| `Ipv6.HexIsCanonical` | internal/core/ula.go:19-22 | Fields are printed in lower case without leading zeros. |
| `Ipv6.Prefix48ReadsBackIffFits` | internal/agent/tenant_ula.go:338-338 | Likewise for a /48 prefix. |
| `Ipv6.Prefix48Covers` | internal/agent/tenant_ula.go:338-338 | A /48 covers exactly the addresses with its three leading groups. |
| `Ipv6.CoversIsDivision` | internal/agent/tenant_ula.go:338-338 | A prefix of any length covers exactly the addresses whose 128-bit numbers, divided by two to the number of free bits, give the quotient of its own. |
| `Ipv6.NumberBound` | internal/agent/tenant_ula.go:338-338 | The number of an address is below two to the 128th. |
| `AddressPlan.AddressesReadBack` | internal/core/ula.go:10-58 | With the hash of any cluster, tenant, transit and WireGuard client addresses read back exactly when their indices fit. |
| `AddressPlan.TransitIndexInjectiveIff` | internal/core/ula.go:24-51 | Transit indices of different places never meet as long as, and only as long as, shard indices are at most 256. |
| `AddressPlan.TransitPlanIsSound` | internal/agent/tenant_ula.go:320-348 | With transit indices as prefixes, whatever routes earlier plans left, each tenant address is covered by exactly its node's /48, and no transit and no WireGuard client address by any. |
| `AddressPlan.EveryPeerReachedIff` | internal/agent/tenant_ula.go:335-345 | Since later routes replace earlier ones, every address of a peer goes to that peer's hop if and only if equal prefixes mean equal hops, whatever an earlier list left in the table. |
| `AddressPlan.PlanReachesIff` | internal/agent/tenant_ula.go:320-348 | The same three conditions for any assignment of prefixes, whatever routes are left from before; the machine's own addresses come before any route. |
| `AddressPlan.ShardPlanReachesIff` | internal/workflow/converge_shard.go:271-352 | With shard indices as prefixes, for any routing machine of a cluster and any peer list, every tenant address of every peer arrives at that peer and nowhere else if and only if no peer on another machine has a shard index under which the routing machine has the tenant itself, no two peers on different machines share a shard index, and no other machine of the cluster, listed or not, has role and index of a peer whose route is in force. |
| `AddressPlan.TransitPlanReachesIff` | internal/agent/tenant_ula.go:320-348 | With transit indices as prefixes, if and only if no other machine of the cluster has role and index of a peer, peers that are the routing machine itself aside. |
| `AddressPlan.TwoDatabaseShardsClash` | internal/workflow/converge_shard.go:302-324 | The first machines of two database shards share /48 and transit address, so neither plan reaches both from a web machine. |
| `AddressPlan.UnlistedMachineShares` | internal/workflow/converge_shard.go:326-345 | The first machines of two web shards share a transit address, so the second machine of one of them reaches its first under neither plan, though the other shard is in no list of it. |
| `AddressPlan.WebNeverReachesDatabase` | internal/workflow/converge_shard.go:271-324 | One web and one database machine: the address of a tenant of both on the database machine is one of the web machine's own, and packets for it never leave; with transit indices as prefixes they would arrive. |
| `AddressPlan.OneShardPerRoleReached` | internal/core/node.go:210-229 | As indices are assigned, in a cluster with one shard for each role the transit plan serves every routing machine, whatever its peer list. |
| `AddressPlan.OneShardReached` | internal/core/node.go:210-229 | And in a cluster with a single shard the shard plan. |
| `AddressPlan.ShardPlanCollides` | internal/workflow/converge_shard.go:781-804 | The first web machine and the first database machine collide in the list of a cache machine; with transit indices as prefixes they would not. |
| `AddressPlan.AdvertisedIsConfiguredIff` | internal/workflow/database.go:76-83 | The advertised service address is the configured one if and only if the role's transit offset is zero; no route covers any other. |
| `AddressPlan.Kernel.ConfigureRoutesV2` | internal/agent/tenant_ula.go:320-348 | Address and routing table after the loop, from any table, up to the first refused command. |
| `AddressPlan.TableContents` | internal/agent/tenant_ula.go:335-345 | One /48 for each prefix index, pointing at the last peer that had it. |
| `AddressPlan.RoutesLaw` | internal/agent/tenant_ula.go:335-345 | From any table, in literal addresses: fd00:hash:index::/48 goes by way of fd00:hash:0::transit of the last entry with that index before the first that does not fit; every other route stays. |
| `AddressPlan.TableSends` | internal/agent/tenant_ula.go:335-345 | After any earlier lists: the routes an address matches and the peer it is sent to, of the new list or else left from before. |
| `AddressPlan.NodeService.AssignShards` | internal/core/node.go:210-229 | Indices stay distinct in every shard, and each new one is one above the highest of its shard, or 1; success exactly when no pair exists or repeats, and otherwise the shards before the first such are assigned. |
| `AddressPlan.NodeService.Reassign` | internal/core/node.go:187-196 | The node serves exactly the new shards, other nodes keep their rows. |
| `AddressPlan.ShardNodesDistinct` | internal/core/node.go:210-229 | Nodes of one shard have distinct transit indices. |
| `CronJobs.ThresholdIsWatched` | internal/core/cron_job.go:148-267 | In every interleaving of statements, an enabled job at its threshold has a report in flight that will turn it off. |
| `CronJobs.WatcherTurnsOff` | internal/core/cron_job.go:249-254 | That report can always go on and turns the job off. |
| `CronJobs.CounterCounts` | internal/core/cron_job.go:222-246 | In serial runs the counter is the number of failures since it was last cleared. |
| `CronJobs.AutoDisableIsExact` | internal/core/cron_job.go:222-254 | In serial runs exactly the max-th failure since the last reset turns an enabled job off. |
| `CronJobs.NoThresholdNeverFires` | internal/core/cron_job.go:245-246 | Without a threshold nothing does. |
| `CronJobs.StaleReportDisables` | internal/core/cron_job.go:234-254 | An interleaving in which a job just enabled with a clear counter is turned off. |
| `CronJobs.StaleDisableIff` | internal/core/cron_job.go:222-254 | Over every interleaving, the second statement of a report turns off an enabled job below its threshold if and only if since its first one the counter was cleared, fewer than max failures were counted after the last time, and the job was not left switched off. |
| `CronJobs.PromptReportIsExact` | internal/core/cron_job.go:234-254 | With nothing between the two statements it never does. |
| `CronJobs.CounterBetween` | internal/core/cron_job.go:222-246 | Between any two moments of any interleaving the counter is the failures counted since it was last cleared, or since the first moment. |
| `CronJobs.CronJobService.Enable` | internal/core/cron_job.go:148-164 | Only from active or auto-disabled: enabled, counter cleared, provisioning. |
| `CronJobs.CronJobService.Disable` | internal/core/cron_job.go:173-189 | Only from active: not enabled, counter kept, provisioning. |
| `CronJobs.CronJobService.Retry` | internal/core/cron_job.go:198-211 | Only from failed or auto-disabled: counter cleared, provisioning, enabled or not as before. |
| `CronJobs.CronJobService.ReportCronOutcome` | internal/core/cron_job.go:222-267 | A success clears the counter; a failure counts and at a positive threshold turns an enabled job off as auto-disabled; a failure for an unknown job is an error. |
| `Incidents.ClaimedAtMostOnce` | internal/activity/agent.go:122-144 | Over every interleaving of all statements at most one claim of an incident ever succeeds. |
| `Incidents.RefusedIff` | internal/core/incident.go:23-73 | In every interleaving the index refuses exactly the statements that would bring a row to life beside a live one of its key; all others take effect. |
| `Incidents.SerialRunsAreUnique` | internal/core/incident.go:23-73 | Serially the code alone ensures that, across both ways of creating, when updates and escalations touch live incidents only. |
| `Incidents.KeepsUniqueIff` | internal/core/incident.go:179-313 | A statement keeps it if and only if it does not bring a row to life beside a live one of its key. |
| `Incidents.HandledKeepsUniqueIff` | internal/activity/incident.go:31-67 | A look before the insert is enough when requests do not overlap. |
| `Incidents.ReopeningBreaks` | internal/activity/incident.go:115-138 | Reopening a closed incident beside a live one breaks it. |
| `Incidents.IncidentService.Create` | internal/core/incident.go:23-73 | The incident of the key that is neither resolved nor cancelled, or else a new open one, and which of the two. |
| `Incidents.IncidentService.Update` | internal/core/incident.go:179-216 | Writes the given fields only, assignment never goes back to none, unless that brings a closed incident to life beside a live one of its key: then the index refuses and nothing changes. |
| `Incidents.IncidentService.Resolve` | internal/core/incident.go:219-226 | The incident is resolved, whatever it was; no other row changes. |
| `Incidents.IncidentService.Cancel` | internal/core/incident.go:263-270 | The incident is cancelled, whatever it was; no other row changes. |
| `Incidents.IncidentService.Escalate` | internal/core/incident.go:241-248 | The incident is live afterwards, even if it was closed, unless the index refuses, which it does exactly when the incident was closed and another of its key is live. |
| `Incidents.IncidentService.ClaimIncidentForAgent` | internal/activity/agent.go:122-144 | Succeeds exactly on an open, unassigned incident, which is then being investigated by the agent. |
| `Incidents.IncidentService.AutoResolve` | internal/core/incident.go:285-313 | Resolves exactly the live incidents of the resource and type prefix and counts them. |
| `Incidents.AutoResolveLaw` | internal/core/incident.go:285-313 | For a prefix without LIKE metacharacters: resolved are exactly the rows of the resource whose type starts with it and that are neither resolved nor cancelled. |
| `Incidents.OneOpenIncident` | migrations/core/00041_incidents.sql:23-24 | In every state of every interleaving at most one incident of a key is neither resolved nor cancelled. |
| `AgentLoop.InvestigateIncident` | internal/activity/agent.go:210-344 | The run follows the world turn by turn, ends as its last turn says, never exceeds a positive maximum, and the conversation and every request are what the turns make them. |
| `AgentLoop.ConversationsAreProper` | internal/activity/agent.go:240-319 | In every run every tool call is answered by exactly one message with its id, in order, before the model is asked again. |
| `AgentLoop.InjectedAtMostOnce` | internal/activity/agent.go:353-380 | The operator messages taken up over a run are of different ids. |
| `AgentLoop.VisibleAreInjected` | internal/activity/agent.go:243-258 | Every operator message visible at a turn's query has been taken up, and every message taken up so far, in this turn or an earlier one, is in this turn's request. |
| `AgentLoop.RequestHoldsOperatorMessages` | internal/activity/agent.go:243-266 | In every request of every run the user messages after the prologue are exactly the operator messages taken up so far, one each, in order. |
| `AgentLoop.TurnsAdd` | internal/activity/agent.go:239-319 | In every run each turn adds, in order, a user message with the text of each operator message taken up, the model's answer with its calls, and for each call the text the tool gave or its error as JSON under the call's id; the request is the conversation before the answer. |
| `AgentLoop.FreshAre` | internal/activity/agent.go:355-380 | The messages taken up are the first rows of the ids not seen before, in the order of the rows. |
| `AgentLoop.FetchAdminMessages` | internal/activity/agent.go:355-380 | The unseen messages in order, each once, and the seen ids; a failed query gives none. |
| `AgentLoop.RunTools` | internal/activity/agent.go:283-319 | One result message for each call, errors included, and the outcome of the calls. |
| `AgentLoop.VerdictIsLastTerminal` | internal/activity/agent.go:311-318 | The outcome of a turn is that of its last terminal call. |
| `AgentLoop.NoVerdictIff` | internal/llm/tools.go:149-151 | There is none exactly when no call is terminal. |
| `AgentLoop.ResolvedMeansResolved` | internal/activity/agent.go:311-335 | "resolved" means a resolve call in the last turn with no terminal call after it, and no terminal call in any earlier turn. |
| `Placement.DaemonService.Create` | internal/core/daemon.go:21-56 | Of the shard's active nodes the one with the fewest daemons, the smaller id on ties; no shard, no node; a shard without active nodes is an error. |
| `Placement.SpreadStaysBounded` | internal/core/daemon.go:29-39 | As long as a shard's nodes take daemons for that shard only, whatever is created, its spread never exceeds its first spread, or 1. |
| `Placement.SharedNodeUnbounded` | internal/core/daemon.go:29-39 | With a node that serves two shards any number of creations in the one makes the other's spread as large. |
| `Placement.DedicatedNodesAreOwn` | internal/core/daemon.go:29-39 | Nodes that serve no other shard take daemons for their shard only. |
| `Placement.LevelAfterDeficit` | internal/core/daemon.go:29-39 | For such runs, after exactly as many creations as were missing to the fullest node all nodes are level. |
| `Placement.SpreadAtMostOneAfterDeficit` | internal/core/daemon.go:29-39 | From then on the spread is at most 1. |
| `Paging.ApiGet` | ansible/inventory/hosting.py:46-76 | With the table changing between pages the loop ends; its result is increasing, so nothing comes twice, has every row that was there throughout, only rows that were there at some request, and is empty after a network error. |
| `Paging.ApiGetStatic` | ansible/inventory/hosting.py:46-76 | On a table that does not change the result is the whole table in order. |
| `Paging.List` | internal/core/region.go:41-79 | One page by id behind the cursor: the first rows in order, as many as asked for or all there are; more exactly when a row is left over, and then the last row of the page is the next cursor. |
| `Paging.RoundCollects` | internal/core/region.go:41-79 | One more page keeps the collected list increasing and without a gap up to the new cursor. |

## Left out

- Temporal workflows, HTTP handlers, middleware and process execution, apart from the record workflows and route lists cited above.
- Automatic deletion of records (`AutoDeleteDNSRecords`, `AutoDeleteEmailDNSRecords`): each clears whole record sets and would only add easy members.
- `CreateServiceHostnameRecords`: it passes an empty source id, which the foreign key of zone_records refuses; the other activities are given source and zone ids that exist.
- `UpdateDNSRecord` and the update workflow.
- Two first uses of a tenant's data key at once: the loser returns its own key; the envelope statements are serial.
- A master key that is not well-formed hexadecimal; the readers differ in how they treat it.
- Starting the provisioning workflow at the end of the services' operations, and its errors.
- Text order is by code point; the database's collation may differ.
- Errors of database queries other than the ones named.
- Daemon loads that change by other means than creation.
- `GetForNode` and the loaders of the other shard roles: plain queries.
- `ImportDatabase`: its command is quoted by the same function.
- The `.envrc` file, the PHP link, file ownership and modes.
- How HAProxy reads run-time commands whose key or backend is empty or has white space, and two first sets of one key whose "add map" commands both follow a "not found".
- The kernel's refusal of a next hop that is the machine's own address, and addresses of tenants that left the machine.
- A scanner line over 64 KiB, and lower-casing outside ASCII, in the configuration parser.
- Events written beside an incident or a run, resolution hints, and the texts of prompts.
- A failure report that dies between its two statements: the job then stays enabled past its threshold.
- CIDR text is judged by nft alone: which texts it takes and what they match are parameters.
- Bash's own names under `/dev` in redirections, and brackets, braces or tildes that turn out to expand to nothing: a path with one of them counts as not plain.
- A `LIKE` pattern that ends in a backslash: PostgreSQL refuses it, the model matches nothing.
- AES-GCM, key generation and FNV-1a internals.
