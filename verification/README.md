# Verified models of the SPID/CIE proxy

Dafny 4.11 models of the parts of the proxy whose correctness spans many steps, many requests or every input, with
proofs of what they promise. `dafny verify dfyconfig.toml` checks everything.

| area | files | main results |
|---|---|---|
| CIE session store and callback: workers that share one Redis store, one command at a time, while keys expire | `RedisStore`, `SessionProtocol`, `SessionSafety`, `SessionStorage` | a session is consumed, its code redeemed and the client called at most once each and in that order, in every interleaving; a completed document stays completed |
| SP metadata history: rows, override file, live document | `MetadataHistory`, `MetadataAgreement` | one row is exposed, and the override file and the served document agree with it, in exactly the runs that keep three requests out |
| Administrator login: password, TOTP, enrolment, rate limiter, idle expiry | `RateLimiter`, `AdminTotp`, `AdminLogin`, `AdminLimit`, `AdminHandlers`, `AdminIdle` | exactly when the bound on stored failures holds and when pruning never shows; accepted counters increase; a user needs both factors and has been active within the session age |
| Access log retention | `Retention` | counts plus log rows are conserved for every key over every run, and exactly when |
| Base64url integers and JWT payloads (section 5 of RFC 4648, section 2 of RFC 7518, Appendix C of RFC 7515, section 3 of RFC 7638) | `Base64Url` | byte and integer round trips through the padding that the reader restores; thumbprint inputs are injective |
| Backup and the single active certificate | `Backup`, `BackupRoundTrip` | one active certificate in every reachable state; export, restore, export gives the same bundle exactly when there is an active certificate or none at all |
| Dependency fixer | `PipVersions`, `Requirements`, `RequirementsReadBack`, `EditedPins`, `FixPlan`, `FixPlanPartition`, `PlanApplied` | the version order; the chosen fix is the least one; an edited file reads back; the plan is a partition; an applied group is pinned |
| Remote metadata cache | `RemoteMetadata` | every file's origin is what its marker says, over every history of caches and downloads |
| Accept-Language (sections 12.4.2 and 12.5.4 of RFC 9110) | `AcceptLanguage` | the result is the one ranking of the offered languages |

`Wrappers` and `PythonText` hold what several areas use. Where the program changes rows, files, keys or session
fields, a class does so step by step and each of its methods is proved to leave exactly the state that a function on
values gives; the lemmas are about those functions and about runs of them. Hashes, one-time-password values, the
calendar, clock texts, downloads, PyPI and OSV answers and the weights of a header are function or value parameters,
with nothing assumed of them but what a lemma states. Times are integers on one clock.

Some promises turn out to hold only under a condition. Then the condition is proved exact: see `AgreesThroughoutIff` and
`ServesThroughoutIff`, `LoginBoundIff` and `PruningNeverShowsIff`, `Conservation`, `ExportRestoreExportIff` and
`EditReadsBackIff`. For the metadata, three requests break a promise: exposing a row before there is a generated one,
deleting the newest generated row when that leaves none or brings back the pinned one, and exposing the newest generated
row while the live document is another one, which a deletion before can bring about. `ExposeTooEarly`,
`DeleteNewestBreaks` and `ExposeStaleBreaks` are runs with each of them.

## Model

| member | source | states |
|---|---|---|
| SessionStorage.RedisStorage.AddSession | satosa/plugins/redis_storage.py:62-66 | stores document and state under the default expiry, as the undisturbed inserting worker does, and touches no other key |
| SessionStorage.RedisStorage.UpdateSession | satosa/plugins/redis_storage.py:68-73 | a live document keeps its expiry, a dead one is written again with the default one; nothing else changes |
| SessionStorage.RedisStorage.ConsumeSession | satosa/plugins/redis_storage.py:75-100 | leaves the store and gives the result of the worker's consume steps run without interference; a returned document is completed |
| SessionStorage.RedisStorage.GetSessions | satosa/plugins/redis_storage.py:102-110 | the document the state leads to now, if state and document are live |
| SessionStorage.CallbackHandler.Endpoint | satosa/plugins/cieoidc-endpoints/authorization_callback_endpoint.py:114-274 | the whole callback does exactly the steps, writes and outside calls of its worker |
| SessionStorage.CallbackHandler.Exchange | satosa/plugins/cieoidc-endpoints/authorization_callback_endpoint.py:156-224 | checks, redemption and token update after a consume equal the worker's remaining run |
| SessionStorage.CallbackHandler.Conclude | satosa/plugins/cieoidc-endpoints/authorization_callback_endpoint.py:226-274 | user info, last update and client callback equal the worker's remaining run |
| SessionProtocol.ConsumeAloneIff | satosa/plugins/redis_storage.py:75-100 | an undisturbed consume returns a session if and only if the store offers one; it then leaves marker and completed document with the old expiry and nothing else changed |
| SessionProtocol.InsertedIsOffered | satosa/plugins/redis_storage.py:62-66 | an inserted session is offered exactly until its expiry has passed |
| SessionProtocol.CheckProviderIff | satosa/plugins/cieoidc-endpoints/authorization_callback_endpoint.py:498-523 | provider and issuer match if and only if they are equal up to one trailing slash |
| SessionProtocol.GoodCallbackCompletes | satosa/plugins/cieoidc-endpoints/authorization_callback_endpoint.py:143-274 | an undisturbed good callback consumes, redeems its own code and calls the client, once each in this order, and stores all it learned under the old expiry |
| SessionProtocol.ConsumeThenRun | satosa/plugins/cieoidc-endpoints/authorization_callback_endpoint.py:147-154 | a callback is its consume followed by what comes after, with the consume's event first |
| SessionSafety.RunKeeps | satosa/plugins/redis_storage.py:75-100 | the invariant of the protocol holds after every run of any number of workers, ticks and insertions |
| SessionSafety.TtlReachesDue | satosa/plugins/redis_storage.py:87-89 | an expiry computed from a TTL just read never falls short of the original document's expiry |
| SessionSafety.SingleUse | satosa/plugins/cieoidc-endpoints/authorization_callback_endpoint.py:143-185 | in every run no two log entries are the same use of the same state: at most one consume, one redemption, one client callback |
| SessionSafety.UsesInOrder | satosa/plugins/cieoidc-endpoints/authorization_callback_endpoint.py:143-274 | in every run a redemption is preceded by the same worker's consume of that state, and a client callback by its redemption |
| SessionSafety.CompletedForGood | satosa/plugins/cieoidc-endpoints/authorization_callback_endpoint.py:387-400 | once the stored document of an id is completed, it is completed in every later state of the run, also when written again after expiry |
| MetadataHistory.MetadataStore.LogSnapshot | config-api/app/routes/internal.py:58-103 | the whole new state of a snapshot: nothing for the newest hash, else a new row that takes the exposed flag over |
| MetadataHistory.MetadataStore.MetadataExpose | config-api/app/routes/metadata.py:49-145 | the whole new state of an exposure: flags, override file and restored toggles |
| MetadataHistory.MetadataStore.Realigned | config-api/app/routes/metadata.py:111-130 | the recorded toggles are put back and the unrecorded ones kept |
| MetadataHistory.MetadataStore.MetadataValidate | config-api/app/routes/metadata.py:148-162 | only the named row is validated; nothing else changes |
| MetadataHistory.MetadataStore.MetadataUpload | config-api/app/routes/metadata.py:165-200 | stores a well-formed document once per content, unexposed |
| MetadataHistory.MetadataStore.MetadataDelete | config-api/app/routes/metadata.py:220-237 | deletes exactly when the row exists and is neither exposed nor validated |
| MetadataHistory.MetadataStore.MetadataEndpoint | satosa/plugins/spidsaml2.py:354-372 | serves the override file if there is one, else the live document |
| MetadataHistory.MetadataStore.ReloadSatosa | satosa/plugins/spidsaml2.py:979-986 | a reload has a new live document under the hash it reports, and its snapshot |
| MetadataAgreement.OrdersAgree | config-api/app/routes/metadata.py:61-67 | with ids and creation times growing together, the order of the expose route picks the same row as that of the snapshot route |
| MetadataAgreement.SnapshotKeeps | config-api/app/routes/internal.py:61-100 | every snapshot keeps the agreement, and afterwards the newest generated row has the reported hash |
| MetadataAgreement.ExposeKeepsIff | config-api/app/routes/metadata.py:61-87 | exposing keeps the agreement if and only if the row is unknown or there is a generated row |
| MetadataAgreement.ValidateKeeps | config-api/app/routes/metadata.py:158-161 | validating keeps the agreement |
| MetadataAgreement.UploadKeeps | config-api/app/routes/metadata.py:185-199 | an upload keeps the agreement and the newest generated row |
| MetadataAgreement.DeleteKeepsIff | config-api/app/routes/metadata.py:230-236 | deleting keeps the agreement if and only if it does not take the newest generated row and leave none, or bring back the pinned one |
| MetadataAgreement.DeleteServesIff | config-api/app/routes/metadata.py:230-236 | after a deletion the exposed row is still served if and only if the deletion kept the agreement |
| MetadataAgreement.ExposeServesIff | config-api/app/routes/metadata.py:61-87 | exposing keeps the exposed row served if and only if it is not the newest generated one, or the live document carries that one's hash |
| MetadataAgreement.OneRowExposed | config-api/app/routes/internal.py:61-100 | over every run whose requests keep the agreement one by one, exactly one row is exposed from the first snapshot on, and the override file is absent exactly when that row is the newest generated one, else holds its XML |
| MetadataAgreement.AgreesThroughoutIff | config-api/app/routes/internal.py:61-100 | the agreement holds after every request of a run if and only if the run is such a run |
| MetadataAgreement.ServedIsExposed | satosa/plugins/spidsaml2.py:354-372 | over every run whose requests keep the service one by one, the served document carries the content hash of the exposed row, also when contents repeat |
| MetadataAgreement.ServesThroughoutIff | satosa/plugins/spidsaml2.py:354-372 | flags and override file agree and the exposed row is served after every request of a run if and only if the run is such a run: no request breaks the agreement, and none exposes the newest generated row while the live document carries another hash |
| MetadataAgreement.ExposeStaleBreaks | config-api/app/routes/metadata.py:61-87 | from the empty site: three reloads, expose row 1, delete row 3, expose row 2; the agreement holds throughout, but the document of row 3 is served while row 2 is the exposed one |
| MetadataAgreement.OnlyDeleteLoses | config-api/app/routes/metadata.py:220-237 | a row is lost only by a delete of that row while it is neither exposed nor validated |
| MetadataAgreement.ExposeTooEarly | config-api/app/routes/internal.py:88-100 | upload, expose, first snapshot: two rows are exposed at once |
| MetadataAgreement.FirstSnapshotAddsExposed | config-api/app/routes/internal.py:88-100 | in general the first snapshot adds its row to whatever was exposed before |
| MetadataAgreement.DeleteNewestBreaks | config-api/app/routes/metadata.py:230-236 | from the empty site: reload, reload, expose row 1, which agrees; delete row 2, which leaves the pin on the newest row and does not; reload, and the endpoint serves row 1 while row 3 is the exposed one |
| RateLimiter.Limiter.IsIpBanned | config-api/app/rate_limiter.py:13-45 | verdict and minutes as defined on the stored attempts; banned exactly when at least one minute is reported |
| RateLimiter.Limiter.RecordFailedAttempt | config-api/app/rate_limiter.py:48-58 | exactly the old attempts and the new one that are at most a day old are left, in their order; for every span within that day an address counts as before, the new failure added |
| RateLimiter.Limiter.ClearAttempts | config-api/app/rate_limiter.py:61-65 | the address has no attempt left in any span, and every other address has its attempts as before |
| RateLimiter.WindowBoundIff | config-api/app/rate_limiter.py:13-58 | in all serial runs whose stamps lie at most `lag` before their checks no closed span of one window holds more than the allowed stored failures of an address, if and only if the window is negative, or the ban is longer than the window or than a day and, besides, there is no lag or the window is at least a day |
| RateLimiter.RunKeepsLimit | config-api/app/rate_limiter.py:13-58 | the bound, for every serial run, when the ban is long enough and no stamp lies before its check or the window is at least a day |
| RateLimiter.ShortBanBreaks | config-api/app/rate_limiter.py:13-58 | with a shorter ban, the run that stores one failure too many |
| AdminLimit.LoginBoundIff | config-api/app/routes/login_2fa.py:107-170 | in all runs of visits whose code forms are stamped at most `lag` before their checks the bound on stored failures holds, if and only if the window is negative, or the ban is longer than the window or than a day and, besides, the window is at least a day, there is no lag, or no code can come with an earlier cookie (second factor off, no user, or cookies of no age) |
| AdminLimit.EarlyCodeBreaks | config-api/app/models/login_attempt.py:13-15 | otherwise: wrong passwords from one address, the right password from another when their window ends, and just after it a wrong code from the first, stamped with the window's end, store one failure too many |
| AdminLimit.ShortBanLogin | config-api/app/main.py:277-321 | with a short ban, the run of wrong passwords that stores one failure too many |
| RateLimiter.PruningNeverShowsIff | config-api/app/rate_limiter.py:53-58 | the pruned table gives the verdict and minutes of the full history after every serial run, for every address and later time, if and only if the window is at most a day, or the ban is not positive, or one attempt bans for at most a day and one unit of time |
| RateLimiter.LongWindowShows | config-api/app/rate_limiter.py:53-58 | for all other limits, a run in which pruning lifts a ban, also where one attempt bans |
| RateLimiter.BannedInRunIff | config-api/app/rate_limiter.py:18-45 | after every serial run an address is banned exactly while its MAX-th latest attempt is within the window and its latest one within the ban |
| RateLimiter.EndedStaysEndedInRun | config-api/app/rate_limiter.py:18-45 | after every serial run, without a new failure a ban that has ended stays ended, and the minutes never grow |
| RateLimiter.RunInOrder | config-api/app/rate_limiter.py:48-58 | in every serial run attempts are stored in clock order |
| AdminTotp.MatchingCounter | config-api/app/admin_2fa.py:99-105 | the lowest of the three counters around now with this code; none exactly when none of the three has it |
| AdminTotp.TotpStore.GetOrCreatePending | config-api/app/admin_2fa.py:74-96 | raises exactly for a confirmed row; otherwise the row holds a secret that opens, the old one if it still does |
| AdminTotp.TotpStore.VerifyCode | config-api/app/admin_2fa.py:108-122 | the verdict, and the row stamped by an accepted code only |
| AdminTotp.TotpStore.ResetTotp | config-api/app/admin_2fa.py:125-129 | no row is left; says whether there was one |
| AdminTotp.JudgeAcceptsIff | config-api/app/admin_2fa.py:108-122 | a code is accepted exactly when it is six digits, the secret opens, and it is the code of the lowest matching counter around now, above the last one used |
| AdminTotp.CountersIncrease | config-api/app/admin_2fa.py:115-118 | between two resets the accepted counters strictly increase, over any mix of codes, enrolments and restarts |
| AdminTotp.UsesBounded | config-api/app/admin_2fa.py:99-122 | of the codes accepted from t0 to t1 there are at most floor(t1/30) - floor(t0/30) + 3 |
| AdminHandlers.AdminConsole.LoginPost | config-api/app/main.py:277-321 | the reply, session and database of the password form |
| AdminHandlers.AdminConsole.CompleteLogin | config-api/app/routes/login_2fa.py:51-55 | the session holds just the user and the time |
| AdminHandlers.AdminConsole.TwofaSubmit | config-api/app/routes/login_2fa.py:107-127 | the reply, session and database of the code form |
| AdminHandlers.AdminConsole.SetupPage | config-api/app/routes/login_2fa.py:133-148 | the session and database of the enrolment page |
| AdminHandlers.AdminConsole.SetupSubmit | config-api/app/routes/login_2fa.py:151-170 | the reply, session and database of the enrolment form, whose secret always opens |
| AdminHandlers.AdminConsole.DoLogout | config-api/app/main.py:325-328 | the session is empty |
| AdminHandlers.AdminConsole.SessionExpiry | config-api/app/main.py:194-211 | the middleware clears an idle session and stamps any other |
| AdminIdle.ServedWithinIdleTime | config-api/app/main.py:194-211 | in every run, with cookies presented again in any order, an admin page is served to a user only if an earlier login or admin page in its own line of cookies stamped the session at most the session age before, or stamped it with zero, which counts as no stamp |
| AdminLogin.UserNeedsBothFactors | config-api/app/routes/login_2fa.py:41-55 | with 2FA on, every cookie that holds a user holds the configured one, and in its own line of cookies the configured user and password were submitted and, at most 300 seconds later, a code that passed against the row stored at that visit, both while the address was not banned |
| AdminLogin.BannedIsBlind | config-api/app/main.py:285-294 | two runs that differ only in the usernames, passwords and codes of visits made while their address is banned end in the same server state, cookies and replies included, and those visits store or clear no attempt |
| AdminLimit.LoginWithinLimit | config-api/app/routes/login_2fa.py:76-82 | the bound, over every run mixing password, code and setup submissions, under these conditions |
| AdminLogin.LoginCountersIncrease | config-api/app/routes/login_2fa.py:107-127 | from a reset on, the counters of the codes that log in strictly increase over every run of visits |
| AdminLogin.LoginCodesBounded | config-api/app/routes/login_2fa.py:107-127 | the bound on accepted codes between two times, over every run of visits |
| AdminLogin.SecretKeptInRun | config-api/app/admin_2fa.py:74-96 | over every run without a reset a confirmed secret stays, whatever the server's keys, and one that opens stays while the key does |
| Retention.RetentionJob.SelectGroups | config-api/app/metadata_watcher.py:91-111 | one group per key of the rows before the cutoff, with its count |
| Retention.RetentionJob.RunRetention | config-api/app/metadata_watcher.py:75-137 | the whole new state of the job with rows landing between its SELECT and its DELETE, committed or not |
| Retention.UpsertSum | config-api/app/metadata_watcher.py:115-126 | an upsert adds its count to its key and to no other, also for keys with NULL parts where the constraint does not fire |
| Retention.UpsertKeepsUnique | config-api/app/models/access_stats_monthly.py:9-14 | upserts keep keys without NULL parts unique |
| Retention.GroupBySum | config-api/app/metadata_watcher.py:91-111 | grouped counts and row counts are the same for every key |
| Retention.RetainBalance | config-api/app/metadata_watcher.py:85-129 | what one job does to the total of a key, to the row: it loses exactly the old rows that landed before a committed delete |
| Retention.ConservedIff | config-api/app/metadata_watcher.py:85-129 | one job conserves every key's total if and only if it deletes nothing or no landing row is older than the cutoff |
| Retention.RunBalance | config-api/app/metadata_watcher.py:75-137 | over every run of jobs and inserts, every key's counts plus log rows equal what was there plus what was logged, less the old rows that landed before a committed delete |
| Retention.Conservation | config-api/app/metadata_watcher.py:75-137 | over a run every key's total is conserved if and only if no job of it deleted a row that had landed after it counted |
| Base64Url.BytesRoundTrip | config-api/app/trust_mark_fetcher.py:13-18 | every byte string comes back from its unpadded form through the restored padding |
| Base64Url.JwtRoundTrip | config-api/app/satosa_config_generator.py:42-50 | the payload of every token comes back, whatever header and signature |
| Base64Url.DecodesIff | config-api/app/trust_mark_fetcher.py:17-18 | an unpadded text of base64url digits decodes if and only if its length is not one above a multiple of four |
| Base64Url.IntBytesFit | config-api/app/jwk_generator.py:15-17 | the byte form of an integer reads back big-endian, and that of a positive one has no leading zero byte |
| Base64Url.IntRoundTrip | config-api/app/jwk_generator.py:11-17 | every integer comes back from its unpadded form, and without a leading zero byte |
| Base64Url.ThumbprintInjective | config-api/app/jwk_generator.py:20-24 | equal thumbprint inputs come from equal exponent and modulus |
| Backup.RowToDict | config-api/app/routes/backup.py:45-58 | every column of the row, with times as texts |
| Backup.CleanRow | config-api/app/routes/backup.py:162-178 | known columns only, with time texts read back |
| Backup.ConfigStore.CertsGenerate | config-api/app/routes/certs.py:112-143 | the new certificate is active and all others are not |
| Backup.ConfigStore.CertsActivate | config-api/app/routes/certs.py:71-91 | exactly the named certificate is active, if it exists |
| Backup.ConfigStore.CertsDelete | config-api/app/routes/certs.py:94-109 | deletes exactly an existing certificate that is not active |
| Backup.ConfigStore.RestoreBundle | config-api/app/routes/backup.py:111-159 | all tables are replaced, or none if any row or number is refused; a certificate without a number gets the next one |
| BackupRoundTrip.OneActiveAlways | config-api/app/routes/certs.py:80-83 | every state reached from an empty certificate table by generation, activation, deletion and restores has exactly one active certificate, or no certificate |
| BackupRoundTrip.RowRoundTrip | config-api/app/routes/backup.py:45-58 | a row of its schema comes back from its dictionary |
| BackupRoundTrip.ExportRestoreExportIff | config-api/app/routes/backup.py:61-104 | a bundle of good tables is always accepted, and the next export is the same but for its time if and only if there was no certificate or an active one |
| BackupRoundTrip.GoodAlways | config-api/app/routes/backup.py:111-178 | good tables stay good over every run |
| BackupRoundTrip.ReachableRoundTrip | config-api/app/routes/backup.py:61-159 | from every reachable state export, restore, export gives the same bundle but for its time |
| PipVersions.VersionsArePreordered | scripts/security/pip_fix.py:67-80 | the order of `version_key` is a total preorder on all texts |
| PipVersions.DottedReadsBack | scripts/security/pip_fix.py:69-73 | the numbers and the suffix of every written version are read back |
| PipVersions.WrittenOrder | scripts/security/pip_fix.py:67-80 | written versions are ordered by their zero-padded numbers; with equal numbers pre-release before release before post-release |
| PipVersions.ChoiceIff | scripts/security/pip_fix.py:148-173 | a version is chosen if and only if it is the least fix above the current one, released, old enough or forced, and attested only by repositories that attested the current one; the choice waits if and only if that fix is too young and not forced |
| PipVersions.ForceOnlySkipsAge | scripts/security/pip_fix.py:159-162 | force changes only a pending result, and into what waiting gives |
| Requirements.ParseLock | scripts/security/pip_fix.py:83-89 | the pins line by line, later ones overriding |
| Requirements.EditInfile | scripts/security/pip_fix.py:176-193 | the first line that requires the package is replaced, else three lines are appended |
| RequirementsReadBack.LinesOfConcat | scripts/security/pip_fix.py:180-188 | lines put together and split again are the same lines |
| RequirementsReadBack.PinReadsBack | scripts/security/pip_fix.py:83-89 | a written pin, with extras and comment, reads back as that pin and as a requirement of the package |
| RequirementsReadBack.RequirementAndPin | scripts/security/pip_fix.py:86-88 | a line that requires a package pins no other, and a line that pins it requires it |
| EditedPins.EditReadsBackIff | scripts/security/pip_fix.py:176-193 | after an edit every other pin is as before, and the package is pinned to the new version if and only if no line below pins it to another |
| EditedPins.EditPins | scripts/security/pip_fix.py:176-193 | with at most one line that requires the package, the pins are the old ones with the new version |
| EditedPins.EditAgainKeepsPins | scripts/security/pip_fix.py:176-193 | applying an edit again keeps all pins |
| EditedPins.LaterPinWins | scripts/security/pip_fix.py:181-188 | a package pinned on two lines keeps the second pin whatever the edit |
| FixPlan.FindSeverity | scripts/security/pip_fix.py:104-115 | the loop computes the severity that `SeverityIsHighest` describes |
| FixPlan.SeverityIsHighest | scripts/security/pip_fix.py:104-115 | the highest known severity of the identifiers, and UNKNOWN exactly when none is known |
| FixPlan.CollectFindings | scripts/security/pip_fix.py:219-232 | the dictionary of entries after the two loops, in order of first insertion |
| FixPlan.GroupItems | scripts/security/pip_fix.py:233-246 | each entry's item goes to the group of its verdict |
| FixPlan.BuildPlan | scripts/security/pip_fix.py:216-249 | the plan is the arranged verdicts of the collected entries |
| FixPlanPartition.CollectHas | scripts/security/pip_fix.py:221-232 | an entry is made of exactly the findings of its file and package |
| FixPlanPartition.FoundIff | scripts/security/pip_fix.py:221-226 | a file and package has an entry exactly when one of its findings is outside the parent lock |
| FixPlanPartition.PlanHas | scripts/security/pip_fix.py:233-246 | an item is in a group if and only if the verdict on its own findings says so |
| FixPlanPartition.PlanAscends | scripts/security/pip_fix.py:247-248 | each group is in strictly increasing order of file and package |
| FixPlanPartition.ExactlyOnce | scripts/security/pip_fix.py:216-249 | a file and package with a finding outside the parent lock and high, critical or unknown severity is at exactly one place of one group; any other is at none |
| FixPlanPartition.ReadyItems | scripts/security/pip_fix.py:237-246 | an item to merge carries the least of all proposed fixes above the first finding's version, by hand exactly when its package is on the list; the others carry none |
| PlanApplied.Checkout.CmdApply | scripts/security/pip_fix.py:268-275 | the files after all items of a group have been applied in order |
| PlanApplied.EditKeepsOnce | scripts/security/pip_fix.py:176-193 | an edit leaves every package on at most one line that was on at most one before |
| PlanApplied.GroupApplied | scripts/security/pip_fix.py:268-275 | after a whole group of the plan is applied to a file that names each of its packages at most once, every item is pinned to its version there, and every other pin is as before |
| RemoteMetadata.MetadataDirectory.EnsureRemoteMetadata | config-api/app/satosa_config_generator.py:206-250 | the files after one loop over the IdPs |
| RemoteMetadata.MarkerTells | config-api/app/satosa_config_generator.py:206-250 | from an empty directory, after any history: a file exists exactly for the IdPs visited; a marker exactly when some visit could supply the file; its URL is that of the visit the content was taken from, with no later one that had to replace it; an unmarked file is the placeholder |
| RemoteMetadata.EveryIdpHasFile | config-api/app/satosa_config_generator.py:246-250 | every IdP has a file after a run |
| RemoteMetadata.LastCacheIsFile | config-api/app/satosa_config_generator.py:227-234 | the last visit to a file with a usable cache decides its content and its marker |
| RemoteMetadata.EachFileIsItsOwn | config-api/app/satosa_config_generator.py:206-250 | in a run over IdPs with different files, each file and marker are as its own IdP's visit alone would have left them |
| RemoteMetadata.CachesAreFiles | config-api/app/satosa_config_generator.py:227-234 | in such a run, with any mix of usable caches and downloads, every usable cache is exactly its IdP's file and its URL the marker |
| RemoteMetadata.ManagedFilesApart | config-api/app/satosa_config_generator.py:1006-1009 | the four managed aliases, each visited once, give such a run |
| RemoteMetadata.FailedIsTriedAgain | config-api/app/satosa_config_generator.py:236-250 | at the next visit without a usable cache a URL is asked exactly when it was asked before and failed |
| AcceptLanguage.ParseAcceptLanguage | satosa/plugins/i18n.py:36-57 | the loops compute the ranking; nothing for a missing header |
| AcceptLanguage.SplitJoins | satosa/plugins/i18n.py:41 | the elements of a header are its pieces between commas |
| AcceptLanguage.PreferredIsRanked | satosa/plugins/i18n.py:36-57 | the result is exactly the supported languages with a positive weight, each once, by decreasing best weight and then by the earliest position reaching it |
| AcceptLanguage.RankedIsUnique | satosa/plugins/i18n.py:36-57 | no other list is such a ranking |
| AcceptLanguage.ResolvedLanguage | satosa/plugins/i18n.py:88-98 | the page language is always supported: the cookie's, else the saved one, else the first supported one of ui_locales, else that of the header's heaviest, earliest element, else, without a header or when it offers none, Italian |

## Left out

- SessionSafety.SingleUse: takes each state and each session id as inserted once, because the authorization endpoint draws both at random; a repeated draw is not modelled.
- Class OidcAuthentication is not part of this repository: a session document has the fields that decide single use and what the callback adds; id token, scope, token type and lifetime are left out, and validation of a document is a yes or no given with the step.
- Redis TTL counts whole ticks: sub-second rounding, eviction and loss of the connection are not modelled.
- SessionStorage.RedisStorage.ConsumeSession: states one call without interference; interleaved calls are the subject of the worker machine in `SessionProtocol`.
- HTTP clients, signatures, key sets, SAML and JSON parsing, Fernet, HMAC and digests: results of these are parameters, and JSON texts stand for the values they encode.
- MetadataAgreement.ServesThroughoutIff: takes every reload as reporting its snapshot, one request at a time; concurrent snapshots, a failure between the two commits, lost reports and failing file operations are not modelled.
- The certificate warning and the reload that follow an exposure: display, or a further request.
- AdminLogin.UserNeedsBothFactors: one clock for all visits, and visits one after the other; two requests in flight at once are not modelled.
- AdminLimit.LoginBoundIff: asks for at least one allowed attempt; a visit makes its checks at one time, and the stamp of its failure lies between the end of the previous visit and the end of its own.
- AdminTotp.MatchingCounter: digits outside ASCII in a code are not modelled; the session cookie's age is exact, without rounding to seconds.
- Retention.RetentionJob.RunRetention: the rows that land in between are given; isolation levels other than one consistent SELECT and one consistent DELETE are not modelled.
- Backup.ConfigStore.RestoreBundle: numbers of new certificates come from a sequence; a refused restore is taken to use up no number; bundle rows of other tables without a number and column types beyond text, number, flag, time, list and null are not modelled.
- BackupRoundTrip.ReachableRoundTrip: asks what the database guarantees, that rows fit their columns and numbers are distinct, also of generated and restored rows, and that a time's text reads back as that time.
- Requirements.ParseLock: lines end at a newline only; the other line boundaries of Python and digits and names outside ASCII are not modelled.
- EditedPins.EditReadsBackIff: asks for a valid package name, a version without blank, semicolon or backslash, and advisories on one line, as package indexes give them.
- PipVersions.ChoiceIff: the reason text of a choice is display and left out.
- FixPlan.BuildPlan: the two sets of an entry are kept as sorted lists; running pip-audit and writing and reading the plan file are left out.
- PlanApplied.Checkout.CmdApply: asks that every item has a version, as those of the two groups do, and that the input files exist, which the checkout guarantees.
- RemoteMetadata.MetadataDirectory.Write: a file write is one step, without the temporary file and its rename; a marker is read back as it was written.
- AcceptLanguage.PreferredIsRanked: the reading of a weight is a parameter, with not-a-number as unreadable and infinity as a value above all finite ones; cookie and query parsing are parameters too.
- Templates, redirects, QR codes, dashboards, CSV export, version files, migration scripts and the long configuration dictionaries: display or plumbing.
- Flag toggles of IdPs, eIDAS, legal entity and clients, CIE key references and registry synchronisation: they would add only easy members.
