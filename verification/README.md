# Verified model of the all-Mail business API core

This project models, in Dafny, the protocols and codecs inside the Go business API of all-Mail and proves
what they guarantee. It covers

- the line format in which mail accounts are exported and imported, with its base64url configuration document,
  token table, separators and configuration merging (`Text`, `Decimal`, `Utf8`, `Base64Url`, `ProviderConfig`,
  `ImportTokens`, `ImportForms`, `Accounts`, `AccountCodec`, `AccountRoundTrip`, `TokenLines`, `AddressForms`,
  `AccountFiles`, `AccountReimport`);
- the Redis protocols on keys that expire: the login lock, the per-minute request limiter, the replay reservation of
  signed deliveries and the one-shot OAuth state (`Redis`, `Windows`, `LoginProtection`, `LoginOverlap`, `LoginIsolation`,
  `RateLimit`, `Ingress`, `IngressStore`, `OAuthState`);
- the wire protocol of the hand-written Redis client (`Resp`);
- the mailbox allocators, with assignment, reset and statistics (`Allocation`, `PoolStats`, `AccountPool`, `DomainPool`);
- mailbox sync state, backend routing by message id, Gmail paging and body selection (`SyncState`,
  `ProviderRouting`, `Gmail`);
- one-time codes and their secrets, text truncation and batch name generation (`Totp`, `Base32`, `Truncation`, `BatchNames`).

Code that changes state is modelled by classes and methods with loops, each tied by its `ensures` to a function of
the old state; guarantees about runs are lemmas about those functions. Concurrent protocols are state machines whose
steps are single Redis commands, transactions or statements, and their lemmas quantify over all interleavings of
those steps. The login lock is treated three ways: failing logins of one key one after the other (`LoginProtection`), and
overlapping ones, of which at most c are in flight (`LoginOverlap`); `LoginIsolation` is about runs of failing and
succeeding logins of many keys. Runs of the limiter are all orders in which the
counters' increments reach Redis.

## Where the code differs from what one would expect

Each of these is proved as a lemma with a concrete input or an exact condition.

- The clock check of signed deliveries also accepts timestamps so far in the future that the 64-bit duration
  saturates: its negation overflows and stays negative (`Ingress.SkewExactly`, `Ingress.FarFutureTimestampPasses`).
  For timestamps in range the reservation outlives every later check of the same request; beyond, the stored row is
  what prevents a second message.
- Merging a configuration depends on Go's random map order exactly when two spellings of one folder name ask for
  different folders (`ProviderConfig.MergeOrderMatters`).
- The domain allocator locks the joined domain row too, so a mailbox is free exactly when no allocation in flight has
  chosen from its domain or left a lock on it (`Allocation.FreeDomainMailbox`). Where none are left over, "no
  unused mailbox" is answered although one is unused and unlocked exactly when all unused ones are in domains of allocations in flight and not all of them
  are the ones chosen there (`Allocation.FalseRefusal`); one allocation makes a pool of one domain, however large, look
  empty to every other key (`Allocation.SecondKeyIsRefused`).
- The mailbox status of an account is read and written back by two statements with no lock between. Mailboxes depend on
  their own syncs and clears only, whatever these are, exactly when no operation on the account writes between another
  one's read and write (`SyncState.IndependentExactlyUninterrupted`, `SyncState.LostUpdate`).
- The login lock bounds overlapping attempts less well than attempts one after the other: with c in flight and a
  threshold m above one the best bound on a window is (c + 1)(m - 1) + c - 1 failures, and the bound 2m - 2 holds exactly when none overlap
  (`LoginOverlap.OverlappingFailuresPerWindow`, `LoginOverlap.OverlapLimitIsReached`,
  `LoginOverlap.SequentialLimitNeedsOneAtATime`).
- Two pairs of user name and address may share one login key: for names and addresses in lower case and without white
  space some other pair does exactly when there is a colon in the name, or in the address before its last character
  (`LoginIsolation.SharedExactly`).
- Lines that begin with an address and carry OAuth columns are accepted for every provider, but stored only for Outlook
  (or an unknown provider) and Gmail (`AccountReimport.EmailFirstStored`).
- Resetting a key is the assignment of no accounts exactly when the key uses no inactive account
  (`AccountPool.ResetIsEmptyAssignment`).
- The limit of a minute holds exactly when no INCR comes later than the clock reading; for every limit and every delay
  the bound L(1 + ceil(delay / 60)) is the best one (`RateLimit.LimitHoldsExactlyWithoutDelay`,
  `RateLimit.BucketLimitIsReached`).
- Around 1970 a step of one-time codes is twice as long, since the division rounds towards zero: the outer bound of the
  acceptance window needs one more period for times on different sides of it (`Totp.OutsideWindow`,
  `Totp.OutsideBoundsAreTight`).

## Assumptions

- One monotone clock of whole seconds for Redis and the service; no two hosts disagree.
- A statement's snapshot and its row locks are one atomic step. Under a split snapshot an allocation could meet a usage
  row already there and return that mailbox again.
- An insert that refers to a mailbox row waits for an allocation that locks the row.
- A selection may leave locks on any free rows it passed over, and keeps them until its transaction ends.
- The message-insert transaction takes effect at its commit; a commit may be reported as failed although it happened.
- JSON codecs, encryption, e-mail validation and HMAC are parameters. Round trips assume the codec faithful on the one
  document written, and decryption inverse to encryption.
- Request ids are distinct where a lemma says so (`DistinctTokens`), and OAuth state values are issued once.

## Model

| member | source | states |
|---|---|---|
| Text.SplitJoin | core/internal/businessapi/mail_account_import_export.go:165-168 | splitting a joined line returns its columns if and only if no column, followed by the separator, holds the separator too early |
| Text.JoinSplit | core/internal/businessapi/mail_account_import_export.go:165-168 | joining the columns of any line again gives the line |
| Text.TrimSpaceFixes | core/internal/businessapi/mail_account_import_export.go:166-168 | trimming always yields trimmed text and changes exactly the untrimmed |
| Text.TrimPadded | core/internal/businessapi/mail_account_import_export.go:166-168 | trimming takes away exactly the white space around a text |
| Text.TrimBlank | core/internal/businessapi/mail_account_import_export.go:166-168 | and leaves nothing exactly of a blank text |
| Decimal.ParseItoa | core/internal/businessapi/mail_account_import_export.go:637-643 | parsing inverts decimal rendering on every 64-bit integer and fails on every other |
| Decimal.ValueDetermines | core/internal/businessapi/totp.go:98 | digit strings of one length are told apart by their values |
| Base64Url.DecodeEncode | core/internal/businessapi/mail_account_import_export.go:543-576 | base64url decoding inverts encoding for every byte string |
| Base64Url.AlignedHyphen | core/internal/businessapi/mail_account_import_export.go:543 | a hyphen at a place divisible by four comes from a byte 0xF8 to 0xFB |
| Base64Url.Utf8HasNoHyphenRun | core/internal/businessapi/mail_account_import_export.go:16 | base64url of valid UTF-8 never holds the default separator |
| Base64Url.ArbitraryBytesMayHoldHyphenRun | core/internal/businessapi/mail_account_import_export.go:16 | without UTF-8 it may be the separator itself |
| Utf8.EncodeDecodeAll | core/internal/businessapi/domain_message_text_handlers.go:137-149 | the valid byte strings are exactly the encodings of scalar values |
| ImportTokens.TokenRoundTrip | core/internal/businessapi/mail_account_import_export.go:313-335 | the token written for a valid profile is read back as that profile |
| ProviderConfig.MergeOrderMatters | core/internal/businessapi/mail_provider_types.go:307-314 | the merged folder table depends on the map order exactly when two spellings conflict |
| ProviderConfig.MergeProviderConfigInto | core/internal/businessapi/mail_provider_types.go:278-325 | the loop over an arbitrary map order yields one of the merge results; bad JSON and bad ports are errors |
| ProviderConfig.MergeFolders | core/internal/businessapi/mail_provider_types.go:311-313 | the folder loop visits each entry once in some order and folds it in |
| ProviderConfig.MergeSettled | core/internal/businessapi/mail_provider_types.go:278-325 | every successful merge keeps ports in 1 to 65535, folder keys lower-case and values trimmed |
| ProviderConfig.ReloadIsIdentity | core/internal/businessapi/mail_provider_types.go:274-325 | merging the marshalled result into the defaults has that configuration as its only result |
| ProviderConfig.MergedFields | core/internal/businessapi/mail_provider_types.go:278-325 | in every successful merge an absent field keeps the value of the base and a present one replaces it, trimmed for tenant and scopes |
| ProviderConfig.MergedFolders | core/internal/businessapi/mail_provider_types.go:307-315 | a folder key that no entry mentions keeps its base entry, a mentioned one takes a mentioning entry, trimmed |
| ProviderConfig.BadPortIsRefused | core/internal/businessapi/mail_provider_types.go:316-325 | a decoded document is refused exactly when the port it leaves, its own or that of the base, is out of range |
| ProviderConfig.UnmergedIs | core/internal/businessapi/mail_provider_types.go:278-288 | no document, null and {} change nothing; what does not decode is refused |
| ProviderConfig.MailboxFolderIs | core/internal/businessapi/mail_provider_types.go:327-343 | the folder in use is the one stored under the key of the mailbox, and the usual one when that is missing or blank |
| ProviderConfig.OverrideNamesFolder | core/internal/businessapi/mail_provider_types.go:307-343 | what an override gives for a mailbox, in any spelling of its key, is the folder in use afterwards |
| ProviderConfig.StoredConfigIsStable | core/internal/businessapi/mail_provider_types.go:274-353 | storing and reloading changes nothing after any run of updates |
| AccountCodec.FormatExportMailAccount | core/internal/businessapi/mail_account_import_export.go:506-566 | prints the columns of the OAuth, short or long form; fails exactly on a decryption or merge error |
| AccountCodec.SecretIs | core/internal/businessapi/mail_account_import_export.go:507-512 | a missing or blank secret is an empty column, any other one is decrypted |
| AccountCodec.SecretsAre | core/internal/businessapi/mail_account_import_export.go:513-528 | an export fails on secrets exactly when one that is there does not decrypt, and each goes to its own field |
| AccountCodec.AppendColumns | core/internal/businessapi/mail_account_import_export.go:529-565 | builds those columns by appending |
| AccountCodec.ParseImportedMailAccount | core/internal/businessapi/mail_account_import_export.go:164-179 | trims the columns in place and yields what the line means in the tokenized, address-first and legacy formats, with every error case |
| AccountCodec.ParseTokenizedImportedMailAccount | core/internal/businessapi/mail_account_import_export.go:181-239 | fills the result field by field for both kinds of accounts |
| AccountCodec.DecodeImportedOAuthProviderConfig | core/internal/businessapi/mail_account_import_export.go:568-582 | checks the prefix, decodes and merges the configuration column |
| AccountRoundTrip.ExportThenImport | core/internal/businessapi/mail_account_import_export.go:164-239 | importing an export gives the account back in the OAuth, short and long forms, with and without raw secrets |
| AccountRoundTrip.AppPasswordFieldsComeBack | core/internal/businessapi/mail_account_import_export.go:540-566 | an application-password account comes back with the hosts, ports, effective TLS flags and three folders of its merged configuration, in every form |
| AccountRoundTrip.ShortFormExactly | core/internal/businessapi/mail_account_import_export.go:600-615 | three or four columns are written exactly when all nine of these settings are those of the provider |
| AccountReimport.EveryStoredImportIsWell | core/internal/businessapi/mail_account_import_export.go:181-311 | every account that a line of any format yields and that passes the checks before storing is well-formed |
| AccountReimport.TokenizedPassesChecks | core/internal/businessapi/mail_account_store.go:493-536 | an accepted tokenized line yields a well-formed account and always passes the checks |
| AccountReimport.ChecksAre | core/internal/businessapi/mail_account_store.go:493-536 | which provider takes which kind of credentials, and what each kind must bring along |
| AccountReimport.SecretIsStored | core/internal/businessapi/mail_account_import_export.go:421-426 | a secret is stored exactly when it is not blank, and then opens to its trimmed text |
| AccountReimport.EmailFirstStored | core/internal/businessapi/mail_account_import_export.go:241-291 | which lines that begin with an address pass the checks |
| AccountReimport.CompletedIsWell | core/internal/businessapi/mail_account_store.go:438-458 | completing tenant and scopes from the stored OAuth client keeps the account well-formed |
| AccountReimport.CompletedFields | core/internal/businessapi/mail_account_store.go:438-458 | completion concerns only an account with the client that is stored, and only a missing tenant or missing scopes, each from its own setting |
| AccountReimport.ImportStoreExportImport | core/internal/businessapi/mail_account_import_export.go:394-469 | import, complete, check, store, export, import yields the account that was stored, for every format of the first line |
| TokenLines.LinesAre | core/internal/businessapi/mail_account_import_export.go:164-170 | a line without a separator is no account |
| TokenLines.TokensInAnySpelling | core/internal/businessapi/mail_account_import_export.go:313-335 | tokens are read in any case and with blanks around them |
| TokenLines.OAuthLineIs | core/internal/businessapi/mail_account_import_export.go:181-210 | what an OAuth line of five, six, seven or more columns means, column by column |
| TokenLines.ShortLineIs | core/internal/businessapi/mail_account_import_export.go:211-239 | what an application-password line of three to eleven columns means |
| TokenLines.LongLineIs | core/internal/businessapi/mail_account_import_export.go:211-239 | what one of twelve or more columns means |
| TokenLines.LongFormIs | core/internal/businessapi/mail_account_import_export.go:222-236 | each of the nine service columns is read into its own setting, with the usual value for what is missing or no port or flag |
| TokenLines.PortOfNumber | core/internal/businessapi/mail_account_import_export.go:637-643 | a decimal number, blanks around it or not, is the port exactly when it is in 1 to 65535 |
| TokenLines.FlagIs | core/internal/businessapi/mail_account_import_export.go:645-654 | a flag is one of twelve words; anything else leaves the usual value |
| TokenLines.RejectedOAuthLines | core/internal/businessapi/mail_account_import_export.go:181-210 | exactly which OAuth lines are rejected, and why |
| TokenLines.RejectedPasswordLines | core/internal/businessapi/mail_account_import_export.go:181-239 | exactly which application-password lines are rejected, and why |
| TokenLines.DocumentsAre | core/internal/businessapi/mail_account_import_export.go:568-582 | exactly why a configuration column is refused |
| AddressForms.AddressLineIs | core/internal/businessapi/mail_account_import_export.go:164-179 | a line that begins with an address is never taken for a tokenized one |
| AddressForms.OAuthLineReads | core/internal/businessapi/mail_account_import_export.go:241-291 | from four columns on, address, login password, client, refresh token and client secret each end up in their own field |
| AddressForms.RejectedAddressLines | core/internal/businessapi/mail_account_import_export.go:241-291 | exactly which lines that begin with an address are rejected, and why |
| AddressForms.ClientLineReads | core/internal/businessapi/mail_account_import_export.go:241-291 | the same for three columns that look like a client and a refresh token |
| AddressForms.PasswordLineReads | core/internal/businessapi/mail_account_import_export.go:241-291 | an address of a provider with application passwords, the password and perhaps a login password |
| AddressForms.TokensLook | core/internal/businessapi/mail_account_import_export.go:389-392 | what a refresh token looks like |
| AddressForms.GoogleClientsLook | core/internal/businessapi/mail_account_import_export.go:384-387 | Google client ids look like client ids |
| AddressForms.MicrosoftClientsLook | core/internal/businessapi/mail_account_import_export.go:384-387 | so does every GUID |
| AddressForms.DomainDecides | core/internal/businessapi/mail_account_import_export.go:337-375 | the domain after the first at sign decides the provider, in any case |
| AddressForms.DomainsOfSeveralNames | core/internal/businessapi/mail_account_import_export.go:337-375 | which domains are whose, and which providers take application passwords |
| AddressForms.DomainsOfOneName | core/internal/businessapi/mail_account_import_export.go:337-375 | the providers with one domain |
| AddressForms.MoreDomainsOfOneName | core/internal/businessapi/mail_account_import_export.go:337-375 | the other providers with one domain |
| AddressForms.LegacyColumns | core/internal/businessapi/mail_account_import_export.go:293-311 | which columns of the older formats are client, secret, refresh token and login password |
| AccountFiles.DefaultSeparatorSafe | core/internal/businessapi/mail_account_import_export.go:16 | a field is safe with the default separator exactly when it holds no separator and does not end in a hyphen |
| AccountFiles.DocumentColumnUncut | core/internal/businessapi/mail_account_import_export.go:543 | the configuration column can never be cut by the default separator |
| AccountFiles.DefaultSeparatorCondition | core/internal/businessapi/mail_account_import_export.go:506-566 | an exported line splits into its columns exactly when the account's own fields avoid the separator |
| AccountFiles.DefaultSeparatorRoundTrip | core/internal/businessapi/mail_account_import_export.go:164-239 | with the default separator the round trip needs conditions on the account's own fields only |
| AccountFiles.ReadLines | core/internal/businessapi/mail_account_import_export.go:72-79 | keeps the trimmed lines that are not blank, in order |
| AccountFiles.ExportedFileReadsBack | core/internal/businessapi/mail_account_import_export.go:471-504 | importing an exported file yields one account a row, in order |
| Redis.Server.Increment | core/internal/businessapi/redis_rate_limit.go:115-129 | one atomic INCR with EXPIRE set only at count 1 |
| Redis.Server.Reserve | core/internal/businessapi/redis_rate_limit.go:207-229 | SET NX EX: takes the key exactly when it is not live |
| Redis.Server.Release | core/internal/businessapi/redis_rate_limit.go:231-240 | deletes the key exactly when it holds the given value |
| Redis.Server.Take | core/internal/businessapi/redis_rate_limit.go:192-205 | returns and deletes the value in one step |
| Windows.WindowBound | core/internal/businessapi/login_protection.go:46-61 | when any n+1 consecutive events span a width, no window of that width holds more than n |
| LoginProtection.LoginProtector.RecordFailure | core/internal/businessapi/login_protection.go:46-61 | counts, and at the threshold sets the lock before deleting the counter |
| LoginProtection.LoginProtector.FailedLogin | core/internal/businessapi/login_protection.go:42-61 | refused while locked, recorded otherwise |
| LoginProtection.LoginProtector.Clear | core/internal/businessapi/login_protection.go:63-65 | removes counter and lock |
| LoginProtection.FailuresPerWindow | core/internal/businessapi/login_protection.go:42-65 | every window of one lock duration records at most max(m, 2m-2) failures in every run without a clear |
| LoginProtection.WindowLimitIsReached | core/internal/businessapi/login_protection.go:42-65 | the bound is tight: some run reaches it for every threshold above one |
| LoginProtection.ThresholdRefuses | core/internal/businessapi/login_protection.go:46-61 | after the failure that locks, no attempt is recorded for a lock duration |
| LoginIsolation.AccountsApart | core/internal/businessapi/login_protection.go:67-73 | keys of different accounts never meet: attempt and attempt, lock and lock, attempt and lock |
| LoginIsolation.NamespacesApart | core/internal/businessapi/login_protection.go:67-73 | nor do keys of protectors with different namespaces |
| LoginIsolation.CacheKeysApart | core/internal/businessapi/login_protection.go:33-40 | different user names or addresses are different accounts, for user names without a colon |
| LoginIsolation.SharedExactly | core/internal/businessapi/login_protection.go:33-40 | exactly which user names and addresses share their key with others: those with a colon in the name or inside the address |
| LoginIsolation.SpellingDoesNotMatter | core/internal/businessapi/login_protection.go:33-40 | case and blanks do not make another account |
| LoginIsolation.AccountsAreIndependent | core/internal/businessapi/login_protection.go:42-65 | after any run of failing and succeeding logins of any accounts each account stands as if only its own had been |
| LoginIsolation.VerdictsAreIndependent | core/internal/businessapi/login_protection.go:42-65 | so no verdict depends on what happened to other accounts |
| LoginIsolation.LocksAtThreshold | core/internal/businessapi/login_protection.go:46-61 | from a clean start the failure that reaches the threshold sets the lock for the whole duration, and none before it does |
| LoginIsolation.SuccessClears | core/internal/businessapi/login_protection.go:63-65 | after a success the next failure is the first again |
| LoginOverlap.WholeAttempt | core/internal/businessapi/login_protection.go:42-61 | the four steps in a row are the attempt of the handlers |
| LoginOverlap.OverlappingFailuresPerWindow | core/internal/businessapi/login_protection.go:42-61 | over all interleavings with at most c attempts in flight a window of one lock duration records at most (c+1)(m-1)+c-1 failures, and c when m is one |
| LoginOverlap.OverlapLimitIsReached | core/internal/businessapi/login_protection.go:42-61 | for every threshold above one and every c some interleaving records exactly that many |
| LoginOverlap.OverlapLimitOfOne | core/internal/businessapi/login_protection.go:42-61 | the same for a threshold of one |
| LoginOverlap.SequentialLimitNeedsOneAtATime | core/internal/businessapi/login_protection.go:42-61 | the bound 2m-2 holds in every interleaving if and only if no two attempts overlap |
| RateLimit.CounterKeyInjective | core/internal/businessapi/api_key_auth.go:79-93 | different keys and minutes never share a counter |
| RateLimit.AuthenticateAPIKey | core/internal/businessapi/api_key_auth.go:79-93 | admits, limits or fails as the bucket's counter says |
| RateLimit.RequestIs | core/internal/businessapi/api_key_auth.go:79-93 | a key without a positive limit is always admitted and counts nothing; any other request counts one in its own counter and no other, is admitted exactly up to the limit, and unavailable only for a key that holds no number |
| RateLimit.AdmittedPerBucket | core/internal/businessapi/api_key_auth.go:79-93 | a minute admits at most its limit for each counter it can have, so the limit itself without delay |
| RateLimit.AdmitsExactlyTheLimit | core/internal/businessapi/redis_rate_limit.go:17-23 | without delay a minute admits exactly the first L requests, and its counter never expires inside it |
| RateLimit.AdmittedPerInterval | core/internal/businessapi/api_key_auth.go:79-93 | an interval of k minutes admits at most (k+1)L requests |
| RateLimit.BucketLimitIsReached | core/internal/businessapi/api_key_auth.go:79-93 | for every limit and delay some run fills a minute to that bound |
| RateLimit.LimitHoldsExactlyWithoutDelay | core/internal/businessapi/api_key_auth.go:79-93 | every run keeps the limit of a minute if and only if there is no delay between clock reading and INCR |
| RateLimit.IntervalLimitIsReached | core/internal/businessapi/api_key_auth.go:79-93 | for every limit and k some run without delay admits exactly (k+1)L in an interval of k minutes |
| IngressStore.ResolveIngressTarget | core/internal/businessapi/ingress_store.go:252-283 | the first of exact mailbox, alias and catch-all that belongs to the domain, or not found |
| IngressStore.RoutesAre | core/internal/businessapi/ingress_store.go:252-283 | an own mailbox comes before an alias, that before an enabled catch-all; mailboxes of other domains are passed over |
| IngressStore.AdmissionIs | core/internal/businessapi/ingress_store.go:75-98 | exactly which deliveries are turned away before anything is stored, and with which error |
| IngressStore.MessageStore.ReceiveIngress | core/internal/businessapi/ingress_store.go:70-223 | admission checks, insert-or-find, forward job, and rollback or unheard commit |
| IngressStore.MessageStore.InsertMessage | core/internal/businessapi/ingress_store.go:112-164 | inserts unless the delivery is stored already |
| IngressStore.MessageStore.InsertJob | core/internal/businessapi/ingress_store.go:185-200 | inserts a job unless the message has one |
| IngressStore.ReceivedKeeps | core/internal/businessapi/ingress_store.go:112-223 | one row a delivery, one job a message, errors store nothing, and the answer names the delivery's row |
| IngressStore.RepeatIsDuplicate | core/internal/businessapi/ingress_store.go:166-184 | repeating a committed transaction stores nothing and answers with the first message |
| IngressStore.FirstDeliveryForwards | core/internal/businessapi/ingress_store.go:184-200 | a first delivery has exactly one job if its mailbox forwards, meaning a mode other than DISABLED and an address that is there and not blank, and none otherwise; the job is for this mailbox, in its mode, to the trimmed address |
| IngressStore.DuplicatesDoNotForward | core/internal/businessapi/ingress_store.go:166-200 | a duplicate never makes a job, however its transaction ends |
| IngressStore.FirstDeliveryRow | core/internal/businessapi/ingress_store.go:112-164 | the row of a first delivery holds its delivery key, domain, mailbox and route under the id that is answered |
| IngressStore.DuplicateAnswer | core/internal/businessapi/ingress_store.go:166-183 | a duplicate is answered with the mailbox and route of the first delivery, and with those of the current routing where the row has lost them |
| IngressStore.UnlinkedKeeps | core/internal/businessapi/ingress_store.go:168-182 | deleting a mailbox keeps the rows and jobs sound |
| IngressStore.UnlinkedIs | core/internal/businessapi/ingress_store.go:168-182 | deleting a mailbox takes it off its own messages and changes nothing else |
| Ingress.SkewExactly | core/internal/businessapi/ingress_handler.go:132-141 | the exact set of timestamps the clock check accepts |
| Ingress.FarFutureTimestampPasses | core/internal/businessapi/ingress_handler.go:395-400 | a timestamp millennia ahead passes |
| Ingress.ReplayKeyInjective | core/internal/businessapi/ingress_handler.go:189 | replay keys are distinct for key ids without a colon |
| Ingress.ReceiveIngress | core/internal/businessapi/ingress_handler.go:132-224 | the handler is the four steps of the protocol in a row, releasing exactly when storing failed |
| Ingress.HandlerRefusesLate | core/internal/businessapi/ingress_handler.go:132-141 | a timestamp outside the skew is refused and changes nothing |
| Ingress.HandlerRefusesReplay | core/internal/businessapi/ingress_handler.go:189-205 | a live reservation refuses the request and nothing is stored |
| Ingress.HandlerStores | core/internal/businessapi/ingress_handler.go:189-224 | a request in time whose key is free is stored as its transaction says; its reservation stands for the whole hold when it was stored, and is gone when it was not |
| Ingress.HoldIs | core/internal/businessapi/ingress_handler.go:189-195 | a reservation lasts twice the skew and at least a minute |
| Ingress.StoredOnce | core/internal/businessapi/ingress_handler.go:189-223 | over all interleavings, failures and expiries: one row a delivery, one job a message, later acceptances are duplicates of the same message |
| Ingress.AcceptedAgain | core/internal/businessapi/ingress_store.go:166-221 | a request accepted after another of its delivery is a duplicate with the same message id |
| Ingress.JobsComeWithTheirMessage | core/internal/businessapi/ingress_store.go:185-200 | a forward job appears only in the step that stores its message |
| Ingress.ReservationsStand | core/internal/businessapi/ingress_handler.go:189-216 | no step of one request removes or replaces the live reservation of another |
| Ingress.PresentedAgain | core/internal/businessapi/ingress_handler.go:132-205 | an accepted request presented again is refused while its reservation lives, at least until its check |
| Ingress.FailedDeliveryMayRetry | core/internal/businessapi/ingress_handler.go:207-217 | a failed delivery's reservation is given back at once |
| Ingress.ReleaseNeedsOwner | core/internal/businessapi/redis_rate_limit.go:25-30 | a release removes a live reservation exactly when the request ids agree |
| OAuthState.CompleteOAuthAuthorization | core/internal/businessapi/mail_oauth_handlers.go:347-427 | the callback takes, marks, binds at most once and finishes |
| OAuthState.CallbackMoves | core/internal/businessapi/mail_oauth_handlers.go:347-427 | a callback is marked once after taking the record, binds at most once after that, and finishes after either |
| OAuthState.TakeErrorIs | core/internal/businessapi/mail_oauth_handlers.go:347-372 | what a callback answers when there is no state value, an unreadable record, or one of another provider |
| OAuthState.OAuthAuthorizationStatus | core/internal/businessapi/mail_oauth_handlers.go:282-323 | a poll answers from the status, then from the pending record |
| OAuthState.BoundAtMostOnce | core/internal/businessapi/mail_oauth_handlers.go:347-427 | over any interleaving a state value drives at most one binding, for its own record |
| OAuthState.PollsNeverGoBack | core/internal/businessapi/mail_oauth_handlers.go:282-323 | no poll sees pending after processing or completed, nor processing after completed |
| OAuthState.OnlyTheOwnerIsTold | core/internal/businessapi/mail_oauth_handlers.go:282-323 | in every run whoever is told pending, processing or completed owns the state value and asked for its provider |
| OAuthState.PollsAreAnswered | core/internal/businessapi/mail_oauth_handlers.go:282-323 | in every reachable state, for the right provider: anyone but the owner is forbidden while a status or record lives; the owner is told processing, then the code of the callback that took the state, or else pending; expired when neither lives |
| OAuthState.OtherProvidersSeeNothing | core/internal/businessapi/mail_oauth_handlers.go:294-313 | a poll for another provider is always answered expired, whoever asks |
| OAuthState.TakenInTime | core/internal/businessapi/mail_oauth_state.go:11-109 | in every run a callback gets a state value only within 600 seconds of its issue, once, and for its provider, and holds the record issued |
| OAuthState.StatusLasts | core/internal/businessapi/mail_oauth_state.go:11-124 | a status can be seen for exactly 900 seconds after it was written |
| OAuthState.ProgressGrows | core/internal/businessapi/mail_oauth_state.go:92-124 | a state value's callback only moves on, and no other callback makes progress on it |
| Resp.Writer.WriteRESPCommand | core/internal/businessapi/redis_rate_limit.go:315-325 | writes the frame of a command |
| Resp.Reader.ReadRESP | core/internal/businessapi/redis_rate_limit.go:327-369 | reads one reply and consumes exactly its bytes |
| Resp.Reader.ReadRESPLine | core/internal/businessapi/redis_rate_limit.go:371-380 | reads to the first newline and requires CRLF |
| Resp.BulkReadsBack | core/internal/businessapi/redis_rate_limit.go:346-365 | a bulk frame is read as exactly its value whatever it holds and whatever follows, if and only if it is at most 16 MiB |
| Resp.ReadIsLocal | core/internal/businessapi/redis_rate_limit.go:327-369 | a reply read whole depends on nothing but the bytes it consumed |
| Resp.IntegerReadsBack | core/internal/businessapi/redis_rate_limit.go:340-345 | integer replies are read back over 64 bits and refused beyond |
| Resp.LineReadsBack | core/internal/businessapi/redis_rate_limit.go:336-339 | status and error lines are read back with exactly their bytes |
| Resp.NilReadsBack | core/internal/businessapi/redis_rate_limit.go:351-353 | the nil reply is read as nil |
| Resp.CommandDecodes | core/internal/businessapi/redis_rate_limit.go:315-325 | a reference parser recovers exactly the arguments |
| Resp.CommandsAreSelfDelimiting | core/internal/businessapi/redis_rate_limit.go:315-325 | framing is injective, also with bytes behind it |
| Allocation.ScanFindsLeast | core/internal/businessapi/api_key_store.go:617-631 | the first unused candidate without a locked row, and none exactly when every unused one has a locked row |
| Allocation.AllocationsAreSeparate | core/internal/businessapi/api_key_store.go:647-653 | in every interleaving allocations in flight hold different rows and ON CONFLICT never fires |
| Allocation.AllocatedOnceBetweenRemovals | core/internal/businessapi/api_key_store.go:598-659 | a key is given a mailbox twice only after it was taken away in between |
| Allocation.SelectsLeast | core/internal/businessapi/api_key_store.go:617-645 | in every reachable state and whatever locks it leaves behind, a selection chooses the least mailbox unused and unlocked, and none exactly when there is none |
| Allocation.FreeAccount | core/internal/businessapi/api_key_store.go:617-631 | a mail account is free exactly when no allocation in flight has chosen it |
| Allocation.OneAllocationPerDomain | core/internal/businessapi/domain_store.go:44-72 | two domain allocations in flight are never in one domain |
| Allocation.FreeDomainMailbox | core/internal/businessapi/domain_store.go:54-71 | a domain mailbox is free exactly when no allocation in flight has chosen from its domain or left a lock on its rows |
| Allocation.RefusedExactlyWhenBlocked | core/internal/businessapi/domain_store.go:83-93 | a selection finds nothing exactly when every unused mailbox is blocked so |
| Allocation.FalseRefusal | core/internal/businessapi/domain_store.go:83-93 | the exact condition for answering that none is unused although one is unused and unlocked |
| Allocation.SecondKeyIsRefused | core/internal/businessapi/domain_store.go:54-93 | one allocation makes any pool of a single domain look empty to every other key |
| PoolStats.StatsAddUp | core/internal/businessapi/api_key_store.go:907-939 | used plus remaining is the total and the clamp never applies |
| PoolStats.NoneRemains | core/internal/businessapi/api_key_store.go:632-642 | nothing remains exactly when an undisturbed selection finds nothing |
| PoolStats.AllocationMovesOne | core/internal/businessapi/api_key_store.go:907-939 | an allocation moves one mailbox from remaining to used |
| AccountPool.NormalizePositiveIDs | core/internal/businessapi/api_key_store.go:1039-1053 | the loop keeps the positive ids once, in order of first occurrence |
| AccountPool.NormalizedIs | core/internal/businessapi/api_key_store.go:1039-1053 | the result is distinct, holds exactly the positive ids, and is the input exactly when that was so |
| AccountPool.AccountStore.UpdateAssignedEmails | core/internal/businessapi/api_key_store.go:482-596 | refused exactly for a forbidden group or account; otherwise the usage inside the filter is the requested set, with exact counts |
| AccountPool.AccountStore.ResetEmailAllocations | core/internal/businessapi/api_key_store.go:409-435 | removes exactly the key's use of the active accounts of the filter |
| AccountPool.AccountStore.AllocateEmail | core/internal/businessapi/api_key_store.go:598-659 | an undisturbed allocation is select, insert and commit of the machine, and its refusal reports all used |
| AccountPool.ReassignedIsApplied | core/internal/businessapi/api_key_store.go:560-586 | deleting and inserting the differences is the assignment |
| AccountPool.ReassignedIs | core/internal/businessapi/api_key_store.go:482-596 | inside the filter exactly the requested set, outside and for other keys untouched |
| AccountPool.AssignmentByFields | core/internal/businessapi/api_key_store.go:482-596 | after an assignment the key uses an account of the group asked for and of its scope exactly when it was requested, and any other one as before; an account in no group is in no group scope |
| AccountPool.GroupForbiddenIs | core/internal/businessapi/api_key_store.go:482-500 | a group is refused exactly when it is asked for and the key is confined to other groups |
| AccountPool.ReassignedTwice | core/internal/businessapi/api_key_store.go:482-596 | repeating an assignment changes nothing |
| AccountPool.ReassignedCounts | core/internal/businessapi/api_key_store.go:590-595 | usage after is usage before plus added minus removed |
| AccountPool.AssignmentSetsStats | core/internal/businessapi/api_key_store.go:907-939 | after an assignment the statistics count the requested accounts as used |
| AccountPool.ResetClearsStats | core/internal/businessapi/api_key_store.go:409-435 | after a reset none of the pool is used and nothing else changed |
| AccountPool.ResetByFields | core/internal/businessapi/api_key_store.go:409-435 | a reset takes away exactly the active accounts of the group and scope |
| AccountPool.ResetIsEmptyAssignment | core/internal/businessapi/api_key_store.go:421-430 | reset and empty assignment agree exactly when the key uses no inactive account |
| DomainPool.PoolInOrder | core/internal/businessapi/domain_store.go:52-72 | the pool is in the statement's order without repetition |
| DomainPool.PoolByFields | core/internal/businessapi/domain_store.go:52-72 | the pool by the fields of the mailboxes and their domains |
| DomainPool.SelectionIsRefused | core/internal/businessapi/domain_store.go:32-105 | for every selector a selection finds nothing exactly when every mailbox the key does not use is in a domain from which an allocation in flight has chosen |
| DomainPool.ResetDeletesTheUsed | core/internal/businessapi/domain_store.go:179-201 | a reset deletes as many rows as were used and leaves none used |
| SyncState.AccountStates.UpdateMailboxSyncState | core/internal/businessapi/mail_account_state.go:206-276 | reads, updates one mailbox and writes the whole status over whatever the table then holds; other accounts stay |
| SyncState.AccountStates.ClearMailboxSyncState | core/internal/businessapi/mail_account_state.go:278-299 | reads, clears one mailbox and writes the whole status over whatever the table then holds; other accounts stay |
| SyncState.StatusReadsBack | core/internal/businessapi/mail_account_state.go:318-334 | what one call stores is what the next one reads |
| SyncState.MailboxesAreIndependent | core/internal/businessapi/mail_account_state.go:206-299 | of operations one after the other, a mailbox's state depends on its own only |
| SyncState.HasNewIs | core/internal/businessapi/mail_account_state.go:237-245 | the flag is set exactly when something arrived since the last reset |
| SyncState.SyncedFields | core/internal/businessapi/mail_account_state.go:246-271 | every other field after a sync: the newest message, the count, the time, the checkpoint |
| SyncState.ClearedFields | core/internal/businessapi/mail_account_state.go:278-299 | a clear forgets all but that the mailbox has just been synced and viewed |
| SyncState.MailboxNames | core/internal/businessapi/mail_account_state.go:336-345 | the three mailboxes and the names that mean them |
| SyncState.HasNewOverRuns | core/internal/businessapi/mail_account_state.go:206-299 | the same for operations one after the other on all mailboxes of a fresh account |
| SyncState.LastViewed | core/internal/businessapi/mail_account_state.go:246-299 | the last viewing of a run is remembered, and that of before the run when there was none |
| SyncState.LastCheckpoint | core/internal/businessapi/mail_account_state.go:262-276 | a checkpoint is remembered until the next one or a clear |
| SyncState.UninterruptedIsSequential | core/internal/businessapi/mail_account_state.go:206-299 | overlapping operations none of which writes between another's read and write are as good as one after the other, in the order of their writes |
| SyncState.LostUpdate | core/internal/businessapi/mail_account_state.go:206-299 | a write between another operation's read and write is lost |
| SyncState.IndependentExactlyUninterrupted | core/internal/businessapi/mail_account_state.go:206-299 | mailboxes depend on their own operations only, for all operations, if and only if no operation writes between another's read and write |
| SyncState.HasNewOverSchedules | core/internal/businessapi/mail_account_state.go:206-299 | the flag's meaning for all overlapping operations that are uninterrupted |
| ProviderRouting.FetchAccountMailbox | core/internal/businessapi/mail_provider_resolver.go:35-57 | the first mode that succeeds, or the last one's failure |
| ProviderRouting.HasOAuthScope | core/internal/businessapi/mail_provider_resolver.go:296-303 | some scope matches, ignoring case |
| ProviderRouting.FetchModesAre | core/internal/businessapi/mail_provider_resolver.go:188-233 | the modes of every kind of account in order of preference, by its own settings; an error exactly for other kinds |
| ProviderRouting.MicrosoftImapNeedsScope | core/internal/businessapi/mail_provider_resolver.go:210-233 | a Microsoft account without a mode of its own is asked through IMAP only if it has the scope |
| ProviderRouting.DeleteModeIsFetchMode | core/internal/businessapi/mail_provider_resolver.go:188-272 | the mode asked is the mode that listed: always for IMAP, for an API exactly when not all ids look like IMAP ids |
| ProviderRouting.DeleteModesAre | core/internal/businessapi/mail_provider_resolver.go:235-272 | messages are deleted through IMAP exactly when their ids are all from IMAP or the account has no other mode (for Gmail with its read mode spelled without blanks), and refused exactly for accounts without modes |
| ProviderRouting.ListedByIMAP | core/internal/businessapi/mail_provider_resolver.go:235-272 | every selection IMAP listed goes back to IMAP under the same UIDs |
| ProviderRouting.ParseProviderUIDInverts | core/internal/businessapi/mail_provider_imap_smtp.go:542-551 | parsing inverts the id format on 1 to 2^32-1 and on nothing else |
| ProviderRouting.ParsedUIDs | core/internal/businessapi/mail_provider_imap_smtp.go:542-551 | exactly the texts that parse |
| ProviderRouting.ReverseInPlace | core/internal/businessapi/mail_provider_imap_smtp.go:530-534 | reverses the array in place |
| ProviderRouting.FetchNewest | core/internal/businessapi/mail_provider_imap_smtp.go:45-86 | lists the last messages newest first with the greatest UID |
| ProviderRouting.NewestAre | core/internal/businessapi/mail_provider_imap_smtp.go:45-86 | the last messages, at most a hundred or as many as asked for |
| Gmail.ListMessageIDs | core/internal/businessapi/mail_provider_gmail.go:180-228 | terminates against every server; succeeds with all pages' ids in order, or fails for one of three reasons |
| Gmail.OutcomeIsUnique | core/internal/businessapi/mail_provider_gmail.go:180-228 | the server's answers determine the outcome |
| Gmail.ListingHolds | core/internal/businessapi/mail_provider_gmail.go:180-228 | a listing that succeeds holds the ids of every page fetched, page after page, none blank, and each page but the last named the next |
| Gmail.ListingFails | core/internal/businessapi/mail_provider_gmail.go:180-228 | otherwise exactly: the last request failed, or its answer does not decode, holds a blank id or names a token again |
| Gmail.BodyWalk.Visit | core/internal/businessapi/mail_provider_gmail.go:384-400 | the recursive walk keeps the first body of each type in pre-order |
| Gmail.GmailPayloadBodies | core/internal/businessapi/mail_provider_gmail.go:376-403 | the first text and the first HTML body in pre-order |
| Gmail.FirstBodyIs | core/internal/businessapi/mail_provider_gmail.go:386-395 | the body chosen is the first that decodes to anything, and empty when none does |
| Totp.VerifyTOTP | core/internal/businessapi/totp.go:53-85 | accepts exactly the codes of the steps within the clamped window, of a secret that decodes |
| Totp.TruncateIsDynamic | core/internal/businessapi/totp.go:92-97 | four bytes inside the digest, their big-endian number modulo 2^31 |
| Totp.CodeIsSixDigits | core/internal/businessapi/totp.go:98 | a code is six digits of the value modulo a million |
| Totp.AcceptedWithinWindow | core/internal/businessapi/totp.go:77-83 | a code made at t is accepted within 30 seconds a step of the window |
| Totp.AcceptedIs | core/internal/businessapi/totp.go:53-99 | from 1970 on a token is accepted exactly when it is the code of a counter at most the window from the number of whole half minutes, without reference to the code that computes it |
| Totp.CodeIs | core/internal/businessapi/totp.go:87-99 | the code of a step is the only string of six digits with the value of the dynamic truncation modulo a million |
| Totp.CountersDiffer | core/internal/businessapi/totp.go:88-90 | different steps have different counters, over all 64-bit steps |
| Totp.OutsideWindow | core/internal/businessapi/totp.go:77-83 | from 30 seconds beyond the window on its step lies outside, with the case around 1970 |
| Totp.OutsideBoundsAreTight | core/internal/businessapi/totp.go:77-83 | one second closer the step is still tried, on one side of 1970 and across it |
| Base32.DecodeEncode | core/internal/businessapi/totp.go:20 | unpadded base32 decoding inverts encoding at every length |
| Base32.SecretReadsBack | core/internal/businessapi/totp.go:62-69 | a secret typed in any case with separators decodes to the same bytes |
| Truncation.TruncateDomainMessageText | core/internal/businessapi/domain_message_text_handlers.go:137-149 | the longest valid prefix within the bound, for any bytes |
| Truncation.TruncatedText | core/internal/businessapi/domain_message_text_handlers.go:137-149 | for valid text the longest prefix of whole code points, at most three bytes below the bound |
| Truncation.CutDecodes | core/internal/businessapi/forwarding_job_handlers.go:310-315 | a cut keeps the code points that fit and U+FFFD for a split pair |
| Truncation.TruncatedError | core/internal/businessapi/forwarding_job_handlers.go:306-317 | never more than 160 units, exactly 160 when cut, and idempotent |
| BatchNames.ParseManagedDomainMailboxBatchCreate | core/internal/businessapi/domain_mailbox_management_handlers.go:424-476 | given or generated names, every error case, and never an empty or repeating result |
| BatchNames.ListsAccepted | core/internal/businessapi/domain_mailbox_management_handlers.go:428-438 | a list is accepted exactly up to 1000 values of 1 to 255 characters, and its names are those values in lower case |
| BatchNames.RangesAccepted | core/internal/businessapi/domain_mailbox_management_handlers.go:440-460 | a range is accepted exactly within its bounds, the start being 1 and the padding 0 when not given |
| BatchNames.RangeNames | core/internal/businessapi/domain_mailbox_management_handlers.go:461-470 | each name is the prefix and the number counted from the start, padded as asked for |
| BatchNames.NormalizeManagementStrings | core/internal/businessapi/domain_mailbox_management_handlers.go:564-579 | the loop keeps trimmed non-empty values once, in order |
| BatchNames.NormalizedIs | core/internal/businessapi/domain_mailbox_management_handlers.go:564-579 | contents, distinctness, and identity exactly on normal input |
| BatchNames.NamesAreNormal | core/internal/businessapi/domain_mailbox_management_handlers.go:461-470 | generated names are pairwise distinct for every prefix, start and padding, so deduplication is the identity |
| BatchNames.NumberWidth | core/internal/businessapi/domain_mailbox_management_handlers.go:461-468 | behind the prefix stand at least as many digits as asked for, more only when the number needs them, and they denote the number |
| BatchNames.UnpaddedNumber | core/internal/businessapi/domain_mailbox_management_handlers.go:461-468 | without padding there is no leading zero |

## Left out

- HTTP handlers, cookies, route registration, request decoding and response maps.
- Signature verification, body limits and field validation of signed deliveries, and the endpoint lookup: checks before the protocol starts.
- The content columns of a stored message (addresses, subject, previews, verification code) and the endpoint's last-used time: they do not affect whether or how a delivery is stored.
- The window bounds on failing logins are for runs without a success in between, which clears both keys.
- Deletion of domains, which deletes their messages, and the retention and forwarding workers.
- Redis connection errors and timeouts; a type error of INCR is modelled.
- Sub-second clocks, and clock differences between hosts.
- Case mapping and folding beyond ASCII.
- Interleaving inside an assignment transaction: an assignment takes effect in one step.
- Changes to an account's status or group while an allocation holds its row; between steps the candidates of a selection are arbitrary.
- API key lookup, status, expiry and permissions, last-used timestamps and request logs.
- The creation and expiry times inside the OAuth payloads; they are data for the browser.
- What an OAuth authorization does between its two status writes other than binding a mailbox.
- The text and date of fetched messages, MIME parsing and the provider clients.
- Input that is not valid UTF-8 in the UTF-16 truncation: it is modelled on code points.
- The generation of secrets and keys, and the otpauth URI.
- The front end, configuration loading, migrations and the other administration endpoints.
