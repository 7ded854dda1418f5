# Verified model of the Meerkat agent

The Meerkat agent runs on a server, reports its state to an app and to a relay,
and keeps a few credentials. This project models the parts of it whose behaviour
spans several calls, processes or machines, and proves what they keep:

- the command line that carries a SQL Server query into a container, read back
  by a lexer for the Shell Command Language of POSIX.1-2017 (sections 2.2 and
  2.3), and the framed stream that comes back, cut at any byte;
- the store of SQL Server credentials, as a keyed list in an encrypted file
  replaced by rename, with lock-free readers and crashes between system calls;
- certificate, key and token files under crashes, and the token cache under
  concurrent requests and rotations;
- the relay runner: refresh cadence, backoff, settings, token expiry;
- the bounded fan-out over containers, the directory size cache, CPU accounting,
  and the grouping and selection done by discovery.

One module stands for one component. Code that changes state step by step is a
method or a class proved against a specification function or predicate; what the
program is for is then proved about the specification. `Disk` is a directory
changed one system call at a time: a script says how each call turns out (done,
failed, or the process gone, its effect landed or not), and a ghost trace keeps
every state another process could have read. `TokenCache`, `DirSizeCalls`,
`FanOut` and `RelayRunner` are state machines, and their theorems hold of every
run. Backend and Docker replies, times, directory entries and random bytes are
inputs.

Where prose and code differ, the model follows the code:

- README.md:241-242 says old tokens are rejected immediately after a rotation.
  The cache allows them for up to a second (`TokenCache.OldTokenAfterRotation`,
  `TokenCache.NoStaleToken`).
- README.md:207-211 says to remove the entry after the key is lost. Removal
  first decrypts every entry and fails (`Store.LostKeyBlocksRemoval`).
- internal/identity/identity.go:108-109 says the key is written first. The
  certificate is (`Identity.WriteNewCert`, `Identity.RotationStopped`).

Properties that do not hold of all inputs are stated with their exact condition:
`DockerFrames.DemuxInvertsEncode` (empty frames), `RelaySettings.IntervalExactIff`
(seconds beyond a duration), `MssqlFiles.DataAndLogTogether` (names like
`master_log`), `TokenCache.SupersededAnswerIff` (old tokens),
`Identity.RotateCert`, `Identity.GenerateCert` and `Identity.GenerateRuns`
(mismatched pairs), `Identity.GenerateToken` (tokens replaced by mistake),
`Inventories.AppliedIsMapApplied` (duplicate containers),
`RelayRunner.BackoffDoublesIff` (overflowed intervals) and `Store.LostKeyExactly`.

Run `dafny verify dfyconfig.toml` here to check everything.

## Model

| member | source | states |
|---|---|---|
| SqlCommand.ShellQuoteReads | internal/collect/discover_linux.go:957-959 | from any point of a command line outside quotes, a POSIX lexer reads the quoted text as characters that join the current word, all of them and nothing else |
| SqlCommand.ShellQuoteIsOneWord | internal/collect/discover_linux.go:957-959 | quoted text on its own is exactly one word, and the argument it stands for is the text itself |
| SqlCommand.ShellQuoteInjective | internal/collect/discover_linux.go:957-959 | no two texts are quoted alike |
| SqlCommand.CommandLineReads | internal/collect/discover_linux.go:714-719 | for any lookup command free of quoting characters and any flags, the lexer finds the assignment, `&&`, the program run and its arguments, each where it belongs |
| SqlCommand.SqlCmdShellReads | internal/collect/discover_linux.go:714-719 | for every username and query the lookup for the program is the one command written out here, and its arguments are `-S localhost -U`, that username, `-C -b -l 5 -h -1 -W -w 65535 -Q` and that query, so that no expansion can alter any |
| DockerFrames.DockerDemux | internal/collect/discover_linux.go:933-955 | the loop returns the payloads of the complete, non-empty frames at the front, or its input when there are none |
| DockerFrames.ParseSound | internal/collect/discover_linux.go:936-950 | every input is the encoding of the frames found followed by a remainder with no such frame at its front |
| DockerFrames.DemuxExactly | internal/collect/discover_linux.go:933-955 | any input at all is non-empty frames and then no such frame, in one way only, and the result is the payloads of those frames, or the input when there are none |
| DockerFrames.FrameSpelled | internal/collect/discover_linux.go:936-942 | a frame byte for byte: stream, three zeros, the length of the payload most significant byte first, the payload |
| DockerFrames.DemuxOfCut | internal/collect/discover_linux.go:926-955 | for any frames and any byte at which their encoding is cut, the result is the payloads of the frames wholly before the cut (and before any empty frame), or the cut stream itself when there are none |
| DockerFrames.DecodableExists | internal/collect/discover_linux.go:936-950 | for every cut there is exactly one such number of frames |
| DockerFrames.DemuxInvertsEncode | internal/collect/discover_linux.go:933-955 | uncut, decoding inverts encoding if and only if empty frames come last and not first |
| Disk.WriteFilePreserveOwner | internal/fileutil/fileutil.go:14-44 | no file but the temporary one changes until the last state shown, which may have the path holding all the new data; for every way its system calls may turn out, exactly when it succeeds and exactly when the new data is in place |
| Envelope.Encrypt | internal/config/config.go:274-283 | the copies into the envelope give version, nonce and ciphertext, encoded |
| Envelope.DecryptedExactly | internal/config/config.go:286-305 | what decrypts is exactly the encoding of the byte 1, a nonce of 12 bytes and a ciphertext that the key opens, whatever white space is around it |
| Envelope.DecryptedOfSealed | internal/config/config.go:269-305 | given the laws of the cipher and of the encoding, decrypting an encrypted password returns it |
| Inventories.SaveInPlace | internal/config/config.go:183-196 | the loop replaces the first entry of the container in place, or appends, or refuses when the list is full |
| Inventories.CompactInPlace | internal/config/config.go:215-223 | compaction over the very array being read leaves exactly the other entries in front, and reports whether any was dropped |
| Inventories.ConfigMap | internal/collect/discover_linux.go:490-500 | the map built for discovery is the map the list stands for, later entries winning |
| Inventories.AsMapAt | internal/collect/discover_linux.go:495-498 | that map has exactly the listed containers, each with its last entry |
| Inventories.AppliedExactly | internal/config/config.go:162-234 | a save is refused exactly for a blank container, user name or password or for a 26th container; what it stores is trimmed, over the first entry of the container or after all others; a removal is refused exactly for a blank name or one no entry has, and takes all entries of the trimmed name and no others |
| Inventories.SavedIsMapUpdate | internal/config/config.go:183-196 | saving keeps every position and every other entry, is refused exactly when the container is new and the list is full, and is map update exactly when the container is new or has one entry, or its last entry is the one saved; distinct containers stay distinct |
| Inventories.WithoutIsMapRemoval | internal/config/config.go:215-226 | removing is map removal on any list, and finds the container exactly when the map has it |
| Inventories.AppliedIsMapApplied | internal/config/config.go:162-234 | on any list a call does what it does to the map of trimmed names exactly when it fits: it saves over the one entry that counts, or saves a new one while list and map are both full or both not, or is no save; on a list of distinct containers every call fits |
| Inventories.WithoutKeepsOrder | internal/config/config.go:215-223 | the survivors of a removal keep their order |
| Inventories.ReplayIsMapReplay | internal/config/config.go:162-234 | every history of calls that fit acts on the map as updates and removals; from a list of distinct containers every history fits and keeps them distinct; no list gets longer than it was or than 25 |
| Store.Load | internal/config/config.go:130-160 | a load returns the inventory the directory holds, which Store.LoadedFields spells out, and an error if some entry cannot be decrypted |
| Store.LoadedFields | internal/config/config.go:139-158 | a listing loads as one inventory for each entry, in order, with its container, user name and time and as password the stored one where nothing is encrypted and otherwise the decrypted text; it loads if and only if all encrypted entries decrypt |
| Store.SeeExactly | internal/config/config.go:22-69 | the two files are the ones of these names |
| Store.KeyInExactly | internal/config/config.go:319-347 | the key is the decoded text of its file without white space around it, when that is 32 bytes long |
| Store.LoadKey | internal/config/config.go:319-347 | an existing key is used and never replaced, a key file that holds no key is an error, and otherwise a key is created whose file reads back as that key |
| Store.SealAll | internal/config/config.go:248-260 | every password is sealed under one key, no entry keeps a plaintext field, and each reads back as it was |
| Store.WriteAll | internal/config/config.go:244-267 | the states shown: first at most a key is added, then in the last state the whole listing changes |
| Store.Save | internal/config/config.go:162-199 | whatever fails and wherever it stops: readers see the inventory before or after, success means after, an error before, keys are never changed, no plaintext is left; it succeeds only if the list can be left and a key be used or made, and with nothing failing exactly then |
| Store.Remove | internal/config/config.go:201-234 | the same for removal; and the file is absent after success exactly when no entry is left |
| Store.OthersKept | internal/config/config.go:162-234 | after a successful call on any list, plaintext entries among it, what is then loaded stands for every entry of another container with its password, in place after a save; the entry saved is there and the removed one is not |
| Store.LoadDuringWrite | internal/config/config.go:130-160 | a load whose reads fall on any moments of a write, crashed or not, succeeds with exactly the inventory before or after it |
| Store.RunHistory | internal/config/config.go:162-234 | over any history of calls with any failures and crashes: a call answered with success took effect and one answered with an error did not, each completely and in order; every state shown is that of some first calls, with no file exactly for an empty inventory; with no failure it is the whole history, and each call succeeds exactly when it can be applied |
| Store.LoadConfigMap | internal/collect/discover_linux.go:490-500 | the map for discovery is the one the loaded list stands for, empty when nothing can be loaded |
| Store.HistoryIsMapHistory | internal/config/config.go:162-234 | what a history of calls that fit leaves stands for the map it leaves as updates and removals, and the file is absent exactly when that map is empty; from distinct containers every history is such |
| Store.HistoryFromEmpty | internal/config/config.go:162-234 | from an empty directory with nothing failing, the map then loaded is that map, of at most 25 containers, and the file is absent exactly when it is empty |
| Store.LoadDuringHistory | internal/config/config.go:130-160 | a load overlapping any part of such a history returns what some first calls left |
| Store.LoadedWithoutKey | internal/config/config.go:143-151 | without its key a listing loads if and only if no entry is encrypted |
| Store.LostKeyExactly | internal/config/config.go:201-234 | with the key lost a call succeeds exactly when no entry is encrypted and it can be applied to them and, if the key file is there but holds no key, it leaves no entry |
| Store.LostKeyBlocksRemoval | internal/config/config.go:210-213 | so neither call gets past loading while an encrypted entry remains |
| Identity.WriteNewCert | internal/identity/identity.go:74-121 | the views shown are, in order: as before, the new certificate with the old key, the new pair; for every way its system calls may turn out, exactly which of them it leaves and whether it succeeds; from a matched pair every moment is matched exactly when no other key was there or the certificate did not get into place |
| Identity.GenerateCert | internal/identity/identity.go:50-62 | however it ends, exactly the view it leaves; from a matched state every moment is matched exactly when it does not put its certificate beside another key; without an error both files are there, and a pair that was there is replaced exactly when a stat call failed |
| Identity.GenerateRuns | internal/identity/identity.go:50-62 | from neither file, over any number of runs each failing or stopped anywhere: every moment is matched and once a key is there nothing changes any more, exactly unless one of the runs puts its certificate beside another key; a run that ends well leaves both files |
| Identity.PairUnseen | internal/identity/identity.go:54-61 | the failing stat call matters: for every matched pair, a run in which one fails returns without error, has replaced the pair, and has shown a mismatched one |
| Identity.RotateCert | internal/identity/identity.go:67-72 | rotation shows the same three views; ending with an error, killed or well, it leaves a mismatched pair exactly when another key was there and the certificate got into place but the key did not, and shows one exactly when another key was there and the certificate got into place |
| Identity.RotationStopped | internal/identity/identity.go:67-121 | for every matched pair there are such rotations: killed in the second rename, or that rename failing, it leaves the new certificate with the old key |
| Identity.NeverMended | internal/identity/identity.go:54-56 | and later runs of GenerateCert in which nothing fails leave the pair so |
| Identity.SeeExactly | internal/identity/identity.go:32-48 | the three files are the ones of these names |
| Identity.TokenInExactly | internal/identity/identity.go:162-172 | the token is the text of its file without white space around it, when that leaves anything |
| Identity.LoadToken | internal/identity/identity.go:162-172 | the trimmed contents of the token file; an error when it is absent, unreadable or blank |
| Identity.RotateToken | internal/identity/identity.go:146-159 | the token file goes from the old token to the new in one step, exactly when that step takes effect, and the new token reads back |
| Identity.GenerateToken | internal/identity/identity.go:125-141 | only the token may change and only in one step; a token in use is left alone unless reading it fails, and without an error is what the run returns exactly when reading it did not fail; otherwise the new one is stored and returned |
| TokenCache.Server.LoadToken | internal/server/server.go:204-220 | a token cached within its time is returned without touching the file; otherwise the file decides both the result and the cache, which keeps a token for a second from the arrival and is emptied by a failed read |
| TokenCache.LockSection | internal/server/server.go:204-220 | the lock holder of the state machine answers and caches exactly so |
| TokenCache.RunInv | internal/server/server.go:204-220 | over every interleaving of requests, rotations and the clock: what is cached, held and answered was in the file at a recorded moment |
| TokenCache.AnswerIsRecent | internal/server/server.go:204-220 | the token a request is checked against was in the file at a moment later than its arrival less one second |
| TokenCache.NoStaleToken | internal/server/server.go:204-220 | a request arriving a full second after a rotation is never checked against an older token |
| TokenCache.ServedInOrder | internal/server/server.go:204-220 | successive lock holders never go back to an older version of the file |
| TokenCache.FailedReadEmptiesCache | internal/server/server.go:211-216 | a failed read empties the cache, so that in every run whoever is answered after it is answered with what was read after it |
| TokenCache.OldTokenAfterRotation | README.md:241-242 | an old token can be accepted after a rotation: a run that does it |
| TokenCache.SupersededAnswerIff | internal/server/server.go:204-220 | in every run a request that has taken the lock is answered with a token replaced before it arrived exactly when the cache is within its time and holds such a token, whatever is rotated in meanwhile; that token was read before the request arrived |
| TokenCache.AllowedExactly | internal/server/server.go:186-232 | a request passes if and only if its header is `bearer` and a space, in any case, followed by the token |
| DirSize.Cache.Lookup | internal/collect/discover_linux.go:1029-1035 | a hit is exactly an entry younger than a minute, and returns a new pointer |
| DirSize.Walk | internal/collect/discover_linux.go:1040-1058 | the size is the rounded total, modulo 2^64 as int64, of the files that could be measured; nothing when nothing was readable |
| DirSize.TotalBytesExactly | internal/collect/discover_linux.go:1040-1054 | sizes add up over any parts of a walk, and count exactly for files whose bytes can be had |
| DirSize.MeasuredNear | internal/collect/discover_linux.go:1040-1058 | a size is had if and only if something could be read, and is a whole number of tenths within a twentieth of the total in 10^9 bytes |
| DirSize.DirSizeGB | internal/collect/discover_linux.go:1027-1063 | no pointer returned is in the cache, the cache takes in only new pointers and never nil, and it changes only at this directory, to what the walk measured |
| DirSizeCalls.ReturnedSizeIsRecent | internal/collect/discover_linux.go:1027-1063 | over every interleaving of calls, a size returned was measured by a walk of that directory begun later than the caller's time less a minute |
| DirSizeCalls.NothingIsNeverCached | internal/collect/discover_linux.go:1055-1061 | over every interleaving, no entry of the cache is nil |
| DirSizeCalls.WritesStayOwn | internal/collect/discover_linux.go:1030-1071 | over every interleaving, writes of callers through the pointers they were given included: a pointer its own caller has not written through still leads to the size returned, and the cache to what a walk measured |
| DirSizeCalls.LookIsLookup | internal/collect/discover_linux.go:1029-1035 | the first lock section of that state machine hits, returns and leaves the cache as Cache.Lookup does |
| DirSizeCalls.StoreIsStore | internal/collect/discover_linux.go:1059-1061 | and the second leaves the cache as Cache.Store does |
| RelaySettings.PositiveIntExactly | internal/relay/relay.go:248-258 | accepted are exactly an optional plus sign and digits of a number from 1 to the largest int64, with white space around |
| RelaySettings.SettingsFromMap | internal/relay/relay.go:46-61 | the copy shares its fallback's raw map, which is updated in place to the right-biased union, whatever the iteration order |
| RelaySettings.AfterExactly | internal/relay/relay.go:35-61 | after any maps received, each number is the last positive integer received or its default, and the raw map has the last value of every key, invalid ones included |
| RelaySettings.IntervalExactIff | internal/relay/relay.go:54-56 | the interval is the seconds received if and only if they are at most 9223372036 |
| RelaySettings.IntervalOverflows | internal/relay/relay.go:54-56 | with one second more it is negative |
| RelayRunner.OneTurn | internal/relay/relay.go:106-145 | one turn of the loop does what the step function says |
| RelayRunner.Run | internal/relay/relay.go:75-147 | the loop logs and ends as the step function iterated, of which RelayRunner.TurnsAreSafe and RelayRunner.EndExactly say what that means; incomplete configuration ends it at once |
| RelayRunner.TurnsAreSafe | internal/relay/relay.go:106-157 | a turn makes no request if and only if its own clock has reached the expiry, and is then the last; no request follows a 401; every turn but the last makes exactly one push and sleeps to the end |
| RelayRunner.EndExactly | internal/relay/relay.go:99-157 | a run ends for an expired token exactly when its last turn found it expired, for re-enrolment exactly when its last fetch or push met a 401, as cancelled exactly when its last sleep was cut short, and otherwise goes on through all turns |
| RelayRunner.SettingsInForce | internal/relay/relay.go:109-121 | at every turn the settings in force are those the maps received so far amount to |
| RelayRunner.InForceArePositive | internal/relay/relay.go:46-61 | the refresh count is always positive, and the interval at least a second as long as no map asks for more seconds than fit |
| RelayRunner.FirstTurnFetches | internal/relay/relay.go:102-110 | a first turn before the expiry attempts a fetch |
| RelayRunner.RefreshCadence | internal/relay/relay.go:109-146 | the next fetch attempt comes exactly R turns, each with one push, after the last, R being the refresh count in force after it; failures count alike |
| RelayRunner.DoublingFits | internal/relay/relay.go:159-171 | doubling the remembered backoff never leaves int64 |
| RelayRunner.BackoffDoubles | internal/relay/relay.go:123-136 | the k-th push failure in a row is followed by a sleep of I times 2^(k-1), at most 15 minutes, I being the interval at the first of them, a positive one, whatever the settings become |
| RelayRunner.BackoffDoublesIff | internal/relay/relay.go:159-171 | under one interval it is so from the second failure on exactly when the interval is not negative, as an overflowed one can be |
| RelayRunner.SleepWithin | internal/relay/relay.go:123-145 | every sleep lies between the smallest interval, or 15 minutes if less, and the largest, or 15 minutes if more, overflowed intervals included |
| FanOut.MergeContainerInspect | internal/collect/discover_linux.go:142-206 | the assignments complete the slot field by field as the answer overrides the listing, and touch no other slot |
| FanOut.MergedIsCompleted | internal/collect/discover_linux.go:179-205 | the assignments one at a time amount to that completion |
| FanOut.ReadSequentially | internal/collect/discover_linux.go:106-128 | the loop without goroutines gives each slot the name and image of its listing, state, ports and creation time from the listing wherever the answer gives none, and the rest from the answer |
| FanOut.StepKeepsInv | internal/collect/discover_linux.go:106-129 | every step of the loop or of a goroutine keeps the invariant of slots, semaphore and wait group |
| FanOut.AtMostEight | internal/collect/discover_linux.go:43-127 | at no moment of any interleaving is the set of goroutines in their inspection larger than eight |
| FanOut.CountIsCardinality | internal/collect/discover_linux.go:121-127 | the count the semaphore keeps is the number of goroutines in their inspection |
| FanOut.SlotsAreNotShared | internal/collect/discover_linux.go:114-127 | each slot is written by the loop first and after that by its own goroutine only |
| FanOut.SomeoneCanStep | internal/collect/discover_linux.go:121-129 | there is no deadlock: until the wait is over some actor can step |
| FanOut.RunsEnd | internal/collect/discover_linux.go:106-129 | every interleaving has at most sixteen steps per container and one |
| FanOut.EndIsSequentialResult | internal/collect/discover_linux.go:106-129 | after the wait the semaphore is free, every goroutine is done, and the array is the sequential loop's, each slot holding of listing and answer what is said there |
| Cpu.Accumulate | internal/collect/sys_linux.go:168-176 | the loop over the fields gives the exact sums of the columns, modulo 2^64 |
| Cpu.TotalExactly | internal/collect/sys_linux.go:168-171 | totals add up over any parts of a line |
| Cpu.SampleExactly | internal/collect/sys_linux.go:168-176 | total is the sum of all columns and busy that of all but the fourth and fifth, both modulo 2^64 |
| Numerals.ParseUintExactly | internal/collect/sys_linux.go:169 | a column is the number its digits denote, at most the largest uint64; 0 when another character comes before they exceed it |
| Cpu.ReadCPUSample | internal/collect/sys_linux.go:158-177 | a sample is had exactly from a first line of five or more words starting with `cpu`; total and busy are the sums of the columns, without idle and iowait for busy, modulo 2^64 |
| Cpu.KernelLineReads | internal/collect/sys_linux.go:163-170 | a line as the kernel prints it is read back column for column, whatever follows it |
| Cpu.Collector.SampleCPU | internal/collect/collect.go:71-100 | reports the percentage since the remembered sample, rounded, and remembers the new one; a failed reading reports nothing and changes nothing |
| Cpu.PercentExactly | internal/collect/collect.go:81-93 | 0 for a first reading, when no time passed or when the busy count did not grow; otherwise the growth of busy over that of total, wrapped or not, at most 100 |
| Cpu.PercentWithin | internal/collect/collect.go:80-93 | for any two samples, wrapped counters included, the percentage lies in 0 to 100, rounded or not |
| Cpu.BusyTimeTelescopes | internal/collect/collect.go:81-100 | over counters that only go forward, percentages times total deltas add up to 100 times the busy time gained since the first sample |
| Cpu.FailedReadingIgnored | internal/collect/collect.go:79-100 | a failed reading anywhere in any run leaves that sum and the remembered sample as they are |
| Cpu.ReportedBusyTime | internal/collect/collect.go:71-100 | the same in terms of kernel columns that never go back and whose sum fits, with any readings failing |
| MssqlFiles.SumSizes | internal/collect/discover_linux.go:564-585 | the map has exactly the groups of eligible files, each with its files' bytes summed modulo 2^64 as int64 |
| MssqlFiles.FileDiskBytesExactly | internal/collect/discover_linux.go:633-638 | 512 bytes for each allocated block, and the length when there is none |
| MssqlFiles.GroupExactly | internal/collect/discover_linux.go:565-631 | a file is counted if and only if its extension is one of three and neither its name nor the database's is the system's; the group is its stem, only a log losing its suffix |
| MssqlFiles.SystemStemExactly | internal/collect/discover_linux.go:621-631 | the system's files are those of eight names and two prefixes, with `_log` after them or without |
| MssqlFiles.ScanMSSQLDataDir | internal/collect/discover_linux.go:557-598 | the result is every group once, strictly in order of name, whatever the order of iteration; nothing for an unreadable directory |
| MssqlFiles.OrderDoesNotShow | internal/collect/discover_linux.go:557-598 | two listings of the same entries in any order give the same result |
| MssqlFiles.BytesConserved | internal/collect/discover_linux.go:564-596 | the exact bytes of the groups reported add up to those of the eligible files |
| MssqlFiles.ReportIsComplete | internal/collect/discover_linux.go:557-598 | exactly the groups files have are reported, none of a system database; bytes are conserved, in 512-byte blocks where there are any; and each size is within 0.05 GB of its group's exact bytes when sizes are not negative and fit together in an int64 |
| MssqlFiles.DataFileGroup | internal/collect/discover_linux.go:600-631 | the data file of a database x is counted under x, unless x is empty, is a system database or names a system file |
| MssqlFiles.LogFileGroup | internal/collect/discover_linux.go:600-631 | so is its log file, unless x is empty, is a system database or `x_log` names a system file |
| MssqlFiles.DataAndLogTogether | internal/collect/discover_linux.go:600-631 | a data file `x.mdf` or `x.ndf` and the log `x_log.ldf`, in any letter case, are kept or dropped together and share a group if and only if x is not the name of a system file followed by `_log` |
| Hostnames.Found.ScanDirective | internal/collect/discover_linux.go:1143-1169 | adds to both maps exactly the sightings of the file's lines, in order, which Hostnames.DirectiveReads gives for every line |
| Hostnames.Found.ScanCaddyfile | internal/collect/discover_linux.go:1173-1201 | the same for a Caddyfile |
| Hostnames.DiscoverHostnames | internal/collect/discover_linux.go:1099-1127 | the names are the selection from everything scanned, and each source is of its last sighting; Hostnames.SourceExactly says which names and sources those are |
| Hostnames.LastSightingWins | internal/collect/discover_linux.go:1165-1198 | the source kept for a host is that of the scanner that met it last |
| Hostnames.SourceExactly | internal/collect/discover_linux.go:1103-1113 | a host is found if and only if a line of an nginx file names it in `server_name`, one of an Apache file in `servername` or `serveralias`, or it opens a site of the Caddyfile; its source is Caddy before Apache before nginx |
| Hostnames.ValidHostExactly | internal/collect/discover_linux.go:1205-1224 | accepted are exactly two or more lower-case letter-digit-hyphen labels with dots between them, hyphens not at their ends, the first not `localhost` |
| Hostnames.SelectionIsSmallest | internal/collect/discover_linux.go:1116-1126 | only accepted names, strictly in order, at most 25; one is left out only when 25 smaller ones are there |
| Hostnames.SelectionUnique | internal/collect/discover_linux.go:1116-1126 | there is one such selection, whatever the order of iteration over the map |
| Hostnames.DirectiveReads | internal/collect/discover_linux.go:1151-1167 | a line of the directive, spaced and quoted in any way, gives exactly the names of its arguments, in order and in lower case, empty and catch-all ones left out; a line of another directive, a comment or a keyword alone gives none |
| Hostnames.DirectiveTakenApart | internal/collect/discover_linux.go:1152-1160 | every line that is not blank is a keyword with such arguments |
| Hostnames.OtherLines | internal/collect/discover_linux.go:1152-1185 | blank lines and comments give no names, nor do lines of a Caddyfile without a brace |
| Hostnames.CollectExactly | internal/collect/discover_linux.go:1160-1166 | names are collected token by token: none for an empty one or `_`, and otherwise the token in lower case |
| Hostnames.CollectsAll | internal/collect/discover_linux.go:1162-1165 | accepted hosts among them are kept as they are |
| Hostnames.CaddyReads | internal/collect/discover_linux.go:1181-1199 | a Caddyfile line opening a block for any list of sites, with schemes, ports and paths, empty entries, any spacing and anything after the brace, gives exactly their names, in order and in lower case, empty and catch-all ones left out |
| Hostnames.LineTakenApart | internal/collect/discover_linux.go:1183-1193 | every line with a brace is such a line, or a comment |
| Sorting.AscendingUnique | internal/collect/discover_linux.go:585-597 | an ascending list is determined by its elements, so that how it was sorted does not matter |
| Numbers.Round1Near | internal/collect/collect.go:167-169 | a rounded value is a whole number of tenths within a twentieth of the measured one |
| Numbers.RoundExactly | internal/collect/collect.go:167-169 | the nearest integer, and of two the one further from zero |
| Numbers.WrappedExactly | internal/collect/sys_linux.go:168-176 | a wrapped result differs from the exact one by a multiple of 2^64 and is in range |
| Bytes.Uint32Exactly | internal/collect/discover_linux.go:942 | network byte order, written out |
| Text.LessExactly | internal/collect/discover_linux.go:1122 | one name is less than another if and only if it has the smaller character where they first differ, or ends there |
| Text.LowerExactly | internal/collect/discover_linux.go:1157-1165 | capitals become small letters, and so do the two characters outside ASCII whose small letters are in it; all else in ASCII stays |

## Left out

- HTTP clients and servers, TLS, signals, flag parsing, the JSON and PEM formats and Docker's port and time texts: their results are inputs, and a file's contents are values, so that a round trip of container names and usernames through JSON is taken for granted (it needs valid UTF-8).
- AES-GCM and base64url: known by their laws only (`Envelope.Lawful`); base64 text is taken to have no white space.
- Strings are sequences of Unicode code points. `Text.Lower` changes ASCII letters and the two other code points that lower-case into ASCII; other letters are left alone; no comparison made here depends on them, but the map of sources keeps such names as written.
- File owners and modes, and the owner lookup's distinction between platforms: `Disk.Directory.Touch` only says that such a call may fail.
- A power loss that undoes completed system calls: a crash ends the process, not the machine.
- Several processes writing the same file: the lock is per process and the temporary name is shared, so statements are about one writing process at a time.
- Inventories.ReplayIsMapReplay: of a history in which some call does not fit, from a list with duplicate containers, it is said of each call (`Inventories.AppliedIsMapApplied`) but not whether later calls happen to make up for it.
- RelayRunner.BackoffDoubles: of streaks that start with an interval that is not positive, `RelayRunner.BackoffDoublesIff` speaks while the interval stays the same.
- Rounding and percentages are over real numbers, not float64.
- The retention field of the settings, which nothing in the loop reads, and the log messages.
- Constant-time comparison is modelled as equality.
- Here-documents, aliases and reserved words in the lexer, and the NUL character, which no argument can hold.
- The final sort of the container list by name.
- SqlCommand.CommandLineReads: the text inside the command substitution is kept as text and not run.
- The scanner of configuration files is given as the lines it yields; its limit on the length of a line is not modelled.
- `strings.Fields` and `strings.TrimSpace` on invalid UTF-8.
- Memory, load, uptime and disk readings and their arithmetic, PostgreSQL discovery, the parsers of query output, nullable container fields, memory-pressure thresholds and the classification of containers: each is settled by reading its branches.
- The relay configuration file, read and written by the same helpers as the credential store.
- The Darwin build.
