# Pingo server: verified models

Dafny models of the hand-written state machines of the Pingo server, with proofs about all their
runs. `dafny verify dfyconfig.toml` checks everything.

| Files | Component |
|---|---|
| `RelayRoutes`, `RelayQueue`, `RelayRing`, `RingRelay` | the UDP relay ring: many virtual connections on a fixed ring of ports |
| `GitToken`, `GitModel`, `GitHistory`, `GitLocks`, `GitServer` | Git access: tokens, first-claim ownership, revocation, restart |
| `AuthModel`, `AuthHistory`, `Auth` | dashboard login: lockout, sessions, background cleaner |
| `TurnModel`, `TurnTraffic`, `TurnSessions`, `TurnBlocks`, `TurnMonitor` | the TURN monitor and the authentication handler: traffic accounting, IP blocking |
| `TrackerModel`, `Tracker` | the WebTorrent tracker: two mutually inverse indexes, offer distribution |
| `SignalingModel`, `Signaling` | the signaling registry: reconnect races, the purged token cache |
| `EnvFile` | the settings file: writer and parser |
| `Text`, `Clock`, `Maps`, `Wrappers` | Go's string functions, clock readings, shared helpers |

## How it is built

Each component comes in two layers.

* A value-level state machine (`RelayRoutes`, `RelayQueue`, `AuthModel`, `GitModel`, `GitLocks`,
  `TurnModel`, `TrackerModel`, `SignalingModel`): one function per operation, the state after
  `n` events as `State(es, n)` or as `ss[n]` in a sequence of states that a `Run` predicate ties to
  the events, and theorems that compare states and answers with the history of events, stated without
  the functions of the machine where possible (who wrote last, who was issued a token last, how many
  attempts failed since). `AuthHistory`, `GitHistory`, `TurnTraffic`, `TurnSessions` and `TurnBlocks`
  hold only such theorems.
* A class with the fields the Go code updates in place (`RingRelay`, `Auth`, `GitServer`,
  `TurnMonitor`, `Tracker`, `Signaling`, and `Environment` in `EnvFile`). Every method is proved to
  take its fields from one state to the next one of the first layer, so the theorems hold after any
  sequence of calls. Records that these methods change through pointers are objects on the heap, and
  `Valid()` rules out that two map entries share one. The relay objects carry a ghost log of what was
  done to them.

Conventions:

* The clock is a parameter of every operation. A request that reads the clock several times reads
  one value here. `Clock.Time` is in nanoseconds with 0 for Go's zero time; Git uses Unix seconds.
* A loop over a Go map is a loop that takes an arbitrary remaining key, so results hold for every
  iteration order. Where the order decides (which session a traffic report is credited to), an event
  carries the key at which the loop stopped, and a run is legal if the loop could stop there.
* HMAC and SHA-256 are parameters. Theorems that need freedom from collisions assume it for the
  messages or tokens in question only; `SoundHashExists` shows that this can be met.
  Random bytes, bind results, write results and directory removals are parameters too.
* Relay addresses are pairs of an IP and a port. Route keys are either a full endpoint or a bare IP,
  which never coincide as the strings "ip:port" and "ip" do not.
* Calls into another component appear as values: the relay returns the traffic reports it would make
  to the monitor, the tracker returns the messages it sends, and `GitServer` receives the decisions
  of the authentication manager as flags.

## Where the code and its description differ

* The port-ring loop counts with a 16-bit variable. It ends exactly for upper bounds below 65535
  (`BuildStopsBelowMax`); the documented default of `-max-port` is 65535 (main.go:761), where no
  16-bit value fails the loop guard. The methods that build the ring therefore require a smaller one.
* The settings file undoes itself exactly for values without newline, NUL, and outer white space or
  quotes (`EnvRoundTrip`); other values are silently changed or lost on the next start.
* A tracker connection that changes its peer id leaves links of its earlier id behind
  (`SecondNameLeavesALink`); `LeavesNothingBehind` says exactly when it does not.
* A comment at turn_monitor.go:146 speaks of more than 20 failures in a short window. The code blocks
  from the twentieth failure on, and counts since the last success or unblock, however long ago
  (`AbuseBlocks`, `ReputationIsHistory`).
* Revoking a session is described as banning its token (turn_monitor.go:375). For a user or address
  with an '@' in it the key is not taken apart, and the user stays free to come back
  (`RevokeBansUser`).
* A revocation can be forgotten by a restart although the peer was claimed: when a credentials request
  in flight writes its claim after the revocation (`LateWriteIsForgotten`). `RevocationsThatSurvive`
  says exactly which revocations a restart keeps.
* The loop of `RevokeSession` that looks for further sessions finds none, because every session is
  filed under its own user and address (`TurnMonitor.TurnMonitor.DropRevoked`).

## Model

| member | source | states |
|---|---|---|
| RelayRoutes.RoutesRefineHistory | ring_relay.go:56-107 | after any run, a route key points at a connection exactly when the latest write or permission for that key chose it and it has not been closed since |
| RelayRoutes.WriterKeepsEndpoint | ring_relay.go:131-152 | once a connection has written to an endpoint, packets from there reach it until it closes or another open connection of the port writes to the same endpoint, whatever permissions, same-IP writes and refused writes come in between |
| RelayRoutes.ActiveIsOpenList | ring_relay.go:101-106 | the list of active connections is exactly the connections allocated and not closed, in allocation order |
| RelayRoutes.ActiveConns | ring_relay.go:260-262 | a connection is in the list exactly while it is open, no connection is in it twice, and the list is empty exactly when none is open |
| RelayRoutes.NewestIsLast | ring_relay.go:274-284 | the last list element is the most recently allocated open connection, and the only such one |
| RelayRoutes.Dispatch | ring_relay.go:56-78 | a packet goes to the owner of its endpoint, else to the owner of its IP, else to the newest open connection; nothing else in the run matters |
| RelayRoutes.DispatchReachesAnOpenConn | ring_relay.go:46-52 | a packet finds no target exactly when the port has no open connection, and a target is always open |
| RelayRoutes.OwnerIsOpen | ring_relay.go:93-100 | no route survives its connection |
| RelayQueue.QueueIsBacklog | ring_relay.go:162-174 | the queue is what was let in and not yet read, never more than 256 packets, and the closed flag is set exactly after a close |
| RelayQueue.OutcomesAreHistory | ring_relay.go:122-174 | the answer of every operation: a read of an open or closed connection hands over the oldest packet let in and not taken, waits on an open empty queue and fails on a closed one; a delivery is refused after a close, let in while fewer than 256 packets wait, dropped otherwise |
| RelayQueue.ReadsFollowArrivals | ring_relay.go:122-129 | the k-th successful read hands over the k-th packet ever let in, cut to the reader's buffer: reads are a prefix of arrivals |
| RelayQueue.BufferedPacketsSurviveClose | ring_relay.go:145-152 | after a close everything buffered is still read in order, and only then reads fail |
| RelayQueue.DeliveriesAreAccountedFor | ring_relay.go:166-173 | delivered packets are those let in plus those dropped on a full queue plus those refused after the close |
| RelayQueue.ChargedIsArrivedBytes | ring_relay.go:168-170 | the monitor is charged exactly the bytes of the packets let in |
| RelayRing.BuildStopsBelowMax | ring_relay.go:221-229 | the 16-bit loop that builds the ring ends if and only if the upper bound is below 65535 |
| RelayRing.TakeTurn | ring_relay.go:237-238 | stepping the index as the code does keeps attempt number i on node i mod n |
| RelayRing.OccurrencesCount | ring_relay.go:237-238 | after q full laps and t more attempts each node was tried q times, the first t of them once more |
| RelayRing.RoundRobinIsFair | ring_relay.go:236-254 | the numbers of attempts on two ports never differ by more than one |
| RingRelay.VirtualPacketConn.Deliver | ring_relay.go:162-174 | queues the packet, or drops it when full or closed, and reports its bytes to the monitor only when it was queued |
| RingRelay.VirtualPacketConn.ReadFrom | ring_relay.go:122-129 | takes the oldest queued packet; fails only when closed and empty |
| RingRelay.VirtualPacketConn.WriteTo | ring_relay.go:131-143 | an open connection routes the endpoint and its IP to itself and reports the bytes sent; a closed one changes no route |
| RingRelay.VirtualPacketConn.Close | ring_relay.go:145-152 | the first call removes the connection from all routes and from the active list and closes the queue; later calls do nothing |
| RingRelay.RingPortNode.RegisterRoute | ring_relay.go:80-91 | the endpoint and its non-empty IP point at the connection, other keys are unchanged |
| RingRelay.RingPortNode.UnregisterVirtual | ring_relay.go:93-107 | exactly the routes and the list entry of the connection go |
| RingRelay.RingPortNode.DropRoutes | ring_relay.go:96-100 | deleting while ranging removes exactly the keys that point at the connection, in any order |
| RingRelay.RingPortNode.DropActive | ring_relay.go:101-106 | the shift by slicing removes exactly the first occurrence and keeps the order |
| RingRelay.RingPortNode.Attach | ring_relay.go:240-264 | binds the socket on first use, and appends one fresh connection, or leaves the node alone when binding fails |
| RingRelay.RingPortNode.Permit | ring_relay.go:279-284 | points the bare IP at the newest connection, if there is one |
| RingRelay.RingPortNode.Receive | ring_relay.go:25-54 | a packet goes to one open connection of the port, whenever there is one, no other queue changes, and its bytes are reported to the monitor exactly when it was queued |
| RingRelay.RingRelayAddressGenerator.constructor | ring_relay.go:188-199 | swapped bounds are put in order and the ring starts empty |
| RingRelay.RingRelayAddressGenerator.BuildRing | ring_relay.go:220-230 | for an upper bound below 65535 the loop ends with one fresh node for each port from the lower to the upper bound, in order |
| RingRelay.RingRelayAddressGenerator.PickNode | ring_relay.go:236-238 | attempt number i picks the node of port minPort + i mod n |
| RingRelay.RingRelayAddressGenerator.NextConn | ring_relay.go:236-264 | the turn is taken even when binding fails; only the picked node changes and gains at most the new connection |
| RingRelay.RingRelayAddressGenerator.AllocatePacketConn | ring_relay.go:211-265 | other networks are refused without effect, whatever the bounds; otherwise the next port in turn is used, success means its socket is bound, and the new connection is the only addition to any port |
| RingRelay.RingRelayAddressGenerator.RegisterPermission | ring_relay.go:271-288 | only the node with the relay address is told about the peer IP; a nil address or empty IP changes nothing |
| GitToken.TokenFields | git_token.go:16-28 | a printed token splits on the underscore into exactly its expiry, nonce and signature |
| GitToken.TokenRoundTrip | git_token.go:31-65 | a token is accepted for the peer it was printed for until it expires, whatever the HMAC |
| GitToken.ValidateGenerated | git_token.go:31-49 | what accepting a printed token comes down to for any peer and time: a non-empty peer, no expiry, and equal signatures |
| GitToken.TokenBindsPeer | git_token.go:36-49 | unless the HMAC collides on the two texts signed, a token is accepted exactly for peers equal after trimming, exactly until it expires |
| GitToken.OnlyGenuineTokens | git_token.go:31-65 | a token is accepted exactly when it spells an unexpired 64-bit time, a nonce unless it is a legacy token, and the signature over them and the trimmed peer, separated by underscores |
| GitModel.ClaimIsLastToken | git_server.go:467-478 | a peer is claimed exactly while its last issue has not been followed by an unlock or deletion, and its stored hash is that of the token then issued |
| GitModel.LastTokenIsHeld | git_server.go:154-160 | the last token of a peer is the one of its latest issue with no later issue, unlock or deletion |
| GitModel.ReissueNeedsTheLastToken | git_server.go:418-441 | a claimed peer is re-issued only to an administrator or to a presenter of the token issued last |
| GitModel.ClaimEndsByRelease | git_server.go:619-622 | a claim disappears only through an unlock or a deletion of that peer |
| GitModel.OnlyTheLastToken | git_server.go:219-296 | with no other credential, a request for a claimed peer is accepted exactly with the last token, unexpired, not revoked, and not for a repository of another |
| GitModel.OtherTokensAreRefused | git_server.go:247-265 | an HMAC-valid token of a claimed peer other than the last one is refused even beside other credentials, and changes nothing |
| GitModel.ClaimedLogin | git_server.go:249-296 | what a stored hash demands of a request that relies on a token |
| GitModel.OnlyOwnRepositories | git_server.go:227-232 | whatever credentials a request carries short of an administrator's, it gets into "owner/repo" only as owner |
| GitModel.NamespaceIsolates | git_server.go:291-296 | the namespace test lets a user in exactly when the repository, without outer slashes, does not lie below a directory of another name |
| GitHistory.CredentialsAreHistory | git_server.go:402-456 | in every run, the answer to a credentials request: a token exactly when the peer is named, not revoked, and unclaimed, or asked for by an administrator, or by a presenter of the last token in the query or, without one, as bearer; else 400, 403 or 409 |
| GitHistory.AuthenticationIsHistory | git_server.go:219-296 | in every run, a Git request is accepted exactly when it names a user and a password, the user is not revoked, some credential is good, an HMAC-valid token of a claimed peer is the last one, and the repository is not another's or the password is the administrator's |
| GitHistory.RevocationIsHistory | git_server.go:101-192 | request by request, a peer is revoked exactly from its revocation until it is restored or deleted or a restart finds it unclaimed |
| GitHistory.ClaimRecordsHistory | git_server.go:261-262 | a claim records exactly who was issued the token when, until when and from where, and the time of its last use |
| GitHistory.DeletionAnswered | git_server.go:587-625 | a deletion takes claim and revocation of the trimmed namespace and nothing else, exactly when that is a direct child of the root whose directory is gone |
| GitHistory.GoodNamesAreChildren | git_server.go:589-610 | the names refused are exactly those that, walked component by component, are not a direct child of the root, hold a backslash, or begin with two dots |
| GitModel.RunExists | git_server.go:66-74 | every sequence of requests has a run from an empty server |
| GitModel.SoundHashExists | git_token.go:68-72 | for any set of tokens no larger than the set of digests there is a 32-byte hash without collisions among them |
| GitModel.SoundClaimExists | git_server.go:467-478 | the assumptions of the ownership theorems can be met after a first claim of any peer, with any HMAC and any token presented |
| GitModel.IssuedTokenLifetime | git_server.go:450-456 | an issued token passes the HMAC check of its peer exactly until its expiry |
| GitModel.AlwaysConsistent | git_server.go:119-160 | in every run the file equals the claims, keys are trimmed and non-empty, and a claimed peer is revoked in both maps or in neither |
| GitModel.RestartKeepsClaims | git_server.go:101-127 | a restart returns the same claims, and exactly the revoked peers that hold a claim stay revoked |
| GitLocks.RevocationIsStable | git_server.go:101-192 | with requests and restarts interleaved at every critical section, a peer is revoked exactly from its revocation until it is restored or deleted or a restart finds its claim without the flag, and a revoked claim is always listed |
| GitLocks.RevocationsThatSurvive | git_server.go:101-117 | a restart keeps exactly the revocations made while the peer was claimed and not followed by a restoration, an unlock, or the write of a request then in flight |
| GitLocks.FlagIsHistory | git_server.go:130-160 | the flag that reaches the file is exactly the history of the claim: set by a revocation of a claimed peer, gone with a restoration, unlock, deletion or new claim |
| GitLocks.LateWriteIsForgotten | git_server.go:467-478 | a run in which a request in flight writes its claim after the revocation, so that the next restart forgets the revocation |
| GitLocks.RevokedPeersGetNothing | git_server.go:410-416 | a credentials request that starts while its peer is revoked does not get past its first section |
| GitLocks.UninterruptedRequest | git_server.go:402-478 | the three sections of a request, run without interruption, are one request of the coarser model |
| GitLocks.TokenUseIsOneSection | git_server.go:249-264 | the locked section of a Git request is the use of a token of the coarser model |
| GitServer.GitServer.constructor | git_server.go:66-74 | a new process starts in the state the claims file describes |
| GitServer.GitServer.ListRevoked | git_server.go:111-115 | the loop lists exactly the revoked claims |
| GitServer.GitServer.SaveClaimsLocked | git_server.go:119-127 | the file then holds the claims |
| GitServer.GitServer.RevokePeer | git_server.go:130-139 | lists the trimmed peer, flags its claim record if there is one, saves; no other record changes |
| GitServer.GitServer.UnrevokePeer | git_server.go:142-151 | undoes a revocation in both places and saves |
| GitServer.GitServer.UnlockPeerClaim | git_server.go:154-160 | removes the claim and nothing else, and saves |
| GitServer.GitServer.IsPeerRevoked | git_server.go:163-172 | true exactly when the trimmed peer is listed or its claim is flagged |
| GitServer.GitServer.GetRevokedPeers | git_server.go:175-192 | a list without duplicates of exactly the listed peers and those with a flagged claim, which are the peers for which IsPeerRevoked holds |
| GitServer.GitServer.GetPeerClaim | git_server.go:195-204 | a copy of the stored claim, or none |
| GitServer.GitServer.Refuse | git_server.go:402-441 | the answers 400, 403 and 409 in the order of the code, or none of them |
| GitServer.GitServer.HandleGitCredentials | git_server.go:402-478 | refuses as above without effect, or issues a token, replaces the claim record and saves |
| GitServer.GitServer.UseToken | git_server.go:249-264 | refuses a revoked claim or a wrong hash, else stamps the record and saves |
| GitServer.GitServer.AuthenticateRequest | git_server.go:219-296 | the decision and the effect on the claim record |
| GitServer.GitServer.DeleteRepo | git_server.go:587-625 | refuses bad names without effect, else removes claim and revocation of the namespace and saves |
| AuthModel.CleanupIsInvisible | auth.go:86-102 | two runs that differ only in their cleaner steps give the same replies to every session check, rate-limit check, recorded attempt and login |
| AuthModel.CleanupSimulation | auth.go:86-102 | a run and the same run without the cleaner stay indistinguishable and give the same replies |
| AuthModel.AlikeStep | auth.go:176-243 | indistinguishable states give the same reply to every call and stay indistinguishable |
| AuthHistory.SessionsAreHistory | auth.go:223-286 | over whole runs, a session token is good exactly when it was handed out less than 24 hours ago and neither a logout with it nor a password change came since, whatever the cleaner did |
| AuthHistory.RepliesAreHistory | auth.go:155-286 | in every run, the reply to every call follows from the earlier calls and replies: who is locked out and for how long, that the trimmed password must be the last one set (with none or a factory one, either factory one), which failure locks and how many attempts remain, which bearer, basic and cookie credentials are good |
| AuthHistory.LimitsAreHistory | auth.go:176-220 | the counter is the failures since the last lockout or success, and the wait is what is left of five minutes since the last lockout not cleared |
| AuthHistory.PasswordsAccepted | auth.go:155-173 | which candidates a stored password accepts |
| AuthModel.CleanupForgetsTheDead | auth.go:86-102 | a cleaning keeps exactly the sessions not past their expiry and the attempts with failures or a block not yet passed, unchanged |
| AuthHistory.LoginRateBound | auth.go:364-406 | in any half-open five-minute window in which an address neither logs in nor is reset, at most five of its password checks fail |
| AuthHistory.CountersAlwaysBounded | auth.go:194-213 | the stored failure counter of every address is always in 0..4 |
| AuthHistory.FailedChecksArePaid | auth.go:204-212 | failures counted in the window are still in the counter until the address is locked out past the end of the window |
| Auth.AuthManager.constructor | auth.go:50-67 | starts with the trimmed password and no sessions or attempts |
| Auth.AuthManager.SetAdminPassword | auth.go:78-84 | stores the trimmed password and drops all sessions, keeping the attempts |
| Auth.AuthManager.CheckRateLimit | auth.go:176-191 | blocked exactly while the block lies in the future, with the remaining time |
| Auth.AuthManager.RecordFailedAttempt | auth.go:194-213 | counts in the record of this address only; the fifth failure locks for five minutes and resets the counter |
| Auth.AuthManager.RecordSuccessfulAttempt | auth.go:216-220 | forgets the address and nothing else |
| Auth.AuthManager.CreateSession | auth.go:223-243 | adds a session of 24 hours under the drawn token, or nothing when drawing fails |
| Auth.AuthManager.IsAuthenticated | auth.go:246-286 | accepts exactly a good password or live session token as bearer, a good basic password, or a live session cookie |
| Auth.AuthManager.HandleLogin | auth.go:364-420 | the reply and new state of a login, with the checks in the order of the code |
| Auth.AuthManager.HandleLogout | auth.go:433-445 | ends the session of a non-empty cookie and nothing else |
| Auth.AuthManager.CleanupExpired | auth.go:86-102 | both loops, in any order, delete exactly the expired sessions and the spent attempts |
| Auth.AuthManager.DropExpiredSessions | auth.go:91-95 | exactly the sessions past their expiry go |
| Auth.AuthManager.DropStaleAttempts | auth.go:97-101 | exactly the attempts without failures whose block has passed go |
| TurnTraffic.TrafficIsConserved | turn_monitor.go:204-291 | over whole runs and for any iteration order, what the current sessions count, plus what removed and overwritten sessions had counted, plus what no session matched, is everything reported, for bytes and for packets |
| TurnTraffic.EveryEventBalances | turn_monitor.go:61-74 | the same for each single event, of every kind, in any state |
| TurnTraffic.RelayCreditsExactlyOne | turn_monitor.go:217-271 | in every run a relay report made while there are sessions is recorded, with bytes, one packet and the time, in exactly one: one with the reported relay address if there is one, else of the client address if there is one, which then learns the relay address unless it has one; nothing else changes |
| TurnTraffic.LearnedAddressIsFound | turn_monitor.go:244-251 | once a session found by its client has learned a relay address, the next report for that address is recorded in a session that has it |
| TurnTraffic.RawCreditsItsClient | turn_monitor.go:274-291 | in every run a raw report is recorded in exactly one session of its client, if there is one, and nothing else changes |
| TurnTraffic.PacketCreditsItsSession | turn_monitor.go:204-214 | a packet is recorded in the session of exactly its user and address, if there is one |
| TurnSessions.SessionsFollowEvents | turn_monitor.go:61-403 | in every run, what every event does to the session under every key: opens, renews for 60 seconds, closes, counts in it, removes it when its address is blocked, its key revoked, or it is closed and unused for 30 seconds or expired and unused for 2 minutes, or leaves it alone |
| TurnSessions.SessionsAreFiled | turn_monitor.go:131-174 | in every run every session is filed under its own user and address |
| TurnSessions.UserWithColon | turn_monitor.go:122-129 | a user name with a colon is time-limited exactly when a positive 64-bit number stands before the first one |
| TurnSessions.UserWithoutColon | turn_monitor.go:117-140 | any other user gets 60 seconds under the whole name |
| TurnTraffic.TotalSplits | turn_monitor.go:344-350 | the total over all sessions is that of the kept ones plus that of the removed ones |
| TurnTraffic.TotalPut | turn_monitor.go:131-141 | storing a session changes the total by its own count less that of the session it overwrites |
| TurnBlocks.ReputationIsHistory | turn_monitor.go:93-151 | in every run the reputation of an address is what its events mean: failed attempts since the last counted success or unblock, the last failure, the end of the block last set, and the successes |
| TurnBlocks.HandlerAnswered | main.go:1055-1085 | a key is handed out exactly when neither address nor user is shut out and the user is the default one or there is a shared secret; what that records, and that a refusal records nothing |
| TurnBlocks.AbuseBlocks | turn_monitor.go:142-150 | the handler sets a ten-minute block at exactly those failures where that count is at least twenty |
| TurnBlocks.BlocksHold | main.go:1055-1085 | while an address is blocked, and no administrator acts on it, every request of it is refused and leaves the whole monitor as it was |
| TurnBlocks.BansHold | main.go:1055-1085 | for twelve hours after a revocation, whatever happens meanwhile, every request under a name it listed is refused and leaves the whole monitor as it was |
| TurnBlocks.BansAreHistory | turn_monitor.go:365-393 | in every run a user is banned exactly while a revocation of less than twelve hours ago listed the name |
| TurnBlocks.RevokeBansUser | turn_monitor.go:383-393 | revoking the session of a user who is not banned at the time bans that user exactly when neither user nor address contains '@' and the user is not the shared default or empty |
| TurnBlocks.RevokeTargetOfSession | turn_monitor.go:383-386 | the key of a session is taken apart into its user exactly when neither part contains '@' |
| TurnSessions.TokenUserSession | turn_monitor.go:117-140 | a user name made of a positive time and a peer yields a token session of that peer, colons included, that ends at that time |
| TurnMonitor.TurnMonitor.CheckIPBlocked | turn_monitor.go:77-91 | true exactly while the block of the address lies in the future; a nil address is never blocked |
| TurnMonitor.TurnMonitor.IsSessionRevoked | turn_monitor.go:365-373 | true exactly while the ban of the user lies in the future |
| TurnMonitor.TurnMonitor.RecordSuccess | turn_monitor.go:104-141 | a banned user only gets a reputation record; otherwise the counter is reset and a new session replaces the old one |
| TurnMonitor.TurnMonitor.RecordFailure | turn_monitor.go:142-150 | counts in the record of this address only, blocking it from the twentieth failure on |
| TurnMonitor.TurnMonitor.RecordAuthAttempt | turn_monitor.go:94-151 | one of the two, or nothing for a nil address |
| TurnMonitor.TurnMonitor.AuthHandler | main.go:1055-1085 | blocked, then banned, then accepted or refused, with the monitor changed only by the last two |
| TurnMonitor.TurnMonitor.FindByRelay | turn_monitor.go:228-238 | a session with that relay address, or the knowledge that there is none |
| TurnMonitor.TurnMonitor.FindByClient | turn_monitor.go:241-255 | a session of that client address, or the knowledge that there is none |
| TurnMonitor.TurnMonitor.FindAny | turn_monitor.go:257-265 | some session whenever there is one |
| TurnMonitor.TurnMonitor.RecordRelayTraffic | turn_monitor.go:217-271 | credits one session chosen in the order relay address, client address, any; a session found by client learns its relay address |
| TurnMonitor.TurnMonitor.RecordRawTraffic | turn_monitor.go:274-291 | credits one session of the client address, or nothing when there is none |
| TurnMonitor.TurnMonitor.RecordPacket | turn_monitor.go:204-214 | credits exactly the session of that user and address, if there is one |
| TurnMonitor.TurnMonitor.RecordAllocationCreated | turn_monitor.go:154-183 | renews the session for 60 seconds, creating it if need be, and keeps its counters |
| TurnMonitor.TurnMonitor.RecordAllocationDeleted | turn_monitor.go:186-201 | closes that session, and keeps its counters |
| TurnMonitor.TurnMonitor.BlockIP | turn_monitor.go:327-351 | blocks the address, 24 hours by default, keeping its counter, and removes exactly its sessions |
| TurnMonitor.TurnMonitor.UnblockIP | turn_monitor.go:354-362 | clears block and counter of the address and nothing else |
| TurnMonitor.TurnMonitor.RevokeSession | turn_monitor.go:376-403 | bans the key, and the user unless it is the shared default or empty, for 12 hours, and removes exactly the sessions of that key |
| TurnMonitor.TurnMonitor.DropRevoked | turn_monitor.go:395-402 | exactly the sessions under that key or spelling it go; the second loop finds none |
| TurnMonitor.TurnMonitor.DropClient | turn_monitor.go:345-350 | exactly the sessions of that client address go, in any order |
| TurnMonitor.TurnMonitor.CleanupExpired | turn_monitor.go:61-74 | exactly the sessions closed for over 30 seconds, or expired and idle for over 2 minutes, go |
| TrackerModel.LinksAreHistory | tracker.go:133-247 | over whole runs, a peer is in a swarm for a connection exactly when that connection announced it last and no connection ended since then under that peer id |
| TrackerModel.LeavesNothingBehind | tracker.go:90-118 | a connection that ends leaves no link exactly when all its standing announcements were made under its last peer id |
| TrackerModel.NothingOutlivesItsConnection | tracker.go:96-100 | a connection that only ever names one peer leaves no link when it ends |
| TrackerModel.OwnLinksCarryTheName | tracker.go:114-117 | all links of such a connection carry that peer id |
| TrackerModel.SecondNameLeavesALink | tracker.go:114-117 | a connection that announces under two peer ids leaves the first link behind |
| Tracker.SwarmIsKeys | tracker.go:215-222 | the keys of the inner map are exactly the peers linked to the hash |
| Tracker.HashesAreKeys | tracker.go:249-253 | the keys of the outer map are exactly the linked hashes: no empty swarm is kept |
| Tracker.WebTorrentTracker.HandleAnnounce | tracker.go:133-166 | refuses missing fields without effect; otherwise adds one link to both indexes, replies with the size of the swarm, and spreads the offers |
| Tracker.WebTorrentTracker.DistributeOffers | tracker.go:168-195 | in any order, as many messages as there are offers and other peers, to distinct peers, never to the announcer, using the offers in order once each |
| Tracker.WebTorrentTracker.SpreadOver | tracker.go:177-194 | the loop itself, over any swarm |
| Tracker.WebTorrentTracker.ForwardSignal | tracker.go:197-213 | an answer goes to the named peer if it is in the swarm, and to nobody else |
| Tracker.WebTorrentTracker.HandleScrape | tracker.go:215-230 | replies with the number of peers linked to the hash |
| Tracker.WebTorrentTracker.RemovePeer | tracker.go:232-247 | takes out exactly the links of the peer, from both indexes |
| Tracker.WebTorrentTracker.SwarmCount | tracker.go:249-253 | the number of hashes with at least one peer |
| Tracker.WebTorrentTracker.Receive | tracker.go:102-130 | one message: the connection takes the peer id it names, only an announcement changes the links, and the messages sent are those of its action, or none |
| Tracker.WebTorrentTracker.Disconnected | tracker.go:96-100 | the end of a connection removes its last peer id |
| SignalingModel.ValidateIsHistory | main.go:209-233 | a token is accepted exactly when id and token are non-empty and it is the current client's, or was registered for the id less than five minutes ago; the purge never changes an answer |
| SignalingModel.CacheKeeps | main.go:169-181 | a registration is remembered, with its own time or a later one, for at least ten minutes |
| SignalingModel.CacheIsHistory | main.go:173-180 | every cached time is the time of a registration of that token |
| SignalingModel.CacheIsExact | main.go:169-181 | a token is cached exactly with the time of its last registration, unless a later registration of the id found that more than ten minutes old |
| SignalingModel.ClosedIsHistory | main.go:151-158 | the server closes exactly the connections of current clients that a registration or a kick displaces |
| SignalingModel.ClientsAreHistory | main.go:147-200 | a client is current exactly when it registered and no later registration, kick or matching removal displaced it |
| SignalingModel.StaleRemovalsAreHarmless | main.go:191-199 | late removals made for other connections never remove the client that reconnected |
| SignalingModel.ReplacedClientsAreClosed | main.go:151-158 | a registered connection is still the current one, was closed by the server, or was removed by a matching removal |
| Signaling.SignalingServer.AddClient | main.go:147-185 | closes the connection in place, registers the new one, files the token and purges old ones |
| Signaling.SignalingServer.RememberToken | main.go:168-181 | the purge loop, in any order, deletes exactly the tokens of the id that are older than ten minutes |
| Signaling.SignalingServer.RemoveClient | main.go:187-200 | removes the client only on a matching connection and token, nil and empty matching all |
| Signaling.SignalingServer.ValidatePeerToken | main.go:209-233 | the decision above, without effect |
| Signaling.SignalingServer.KickClient | main.go:241-254 | closes and removes the current client of the id, keeping its tokens |
| EnvFile.EnvRoundTrip | config_storage.go:28-94 | loading the saved file into an empty environment gives every setting back under its own name, numbers in decimal and flags as words, if and only if no string field holds a newline, NUL, or outer white space or quotes; '=' is harmless |
| EnvFile.LoadSavedFile | config_storage.go:35-47 | in any environment, a variable already set wins, and every other key gets its value as trimmed and unquoted by the parser |
| EnvFile.LoadAnyFile | config_storage.go:33-47 | for any file, a variable already set stays, and any other takes the first value offered that is not empty |
| EnvFile.ParseAnyLine | config_storage.go:34-42 | any line with '=' that is not a comment offers what stands before the first one, trimmed, as name, and what stands after, trimmed and without quotes at its ends, as value |
| EnvFile.ParseNoEquals | config_storage.go:38-39 | a line without '=' offers nothing |
| EnvFile.ReadBackFixpoint | config_storage.go:42-44 | the parser leaves a value alone exactly when it has no outer white space or quotes |
| EnvFile.FileTextIsContent | config_storage.go:58-94 | trimming the rendered content and adding a newline changes nothing |
| EnvFile.Environment.LoadEnvFile | config_storage.go:28-48 | the loop loads line by line; an unreadable file changes nothing |
| Text.SplitJoin | git_token.go:28-37 | splitting on a separator undoes joining with it |
| Text.JoinSplit | config_storage.go:34-35 | joining undoes splitting, and no piece holds the separator |
| Text.ParseFormat | git_token.go:28-39 | parsing undoes printing on every 64-bit integer |
| Text.ParseIntSpells | git_token.go:39-39 | ParseInt accepts exactly the spellings of 64-bit numbers: a printed number but for a plus sign and leading zeros |
| Text.TrimSplits | git_token.go:36-36 | trimming removes cut characters at the two ends and nothing else |
| Text.TrimUnique | config_storage.go:34-42 | whatever is left between cut characters, if its own ends are clean, is the trimmed string |
| Text.HexInjective | git_token.go:68-72 | hexadecimal text determines the bytes |

## Left out

- Closing a relay generator (ring_relay.go:290): with live connections it takes a lock it already holds and shortens the list it ranges over; nothing is claimed about it.
- RingRelay.RingRelayAddressGenerator.AllocatePacketConn: requires an upper bound below 65535 for the call that builds the ring, because the loop of the code does not end otherwise.
- RingRelay.VirtualPacketConn.WriteTo: one atomic step; a close between its closed check and its route update is not modelled.
- RingRelay.VirtualPacketConn.Deliver: one atomic step; a close between its closed check and its send is not modelled.
- RingRelay.VirtualPacketConn.ReadFrom: a read that blocks on an open, empty queue is a step without effect.
- GitModel.ReissueNeedsTheLastToken: at the grain of whole requests; two first claims that interleave between check and write are only covered by the revocation results of GitLocks.
- GitModel.OnlyTheLastToken: speaks of claimed peers; with no claim stored, any unexpired token that was issued passes, as in the code.
- GitModel.RestartKeepsClaims: writes of the claims file succeed, and JSON returns what was written; write errors, which the code ignores, are not modelled.
- GitServer.GitServer.HandleGitCredentials: how the request yields the peer id, lifetime and client address, and the JSON of the reply, are not modelled; clock readings are in Unix seconds.
- GitServer.GitServer.DeleteRepo: whether the directory could be removed is a parameter; file system paths are reduced to the name check.
- TurnMonitor.TurnMonitor.FindAny: which session the last fallback picks is left open, because the code compares with the current time and so keeps an arbitrary one.
- TurnMonitor.TurnMonitor.BlockIP: the status written to a session record just before it is deleted is not modelled.
- TurnSessions.TokenUserSession: times beyond the range of Go's clock type, which wraps, are plain numbers here.
- TurnTraffic.TrafficIsConserved: counters are unbounded integers, the 64-bit wrap-around of the code is not modelled.
- AuthHistory.LoginRateBound: password checks by Authorization header are not logins and are not rate-limited by the code, so they are not counted.
- The display labels of `GetActiveSessions` (expired, idle, active) and the lists shown on the dashboard: they change no decision.
- Sockets, goroutines, websockets, HTTP, JSON and HTML: library input and output; only the decisions on state are modelled.
- SHA-256, HMAC, random bytes and constant-time comparison: parameters.
- The process environment and file permissions behind the settings file; a refused variable (NUL in a value) stays unset, as in the code.
- The broadcast relay, push manager, GoToSocial proxy, TURN metering, ACME, DuckDNS, Cloud Hub, UPnP, mDNS, TLS, clock sync, updater, wizard and Windows stubs: calls into libraries and the network.
