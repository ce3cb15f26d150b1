# Verification of the UzChat protocols

A Dafny model of the stateful protocols of UzChat: refresh-token sessions, one-time codes and the
password lock on the backend; the single-flight token refresh, the message timeline, the outbox and
the SQLite cache on the mobile client; the Redis protocols that connect backend replicas; ratchet
sessions; and four smaller algorithms. `dafny verify dfyconfig.toml` checks the whole project.

Code that changes state is modelled by classes and methods that do what the source does, branch by
branch. Each method is proved against a step function on values, and the properties of whole runs are
proved about those step functions: a run is a sequence of events, `Run` applies the steps, and the
theorems quantify over all runs. Reducers that compute a new state from an old one (`set(state => ...)`
in the chat store) are functions here, as they are there.

## Files

- `Sessions.dfy`, `Otp.dfy`, `Lockout.dfy`: the three state machines behind the auth service;
  `AuthService.dfy` is the service itself, method by method.
- `RefreshClient.dfy`: any number of single-flight clients, a network that loses and delays, and the
  refresh service; `ApiClient.dfy` is the client module itself.
- `Timeline.dfy`: the message list of one conversation. `Outbox.dfy`: sending, retrying and flushing.
  `Conversations.dfy`: the chat list.
- `MessageCache.dfy`: the cache tables. `CappedCache.dfy`: the cap over any sequence of saves.
  `Retention.dfy`: kept originals and edit history. `Newest.dfy`: the newest elements of a set.
- `Redis.dfy`, `JobLock.dfy`, `Presence.dfy`, `RateLimit.dfy`: keys with a time to live and the
  protocols on them; `RedisServices.dfy` issues the commands.
- `Ratchet.dfy`, `AutoReply.dfy`, `ChatExport.dfy`, `LastSeen.dfy`: one source file each.
- `Base.dfy`, `Arithmetic.dfy`, `Spacing.dfy`: shared vocabulary and counting lemmas.

## Assumptions

- One service call, one socket handler and one multi-command Redis operation is one atomic step.
- All machines share one clock that never runs backwards, and timers fire exactly when they are due.
- JavaScript runs all callers that wait for one refresh before a new one starts, which the client model
  calls `Prompt`. It matters: `RefreshClient.LateCallerExactly` says what a late caller would do, and
  `RefreshClient.DoublePresentation` how one would come about.
- A flush of the outbox overlaps neither another flush nor a retry of one of its entries by hand. The code does not
  see to that; `Outbox.OverlapDoubles` states what it would cost.
- Random identifiers (`jti`, session ids, local message ids) are fresh; they come from a counter.
- Keys, hashes and sealed boxes are symbols: hashing is injective, Diffie-Hellman is commutative and
  a box opens under its own key. Nothing is claimed about secrecy.
- Texts that only have to be compared are numbers or strings; ISO times are numbers of milliseconds.
- Where SQL leaves the order of equal times open, the cache model breaks the tie by id. The statement
  about the cap (`CappedCache.CacheHoldsNewest`) asks for different times inside one conversation and does not depend on it.

## Where the code does less than one might expect

Each of these is a lemma with the exact condition.

- A successful verification deletes only the newest code, so an older unexpired code decides the next
  verification (`Otp.OlderCodeReturns`, reached in `Otp.TwoCodesAccepted`).
- `loadMessages` paints the cached messages it read while the list was empty without looking at the list
  again, so a message that was sent in between leaves the list (`Timeline.UnsentStays`, with the reachable
  input `Timeline.PaintLosesUnsent`).
- An edit on this device replaces the listed message by the bare server copy, without the texts it showed
  before (`Timeline.TrailKeptExactly`, with the run `Timeline.EditHereLosesText`).
- An older page repeats a message exactly if it lands on a list that already shows one of its messages
  (`Timeline.UniqueExactly`, with the reachable input `Timeline.OlderPageUnderWay` and
  `Timeline.LateArrivalDuplicates`). The usual ways there are overlapping page loads and late events.
- A flush removes an entry before it sends it, so an entry is lost exactly if its conversation is not
  loaded or its key cannot be unwrapped at its turn (`Outbox.LostExactly`, with the reachable input
  `Outbox.FlushAtStartLoses`); a retry by hand is the same (`Outbox.RetryExactly`). It sends its snapshot: an
  entry that is discarded before its turn is sent all the same (`Outbox.EntryPlaced`).
- Clearing a history up to a moment takes the whole conversation out of the outbox, though its recent unsent
  messages stay on the list (`Outbox.RemovalExactly`).
- A ratchet turn does not set `receiveMessageNumber` to zero, unlike sections 3.4 and 3.5 of "The Double
  Ratchet Algorithm": its first message opens exactly if the counter was zero (`Ratchet.TurnDelivers`), which
  it no longer is once each side has heard the other (`Ratchet.ThirdMessageFails`). A late packet of a chain before
  the last one turns the ratchet again and puts the roots out of step (`Ratchet.MoveInStepExactly`).
  A message older than the counter moves the counter back and leaves the chain key
  (`Ratchet.DecryptOnChain`).
- The export loses messages exactly if a page boundary falls between two equal timestamps
  (`ChatExport.ExportsEverything`, as in `ChatExport.TieAtBoundaryLoses`).
- The lock of a job with an interval under five seconds outlives the interval (`JobLock.TtlFitsInterval`,
  `JobLock.ShortIntervalsSkip`).
- Blocks hide who is online but not the last-seen time (`LastSeen.LastSeenMatchesOnline`, with the table
  `LastSeen.BlockedViewerSeesTime`).

## Model

| member | source | states |
|---|---|---|
| Sessions.RedeemableExactly | backend/src/modules/auth/auth.service.ts:309-352 | a refresh succeeds if and only if the token is the current one of a stored, unrevoked, unexpired session of an existing user |
| Sessions.RetiredExactly | backend/src/modules/auth/auth.service.ts:309-395 | a current token stops being current at exactly the listed calls (its own redemption, a covering revocation, a replay by the same user, cleanup after expiry) and is then spent |
| Sessions.SpentForever | backend/src/modules/auth/auth.service.ts:309-395 | no call revives a spent token |
| Sessions.RedeemedAtMostOnce | backend/src/modules/auth/auth.service.ts:309-352 | over every run each refresh token is redeemed at most once |
| Sessions.OneRedeemablePerSession | backend/src/modules/auth/auth.service.ts:57-73 | two redeemable tokens belong to different sessions, after every run |
| Sessions.NothingSurvivesRevokeAll | backend/src/modules/auth/auth.service.ts:563-571 | no token signed before a reset, ban or admin revocation of its user is ever redeemed afterwards |
| Sessions.ReuseRevokesFamily | backend/src/modules/auth/auth.service.ts:326-334 | presenting a redeemed token again while its row is stored takes the replay branch and leaves the user no redeemable token |
| Sessions.CurrentUntilRetired | backend/src/modules/auth/auth.service.ts:309-395 | a token handed out is still current later if and only if nothing in between retired it |
| Sessions.UsableExactly | backend/src/modules/auth/auth.service.ts:309-352 | a token handed out by a login or refresh is good for one refresh within its time to live: it succeeds if and only if nothing has ended the token meanwhile, its user exists and the time, in whole seconds, is not over; after that it is refused |
| Sessions.HandedOut | backend/src/modules/auth/auth.service.ts:57-73 | such a token is new, belongs to the user and the session it was asked for, and opens that session for a full time to live |
| Sessions.CleanupExactly | backend/src/jobs/sessionCleanup.ts:15-22 | a cleanup leaves exactly the sessions that are neither revoked nor expired, as they were |
| Sessions.StepInv | backend/src/jobs/sessionCleanup.ts:15-22 | every call, cleanup included, keeps rows, signed tokens and fresh ids consistent, and no signed token is forgotten |
| AuthService.Service.IssueTokens | backend/src/modules/auth/auth.service.ts:57-73 | opens a session row with a fresh token as the session model's issue step |
| AuthService.Service.Refresh | backend/src/modules/auth/auth.service.ts:309-352 | the session model's refresh step: rejection, replay, unknown user, rotation |
| AuthService.Service.Logout | backend/src/modules/auth/auth.service.ts:354-359 | revokes exactly the unrevoked row holding this token |
| AuthService.Service.RevokeSession | backend/src/modules/auth/auth.service.ts:376-383 | revokes one's own active session, or answers not found and changes nothing |
| AuthService.Service.RevokeOtherSessions | backend/src/modules/auth/auth.service.ts:385-395 | the two queries together revoke everything of the user but the current session |
| AuthService.Service.SendCode | backend/src/modules/auth/auth.service.ts:89-101 | cooldown and insertion are the code model's request step |
| AuthService.Service.RequestRegistrationOtp | backend/src/modules/auth/auth.service.ts:130-150 | refuses a registered phone untouched, otherwise one request step |
| AuthService.Service.RequestKnownPhoneOtp | backend/src/modules/auth/auth.service.ts:242-256 | silent and without effect for unknown phones, otherwise one request step; the password-reset request is the same code |
| AuthService.Service.RequestPhoneChange | backend/src/modules/auth/auth.service.ts:397-415 | refuses one's own and other users' phones untouched, otherwise one request step on the new phone |
| AuthService.Service.RequestTwoFactorRecovery | backend/src/modules/auth/auth.service.ts:455-476 | without a two-factor hash no effect, otherwise one request step on the user's phone |
| AuthService.Service.CheckCode | backend/src/modules/auth/auth.service.ts:155-171 | expiry, exhausted attempts, wrong code and right code as in the code model, with the attempt recorded |
| AuthService.Service.VerifyOtpAndRegister | backend/src/modules/auth/auth.service.ts:152-191 | one verification step that goes through only if phone and name are still free; then the user exists, the code is gone and a session is open, otherwise nothing else changed |
| AuthService.Service.VerifyLoginOtp | backend/src/modules/auth/auth.service.ts:258-286 | one verification step; a success opens a session and clears the lock |
| AuthService.Service.VerifyPhoneChange | backend/src/modules/auth/auth.service.ts:417-451 | one verification step that goes through only if the phone is still free and the account still exists, and then moves the unique phone |
| AuthService.Service.RecoverTwoFactor | backend/src/modules/auth/auth.service.ts:478-520 | one verification step; a success removes the two-factor hash and opens a session |
| AuthService.Service.ResetPassword | backend/src/modules/auth/auth.service.ts:541-578 | one verification step; a success revokes every session of the user, a refusal touches none |
| AuthService.Service.Login | backend/src/modules/auth/auth.service.ts:193-240 | unknown and banned users change nothing; otherwise one step of the lock, and a session only for a right password without a second factor |
| AuthService.Service.VerifyTwoFactor | backend/src/modules/auth/auth.service.ts:288-307 | a session only for a user with a second factor and the right cloud password |
| AuthService.Service.BanUser | backend/src/modules/admin/admin.service.ts:299-316 | refuses unknown users and administrators without effect, otherwise bans the user and revokes all sessions |
| AuthService.Service.CleanUp | backend/src/jobs/sessionCleanup.ts:15-35 | the cleanup steps of the three models, together |
| AuthService.CheckThenDrop | backend/src/modules/auth/auth.service.ts:155-187 | checking a code and later deleting its row is one verification that goes through, and nothing else happens to the table |
| RefreshClient.NeverPresentedTwice | mobile/src/api/client.ts:34-63 | with lost and delayed messages and any number of clients, no refresh token is sent twice by anyone |
| RefreshClient.ReplayOnlyAfterItsEnd | backend/src/modules/auth/auth.service.ts:326-334 | a client's refresh is treated as a replay only after something ended that token's own session: a logout with it, a revocation covering its session, or an earlier replay by the same user |
| RefreshClient.ReplayOnlyAfterRevocation | mobile/src/api/client.ts:79-92 | so the replay branch is taken for a client only after a logout, session revocation, reset or ban of that same user |
| RefreshClient.LateCallerExactly | mobile/src/api/client.ts:55-63 | while a refresh runs, a caller that continues lets the next caller send the same token again if and only if it had waited for an earlier refresh |
| RefreshClient.ExecInv | mobile/src/api/client.ts:34-63 | every allowed run keeps at most one refresh in flight per client, stored tokens unpresented and unprocessed requests current |
| RefreshClient.StoredIsLastGiven | mobile/src/api/client.ts:34-49 | over every run, with any losses and delays, a client holds exactly the token of its last login or of the last reply that reached it, and none after a failure |
| RefreshClient.RoundRenews | mobile/src/api/client.ts:55-63 | any number of callers share one request; if the service accepts it they leave the client with a new redeemable token of the same session, ready for the next round, and every other client as it was |
| ApiClient.Client.AwaitRefresh | mobile/src/api/client.ts:56-63 | joins the refresh in flight or starts one, which sends the stored token if there is one |
| ApiClient.Client.RefreshAccessToken | mobile/src/api/client.ts:34-49 | a new refresh takes the stored token, or sends nothing without one |
| ApiClient.Client.Settle | mobile/src/api/client.ts:40-48 | a reply stores the new tokens, any failure clears them |
| ApiClient.Client.Resume | mobile/src/api/client.ts:59-62 | a caller continuing after its refresh clears the shared promise |
| ApiClient.Client.OnUnauthorized | mobile/src/api/client.ts:79-82 | a request waits for a refresh on its first 401 only |
| ApiClient.Client.AfterRefresh | mobile/src/api/client.ts:83-92 | the caller clears the shared promise and resends its request with the new token, or signs out without one |
| ApiClient.Client.OnForbidden | mobile/src/api/client.ts:70-77 | a ban clears the stored tokens and signs out, any other 403 changes nothing |
| ApiClient.Client.Exchange | mobile/src/api/client.ts:79-92 | what the interceptor's steps do to a request from its first sending on, while nobody else uses the client |
| ApiClient.SentAtMostTwice | mobile/src/api/client.ts:79-92 | such an exchange sends its request at most twice, the second time exactly after a first 401 and a refresh that yields tokens |
| Otp.StoredCodes | backend/src/modules/auth/auth.service.ts:89-101 | over every run the stored codes of a phone are 60 s apart, at most six are unexpired and none has more than five wrong guesses |
| Otp.GuessBudget | backend/src/modules/auth/auth.service.ts:155-171 | a run of length T without a success records at most 5 * (1 + T / 60 s) wrong guesses |
| Otp.OlderCodeReturns | backend/src/modules/auth/auth.service.ts:186 | after a success the code before decides: it is accepted if and only if it matches, is unexpired and has attempts left |
| Otp.TwoCodesAccepted | backend/src/modules/auth/auth.service.ts:89-101 | it happens from an empty table: two codes requested a minute apart are both accepted, the newer first |
| Otp.CleanupUnobservable | backend/src/jobs/sessionCleanup.ts:23-25 | a run with cleanups anywhere gives the same answers as the run without them and stays related to it |
| Otp.RelatedStep | backend/src/jobs/sessionCleanup.ts:23-25 | the bisimulation step: related tables answer every call alike and stay related |
| Otp.RequestShape | backend/src/modules/auth/auth.service.ts:89-101 | in reachable tables the cooldown looks at the row created last, and keeps the spacing |
| Otp.VerifyShape | backend/src/modules/auth/auth.service.ts:155-187 | in reachable tables a verification reads, counts on and deletes only the row created last |
| Otp.RequestsExactly | backend/src/modules/auth/auth.service.ts:89-101 | over every run with cleanups anywhere a code is sent unless the last one that was not used up was sent less than a minute ago |
| Otp.VerificationsExactly | backend/src/modules/auth/auth.service.ts:155-187 | over every such run a verification is decided by the last code that was sent and not accepted yet: its age, the wrong guesses it has seen, and whether it matches |
| Otp.CleanupExactly | backend/src/jobs/sessionCleanup.ts:23-25 | a cleanup leaves exactly the codes of the last five minutes, in order |
| Lockout.NothingEvaluatedWhileLocked | backend/src/modules/auth/auth.service.ts:205-209 | after the locking failure every login within 15 minutes is turned away without effect, unless a code login came between |
| Lockout.WrongPasswordBudget | backend/src/modules/auth/auth.service.ts:205-226 | a run of length T without success evaluates at most 5 * (1 + T / 15 min) wrong passwords, with cleanup interleaved anywhere |
| Lockout.AnswersExactly | backend/src/modules/auth/auth.service.ts:205-226 | over every run a login is turned away if and only if five wrong passwords have been evaluated since the last success or clearing cleanup and the last is under 15 minutes old; any other login succeeds exactly with the right password; the counter is the number of those wrong passwords |
| Lockout.SuccessResets | backend/src/modules/auth/auth.service.ts:224-226 | after any success by password or code the account has all its attempts again |
| RedisServices.RunExclusive | backend/src/utils/jobLock.ts:23-37 | with Redis up it runs exactly if the lock key was not live, and then holds it; when Redis is absent or fails it runs and leaves the store alone |
| JobLock.RunsAtLeastTtlApart | backend/src/utils/jobLock.ts:23-37 | runs of a job are at least the time to live apart, whatever the phases of the replicas |
| JobLock.RunsWithinOneInterval | backend/src/utils/jobLock.ts:43-59 | for intervals of at least 5 s the next run comes no later than one interval while the winner lives |
| JobLock.NextRunWithWinnerAlive | backend/src/utils/jobLock.ts:43-59 | for every interval the next run comes within as many intervals as cover the time to live |
| JobLock.NextRunWithWinnerDead | backend/src/utils/jobLock.ts:43-59 | if the winner dies and another started replica lives, the next run comes before ttl + interval |
| JobLock.TtlFitsInterval | backend/src/utils/jobLock.ts:49 | the lock expires by the holder's next tick if and only if the interval is at least 5 s |
| JobLock.ShortIntervalsSkip | backend/src/utils/jobLock.ts:49 | for shorter intervals any two runs are more than one interval apart |
| RedisServices.PresenceService.AddConnection | backend/src/services/presence.service.ts:39-50 | count, time to live and online key as one step; nothing without Redis |
| RedisServices.PresenceService.RemoveConnection | backend/src/services/presence.service.ts:52-67 | decrements and deletes both keys at zero or below; answers yes without Redis |
| RedisServices.PresenceService.RefreshConnection | backend/src/services/presence.service.ts:69-76 | renews a live counter and sets the online key |
| RedisServices.PresenceService.IsOnline | backend/src/services/presence.service.ts:98-107 | yes if and only if the online key is live |
| RedisServices.PresenceService.CheckSocketRateLimit | backend/src/services/presence.service.ts:251-262 | the limiter step, allowed without Redis |
| RedisServices.SocketServer.IsUserOnline | backend/src/sockets/index.ts:41-44 | local sockets first, then the shared key |
| RedisServices.SocketServer.HandleConnection | backend/src/sockets/index.ts:142-150 | with Redis up the cluster's connect step and its announcement; without, the node decides alone |
| RedisServices.SocketServer.Heartbeat | backend/src/sockets/index.ts:147-150 | the cluster's heartbeat step |
| RedisServices.SocketServer.HandleDisconnect | backend/src/sockets/index.ts:249-254 | with Redis up the cluster's disconnect step and its announcement; without, the node decides alone |
| Presence.NeverUndercounted | backend/src/services/presence.service.ts:39-76 | with crashes and timely heartbeats the counter never falls below the live sockets and a connected user reads online |
| Presence.OfflineAfterTtl | backend/src/services/presence.service.ts:39-76 | a user without live sockets reads offline at most 300 s after the last was gone |
| Presence.PresenceExact | backend/src/sockets/index.ts:142-150 | without crashes online if and only if a socket is live anywhere; first and last socket, and no others, are announced |
| Presence.DisconnectExact | backend/src/services/presence.service.ts:52-67 | removing a connection answers yes exactly for the last socket in the cluster |
| Presence.AnnouncedExactly | backend/src/sockets/index.ts:142-254 | whatever the shared keys hold, a connection is announced exactly if its node has no other socket of the user and the online key is not live, its end exactly if its node has no other and the counter counts no other |
| RateLimit.AtMostTwiceTheLimit | backend/src/services/presence.service.ts:251-262 | any 60 s interval holds at most twice the limit of accepted calls |
| RateLimit.AllowedExactly | backend/src/services/presence.service.ts:251-262 | a call is allowed if and only if it is among the first calls of its window, which starts with the first call after the window before |
| RateLimit.ModerateCallerAllowed | backend/src/services/presence.service.ts:251-262 | a caller with fewer calls than the limit in the last minute is never refused |
| Timeline.UniqueExactly | mobile/src/store/chatStore.ts:583-607 | in every interleaving message ids stay unique throughout if and only if every older page lands on a list without any of its messages |
| Timeline.UniqueStep | mobile/src/store/chatStore.ts:572-606 | no other step than that landing can list a message twice |
| Timeline.OrderlyIsUnique | mobile/src/store/chatStore.ts:583-607 | clients that request older pages from the oldest listed message and let nothing older join meanwhile never list a message twice |
| Timeline.LateArrivalDuplicates | mobile/src/store/chatStore.ts:1813-1841 | an event for a message of an older page on its way duplicates that message |
| Timeline.OlderPageUnderWay | mobile/src/store/chatStore.ts:583-592 | a concrete run that reaches such a state |
| Timeline.UnsentStays | mobile/src/store/chatStore.ts:540-755 | over every run without its own success, discard, hide or removal of its history, a pending or failed message stays as written if and only if no cached messages read while the list was empty are painted over it; painted over, it never comes back |
| Timeline.SafeWithoutPendingPaint | mobile/src/store/chatStore.ts:540-555 | a message on the list while no read cached messages wait to be painted survives every such run |
| Timeline.PaintLosesUnsent | mobile/src/store/chatStore.ts:542-553 | a concrete run that loses one: the first load reads the cache, the user sends, the cache is painted |
| Timeline.UnsentStep | mobile/src/store/chatStore.ts:540-579 | no other step drops or changes an unsent message; the painting of cached messages over a list that is no longer empty always does |
| Timeline.RemovedStep | mobile/src/store/chatStore.ts:773-781 | each of the listed removals does remove it |
| Timeline.SendSucceeds | mobile/src/store/chatStore.ts:716-731 | after the POST reply the local copy is gone and the server's is listed once, whether or not its event came first |
| Timeline.ReplayLeavesList | mobile/src/store/chatStore.ts:1813-1921 | a repeated socket event or reply leaves the list as the first left it |
| Timeline.TrailKeptExactly | mobile/src/store/chatStore.ts:1039-1066 | the exact conditions under which a deletion, an edit event or an edit on this device keeps every text a message showed, and its star |
| Timeline.EditHereLosesText | mobile/src/store/chatStore.ts:1039-1066 | a concrete run in which an edit on this device loses the text before it |
| Timeline.EditsKeepTrail | mobile/src/store/chatStore.ts:1904-1918 | edit events alone, with the history on, leave the full sequence of different texts in order, and the star |
| Timeline.NewestPageShown | mobile/src/store/chatStore.ts:570-580 | the page the server gave is what is shown when it lands, whatever happened meanwhile: its messages in its order and versions are the server messages listed, the unsent ones follow in their old order, and nothing else is listed |
| Timeline.OlderPageShown | mobile/src/store/chatStore.ts:583-607 | an older page is on top of the list when it lands, and the list goes on below it as it was |
| Timeline.CachedPageShown | mobile/src/store/chatStore.ts:540-553 | what is painted is what was read from the cache while the list was empty |
| Timeline.FailedLoadShowsNothing | mobile/src/store/chatStore.ts:556-563 | a load that fails shows nothing, then or later |
| Timeline.OlderStartsExactly | mobile/src/store/chatStore.ts:583-606 | scrolling up starts a load if and only if the list is not empty and the last page that landed, newest or older, had exactly 30 messages; after a cleared history it starts none |
| Timeline.ShownExactly | mobile/src/store/chatStore.ts:644-755 | what a send, its end and every event about one message leave on the list: a new message at the end, a reply in the place of its local copy, any other change only where the message is |
| Timeline.ChangedExactly | mobile/src/store/chatStore.ts:1843-1921 | what the edited or deleted message itself is afterwards |
| Timeline.RemovesExactly | mobile/src/store/chatStore.ts:1405-1434 | the removals take exactly the messages they name off the list, sent or not, and keep the others in order |
| Outbox.ChatStore.SendTextMessage | mobile/src/store/chatStore.ts:644-757 | the two halves of a send one after the other; it throws unless the conversation is ready and the server accepts |
| Outbox.ChatStore.BeginSend | mobile/src/store/chatStore.ts:644-713 | throws without effect if the conversation is not loaded or its key cannot be unwrapped; otherwise the message appears last in its conversation under a new local id |
| Outbox.ChatStore.ConfirmSent | mobile/src/store/chatStore.ts:719-731 | the server's copy takes the place of the local one unless it is listed already, and the conversation is put back on the chat list |
| Outbox.ChatStore.SendFailed | mobile/src/store/chatStore.ts:732-755 | the second half without acceptance: queued if the server did not answer, and marked failed either way |
| Outbox.ChatStore.RetryFailedMessage | mobile/src/store/chatStore.ts:759-771 | acts only on a failed message with text: discards it and sends it again |
| Outbox.ChatStore.DiscardFailedMessage | mobile/src/store/chatStore.ts:773-781 | removes the message from the outbox and the list |
| Outbox.ChatStore.FlushOutbox | mobile/src/store/chatStore.ts:1750-1770 | flushes exactly the entries queued at its start, oldest first, one after the other |
| Outbox.FlushConserves | mobile/src/store/chatStore.ts:1750-1770 | in a flush of the whole outbox each entry whose conversation is loaded ends up in exactly the place its own POST decides, unchanged, under its own new id; every other entry gets no id; none keeps anything under its old one |
| Outbox.EntryPlaced | mobile/src/store/chatStore.ts:1750-1770 | from its turn on each entry is in exactly one place, decided by its first answer, while other sends begin and end, the chat list is reloaded and the user discards, hides, clears or drops anything else; before its turn nothing stops it, not even its own discard |
| Outbox.IdsIncrease | mobile/src/store/chatStore.ts:1750-1770 | different entries get different, increasing ids |
| Outbox.OldIdGone | mobile/src/store/chatStore.ts:1755-1757 | once an entry is flushed, its old local id is neither queued nor shown, waiting or posted |
| Outbox.RequeuedInOrder | mobile/src/storage/messageCache.ts:179-190 | entries queued again come back from the outbox in the order of the pass |
| Outbox.LostExactly | mobile/src/store/chatStore.ts:1755-1767 | in such a pass an entry that the user does not take away after its turn gets an id and is somewhere under it at the end if and only if its conversation is loaded, with an unwrappable key, at its turn; otherwise its turn only removes it and nothing of it is left |
| Outbox.RemovalExactly | mobile/src/store/chatStore.ts:1405-1434 | the exact effect of discarding, hiding, clearing and dropping on a message: what survives, where, and whether it is still queued; clearing up to a moment takes recent unsent messages out of the outbox and leaves them on the list |
| Outbox.OverlapDoubles | mobile/src/store/chatStore.ts:1750-1770 | a row flushed twice by overlapping passes is under two ids, and each of its POSTs decides for itself |
| Outbox.FlushAtStartLoses | mobile/src/store/chatStore.ts:1750-1770 | a concrete loss: an app that starts with a queued entry and connects before its conversations are loaded |
| Outbox.RetryExactly | mobile/src/store/chatStore.ts:759-771 | a retry moves a failed message with text unchanged to a new id and the place its POST decides if and only if the conversation is ready, and otherwise just removes it |
| Outbox.RetryFinds | mobile/src/store/chatStore.ts:759-763 | there is something to send again if and only if the message is listed as failed and has a text |
| Outbox.AcceptedIsShown | mobile/src/store/chatStore.ts:719-731 | after an accepted send the server's message is on the list, once, instead of the local copy; every other item keeps its place and version, and other conversations stay as they were |
| Outbox.FailureIsShown | mobile/src/store/chatStore.ts:732-755 | a send that is not accepted is marked as failed where it is listed, queued exactly if there was no answer, and changes nothing else |
| Outbox.SentIsShown | mobile/src/store/chatStore.ts:644-757 | a whole send adds its message, or the server's copy of it, once at the end of its conversation and leaves every listed message in its place |
| Outbox.FlushShows | mobile/src/store/chatStore.ts:1750-1770 | after a pass every message accepted in it is listed in its conversation, once, and every message that no entry stood for keeps its order and version, before all that the pass added |
| Outbox.ActsOnTimelines | mobile/src/store/chatStore.ts:644-781 | every act does to the list of every conversation what the events it stands for do to its timeline, and nothing to the others |
| Outbox.ReadyExactly | mobile/src/store/chatStore.ts:1436-1455 | exactly a loaded chat list, a dropped conversation and an accepted send decide whether a conversation is loaded |
| Conversations.UpsertKeepsList | mobile/src/store/chatStore.ts:381-388 | the touched conversation goes on top of its group; pinned stay first, the others keep their order, nothing is duplicated |
| MessageCache.MessageCache.SaveMessages | mobile/src/storage/messageCache.ts:122-146 | the insert loop and the cap as one table function; an empty batch changes nothing |
| MessageCache.MessageCache.GetMessages | mobile/src/storage/messageCache.ts:111-120 | exactly the newest `limit` rows of the conversation, each once, oldest first |
| MessageCache.DeletionIsExact | mobile/src/storage/messageCache.ts:154-162 | after the deletion of a conversation the reads give nothing of it, and of every other conversation exactly what they gave before; its kept originals are gone, and no others |
| MessageCache.OutboxAfterDeletion | mobile/src/storage/messageCache.ts:154-162 | a flush then goes over the same entries in the same order, without those of the conversation |
| MessageCache.MessageDeletionIsExact | mobile/src/storage/messageCache.ts:148-152 | after the deletion of one message the reads give it no more, and every other message they gave still |
| MessageCache.MessageCache.AddToOutbox | mobile/src/storage/messageCache.ts:164-176 | inserts or replaces the entry under its local id |
| MessageCache.MessageCache.GetOutbox | mobile/src/storage/messageCache.ts:178-190 | every entry once, in the order written |
| MessageCache.MessageCache.RemoveFromOutbox | mobile/src/storage/messageCache.ts:192-196 | removes one entry |
| MessageCache.MessageCache.KeepDeletedOriginal | mobile/src/storage/messageCache.ts:203-220 | copies the cached row if it is readable and none is kept yet |
| MessageCache.MessageCache.KeepEditVersion | mobile/src/storage/messageCache.ts:234-252 | copies the cached row if it is readable, another version, and none is kept under that edit time |
| MessageCache.MessageCache.GetEditHistory | mobile/src/storage/messageCache.ts:255-269 | per message exactly its stored versions in order of edit time, and no message is missing |
| CappedCache.Apply | mobile/src/storage/messageCache.ts:122-162 | each call of the cache is one change of the model of its messages |
| CappedCache.CacheHoldsNewest | mobile/src/storage/messageCache.ts:122-162 | after any saves, deletions of conversations and logouts, a message is cached if and only if it was saved since the last deletion of its conversation and fewer than 300 saved since then are newer, in the version written last |
| CappedCache.CacheIsTrimmed | mobile/src/storage/messageCache.ts:122-162 | capping after every save equals writing everything, forgetting what was deleted, and capping once, in every conversation |
| CappedCache.ShownFromCache | mobile/src/storage/messageCache.ts:111-120 | the newest `limit` of the cache are the newest `limit` of everything saved and not deleted |
| CappedCache.DeletedUntilSaved | mobile/src/storage/messageCache.ts:154-162 | a deleted conversation, and every one after a logout, stays out of the cache until something is saved for it again |
| Newest.TopIncremental | mobile/src/storage/messageCache.ts:134-143 | keeping the newest k before adding more does not change the newest k of all |
| Newest.TopSize | mobile/src/storage/messageCache.ts:134-143 | the cap keeps exactly k messages, or all if there are fewer |
| Newest.TopIsNewest | mobile/src/storage/messageCache.ts:134-143 | whatever the cap keeps is newer than whatever it drops |
| Retention.RetentionIsExact | mobile/src/storage/messageCache.ts:203-269 | for in-order streams with duplicates and gaps the edit history is exactly the earlier delivered versions in order, and the kept original the last version before the deletion, for other people's messages only |
| Retention.ReplayChangesNothing | mobile/src/store/chatStore.ts:1843-1894 | handling any event or page twice leaves all tables as handling it once does |
| Retention.SnapshotRetentionFromFetch | mobile/src/store/chatStore.ts:273-285 | the loop over a fetched page, with its early return, is the page snapshot function |
| Retention.Handle | mobile/src/store/chatStore.ts:1843-1894 | each handler snapshots before it overwrites |
| Retention.OneRule | mobile/src/store/chatStore.ts:273-285 | on events as the server sends them the four ways a version arrives have one and the same effect |
| Retention.StreamHolds | mobile/src/storage/messageCache.ts:203-252 | what the tables hold about one message after an in-order stream of its versions |
| Retention.SettingsDecide | mobile/src/store/chatStore.ts:273-285 | each setting decides about its own log alone: with it the log is what it is with both on, without it nothing is added; the cached messages do not depend on the settings |
| Retention.MissingTimeIsNow | mobile/src/store/chatStore.ts:1843-1894 | an edit or deletion that does not say when it happened is logged under the clock of the device |
| Ratchet.SessionManager.RatchetEncrypt | mobile/src/crypto/sessionManager.ts:103-136 | one encryption step, or no session |
| Ratchet.SessionManager.RatchetDecrypt | mobile/src/crypto/sessionManager.ts:138-189 | turn, catch-up loop and opening as one step; the session moves even if the box does not open |
| Ratchet.DecryptOnChain | mobile/src/crypto/sessionManager.ts:169-189 | on a chain a message opens if and only if it is not behind the counter, and the receiver stays on the chain if and only if it is at most one behind |
| Ratchet.LossyChainDelivers | mobile/src/crypto/sessionManager.ts:112-129 | any increasing choice of the messages of a chain opens to the texts sent, whatever is lost |
| Ratchet.TurnAgrees | mobile/src/crypto/sessionManager.ts:149-167 | a turn gives the receiver the peer's chain from its start and the roots are in step again |
| Ratchet.MoveInStepExactly | mobile/src/crypto/sessionManager.ts:149-167 | whichever packet arrives, the roots stay in step if and only if it belongs to the chain its hearer receives on or to the peer's newest chain |
| Ratchet.InStepExactly | mobile/src/crypto/sessionManager.ts:149-167 | over any number of turns and messages the roots are in step throughout if and only if every packet was timely in that sense |
| Ratchet.LatePacketBreaks | mobile/src/crypto/sessionManager.ts:149-167 | a packet of a chain before the last one, arriving late, makes its hearer turn again and puts the roots out of step |
| Ratchet.EveryTurnAgrees | mobile/src/crypto/sessionManager.ts:37-46 | after any such conversation the next turn gives the receiver the peer's chain from its start |
| Ratchet.TurnDelivers | mobile/src/crypto/sessionManager.ts:149-167 | the message that causes a turn opens if and only if the receive counter was zero |
| Ratchet.ThirdMessageFails | mobile/src/crypto/sessionManager.ts:149-189 | from any talk in step, after two messages that were heard at once the reply to the second does not open |
| Ratchet.HeadersAnnounceChain | mobile/src/crypto/sessionManager.ts:112-129 | after a turn every packet carries the new key, its number from zero on, how many messages its sender had sent on the chain before, and a nonce of its own |
| AutoReply.Responder.MaybeAutoReply | mobile/src/utils/autoReply.ts:60-84 | the checks in order, with cached settings and contacts, and the log written before the reply |
| AutoReply.Responder.FetchSettings | mobile/src/utils/autoReply.ts:23-30 | settings are asked for again only after a minute |
| AutoReply.Responder.CheckContact | mobile/src/utils/autoReply.ts:32-38 | contacts are asked for again only after five minutes |
| AutoReply.ReplyLog | mobile/src/utils/autoReply.ts:77-83 | a reply needs four hours since the logged one and logs its own time; nothing else touches the log |
| AutoReply.RepliesExactly | mobile/src/utils/autoReply.ts:60-84 | a reply goes out if and only if the chat is direct and not with oneself, the message is another's and no system one, the settings held exist, are enabled, have a text and are in their schedule, strangers-only meets no contact, and four hours have passed; its text is the configured one |
| AutoReply.EveryReply | mobile/src/utils/autoReply.ts:23-84 | over every sequence of calls the same with settings the server had less than a minute before, contacts it had less than five minutes before, and the replies of the last four hours |
| AutoReply.DeliveryAnswers | mobile/src/store/chatStore.ts:1787-1791 | a delivered message is answered in the chat exactly when it calls for a reply |
| AutoReply.AutoMessagesBounded | mobile/src/utils/autoReply.ts:60-84 | two answering devices send at most 2 * (1 + T / 4 h) automatic messages in any window T |
| AutoReply.ChainStops | mobile/src/store/chatStore.ts:1787-1791 | with round trips under 4 h the chain after the last written message has at most two replies |
| ChatExport.ExportMessages | mobile/src/utils/chatExport.ts:85-95 | the loop ends for every history and returns what paging back collects |
| ChatExport.ExportDistinct | mobile/src/utils/chatExport.ts:85-95 | with different timestamps the result is the history itself |
| ChatExport.ExportsEverything | mobile/src/utils/chatExport.ts:85-95 | the export is the whole history if and only if every page boundary separates different timestamps |
| ChatExport.TieAtBoundaryLoses | mobile/src/utils/chatExport.ts:85-95 | a history one longer than a page, all from one moment, loses its first message |
| ChatExport.ExportsNothingElse | mobile/src/utils/chatExport.ts:85-95 | for every history the export is ascending, drawn from it, and repeats nothing |
| LastSeen.FilterVisibleOnlineOwners | backend/src/utils/lastSeen.ts:66-86 | exactly the owners the viewer's side of the rule accepts |
| LastSeen.FilterViewersForLastSeen | backend/src/utils/lastSeen.ts:95-127 | exactly the viewers the owner's side of the rule accepts |
| LastSeen.SidesAgreeExactly | backend/src/utils/lastSeen.ts:66-127 | the two sides agree on a pair unless a one-sided contact alone decides it |
| LastSeen.SidesAgree | backend/src/utils/lastSeen.ts:66-127 | with symmetric contacts they accept the same pairs |
| LastSeen.SingleAgreesWithBatch | backend/src/utils/lastSeen.ts:27-157 | the prefetching filter and the single filter answer alike for every pair |
| LastSeen.LastSeenMatchesOnline | backend/src/utils/lastSeen.ts:130-157 | last-seen is shown exactly when online status is, unless there is a block, a time to show and a rule that would show it |
| LastSeen.BlockHidesOnlineOnly | backend/src/utils/lastSeen.ts:46-58 | a block hides online status from both sides and leaves the last-seen filters as they are |
| LastSeen.BlockedViewerSeesTime | backend/src/utils/lastSeen.ts:130-157 | a concrete table in which a blocked viewer is shown the time and not the status |
| LastSeen.ShownExactly | backend/src/utils/lastSeen.ts:130-157 | one's own time is always shown, another's exactly to those its exception, setting or the viewer's contacts let in; online status to exactly those unless one has blocked the other |

## Left out

- Outbox.FlushConserves: a POST that the server accepted but whose reply was lost counts as unreachable, as it does for the client; the message is then sent a second time.
- Outbox.RequeuedInOrder: needs increasing clock readings; entries queued in the same millisecond have no order in the source either.
- Retention.RetentionIsExact: speaks of messages that stay cached and of streams in order; an older version that arrives late overwrites a newer one in the cache.
- RefreshClient.NeverPresentedTwice: a client that crashes between the server's answer and storing it is not part of the runs.
- Presence.PresenceExact: assumes that no node crashes and that heartbeats come within the time to live, as the protocol does.
- MessageCache.MessageCache.DeleteConversation: the table of conversations themselves is not modelled; its operations replace it as a whole.
- SQLite failures: the cache swallows them and answers as if empty.
- `Outbox.dfy` changes lists through sends and removals only; what page loads, painted caches and socket
  events do to an unsent message is in `Timeline.dfy`.
- The send of `Outbox.dfy` puts its conversation back on the chat list but not its preview there, nor the accepted message into the cache; the chat list entry that clearing a history puts back is a `Loaded` act.
- Scheduled messages, media, polls, reactions, typing and read marks, and decryption of message bodies in the timeline: a listed message carries its decrypted text.
- `applyLocalRetention`: joins the two retention maps to a list that is being shown; the maps are modelled, the join is not.
- Login attempt records, notification and audit logs, push messages and socket disconnection of revoked sessions: no later decision reads them.
- Access tokens, JWT signing and password hashing: a call receives whether a password matched, and a presented refresh token is one that was signed.
- Ratchet: initialisation of the responder is not in the source; the statements about turns start from roots in step, of
  which `Ratchet.OpeningInStep` gives one.
- `setOnline`, `setOffline`, active devices and typing keys of the presence service: single writes that would only add easy members.
- User interface, routing, validation schemas, SMS, file storage, payments and the other modules: input and output, or single guarded updates.
- Races inside one service call or inside one multi-command Redis operation.
