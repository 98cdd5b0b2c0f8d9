# Verified models of the server's protocols and algorithms

A Dafny model of the parts of the server where correctness rests on more than
reading one function, and proofs of what those parts promise. `dafny verify
dfyconfig.toml` checks all of it.

* **Refresh-token rotation** (`SessionTable`, `RefreshProtocol`, `RefreshSafety`,
  `RefreshWipe`, `RefreshGrace`, `RefreshRace`, `RefreshService`, `RefreshOutcomes`).
  Rotation with reuse detection as section 10.4 of RFC 6749 describes it. `SessionTable` is the meaning of
  the session queries; `RefreshProtocol` gives every refresh, login and logout a program
  counter over single statements, each of which may fail, or commit and lose its reply;
  any number of calls interleave. `RefreshService` is the Go code's own form, proved to
  walk that program counter while other calls interfere between its statements;
  `RefreshOutcomes` says what such a walk answers and writes. Hashes
  and session ids drawn are fresh, as the hashes of random UUIDs and random UUIDs are.
* **Single-use second factor** (`ExpiringMap`, `TotpStep`, `TotpSpend`,
  `TotpChallenge`, `TotpLogin`). The code is an arbitrary function of secret and
  step. The in-process guards are classes with their sweep; the shared guard is an
  atomic object with the documented contract that may fail before or after recording.
* **LIKE escaping** (`LikePattern`). Against a matcher that backtracks, itself proved
  against the standard's wording.
* **Digest periods** (`Calendar`, `DigestPeriod`, `DigestSend`, `DigestResend`). The proleptic
  Gregorian calendar and ISO weeks in a zone with a fixed offset; then any number of
  overlapping send runs for one user.
* **Radarr and Sonarr** (`Regrab`, `MonitorSeasons`, `QueuePaging`, `SortedInts`).
* **Bulk edit** (`GenreMerge`, `BulkEdit`, `BulkLabels`, `BulkEditRun`). `strings.ToLower`
  is any key function and `ORDER BY` any permutation.
* **Key rotation** (`SecretKey`, `Envelope`, `KeyRotation`). The cipher is ideal: a
  ciphertext is a value that opens under exactly its own key and associated data. The
  base64 decoders and SHA-256 are any functions.
* **API-key text** (`ApiKey`) and **scan de-duplication** (`ScanFlags`).

Clocks, random draws, the network and failures are arbitrary values. Where a class
meets them, they are fixed before the call: a `Luck`, a `luck` or an `others` says how
each statement will go and what other goroutines or database clients will do between
two of them, so a method can neither invent a failure nor pass its own write off as
somebody else's. `EventLog` is the log by which `RefreshService` and `ScanFlags` tell a
call's own statements from those of others.

Where a promise fails, the code is modelled as it is, a lemma gives a run or input on
which it fails, and the condition under which the promise holds is proved to be exact:

* a time step spent twice: `TotpStep.WaitExactly`, `DelayBoundExact`, `EpochBoundExact`,
  `TotpSpend.InstanceBoundExact` and `SharedBoundExact`; the inputs are
  `LongerDelayReplays`, `EarlyReadingReplays`, `ClockBefore1970Replays` and `StepReplays`;
* a challenge redeemed twice: `TotpLogin.InstanceBoundExact` and `SharedBoundExact`, with
  `MintsTwice`;
* a digest mailed twice: `DigestResend.PlansExactly`, `MovedSendExactly` and
  `StallBoundExact`, with `MovedSendDayResends`, `ChangedFrequencyResends` and
  `StalledRunResends`;
* an edit or a rotation that changes something again when repeated:
  `GenreMerge.IdempotentExactly`, `BulkEdit.RepeatExactly` and
  `KeyRotation.RotatesAgainExactly`, with `AcceptedTextsRotateAgain`.

That two concurrent submissions of one code are not both accepted is promised and proved;
that one of them is accepted is not promised, and `TotpSpend.BothCanBeRefused` shows that
it need not be.

The comment on SetDigestFrequency (`internal/db/queries/digest.sql`) promises that turning
the digest off and on does not send a period twice; that holds, but a detour through the
other frequency does, and the model follows the query. The comment on validateSecretKey
(`internal/config/config.go`) says that DeriveKey32 truncates what base64 decodes to;
the code uses a decoding of exactly 32 bytes and otherwise the text's own first 32, and
the model follows the code.

## Model

| member | source | states |
|---|---|---|
| RefreshSafety.TokenExchangedAtMostOnce | cmd/server/auth_service.go:556-581 | In every reachable state of any number of interleaved refreshes, logins and logouts, with statements failing or committing behind an error, two calls that got a pair for the same refresh token are the same call. |
| RefreshSafety.ExchangesDiffer | cmd/server/auth_service.go:528-541 | No two exchanges, of whatever tokens, hand out the same new refresh token. |
| RefreshSafety.RetiredNeverCurrent | cmd/server/auth_service.go:443-451 | A hash that was ever rotated away is not current in any row, in that state or after any further run. |
| RefreshSafety.LookupUnique | internal/db/queries/sessions.sql:20-38 | At most one live row matches a hash as current or immediately-previous, so the lookup Refresh relies on is unambiguous. |
| RefreshSafety.TwoRotationsOldIsUnknown | cmd/server/auth_service.go:443-464 | A token retired two rotations ago matches no row: presenting it ends as invalid, with nothing deleted and no epoch moved. |
| RefreshSafety.RunKeepsInv | cmd/server/auth_service.go:441-626 | The protocol's invariant (which hashes are current, retired, pending or unused, and whose they are) holds over every run, and rotations, drawn hashes and finished calls are never undone. |
| RefreshWipe.WipedSessionsNeverRotate | cmd/server/auth_service.go:597-613 | After a delete that succeeded, no session of the user present at the delete is ever in the table or rotated again; any pair later returned for one was committed before the delete. |
| RefreshWipe.BumpOutdates | cmd/server/auth_service.go:506-519 | A committed bump leaves every epoch read before it behind for good: whatever a call that had read the user row hands out later carries an older epoch than the user's. |
| RefreshWipe.WipeRevokesFamily | cmd/server/auth_service.go:597-622 | After a reuse wipe whose delete and bump both succeed, with anything interleaved between and after, no access token minted from a user row read before the bump is accepted, including those of refreshes running concurrently; the reuse error reports both writes. |
| RefreshWipe.RunKeepsEpochs | cmd/server/auth_service.go:483-519 | Epochs only grow and no call carries an epoch newer than its user's, over every run. |
| RefreshRace.RacersOnlyRotate | cmd/server/auth_service.go:556-596 | While refreshes of one current token race inside the grace window, with anybody else doing anything that leaves the raced row as it is, no statement of a racer deletes a session, moves an epoch or writes another row. |
| RefreshRace.RaceSignsNobodyOut | cmd/server/auth_service.go:582-596 | So over the whole race, logins, logouts, purges and other refreshes with their errors included, a session that nobody else deletes is still there and an epoch that nobody else moves has not moved. |
| RefreshRace.RaceHasOneWinner | cmd/server/auth_service.go:465-471 | Once all those refreshes have finished, exactly one holds a new pair and every other got the tolerated refusal, whether it noticed at its lookup or at its swap, and whatever others did to other rows meanwhile. |
| RefreshGrace.GraceWindowExact | cmd/server/auth_service.go:718-759 | In every reachable state, presenting a retired token whose successor is current is refused without a write exactly when that token's own rotation committed less than 120 s from the service clock, on either side; otherwise the next statement deletes the user's sessions. That the row's stamp is that commit time is part of the proof. |
| RefreshGrace.LostSwapWindowExact | cmd/server/auth_service.go:582-596 | A refresh that lost its swap is judged the same way: by the age of the rotation that took its token, in every reachable state. |
| RefreshService.AuthService.Refresh | cmd/server/auth_service.go:441-626 | The backend's log goes on by a walk of the protocol's program counter, from the lookup to the outcome returned: each statement meets the tables as the entry before it left them, each answer is true of them, failures and draws are those that were due, and nothing else is written. What such a walk answers is RefreshOutcomes.RefreshAnswers. |
| RefreshService.AuthService.Exchange | cmd/server/auth_service.go:490-541 | A current token: the user is read and everything minted before the swap, and any failure there ends the walk with nothing written. |
| RefreshService.AuthService.Swap | cmd/server/auth_service.go:542-596 | The conditional rotation and the three things it can answer (swapped, error, no row) continue that walk. |
| RefreshService.AuthService.AfterRotateError | cmd/server/auth_service.go:565-581 | After an errored rotation the pair goes out exactly if a lookup by the new hash finds it current on the same session. |
| RefreshService.AuthService.AfterLostSwap | cmd/server/auth_service.go:582-622 | After a swap that changed no row, the second lookup decides between the tolerated race and the wipe. |
| RefreshService.AuthService.BurnFamily | cmd/server/auth_service.go:602-622 | Delete and bump are both issued whatever the other answers, and the reuse error reports each. |
| RefreshService.AuthService.Logout | cmd/server/auth_service.go:658-691 | Logout is a walk of the protocol too: an unknown token is success, a failed delete stops it before the bump. |
| RefreshService.LogIsARun | cmd/server/auth_service.go:441-626 | A log in which the other entries are legal actions of other calls is a legal run of the protocol that ends with this call where the method left it and the tables as logged: what is proved of every run holds of the methods. |
| RefreshService.WalksAreShort | cmd/server/auth_service.go:441-691 | A walk has at most as many statements as its call had left: seven for a refresh, four for a login, three for a logout. |
| RefreshService.UnavailableWroteNothing | cmd/server/auth_service.go:565-581 | A refresh that ends without a verdict (503) has written nothing exactly when its swap did not commit behind a lost reply: the one case in which the client's retry meets a retired token. |
| RefreshOutcomes.RefreshAnswers | cmd/server/auth_service.go:441-626 | Each answer is given exactly where it is due, told from the tables the statements met: 401 if and only if the lookup was answered and no unexpired session carries the token, or its user is gone; 503 exactly for an error at the lookup, the user read or the mint, or a swap whose fate stays unknown; a pair exactly when the row still had the token or the new one is seen on it; the wipe exactly for a spent token whose rotation is two minutes old or more, or a lost swap not explained by a recent one. The pair names that session, user and epoch. |
| RefreshOutcomes.RefreshWrites | cmd/server/auth_service.go:542-622 | All a refresh ever writes: the swap, on the one row and only while it has the token (the old token becomes its previous one, the expiry thirty days on under the cap), and, where the wipe is due, the deletion of all the user's sessions and no other and an epoch one higher. |
| RefreshOutcomes.LogoutAnswers | cmd/server/auth_service.go:658-691 | Logout deletes the one session that carries the token as its current one, unexpired and under its cap, then outdates its user's tokens; it fails exactly if the delete does, and does nothing if there is no such session. |
| RefreshOutcomes.LoginAnswers | cmd/server/auth_service.go:1042-1094 | A login hands out a pair exactly when its session was created, the insert answered and the tokens minted; the row has thirty days under a cap of ninety; if minting fails the session is deleted again. |
| RefreshOutcomes.UndisturbedRefresh | cmd/server/auth_service.go:441-556 | From every state: where nothing fails or comes between, presenting the current token of an unexpired session whose user is there ends in a new pair that is current on it. |
| RefreshOutcomes.UndisturbedLogin | cmd/server/auth_service.go:1042-1094 | And a new user's login ends in a session of its own. |
| TotpStep.MatchTOTPStep | internal/auth/totp.go:84-113 | Returns a step exactly when the trimmed six-digit code is the secret's code for the current step or one beside it, and then the oldest such step (section 5.2 of RFC 6238); negative steps are skipped. |
| TotpStep.TypedCode | internal/auth/totp.go:95-104 | Spaces around what was typed are ignored, of whatever kind, and what is left must be six bytes long and the step's code. |
| TotpStep.WindowIs | internal/auth/totp.go:95-113 | From 1970 on a code is live from one period before its own begins until one period after it has ended. |
| TotpStep.MemoryTOTPReplayGuard.ConsumeTOTPStep | internal/auth/totp.go:145-169 | What happens under the lock, with the clock read before it: sweep at most once per TTL, refuse a step not above the remembered one, otherwise remember it for four periods. The whole new state and the verdict. |
| TotpStep.RefusedOnlyWhenSpent | internal/auth/totp.go:145-169 | A fresh step is accepted: for every log, in whatever order of readings, a refusal comes only after an accepted attempt of the same user for that step or a later one, less than four periods before. |
| TotpStep.KeepsAndForgets | internal/auth/totp.go:153-163 | Memory is bounded: no call leaves the last sweep four periods behind its reading, and another user's entry is dropped exactly if a sweep was due and it had expired. |
| TotpStep.SweepingUnobservable | internal/auth/totp.go:145-169 | For every log of calls whose clock readings come in order, the sweeping guard answers, call by call, as a reference that never forgets a spend but ignores expired ones. |
| TotpStep.AcceptedStepsIncrease | internal/auth/totp.go:84-169 | Over every log in lock order, whatever the order of the clock readings, with each lock taken soon enough after the match (from 1970 on: within one period), the steps accepted for one user strictly increase: no code is accepted twice, across expiry and sweeping too. |
| TotpStep.WaitExactly | internal/auth/totp.go:95-128 | The bound is exact for any clocks: if nothing is matched before a given time, all logs with a given delay keep the steps increasing if and only if the delay is at most MaxWait of that time. |
| TotpStep.DelayBoundExact | internal/auth/totp.go:115-128 | From 1970 on that bound is one period. |
| TotpStep.EpochBoundExact | internal/auth/totp.go:95-113 | And one period is a safe delay if and only if nothing is matched before 1970, where the division truncates towards zero and step 0 lasts nearly two periods. |
| TotpStep.LongerDelayReplays | internal/auth/totp.go:115-128 | For every longer delay there is a log in which one step is accepted twice. |
| TotpStep.EarlyReadingReplays | internal/auth/totp.go:145-169 | It is the lock that must come in time, not the reading: a call that reads the clock within a second of its match and then waits while another user's call sweeps is accepted with a step already spent. |
| TotpStep.ClockBefore1970Replays | internal/auth/totp.go:95-113 | For any time before 1970, a log from then on, locked within one period of the match, in which one step is accepted twice. |
| TotpSpend.StepAcceptedOncePerInstance | cmd/server/auth_service.go:206-218 | With any interleaving of any number of spends on any number of instances, waits for locks and any outages of the shared guard included, no instance accepts a step of a user twice, if guards are asked soon enough after the match (from 1970 on: within one period). |
| TotpSpend.StepAcceptedOnce | cmd/server/auth_service.go:206-218 | Nor is it accepted twice anywhere by calls the shared guard answered, if wait plus the difference of any two clocks stays within that time. |
| TotpSpend.InstanceBoundExact | cmd/server/auth_service.go:206-218 | On one instance the bound is exact, whatever the earliest time its clock shows: every reachable state is free of replays if and only if the wait is at most MaxWait of it. |
| TotpSpend.SharedBoundExact | cmd/server/auth_service.go:206-218 | Across instances too: if and only if wait plus clock difference stays within it for every pair of instances. |
| TotpSpend.RefusedOnlyWhenSpent | cmd/server/auth_service.go:206-218 | In every reachable state, outages included, a spend that has been refused has another one of the same user, for that step or a later one, which the same instance's guard had granted or the shared guard had recorded, if only behind an error. |
| TotpSpend.StepReplays | cmd/server/auth_service.go:206-218 | Past the bound, for any pair of instances, a run in which both accept one step although every guard answers. |
| TotpSpend.BothCanBeRefused | cmd/server/auth_service.go:194-218 | The code promises that not both of two concurrent submissions pass, and no more: a run in which two calls with the same step refuse each other although every guard answers. |
| TotpSpendService.SpendTOTPStep | cmd/server/auth_service.go:206-218 | spendTOTPStep asks the local guard and then the shared one, both always, and its verdict and both guards' new states are those of the model's two steps, whatever other calls make of the guards in between; with no shared guard wired the local one alone decides. |
| TotpChallenge.MemoryTOTPChallengeGuard.RedeemTOTPChallenge | internal/auth/totp_challenge.go:30-55 | What happens under the lock, with the clock read before it: sweep at most once per challenge TTL, first redeem of a live record wins. The whole new state and the verdict. |
| TotpChallenge.RefusedOnlyWhenRedeemed | internal/auth/totp_challenge.go:30-55 | For every log, a redeem is refused only after one of the same challenge that won and whose record has not run out. |
| TotpChallenge.GrantIsRemembered | internal/valkey/totp_challenge.go:19-27 | The shared guard, asked for an expiry that is not ahead, answers with an error; what it grants it grants nobody again until the expiry, and it refuses only what is on record. |
| TotpChallenge.SweepingUnobservable | internal/auth/totp_challenge.go:30-55 | For every log of redeems whose clock readings come in order the sweeping guard answers as the never-forgetting reference. |
| TotpChallengeService.RedeemTOTPChallenge | cmd/server/auth_service.go:220-246 | redeemTOTPChallenge asks the shared guard first, a loss there returns before the local record is touched, and an outage falls back to the local record, whatever other calls make of both guards in between. |
| TotpLogin.MintsOncePerInstance | cmd/server/auth_service.go:896-945 | Redeemed within the one-minute slack of validation, a challenge mints at most one session on an instance, under any outages, any clocks and any interleaving. |
| TotpLogin.ChallengeMintsOnce | cmd/server/auth_service.go:896-945 | And at most one anywhere while the shared guard answers, if delay plus the difference of any two clocks stays within the slack. |
| TotpLogin.InstanceBoundExact | cmd/server/auth_service.go:220-234 | On one instance the slack is the exact bound on the delay: every reachable state mints once if and only if it is kept. |
| TotpLogin.SharedBoundExact | cmd/server/auth_service.go:220-246 | Across instances the exact bound is on delay plus clock difference, for every pair of instances (a delay of none at all redeems nothing). |
| TotpLogin.MintsTwice | cmd/server/auth_service.go:220-246 | Past the bound, for any pair of instances and any challenge, a run in which both mint a session from it although every guard answers. |
| TotpLogin.ExactlyOneRedeems | cmd/server/auth_service.go:225-246 | While the shared guard answers, once any number of concurrent redeems of one challenge on any instances have finished, exactly one of them won. |
| TotpLogin.SessionNeedsFactor | cmd/server/auth_service.go:896-945 | No session without the second factor: in every run a call has a session exactly if it was told so, and then it checked the factor with success after reading the user in a state with TOTP on and the challenge's epoch. |
| TotpLogin.WrongCodeBurnsNothing | cmd/server/auth_service.go:926-945 | A wrong code leaves both guards as they were, and in every further run that call never asks them and gets no session. |
| TotpLogin.MovedEpochKillsChallenge | cmd/server/auth_service.go:896-945 | Once the user's epoch has moved past the challenge's, no call that has not read the user yet ever mints a session from it. |
| LikePattern.MatcherDecidesPartition | internal/db/queries/media.sql:2276 | The backtracking matcher accepts exactly the strings that split into substrings one per pattern token, the wording of section 8.5 of SQL-92. |
| LikePattern.UnderscoreIsOne | internal/db/queries/media.sql:2276 | An underscore stands for exactly one character, whatever follows. |
| LikePattern.PercentIsAny | internal/db/queries/media.sql:2276 | A percent sign stands for any run of characters, the empty one included, whatever follows. |
| LikePattern.EscapedIsItself | internal/db/queries/media.sql:2276 | A character behind a backslash stands for itself, be it a wildcard or not. |
| LikePattern.EscapedThenPattern | cmd/server/adapter_media.go:278-287 | For every s, pattern q and t, likeEscape(s) followed by q matches t if and only if t starts with s and q matches what follows. |
| LikePattern.EscapeIsExact | cmd/server/adapter_media.go:278-282 | likeEscape(s) matches t if and only if t = s. |
| LikePattern.EscapedPrefixIsExact | internal/db/queries/media.sql:2257-2279 | likeEscape(folder) followed by % matches a path if and only if the folder is a prefix of it. |
| Calendar.WeeksInOrder | internal/digest/period.go:58-74 | Days of later weeks have a later ISO year and week, across every year end (section 4.1.4 of ISO 8601:2004). |
| Calendar.FirstAndLastWeek | internal/digest/period.go:66 | The numbering is the standard's own: week 1 holds 4 January, 28 December is always in the year's last week. |
| Calendar.MonthUnique | internal/digest/period.go:76-82 | The month computed for a day is the only one whose first and last days enclose it (proleptic Gregorian). |
| DigestPeriod.CurrentPeriod | internal/digest/period.go:51-94 | The period returned is that of the latest send moment at or before now, due exactly while that moment is less than 48 h old; any other frequency has none. |
| DigestPeriod.WeeklyExact | internal/digest/period.go:58-74 | Scheduled <= now < Scheduled + 7 days, on the configured weekday and hour, covering the seven whole days before. |
| DigestPeriod.MonthlyExact | internal/digest/period.go:75-90 | The monthly send is on the 1st at the configured hour, now is before the next one, and the window is the previous calendar month. |
| DigestPeriod.LatestAdvances | internal/digest/period.go:40-47 | For one schedule the latest send moment is unique and never goes back as the clock advances. |
| DigestPeriod.KeysAdvance | internal/digest/period.go:66-68 | Two sends share a key, as text, exactly when they are the same send; later weekly sends have a later ISO year and week, later monthly ones a later month. |
| DigestPeriod.MonthlyKeyNames | internal/digest/period.go:75-90 | A monthly key spells year and number of the month its window covers, which is the one before the send, for every year from 1 to 9999. |
| DigestPeriod.WeeklyKeyNames | internal/digest/period.go:58-74 | A weekly key spells the ISO year and week of the send day, for every year of four digits. |
| DigestPeriod.WindowsTile | internal/digest/period.go:69-90 | Each send's window begins where the one before it ended, and no send lies between: nothing added falls between two digests or into both. |
| DigestSend.EachPeriodOnce | internal/digest/service.go:123-200 | However send runs overlap, fail, retry, lose a claim's reply or die: with the schedule and frequency fixed and no run overtaken by one of a newer period, no period is mailed or found empty twice. |
| DigestResend.PlansExactly | internal/digest/service.go:123-200 | Which reconfigurations are harmless. For any set of schedules and frequencies: however a user and an operator switch among them, no run mails a period twice if and only if all are of one frequency and, for any two, clock error plus stall stays within the time between two sends less what their offsets in the week or month differ by, less the grace. |
| DigestResend.DetoursExactly | internal/digest/service.go:146-158 | The reason behind it: a period can be mailed twice exactly when it can be due, then one with another key be due, then it again. |
| DigestResend.MovedSendExactly | internal/digest/service.go:146-158 | Without stalls: moving the weekly send is harmless exactly if it moves by at most five days within the week, Monday to Sunday, and moving the monthly one always is. |
| DigestResend.StallBoundExact | internal/digest/service.go:123-158 | With the schedule and frequency fixed, no run mails a period twice if and only if clock error plus stall between a run's clock reading and its claim stays within the time between two sends less the grace: five days weekly, twenty-six monthly. |
| DigestSend.StepKeepsInv | internal/db/queries/digest.sql:43-58 | Claim and release keep the invariant behind it: what is as new as the newest claim still has its key in last_period, and each period is held or settled at most once. |
| DigestSend.SettledClaimExactly | internal/db/queries/digest.sql:43-58 | In such a state, the claim of a period already settled goes through exactly when the digest is on, the statement commits and answers, and last_period holds another key; and then the run has been overtaken by a newer claim. |
| DigestSend.OffMailsNothingNew | internal/db/queries/digest.sql:20-50 | Once a user switches the digest off, whatever runs do until it is switched on, no run lists the user and only periods already claimed are still mailed. |
| DigestSend.FailedMailRestores | internal/db/queries/digest.sql:52-58 | Claiming, failing to mail and releasing leaves last_period as it was before the claim. |
| DigestSend.LostClaimIsSkipped | internal/digest/service.go:151-159 | A claim that commits behind an error uses the period up: the run ends, and until another claim no run takes the period on. |
| DigestResend.FailedMailIsRetried | internal/digest/service.go:189-200 | A failed mail's period, once released, can be claimed again: from every reachable state where its claim still stands, the next run to list the user while it is due mails it. |
| DigestResend.MovedSendDayResends | internal/digest/service.go:146-148 | A run in which moving the weekly send from Sunday to Monday and back, at whatever hours, mails one period twice, every claim being made at once. |
| DigestResend.ChangedFrequencyResends | internal/db/queries/digest.sql:10-18 | For any weekly and any monthly schedule a run in which weekly, monthly, weekly mails the week twice. |
| DigestResend.StalledRunResends | internal/digest/service.go:149-158 | Past the stall bound, for every plan, a run in which a claim comes so late or so early that its period is mailed again, with nothing reconfigured. |
| Regrab.PickGrabToBlocklist | internal/arr/regrab.go:372-405 | For every history: the newest kept grab sharing the download id of the newest kept import that has one, otherwise the newest kept grab; nothing exactly when no grab is kept. |
| Regrab.ChoiceIsLatest | internal/arr/regrab.go:372-405 | By date and then id: the latest kept import that names a download decides, and the pick is the latest kept grab of that download; with no such import, or no such grab, it is the latest kept grab. |
| Regrab.FirstIsNewest | internal/arr/regrab.go:381-387 | Searching the stably sorted rows finds the declaratively newest row, the first sent among rows equal in date and id. |
| Regrab.ChoiceIgnoresOrder | internal/arr/regrab.go:380-405 | With distinct (date, id) pairs the choice does not depend on the order the history came in. |
| MonitorSeasons.MonitorSeasons | internal/arr/sonarr_seasons.go:101-199 | On success only monitored flags of requested seasons and the series differ, all of those are on, Missing is the sorted requested-minus-existing set, one PUT was sent exactly if something was off, and the searches are exactly the newly monitored seasons, or all requested ones if the series was off; if all was on already, nothing is sent. It fails exactly if the id is not positive, the GET fails, the document cannot be read, or a PUT was needed and not acknowledged. |
| MonitorSeasons.MonitorTwice | internal/arr/sonarr_seasons.go:87-100 | Asking again after a success changes nothing: no further PUT, no further search, and the same seasons reported missing. |
| MonitorSeasons.OnExactlyIfMeant | internal/arr/sonarr_seasons.go:119-178 | What a success leaves, season by season: one that was meant is on and otherwise as before, every other one is untouched, and the series is on if any was meant. With no numbers given all are meant but season 0; a season without a number never is, and a null number is 0. |
| MonitorSeasons.SearchedExactlyIfMeant | internal/arr/sonarr_seasons.go:137-160 | A number is searched exactly if a season with it was meant and it, or the series, was off. |
| MonitorSeasons.Edit | internal/arr/sonarr_seasons.go:119-178 | The change to the decoded series: made exactly if something requested was off, leaving every other field and season as it was. |
| MonitorSeasons.SwitchOn | internal/arr/sonarr_seasons.go:137-160 | The loop over the seasons: entries without a readable number are left alone, flags are set only where requested and off, and what to report and to search follows. |
| MonitorSeasons.CollectMissing | internal/arr/sonarr_seasons.go:161-166 | The requested numbers the series lacks, each once and ascending, whatever order the set is ranged over. |
| QueuePaging.FetchQueue | internal/arr/queue.go:170-202 | Against any server: at most twenty requests, the well-formed rows of the pages read in order, an error exactly if a page before the end fails, truncated exactly if no page ended the list. |
| QueuePaging.FailsExactly | internal/arr/queue.go:170-202 | An error exactly if one of the first twenty pages cannot be had or read and every page before it was full, paged and short of the total. |
| QueuePaging.WellFormedKeeps | internal/arr/queue.go:186-192 | Of a page's rows exactly those that decode are kept. |
| QueuePaging.ProperPagingIsRead | internal/arr/queue.go:17-20 | For a server that pages a fixed list properly: every well-formed record of the first 5000, once and in order, and truncated exactly when the list is longer. |
| QueuePaging.BareArrayIsRead | internal/arr/lenient.go:118-141 | A bare array is taken as the whole list in one request. |
| GenreMerge.MergeGenres | internal/bulkedit/bulkedit.go:264-288 | The method's three loops compute the specified merge, and changed says exactly whether the list differs. |
| GenreMerge.MergeKeys | internal/bulkedit/bulkedit.go:260-288 | Ignoring case, the result holds exactly the added genres and the item's that are not removed. |
| GenreMerge.MergeDistinct | internal/bulkedit/bulkedit.go:260-288 | No two genres of the result are equal ignoring case. |
| GenreMerge.PickedAtPlaces | internal/bulkedit/bulkedit.go:271-287 | The surviving genres keep the item's spelling and order, and the appended ones the request's: each is the first of its key. |
| GenreMerge.IdempotentExactly | internal/bulkedit/bulkedit.go:260-288 | Merging twice is merging once exactly when, in add, no genre that remove also names comes before the first mention of one that neither the item has nor remove names. |
| GenreMerge.DisjointIsIdempotent | internal/bulkedit/bulkedit.go:260-288 | So the merge is idempotent whenever add and remove share no genre ignoring case. |
| GenreMerge.UnchangedExactly | internal/bulkedit/bulkedit.go:260-288 | The merge leaves the list as it is exactly when no genre repeats in it, add has none that is new, and remove takes none but a tail of the list that add puts back in the same order and spelling. |
| BulkEdit.Plan | internal/bulkedit/bulkedit.go:190-258 | Applying the planned parameters makes exactly the requested item (values and lock set), and the skips are exactly the requested fields that may not be written, with the right reason. |
| BulkEdit.EditedMeans | internal/bulkedit/bulkedit.go:183-258 | What a requested field comes to: the rating asked for, the genres asked for, or the merge, exactly where the field fits the item's type and is not locked or is unlocked; otherwise it stays. |
| BulkEdit.LocksMean | internal/bulkedit/bulkedit.go:206-255 | Which fields end locked: those written, those to lock that were not locked, and those locked that are not to be unlocked. |
| BulkEdit.ParamsMakeIt | internal/db/queries/media.sql:689-724 | The query's order (set, join locks, drop unlocks last) turns the three field lists into the promised lock set. |
| BulkEdit.LocksRespected | internal/bulkedit/bulkedit.go:183-189 | A field the item has locked and the request does not unlock keeps its value and its lock. |
| BulkEdit.WrittenIsLocked | internal/bulkedit/bulkedit.go:247-255 | Values change only where written, and every written field ends locked, named in Unlock or not. |
| BulkEdit.WrittenOrSkipped | internal/bulkedit/bulkedit.go:206-245 | Every requested field is written, or skipped with one reason, or a merge that changes nothing. |
| BulkEdit.RepeatExactly | internal/bulkedit/bulkedit.go:183-258 | Applying the same request again changes nothing exactly when every field in both Lock and Unlock is set outright and fits the item's type, and, where genres to merge are unlocked and fit it, the merge leaves its genres as they are. |
| BulkEditRun.Run | internal/bulkedit/bulkedit.go:126-180 | Each requested live item gets its edit, or is reported because its statement found no row; its labels come out as asked, with both counts of changed rows; no other item is touched, ids not found are reported, every skip is true of the items as they were, and an error means that a statement failed. |
| BulkEditRun.EditLabels | internal/bulkedit/bulkedit.go:162-180 | The two label statements are issued only for non-empty lists and rows, the remove first, and their counts are those of the rows each changed. |
| BulkLabels.RelabelledMeans | internal/db/queries/labels.sql:17-39 | An item ends up without the removed labels and with the added ones unless all of them together would exceed the cap; an add never takes an item past it. |
| BulkEditRun.Apply | internal/bulkedit/bulkedit.go:112-122 | Reported done only if every requested item got its edit and its labels as above; otherwise items and labels are as before, or edited in full when the commit landed and its reply was lost. |
| Envelope.ResealedReads | internal/arrcrypt/arrcrypt.go:38-62 | What is written to a slot under a key reads back under it, and under no other key. |
| Envelope.MovedSecretIsLost | internal/auth/crypto.go:56-73 | A secret copied into another slot does not read there, under any key, unless both columns are sealed without context. |
| Envelope.RawSecretMoves | internal/auth/crypto.go:38-54 | Between columns sealed without context it does read: the ciphertext carries nothing of its slot. |
| KeyRotation.ConvertMeans | cmd/rotate-key/main.go:144-185 | Each of the value-to-value conversions gives the old key's plaintext sealed with the new key for the same slot, skips exactly what the old key does not open or is already so, and aborts exactly where a non-empty API key was read and the random source fails. |
| KeyRotation.RotateColumn | cmd/rotate-key/main.go:436-469 | One job: the rows counted rotated are exactly those rewritten, rotated plus skipped is what the column's SELECT yields, and it gives up only if the SELECT, an UPDATE or the random source fails. |
| KeyRotation.RotateKeys | cmd/rotate-key/main.go:59-143 | Empty or equal key texts and an empty database URL are refused and nothing else is; an applied run leaves each row rotated or untouched under the keys derived from the texts, with counts that match; a dry run changes nothing, and a failed run nothing or, its commit's reply lost, everything an applied one does. |
| KeyRotation.MeaningKept | cmd/rotate-key/main.go:187-225 | Over the whole database a rotated row reads under the new key what it read under the old, settings come out as v2, and every other row is unchanged; a selected row the old key opens reads the same under the new one, rewritten or not, if the random source served it. |
| KeyRotation.NoSecretIsLost | cmd/rotate-key/main.go:144-225 | Whatever the server could read before an applied run it reads after it under the new key, in every row, selected or not, whose encryption the random source served, and in every API-key row; and no v1 setting that it could read is left v1. |
| KeyRotation.SecondRunRotatesNothing | cmd/rotate-key/main.go:324-371 | With distinct derived keys a second run rotates nothing and changes nothing. |
| KeyRotation.RotatesAgainExactly | cmd/rotate-key/main.go:73-85 | The inequality of the key texts, which is all the tool checks, is not enough: of a row the first run rotates, a second run rotates the outcome again exactly if both texts derive one key and the row is no sealed empty API key. |
| KeyRotation.ShortTextsRotateAgainExactly | internal/auth/crypto.go:137-158 | For texts of 32 to 42 characters that is exactly when they share their first 32, whatever follows. |
| KeyRotation.HexTextsRotateAgainExactly | internal/auth/crypto.go:137-144 | For texts of 64 hex digits, exactly when they differ in letter case alone. |
| KeyRotation.AcceptedTextsRotateAgain | cmd/rotate-key/main.go:73-85 | Two such texts, a suffix apart: the tool accepts them, both derive one key, and each run rewrites the row. |
| SecretKey.SameHexKeyExactly | internal/auth/crypto.go:137-144 | Two texts of 64 hex digits derive one key exactly when they differ in letter case alone. |
| SecretKey.HexRoundTrip | internal/auth/crypto.go:137-144 | A key written in hex, in whatever letter case, derives to itself. |
| SecretKey.Base64RoundTrip | internal/auth/crypto.go:145-158 | So does one that a base64 decoder reads back, with padding or without, and one whose 32 bytes are its own text. |
| ApiKey.EncodeBase62 | internal/auth/apikey.go:82-99 | The division loop, padding and reversal give a base62 string whose value is the bytes', of exactly the width if and only if the width holds that value, and longer otherwise. |
| ApiKey.WidthIsExact | internal/auth/apikey.go:16-30 | 62^42 < 256^32 < 62^43: 43 digits hold 32 bytes and 42 do not. |
| ApiKey.EncodeKeyBody | internal/auth/apikey.go:34-41 | Any 32 bytes encode to 43 digits that decode to those bytes and no others. |
| ApiKey.GenerateAPIKey | internal/auth/apikey.go:34-58 | Every generated key passes the recogniser, and its display prefix is the first twelve characters. |
| ApiKey.LooksLikeAPIKey | internal/auth/apikey.go:60-74 | The scan accepts exactly prefix plus 43 base62 digits. |
| ApiKey.KeysDiffer | internal/auth/apikey.go:34-45 | Keys made of different bytes differ. |
| ScanFlags.OneScanEach | cmd/server/main.go:2401-2528 | In every reachable state no two goroutines are between claim and release for the same library, or the same directory of it, and a flag is set exactly while its one owner is. |
| ScanFlags.TurnedAwayByItsTwin | cmd/server/main.go:2402-2406 | A request is turned away only while another goroutine owns that very scan. |
| ScanFlags.OnlyFoundIsScanned | cmd/server/main.go:2401-2530 | In every run a scan is only ever running after a library lookup of its own that found the library, and one whose lookup found none never runs. |
| ScanFlags.NoFlagLeft | cmd/server/main.go:2407-2414 | Once all goroutines have ended, failed library lookups included, no flag is left set. |
| ScanFlags.JoinedKeyInjective | cmd/server/main.go:2521-2524 | The joined uuid-bar-directory key determines library and directory, bars in the path included. |
| ScanFlags.OneWatcherEach | cmd/server/main.go:2568-2592 | At most one watcher goroutine is started per library, and the map lists exactly those. |
| ScanFlags.EnqueueScan | cmd/server/main.go:2401-2414 | The log of flag statements goes on by the machine's path for a full scan, each statement meeting the flags as the entry before left them and changing its own flag alone; it is turned away exactly if its flag is set, and fails exactly if the flag was clear and the library is not found, giving the flag up. |
| ScanFlags.TriggerDirectoryScan | cmd/server/main.go:2516-2530 | The same for a directory scan, which looks its library up before it claims: a failed lookup, and nothing else, ends it with no flag touched, and it is turned away exactly if its flag is set when it claims. |
| ScanFlags.RunIntroDetection | cmd/server/main.go:2499-2512 | It runs exactly if its flag was clear, and its path through the machine ends with its own statement clearing it. |
| ScanFlags.RunAndRelease | cmd/server/main.go:2413-2428 | Whatever comes of the scan, the deferred delete takes the path to its end and clears the flag it was handed, and no other. |
| ScanFlags.LogIsARun | cmd/server/main.go:2401-2530 | A log whose other entries are legal actions of other goroutines is a legal run of the machine that ends as the method did: what is proved of every reachable state holds between any two entries. |

## Left out

- DigestSend.EachPeriodOnce: a mail counts as sent when the mailer reports success, so a delivery that is reported as failed and retried is not excluded.
- RefreshRace.RaceHasOneWinner: the racers themselves meet no database error, and nobody else changes the raced session's row; the safety lemmas of RefreshSafety assume neither.
- TotpLogin.SharedBoundExact: a shared record asked for with an expiry of exactly zero is refused here as one with a negative expiry is, where the client library would store it without an expiry; that takes a redeem at the very end of the slack.
- LikePattern.EscapedThenPattern: a pattern that ends in a lone escape character matches nothing here, where PostgreSQL raises an error; likeEscape never produces one.
- BulkEditRun.Run: an item carries only the columns a bulk edit can set, its type, title, locks and labels.
- KeyRotation.SecondRunRotatesNothing: excludes rows the random source failed on in the first run; those are still sealed with the old key and a second run rotates them.
- MonitorSeasons.MonitorSeasons: JSON text is decoded already; a number written as a float or a string is text the code cannot read as an integer.
- recordSessionClient, revokeSegmentTokens, asset and stream tokens, and the labels and ratings copied into claims: side effects and field copies that decide nothing in the protocol.
- validateSecondFactor, ActivateTOTP, DisableTOTP and recovery codes: a choice between two checks and single row updates; the guarded step they share is TotpSpend.
- Failure counters and rate limits: the limiter's code is not part of this model.
- validateSecretKey and its entropy floor: the server's start-up check, which the rotation tool does not make.
- PASETO, AES-GCM, bcrypt, SHA-256 and HMAC: ideal functions, with no claim about timing or entropy.
- The period's label, the digest's content and its mail text: formatting.
- Time zones with daylight saving: a fixed offset only.
- parseTimeSpan, Progress and ETA: floating-point parsing and rounding.
- Season, Aired, Complete, QueueCount and Messages: single reads and a filter, which would only add easy members.
- What a full scan does between claim and release (hub refresh, webhooks, notifications, reconciling requests): calls into code outside scanEnqueuer.
