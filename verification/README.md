# Verified model of the Monolythium MCP server's stateful core

This project models the parts of the server that hold money, keys or session custody, and proves what they keep:

- **OAuth custody** (`OAuthTrace`, `OAuthVerdict`, `OAuthAdmin`): login and logout against an authorization server and a
  credential store that may fail at every step, with or without the effect. Everything observed is recorded in a trace of
  events; the theorems are about every trace that any sequence of logins and logouts can produce, and the answer of each
  command is determined by what it observed.
- **Agent wallet provisioning** (`WalletStores`, `WalletMachine`, `WalletSteps`, `WalletRuns`, `WalletSchedules`,
  `WalletRepair`, `WalletAbandon`, `WalletAdmin`): the lifecycle file and the seed custody. The machine makes one access to
  a store at a time, for any number of interleaved processes that fail and crash; an update of the lifecycle file is two
  accesses, the read of the record it matches and a later write or removal that does not look again. The class is the
  administrator itself, and each of its runs is shown to be a run of the machine.
- **Low-value allowance and outbox** (`Numerals`, `Decimals`, `LowValue`, `LowValueRecord`, `Outbox`, `Ledger`,
  `LedgerDesk`): five daily buckets stored as decimal texts, beside an outbox of signed payloads. The text record refines
  the one over units, the handlers refine the ledger, and the ledger stays in step with the outbox.
- **Canonical JSON** (`CodeUnits`, `JsonStrings`, `CanonicalJson`, `RunbookDiff`, `VendorRegistry`): the text that is
  hashed, a decoder that recovers the value from it, the field diff and the signed registry payload.
- **Seat events, redaction, abort race, bounded bodies** (`SeatFold`, `Redaction`, `AbortRace`, `BoundedBody`).
- **Bridge quotes and strict texts** (`BridgeQuote`, `StrictText`).

## What the environment is assumed to do

- This authorization server does not revive a grant whose revocation it confirmed (section 2.2 of RFC 7009), and it
  treats a refresh token as spent once it has handed out another one in its place. Section 6 of RFC 6749 allows a server
  to do so but does not demand it. A reply that never arrives delivers nothing.
- A credential read yields the slot, a successful write was read back, a failed write may leave the old record, the new
  one or anything else, a deletion may or may not have taken effect, whatever it answers. The lock excludes other logins
  and logouts.
- Linking the lifecycle file fails if it exists; renaming over it replaces, and unlinking removes, whatever it then is.
  Any access to a store may fail before or after its effect. A process is alive until it crashes. Operation ids and outbox
  ids are fresh.
- Key derivation, upper-casing, the redaction rules for texts and keys, and the decoding of a seat status byte are
  parameters: the theorems hold for all of them.

## What turned out not to hold as one might expect

- Interleaved wallet administrators can end with two seeds in custody. A clearing reads the record it has to match and
  later unlinks the file, whatever it then holds: if a creation begins in between, its record is removed, another creation
  can begin, and both store their seeds. `WalletSchedules.TwoSeedsAreReachable` is such a run from empty stores, and
  `WalletRepair.TwoSeedsStay` shows that every repair that is not busy asks for manual recovery from then on.
  `WalletSchedules.BeginIsSafeIff` gives the exact condition: a creation may begin exactly when nobody is clearing. The
  theorems about whole runs hold under this guard, and `WalletRuns.OneAtATimeIsGuarded` shows that administrators which
  run one at a time, whatever crashes and fails, always meet it.
- Two repairs of one record can reopen a configured lifecycle (`WalletSchedules.ConfiguredCanReopen`); the seed stays, and
  one more repair configures it again. An access undoes a configured lifecycle exactly when it is the effective late write of
  an address (`WalletSteps.OnlyLateSetReopens`). So a process may commit the lifecycle exactly when no repair is between the
  read and the write of an address (`WalletRuns.CommitIsFinalIff`), and a configured lifecycle stays on every continuation
  under exactly that condition (`WalletRuns.ConfiguredStaysIff`). Administrators that run one at a time, whatever crashes
  and fails, never undo one (`WalletRuns.OneAtATimeNeverReopens`).
- A process that fails does not always leave an inactive record, and then every repair is busy as long as it lives.
  `WalletAbandon.StuckIff` gives the exact events: the record is put in place by an access that reports a failure, which
  nobody abandons (`WalletAbandon.BeginCanLeaveActive` is such a run); an abandonment fails; a late write brings the record
  of a live process back; or a new process gets the number of the crashed owner.
- An accepted broadcast with an empty transaction hash moves the buckets but not the status of the outbox entry, in retry
  and in submission by outbox id; retrying a confirmed or failed entry does the reverse. `Ledger.SubmitKeepsStepIff`
  gives the exact guard, `Ledger.SettleKeepsStepIff` and `Ledger.ForgetKeepsStepIff` those of settling and forgetting, and
  `Ledger.StepIsLost` has runs from an empty outbox for all of them.
- A zero amount is the one on which the three admission checks differ: `LowValue.ZeroAmountDiffers` says exactly when, and
  `LowValue.ZeroAmountShows` has a policy, whose limit was lowered below what is locked, on which they do.
- `NaN` and both infinities print as `null`, and `-0` as `0`, so these values share their hash:
  `CanonicalJson.NumberCollisions`. A number is read back exactly when what follows cannot continue a number:
  `CanonicalJson.DecodesExactly`.
- The diff reads inherited properties: a field such as `toString` on one side only makes it throw, and an empty object
  under `__proto__` goes unnoticed. `RunbookDiff.DiffIsExact` states exactly when.
- The status of a seat depends on the order of its filled events exactly when the seat is not full in the end although
  one event by itself reports it full: `SeatFold.OrderMattersExactly`.
- The receive amount of a quote is non-decreasing in the amount for every basis-point fee, not only up to 10 000. The
  risk level `high` cannot occur in a quote.

## Model

| member | source | states |
|---|---|---|
| OAuthTrace.CreateRecord | src/stele/oauth-credential-store.ts:151-196 | exactly when a record can be built, and that it is active, holds the delivered tokens, and lets the access token expire its lifetime after the clock |
| OAuthTrace.RotateRecord | src/stele/oauth-credential-store.ts:198-235 | exactly when a record can be rotated (all four tokens differ), and that it holds the delivered tokens under the old client, one generation up, with the expiry counted from the clock |
| OAuthTrace.AllowedKept | src/stele/oauth-admin.ts:374-419 | later events never make an earlier write or deletion undisciplined |
| OAuthTrace.PriorIsDead | src/stele/oauth-admin.ts:163-171 | whatever record a first write replaces, its grant was revoked or rotated away before |
| OAuthTrace.NeverOverwritesLive | src/stele/oauth-admin.ts:108-202 | in a disciplined trace no write, compensations included, replaces the record of a grant that may be live by that of another grant |
| OAuthVerdict.VerdictKept | src/stele/oauth-admin.ts:320-342 | once an observation has ended a command, nothing observed afterwards changes its answer |
| OAuthAdmin.Environment.Write | src/stele/oauth-credential-store.ts:117-137 | a successful write holds the record; a failed one leaves anything in the slot |
| OAuthAdmin.Environment.Delete | src/stele/oauth-credential-store.ts:139-149 | a deletion empties the slot or leaves it as it was, whatever it answers |
| OAuthAdmin.RotationPending | src/stele/oauth-admin.ts:129-135 | after a refresh only the delivered grant is unaccounted for |
| OAuthAdmin.Uncompensated | src/stele/oauth-admin.ts:384-385 | when the compensating read fails or finds a foreign record, the replacement is revoked or excused and everything else accounted for |
| OAuthAdmin.SteleOAuthAdmin.CompensateFailedRefreshCommit | src/stele/oauth-admin.ts:374-393 | after a failed refresh commit every delivered grant is accounted for, and exactly which record is kept, marked, in which stored state |
| OAuthAdmin.SteleOAuthAdmin.CompensateFailedInteractiveCommit | src/stele/oauth-admin.ts:395-419 | the same after a failed interactive commit, including when a revoked replacement without a predecessor is deleted |
| OAuthAdmin.SteleOAuthAdmin.DeleteReplacement | src/stele/oauth-admin.ts:416-418 | a replacement is deleted only once revoked, and whether that works or not nothing is lost |
| OAuthAdmin.SteleOAuthAdmin.CompensatingWrite | src/stele/oauth-admin.ts:387-392 | the marked retained record is written only over a safe state; if that fails the loss is one of the named reasons |
| OAuthAdmin.SteleOAuthAdmin.ReadStored | src/stele/oauth-admin.ts:112 | the opening read yields the slot or a store error and loses nothing |
| OAuthAdmin.SteleOAuthAdmin.RevokeStored | src/stele/oauth-admin.ts:166-171 | once the stored grant's revocation is confirmed, no live grant depends on the store |
| OAuthAdmin.SteleOAuthAdmin.RevokeUnbuilt | src/stele/oauth-admin.ts:136-140 | tokens from which no record could be built are revoked, or their loss is excused by just that |
| OAuthAdmin.SteleOAuthAdmin.MarkStored | src/stele/oauth-admin.ts:141-144 | marking the stored record keeps the account, whatever the write leaves |
| OAuthAdmin.SteleOAuthAdmin.CommitRecord | src/stele/oauth-admin.ts:146-157 | the first write either stores the new record and settles the account, or leaves exactly the situation the compensations handle |
| OAuthAdmin.SteleOAuthAdmin.RefreshCommit | src/stele/oauth-admin.ts:128-160 | a refresh ends with a freshly delivered grant stored one generation up, or keeps the account; a refusal that asks for reauthentication changes nothing and is no error yet |
| OAuthAdmin.SteleOAuthAdmin.RotateAndCommit | src/stele/oauth-admin.ts:133-158 | delivered tokens become the stored record, or are revoked and the stored record is marked, or the failed write is compensated, and which of these happens when |
| OAuthAdmin.ValidIsCurrent | src/stele/oauth-admin.ts:353-372 | the check of a registration in whole seconds is the one on the exact moment: issued within a minute of it and not expired |
| OAuthAdmin.SteleOAuthAdmin.InteractiveAttempt | src/stele/oauth-admin.ts:227-278 | an attempt leaves no grant unaccounted for except the one of the record it returns, registers at most one client, and ends with the error of the first observation that calls for one |
| OAuthAdmin.SteleOAuthAdmin.AuthorizeAndExchange | src/stele/oauth-admin.ts:236-261 | a denied authorization is cancelled, retried or unavailable, as its reason says |
| OAuthAdmin.SteleOAuthAdmin.ExchangeAndCreate | src/stele/oauth-admin.ts:246-274 | exchanged tokens end up in the returned record or are revoked or excused |
| OAuthAdmin.SteleOAuthAdmin.InteractiveLogin | src/stele/oauth-admin.ts:173-197 | the retry loop terminates with at most two registrations, retries exactly the first refusal of a client, and on success the slot holds a freshly delivered active grant |
| OAuthAdmin.SteleOAuthAdmin.CommitInteractive | src/stele/oauth-admin.ts:177-189 | the created record is written over the prior one, and a failed write is compensated |
| OAuthAdmin.SteleOAuthAdmin.Opening | src/stele/oauth-admin.ts:111-113 | a login begins with the metadata, the store and the clock, and any failure there is its answer |
| OAuthAdmin.SteleOAuthAdmin.Renew | src/stele/oauth-admin.ts:123-189 | a session that may be refreshed is refreshed; a new one is established exactly when there is none or the server refuses the refresh |
| OAuthAdmin.SteleOAuthAdmin.Establish | src/stele/oauth-admin.ts:163-189 | the stored grant is revoked before an interactive login |
| OAuthAdmin.SteleOAuthAdmin.LoginExclusive | src/stele/oauth-admin.ts:110-198 | the invariant is kept on every path; the error is that of the first observation that ends the login, and without one the session is kept, refreshed or established exactly as store, clock and the refresh reply say |
| OAuthAdmin.SteleOAuthAdmin.Login | src/stele/oauth-admin.ts:108-202 | one login, under the lock, keeps every delivered grant accounted for and every write disciplined; it fails exactly when something it observed ends a login, with that error, and otherwise answers which of the three successes it is |
| OAuthAdmin.SteleOAuthAdmin.Logout | src/stele/oauth-admin.ts:204-225 | the slot changes only after the stored grant's revocation was confirmed; it fails exactly when something it observed ends it, with that error, and success means the slot is empty |
| OAuthAdmin.SteleOAuthAdmin.DeleteRevoked | src/stele/oauth-admin.ts:217-219 | the record of a revoked grant is removed and the removal checked, and nothing is lost either way |
| OAuthAdmin.AnyRun | src/stele/oauth-admin.ts:108-225 | every sequence of logins and logouts, from any accounted state, answers each command by the part of the trace it observed, keeps each delivered grant that may be live stored or lost for a named reason, only extends the trace, registers at most two clients a login, and leaves the slot as the last answer says |
| WalletStores.ProvisioningKeeps | src/stele/wallet-state.ts:150-201 | a provisioning record keeps the stores sound when any seed there is its own, under the address committed to |
| WalletStores.ConfiguredKeeps | src/stele/wallet-state.ts:203-225 | a configured record keeps the stores sound when its seed is in custody under that address |
| WalletStores.AbsenceKeeps | src/stele/wallet-state.ts:227-240 | removing the file keeps the stores sound when there is no seed |
| WalletStores.SeedKeeps | src/stele/os-credential-store.ts:105-152 | storing the first seed under the committed address keeps the stores sound |
| WalletSteps.StepKeepsStores | src/stele/agent-wallet-admin.ts:67-208 | no access of create or repair, failing or not, breaks the stores or removes, replaces or doubles a seed while what the process relies on holds |
| WalletSteps.OnlyLateSetReopens | src/stele/wallet-state.ts:179-191 | an access undoes a configured lifecycle exactly when it is the effective late write of an address by a repair that matched the record before |
| WalletSteps.CreationGoesOn | src/stele/agent-wallet-admin.ts:67-95 | what a creation has seen in the stores when it goes on, at each of its checks, whatever the other processes do |
| WalletSteps.SettingIsExact | src/stele/wallet-state.ts:179-191 | an address is set exactly in the provisioning record of the same id, where there is none or the same; otherwise it is refused |
| WalletSteps.CommitIsExact | src/stele/wallet-state.ts:203-225 | a wallet is configured exactly over the provisioning record of the same id in which the address was set |
| WalletSteps.AbandonIsExact | src/stele/wallet-state.ts:193-201 | abandoning changes nothing but the flag of the provisioning record of the same id |
| WalletSteps.ClearingIsExact | src/stele/wallet-state.ts:227-240 | clearing removes exactly the provisioning record of the same id, or finds no file |
| WalletSteps.StepKeepsSelf | src/stele/agent-wallet-admin.ts:67-208 | every access leaves the process with what its next access relies on |
| WalletSteps.StepKeepsOther | src/stele/agent-wallet-admin.ts:67-208 | what an interleaved process relies on, also between a matching read and its write, survives every access of another |
| WalletSteps.StepProgresses | src/stele/agent-wallet-admin.ts:82-135 | how the ids a process holds can change: by beginning, by adopting an orphaned seed or by taking up an inactive record |
| WalletSteps.StepKeepsCompatible | src/stele/agent-wallet-admin.ts:82-135 | no two processes own one record, and none is owned during a clearing, unless a creation begins inside a clearing |
| WalletRuns.RunAllKeepsInv | src/stele/agent-wallet-admin.ts:67-208 | every interleaving in which no creation begins inside a clearing keeps the invariant and every seed, with any failures and crashes |
| WalletRuns.ReachableLifecycleIsBacked | src/stele/agent-wallet-admin.ts:79-92 | every configured lifecycle such a run reaches names the only seed in custody, whose derived address is the committed one |
| WalletRuns.OneAtATimeIsGuarded | src/stele/agent-wallet-admin.ts:67-123 | administrators that run one at a time never begin inside a clearing |
| WalletRuns.ConfiguredStaysIff | src/stele/wallet-state.ts:179-191 | a configured lifecycle stays on every continuation, whoever starts, fails or crashes, exactly when no repair is still about to write an address |
| WalletRuns.CommitIsFinalIff | src/stele/wallet-state.ts:203-225 | a commit of the lifecycle stays on every continuation exactly when no repair is between the read and the write of an address at that moment |
| WalletRuns.OneAtATimeNeverReopens | src/stele/agent-wallet-admin.ts:67-208 | administrators that run one at a time, on any stores and with any failures and crashes, never undo a configured lifecycle |
| WalletSchedules.LateRemovalDoublesSeed | src/stele/wallet-state.ts:227-240 | a record removed by a late clearing lets two creations store their seeds |
| WalletSchedules.BeginIsSafeIff | src/stele/wallet-state.ts:227-240 | a creation may begin exactly when nobody is clearing: then one seed stays on every guarded continuation, otherwise some continuation stores two |
| WalletSchedules.TwoSeedsAreReachable | src/stele/wallet-state.ts:227-240 | a run from empty stores that ends with two seeds |
| WalletSchedules.ConfiguredCanReopen | src/stele/wallet-state.ts:179-191 | a guarded run in which a configured lifecycle turns back into a provisioning record |
| WalletRepair.RepairWithoutSeed | src/stele/agent-wallet-admin.ts:175-182 | an undisturbed repair without seeds clears the provisioning or answers none |
| WalletRepair.RepairOrphan | src/stele/agent-wallet-admin.ts:125-151 | an undisturbed repair adopts a single orphaned seed |
| WalletRepair.RepairConfigured | src/stele/agent-wallet-admin.ts:153-173 | an undisturbed repair verifies a configured wallet and changes nothing |
| WalletRepair.RepairResumed | src/stele/agent-wallet-admin.ts:183-208 | an undisturbed repair completes an interrupted creation whose seed is stored |
| WalletRepair.RepairMeetsSpec | src/stele/agent-wallet-admin.ts:108-208 | one undisturbed repair of inactive sound stores configures the seed in custody, or clears the lifecycle when there is none, and never reports manual recovery |
| WalletRepair.RepairIsExact | src/stele/agent-wallet-admin.ts:108-208 | the outcome of one undisturbed repair of any stores, sound or not, within eight accesses: busy, none, cleared, verified, recovered or manual recovery |
| WalletRepair.RepairGivesUp | src/stele/agent-wallet-admin.ts:125-185 | a repair that cannot tell which seed belongs to the lifecycle, or whose seed does not fit it, asks for manual recovery and changes nothing |
| WalletRepair.RepairConverges | src/stele/agent-wallet-admin.ts:67-208 | from every point a guarded run can crash at, one repair succeeds once the provisioning is inactive, and a second answers verified or none and changes nothing |
| WalletRepair.SeedIdsStay | src/stele/agent-wallet-admin.ts:67-208 | no run, guarded or not, ever removes the seed of an id |
| WalletRepair.TwoSeedsStay | src/stele/agent-wallet-admin.ts:125-185 | once two seeds are in custody, every repair of inactive stores asks for manual recovery, on every continuation |
| WalletAbandon.AbandonDeactivates | src/stele/wallet-state.ts:193-201 | the write of an abandonment that takes effect leaves the same record, inactive, also among interleaved processes |
| WalletAbandon.AbandonReads | src/stele/wallet-state.ts:193-201 | the read of an abandonment that works goes on to the write unless the lifecycle is configured by then |
| WalletAbandon.StuckIff | src/stele/agent-wallet-admin.ts:99-103 | exactly which events leave a live process an active record that it no longer works on |
| WalletAbandon.NeverStuck | src/stele/agent-wallet-admin.ts:67-151 | on every guarded run without these events no live process is ever left with an active record |
| WalletAbandon.FailedCommandsAreRepaired | src/stele/agent-wallet-admin.ts:99-147 | when all commands are over, failed or not, a repair does what a repair is for while every process is still alive, unless one of these events happened |
| WalletAbandon.BeginCanLeaveActive | src/stele/agent-wallet-admin.ts:78-103 | a run in which a record is put in place by an access that reports a failure: it is never abandoned, and every repair is busy while that process lives |
| WalletAdmin.Extend | src/stele/agent-wallet-admin.ts:67-208 | following one sequence of choices and then another is following both |
| WalletAdmin.FollowKeepsStores | src/stele/agent-wallet-admin.ts:67-208 | any run of the administrator keeps the stores sound and every seed |
| WalletAdmin.QuietRepair | src/stele/agent-wallet-admin.ts:108-208 | a faultless run of repair has the outcome specified, whatever the stores hold and however many accesses it took |
| WalletAdmin.Host.CreateProvisioning | src/stele/wallet-state.ts:150-177 | exclusive creation follows the machine: it takes effect only on an absent file, and a loser reads the file to say why |
| WalletAdmin.Host.Update | src/stele/wallet-state.ts:179-254 | setting, abandoning, committing and clearing read the record, match it and later write without looking again, as the machine does |
| WalletAdmin.Host.CreateSeed | src/stele/os-credential-store.ts:105-152 | a seed is stored after a look that there is none under its id, then read back and compared, as the machine does |
| WalletAdmin.Host.ReadBack | src/stele/os-credential-store.ts:142-152 | a stored seed that reads back missing or different is an error of its own, as in the machine |
| WalletAdmin.SteleWalletAdmin.Create | src/stele/agent-wallet-admin.ts:67-106 | every run of create is a machine run; on a reliable host the answer to any stores; when only the lifecycle file works, a failure leaves the lifecycle as it was or its own record inactive; the seed buffer is zero on return |
| WalletAdmin.SteleWalletAdmin.Update | src/stele/wallet-state.ts:179-254 | an update by the administrator extends the run by its machine accesses |
| WalletAdmin.SteleWalletAdmin.Provision | src/stele/agent-wallet-admin.ts:83-100 | from the provisioning record to the configured one, abandoning it on failure |
| WalletAdmin.SteleWalletAdmin.StoreSeed | src/stele/agent-wallet-admin.ts:85-87 | the address is committed before its seed is stored, as the machine does |
| WalletAdmin.SteleWalletAdmin.CheckAndCommit | src/stele/agent-wallet-admin.ts:88-98 | the lifecycle is committed only after the seed was seen alone in custody |
| WalletAdmin.SteleWalletAdmin.Abandon | src/stele/agent-wallet-admin.ts:99-103 | when the lifecycle file works the record is afterwards the same but inactive; the original error is reported whether abandoning works or not |
| WalletAdmin.SteleWalletAdmin.Repair | src/stele/agent-wallet-admin.ts:108-123 | every run of repair is a machine run; when the lifecycle file works, a repair that fails changes nothing |
| WalletAdmin.SteleWalletAdmin.RepairWithoutLifecycle | src/stele/agent-wallet-admin.ts:125-151 | the orphan branch follows the machine |
| WalletAdmin.SteleWalletAdmin.AdoptOrphan | src/stele/agent-wallet-admin.ts:135-147 | beginning, committing to and configuring an orphaned seed follow the machine, abandoning on failure |
| WalletAdmin.SteleWalletAdmin.VerifyConfigured | src/stele/agent-wallet-admin.ts:153-173 | the verification follows the machine and changes nothing |
| WalletAdmin.SteleWalletAdmin.RepairProvisioning | src/stele/agent-wallet-admin.ts:175-208 | clearing and resuming follow the machine |
| WalletAdmin.SteleWalletAdmin.Resume | src/stele/agent-wallet-admin.ts:194-199 | an interrupted creation is completed, setting the address first if it was missing |
| WalletAdmin.Wipe | src/stele/agent-wallet-admin.ts:104 | a wiped buffer is all zeros |
| WalletAdmin.RepairTwice | src/stele/agent-wallet-admin.ts:108-208 | on a reliable host two repairs of any stores have the outcomes specified, and on sound inactive stores the first does what a repair is for and the second confirms it |
| Numerals.NumeralOfNumber | src/wallet.ts:817 | a canonical numeral is the text of the number it denotes |
| Numerals.EqualLengthOrder | src/stele/api-client.ts:31 | on digit texts of one length, text order is numeric order |
| Decimals.RoundTrip | src/wallet.ts:808-826 | parsing the printed units gives the units back, for every natural number |
| Decimals.WrittenParses | src/wallet.ts:808-818 | digits, with a fraction or without, between any white space, are the amount they write, or too many places |
| Decimals.AcceptedTexts | src/wallet.ts:808-818 | a text is refused as no decimal exactly when it has no such shape |
| Decimals.NegativeRefused | src/wallet.ts:808-826 | a negative value is printed with a sign that the parser refuses |
| Decimals.PrintIsCanonical | src/wallet.ts:820-826 | the printed text is a canonical spelling |
| Decimals.UniqueSpelling | src/wallet.ts:808-826 | printing what was parsed is the one canonical spelling of the same amount |
| Decimals.UnitsScale | src/wallet.ts:808-818 | the parsed units are the digits scaled to eighteen places |
| Decimals.CompareIsRationalOrder | src/bridges.ts:396-400 | the comparison agrees with the exact order of the rationals written |
| LowValue.SummaryReadsBuckets | src/wallet.ts:685-718 | the summary reports each bucket, the locked total and what the limit leaves, floored at zero |
| LowValue.LazyReadEqualsReset | src/wallet.ts:685-747 | for every policy, day and missing field, lazy reading equals resetting first |
| LowValue.ReserveHolds | src/wallet.ts:644-660 | a spend adds to the reserved bucket alone, after a day change too |
| LowValue.MoveHolds | src/wallet.ts:662-683 | each bucket after a move: the source clipped at zero, the target with the full amount, the others as they were |
| LowValue.MoveTotal | src/wallet.ts:662-683 | the total grows by exactly the part of the amount the source did not hold |
| LowValue.PreflightLowValue | src/index.ts:1699-1711 | for positive amounts the preflight accepts exactly what the signer accepts |
| LowValue.SimulateHotWalletPolicy | src/wallet_safety.ts:58-92 | for positive amounts the simulator accepts exactly what the signer accepts |
| LowValue.ZeroAmountDiffers | src/wallet.ts:630-642 | on a zero amount the signer refuses exactly when more than the limit is locked |
| LowValue.ZeroAmountShows | src/index.ts:1699-1711 | on a policy whose limit was lowered below the locked amount, preflight and simulator accept a zero amount that the signer refuses |
| LowValue.AdmittedSpend | src/wallet.ts:630-660 | an admitted spend lowers the remaining allowance by exactly its amount and does not overdraw the limit |
| LowValueRecord.PolicyRecord.ResetDayIfNeeded | src/wallet.ts:720-737 | the stored texts after a reset denote the reset policy |
| LowValueRecord.PolicyRecord.RecordSpend | src/wallet.ts:644-660 | the stored texts after a spend denote the reserved policy |
| LowValueRecord.PolicyRecord.Debit | src/wallet.ts:677-678 | the text of the source bucket afterwards denotes what is left, floored at zero |
| LowValueRecord.PolicyRecord.Credit | src/wallet.ts:679 | the text of the target bucket afterwards denotes the sum |
| LowValueRecord.PolicyRecord.MoveBetween | src/wallet.ts:662-683 | the stored texts after a move denote the moved policy, the mirrored field included |
| LowValueRecord.PolicyRecord.LockedUnits | src/wallet.ts:739-747 | the locked amount read from the texts is that of the policy, and there is none exactly when the day is today and a text it reads does not parse |
| LowValueRecord.PolicyRecord.AssertLowValueAllowed | src/wallet.ts:630-642 | the check over texts admits exactly what the signer's check over units admits, and throws on exactly the texts it reads that do not parse |
| Outbox.PutKeepsUnique | src/outbox.ts:135-166 | rewriting an entry keeps ids unique |
| Outbox.WithoutAbsent | src/outbox.ts:168-173 | forgetting an unknown id would change nothing |
| Ledger.MoveKeepsStep | src/index.ts:1489-1495 | moving an entry's status and its amount between the matching buckets keeps them in step, and the source bucket covers the amount |
| Ledger.BuildKeepsInv | src/index.ts:4062-4115 | a build with its broadcast keeps ledger and outbox in step |
| Ledger.SubmitKeepsInv | src/index.ts:5012-5022 | submission and retry keep them in step |
| Ledger.ReleaseKeepsInv | src/index.ts:1463-1495 | a release keeps them in step |
| Ledger.SettleKeepsInv | src/index.ts:1554-1588 | a settlement by outbox id keeps them in step |
| Ledger.RunKeepsStep | src/index.ts:5099-5119 | over every ordinary run each bucket equals the sum of the reserved entries in the matching status |
| Ledger.NeverSaturates | src/wallet.ts:678 | on those runs the source of a move always holds the whole amount, so the clipping branch never fires |
| Ledger.BuildEntries | src/index.ts:4062-4115 | the new entry after a build, its status, hash and attempts, reserved or not |
| Ledger.SubmitEntries | src/index.ts:5012-5022 | the status, hash and attempts of an entry after a submission or retry, reserved or not |
| Ledger.ReleaseEntries | src/index.ts:1463-1495 | a release states failed or expired in a signed reserved entry and nothing in any other |
| Ledger.SettleEntries | src/index.ts:1554-1588 | the status and hash of an entry after a settlement, reserved or not |
| Ledger.ReleasingStale | src/index.ts:5213-5224 | releasing the listed reservations one by one expires exactly the signed reserved entries past their expiry |
| Ledger.LapsedHolds | src/index.ts:5213-5224 | the reserved bucket of each wallet falls, and its expired bucket rises, by exactly the amounts of those entries |
| Ledger.CallWithinLimit | src/wallet.ts:630-683 | one call raises the excess over the daily limit by at most the expired amount it resubmits |
| Ledger.RunWithinLimit | src/index.ts:5112-5119 | over a run the locked amount exceeds the daily limit by at most the resubmitted expired amounts |
| Ledger.RunRespectsLimit | src/wallet.ts:630-683 | without a submission that takes a reserved amount out of the expired bucket the daily limit is never exceeded |
| Ledger.SubmitKeepsStepIff | src/index.ts:5012-5022 | exactly when an accepted submission of a reserved entry keeps ledger and outbox in step |
| Ledger.SettleKeepsStepIff | src/index.ts:1575-1584 | exactly when a settlement with a caller-supplied hash does |
| Ledger.ForgetKeepsStepIff | src/outbox.ts:168-176 | exactly when forgetting an entry does |
| Ledger.StepIsLost | src/index.ts:5110-5119 | from an empty outbox, building without sending and then submitting with an empty hash, settling with a foreign hash, or forgetting loses the step, and so does retrying a confirmed entry |
| LedgerDesk.Desk.RecordOutboxAttempt | src/outbox.ts:135-151 | the stored entry after an attempt, and no other entry changed |
| LedgerDesk.Desk.UpdateOutboxStatus | src/outbox.ts:153-166 | the stored entry after a status update, keeping its hash unless given one |
| LedgerDesk.Desk.ForgetOutboxEntry | src/outbox.ts:168-176 | the entry is gone and the buckets are untouched |
| LedgerDesk.Desk.AddOutboxEntry | src/outbox.ts:99-112 | a new entry comes first and the others stay |
| LedgerDesk.Desk.RecordLowValueSpend | src/wallet.ts:644-660 | the wallet's policy is reserved against, any other untouched; an unknown wallet changes nothing |
| LedgerDesk.Desk.MoveLowValueAccounting | src/wallet.ts:662-683 | the wallet's policy is moved, any other untouched; an unknown wallet changes nothing |
| LedgerDesk.Desk.LowValueSigner | src/wallet.ts:618-627 | the hot key signs exactly when the wallet has an enabled policy that admits the amount |
| LedgerDesk.Desk.BuildTransfer | src/index.ts:4062-4115 | the two stores after a build are the ledger's, refusals included |
| LedgerDesk.Desk.SubmitPayload | src/index.ts:5099-5119 | the two stores after a submission or retry are the ledger's |
| LedgerDesk.Desk.ReleaseLowValueReservation | src/index.ts:1463-1495 | the two stores after a release are the ledger's; released exactly if reserved and signed |
| LedgerDesk.Desk.ExpireStale | src/index.ts:5209-5232 | of the first listed entries exactly those signed, reserved and past their expiry are now expired, and exactly their amounts have moved from the reserved to the expired bucket of their wallets |
| LedgerDesk.Desk.TxStatusSummary | src/index.ts:1554-1588 | the two stores after a settlement are the ledger's |
| LedgerDesk.Desk.ServeDay | src/index.ts:5099-5119 | any ordinary day of handler calls is a run of the ledger and keeps the two stores in step |
| CodeUnits.SortedIsUnique | src/runbooks.ts:87-88 | a strictly sorted list of keys is determined by its members |
| CodeUnits.LessIsLexicographic | src/runbooks.ts:87-88 | keys are ordered by the first unit in which they differ, and a proper beginning comes first |
| JsonStrings.ReadQuoted | src/runbooks.ts:80 | a quoted string followed by anything is read back, with the unread rest, by a reader that refuses raw control characters |
| JsonStrings.EscapedIsShortest | src/runbooks.ts:80 | what is printed for a code unit is the one shortest text that reads back as it |
| JsonStrings.QuoteIsShortest | src/runbooks.ts:80 | what is printed for a string is the one shortest text that survives the encoding and reads back as it |
| JsonStrings.QuotedIsUnicode | src/runbooks.ts:80 | a quoted string has no unpaired surrogate, whatever the string had |
| CanonicalJson.SortedKeys | src/runbooks.ts:87-88 | the keys come strictly sorted, each once, and none is missing |
| CanonicalJson.DecodeCanonical | src/runbooks.ts:78-93 | a decoder recovers the value and the unread rest from the canonical text followed by anything that does not continue a number |
| CanonicalJson.DecodesExactly | src/runbooks.ts:78-93 | the decoder gives back the value and the unread rest exactly when the rest does not continue a number |
| CanonicalJson.CanonicalIsInjective | src/runbooks.ts:78-93 | two values have one canonical text exactly when they are the same JSON value up to key order |
| CanonicalJson.KeyOrderIsIrrelevant | src/runbooks.ts:86-90 | the order in which properties were set does not matter |
| CanonicalJson.NumberCollisions | src/runbooks.ts:79-81 | exactly which numbers share a canonical text |
| CanonicalJson.NumbersNeedDelimiters | src/runbooks.ts:79-81 | two numbers whose canonical texts, continued differently, coincide |
| CanonicalJson.UndefinedIsNotCanonical | src/runbooks.ts:107-109 | the text `undefined` is no canonical text |
| CanonicalJson.CanonicalIsUnicode | src/runbooks.ts:60-70 | the canonical text survives the encoding that precedes the hash |
| RunbookDiff.DiffFieldsIsExact | src/runbooks.ts:100-104 | the rows are those of the changed fields in order, or the diff throws on an inherited name |
| RunbookDiff.DiffIsExact | src/runbooks.ts:95-109 | when the diff throws, and otherwise exactly which fields it reports, sorted, with what each side has |
| RunbookDiff.InheritedNames | src/runbooks.ts:101-103 | exactly which one-sided names throw, and an empty object under the prototype's name goes unseen |
| VendorRegistry.PayloadMember | src/vendors.ts:241-244 | the payload has every field but the signatures, with the same value |
| VendorRegistry.PayloadTextIsExact | src/vendors.ts:91-93 | two registries have one signed text exactly when they agree outside their signatures |
| VendorRegistry.BareListIsSignedAlike | src/vendors.ts:81-93 | a bare list is signed like exactly the registries that have the same vendors and otherwise only signatures |
| VendorRegistry.SignaturesAreNotSigned | src/vendors.ts:241-244 | adding or replacing a signature leaves the signed text alone |
| SeatFold.SeatKeyIsInjective | src/clusters.ts:914-916 | two seats never share a key |
| SeatFold.MostFilledIsMaximum | src/clusters.ts:1016 | the filled count is the maximum over the seat's events |
| SeatFold.MostOfferedIsMaximum | src/clusters.ts:1017 | the seat count is the maximum over the advertisement and the seat's events |
| SeatFold.FilledFromIsExact | src/clusters.ts:1013-1024 | the fold of the filled events is those maxima, and full exactly if it ever was |
| SeatFold.LastAdvertisedIsLast | src/clusters.ts:1010-1012 | the terms are those of the last advertisement, and unadvertised seats have none |
| SeatFold.ListingIsFold | src/clusters.ts:1008-1034 | folding one key gives its declarative listing |
| SeatFold.SeedListings | src/clusters.ts:1009-1012 | the first loop holds for every key the fresh listing of its last advertisement |
| SeatFold.AdvanceListings | src/clusters.ts:1013-1024 | the second loop advances exactly the advertised keys by their filled events |
| SeatFold.CloseListings | src/clusters.ts:1025-1033 | the third loop closes exactly the advertised keys by their closing events |
| SeatFold.SortListings | src/clusters.ts:1034 | the rows are the listings in strict order of cluster and seat |
| SeatFold.OrderedByClusterAndSeat | src/clusters.ts:1034 | one row comes before another exactly when its cluster is lower, or in one cluster its seat |
| SeatFold.FoldSeatEvents | src/clusters.ts:1008-1035 | one row per advertised seat in strict order of cluster and seat, each its listing; unadvertised seats are ignored |
| SeatFold.CountsIgnoreOrder | src/clusters.ts:1013-1024 | the counts do not depend on the order of the filled events |
| SeatFold.OrderMattersExactly | src/clusters.ts:1022 | exactly when the status depends on that order |
| SeatFold.ListingIgnoresOrder | src/clusters.ts:1008-1035 | where seat counts agree, a listing is invariant under permuting the filled events |
| SeatFold.OrderShows | src/clusters.ts:1022 | two orders of the same two events with different statuses |
| SeatFold.CountApplications | src/clusters.ts:1038-1045 | each seat's count is the number of its applications, and absent when there is none |
| SeatFold.ListedAreFirst | src/clusters.ts:1089-1104 | the listed seats are the first ones that are open with fewer seats filled than offered, in order, up to the limit |
| Redaction.Redactor.RedactValue | src/stele/privacy.ts:26-39 | the recursion over a cyclic graph terminates and computes the specified redaction and the set of seen objects |
| Redaction.ExpandedOnce | src/stele/privacy.ts:29-30 | the expanded objects are exactly the newly seen ones, each once |
| Redaction.ExpandedFirst | src/stele/privacy.ts:29-38 | every object is expanded at the first of its places in the order of the traversal, and marked as a cycle at the others |
| Redaction.RedactMirrors | src/stele/privacy.ts:26-39 | the marker under every sensitive key, the redacted text at every other string, and every other object mirrored or replaced by the cycle marker |
| Redaction.RedactSaturates | src/stele/privacy.ts:29-38 | the seen set is the least one that covers the value and exposes nothing outside itself |
| Redaction.RedactionIsExact | src/stele/privacy.ts:22-39 | a whole redaction expands exactly the objects reachable past no sensitive key, each once |
| Redaction.OutputIsClean | src/stele/privacy.ts:26-39 | if the text rules yield only harmless strings, every string value put out is harmless |
| AbortRace.Race.constructor | src/stele/api-client.ts:406-427 | how a call begins: aborted before, thrown by the start, or running |
| AbortRace.Race.HandleValue | src/stele/api-client.ts:429-439 | a value that arrives after an abort goes to the late handler and never to the caller |
| AbortRace.Race.HandleAbort | src/stele/api-client.ts:420-425 | an abort rejects an unfinished call and runs the abort handler, and does nothing to a finished one |
| AbortRace.Race.HandleError | src/stele/api-client.ts:440-445 | a rejection rejects an unfinished call and does nothing to a finished one |
| AbortRace.Race.Play | src/stele/api-client.ts:400-448 | every schedule of abort, fulfilment and rejection steps the state as specified |
| AbortRace.RunEnds | src/stele/api-client.ts:400-448 | the outcome, the late values and the abort calls of every schedule, told without its steps |
| AbortRace.SettledForGood | src/stele/api-client.ts:406-447 | a call has settled exactly once it was refused, its promise settled or an abort reached it, and never changes its outcome |
| AbortRace.DeliveredOrLate | src/stele/api-client.ts:429-439 | a produced value is delivered or passed to the late handler, never both, and the abort handler runs at most once |
| BoundedBody.Put | src/stele/api-client.ts:393-396 | one chunk is copied behind those before it |
| BoundedBody.Assemble | src/stele/api-client.ts:391-397 | the buffer is the concatenation of the chunks |
| BoundedBody.ReadBoundedBody | src/stele/api-client.ts:354-398 | the body is exactly the concatenation, returned exactly if the stream ends within 1 and the maximum; cancelled exactly otherwise, the empty stream excepted |
| BridgeQuote.VariableIsTruncated | src/bridges.ts:384-389 | the variable fee is the exact share with its fraction dropped towards zero |
| BridgeQuote.ReceiveIsMonotone | src/bridges.ts:384-394 | a larger amount never yields less, for every flat fee and every basis-point fee |
| BridgeQuote.VariableOfSum | src/bridges.ts:384-389 | the variable fee of a sum exceeds the sum of the parts' fees by at most one unit and is never below it |
| BridgeQuote.FeeAndReceive | src/bridges.ts:391-394 | receive amount and fee make up the amount, and nothing arrives exactly if the fee reaches it |
| BridgeQuote.FeeIsExact | src/bridges.ts:384-389 | the fee is the flat fee and the truncated share, and below zero exactly when a discount exceeds the flat fee by a whole unit |
| BridgeQuote.FirstBadError | src/bridges.ts:185-240 | the first text that is no amount, in the order of conversion, decides the error |
| BridgeQuote.RouteViolations | src/bridges.ts:194-208 | the violated guards of the route, each once and in order |
| BridgeQuote.BoundViolations | src/bridges.ts:209-217 | the violated bounds, or the first bound that does not parse |
| BridgeQuote.RiskOfQuote | src/bridges.ts:345-361 | the level is blocked exactly if something is violated, low exactly without warnings, and never high |
| BridgeQuote.QuoteBridgeRoute | src/bridges.ts:185-240 | the first conversion that fails; otherwise exactly the violations, executable and not blocked exactly without any, a fee text that is the flat fee and the exact share truncated, and a receive text of what is left |
| StrictText.MaxDenotes | src/stele/api-client.ts:12-13 | the maximum is the text of 2^256 - 1 |
| StrictText.ComparesWithMax | src/stele/api-client.ts:27-31 | comparing by length and then by text is comparing the numbers |
| StrictText.Uint256TextIsExact | src/stele/api-client.ts:27-31 | the test accepts exactly the canonical decimals of the integers below 2^256 |
| StrictText.SplitOfJoin | src/stele/api-client.ts:341 | splitting a joined list at the separator gives the list back |
| StrictText.PrivateIsBlock | src/stele/api-client.ts:343-348 | the octet test is membership in the three blocks of section 3 of RFC 1918 |
| StrictText.LanOriginIsExact | src/stele/api-client.ts:338-352 | the parser accepts exactly the canonical texts of private addresses, with the default port or none, and yields the address |

## Left out

- Cryptography, key derivation and the software development kit: parameters or not part of this model.
- Files, clocks, environment variables and network clients: store contents are fields, days and times are arguments.
- OAuth: the loopback listener, PKCE and the browser are one step that may fail; an error raised by releasing the lock is
  not modelled; concurrent commands are excluded by the lock.
- OAuth: a refresh whose reply is lost may have rotated the grant on the server; an undelivered grant is not counted.
- WalletStores.ConfiguredKeeps: generations and network identity in the records are constants and not modelled.
- WalletRuns.RunAllKeepsInv: covers the interleavings in which no creation begins inside a clearing, because the others can
  end with two seeds (WalletSchedules.BeginIsSafeIff).
- WalletRepair.RepairConverges: covers the same interleavings, for the same reason.
- WalletAdmin.SteleWalletAdmin.Repair: the copy of the seed that a repair reads is a value, so wiping it is not modelled.
- Seed records that do not decode make listing fail like any other store failure, and key derivation always succeeds.
- WalletAdmin.Host.CreateSeed: a store keeps a seed as given or not at all; the read-back that would find it garbled is
  modelled, the garbling is not.
- LowValueRecord.PolicyRecord.MoveBetween: stored amounts that do not parse, on which the program throws, are excluded;
  the policy setup refuses them and every rewrite keeps them out.
- LowValue.SimulateHotWalletPolicy: other assets, agent restrictions and the matched clauses are not modelled.
- LowValue.PreflightLowValue: balance, nonce and agent checks of the preflight are not modelled; the amounts it compares
  are units, since the texts between the summary and the check are printed and parsed again (Decimals.RoundTrip).
- LedgerDesk.Desk.ServeDay: handlers run one after the other; two handlers that interleave between reading and writing a
  store file are not modelled. Expiry and forgetting are covered by their own methods and lemmas.
- CanonicalJson.DecodeCanonical: a finite number is identified by the text ECMAScript prints for it; printing numbers is
  not modelled. Undefined values and functions inside arrays and objects, on which the program throws, are not values here.
- RunbookDiff.DiffIsExact: arrays, strings and other non-objects as sides of the diff are not modelled.
- SeatFold.FoldSeatEvents: ids and counts are natural numbers; decoding raw events and the read window are not modelled.
- Redaction.RedactionIsExact: getters, array holes and the special meaning of a property named `__proto__` are not
  modelled; keys pass unredacted, as in the program. The patterns of sensitive keys and texts are parameters.
- BoundedBody.ReadBoundedBody: errors thrown while releasing the reader are swallowed by the program and not modelled.
- BridgeQuote.QuoteBridgeRoute: the cooldown, message texts, route selection scores and circuit-breaker alerts are left
  out: they add only easy members.
- StrictText.LanOriginIsExact: the standard URL parser is assumed to accept such a text with protocol http and no port.
- Orders, bookings, invoices, connectors, profiles, heuristic scores and all prose: record upserts and labels without a
  deep invariant.
