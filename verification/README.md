# Verification of the marketplace's stateful cores

A Dafny model of the parts of the marketplace where the order of events matters,
and proofs of what they promise. Each core keeps its state in database rows or
in a map, changes it one transaction at a time, and promises something about
every interleaving of those transactions.

- **Sign-in and second factors** (`internal/identity`). `Rows` is what the
  database holds of one account, and the history of what was committed. `Steps`
  specifies what each transaction does to it, one function a transaction.
  `Service` is the service's code, an object whose methods update its rows
  statement by statement, each proved to do what its step specifies, and
  `ServiceRuns` calls them in any order. `Runs` lets
  the transactions of any flows follow one another in any order, with what
  their callers may hold: a session some request was authenticated with, a hash
  some sign-in read, values nobody held before, a clock that does not go back.
  Twelve modules each keep one invariant over every step — `PasswordSafety`,
  `ChallengeSafety`, `SessionSafety`, `FailureSafety`, `SendingSafety`,
  `CodeSafety`, `PurposeSafety`, `StepUpSafety`, `AppSafety`, `RecoverySafety`,
  `LiveSafety`, `GateSafety` — and `Guarantees` reads the promises off them for
  every run from the account's creation. `Answers`, `Flows` and `Changes` say
  exactly when each flow succeeds, what it then leaves and what a refusal costs, of
  the account, the request and the clock alone; what they ask of the account every
  run keeps. `SessionLife` adds that a session that
  ended stays ended, and `Enrolments` that an enrolment is confirmed once;
  `ExampleRuns` are legal runs in which something is not promised. `Policy`,
  `Totp` and `RecoveryCode` are the policy, section 5.3 of RFC 4226 with section
  5.2 of RFC 6238, and the recovery codes.
- **Stored passwords** (`internal/identity/password.go`). `Decimal`, `Base64` and
  `Phc` write and read the argon2id text, prove the round trip, and say which texts
  are read.
- **The audit log** (`internal/platform/audit`). `Digest` is the encoding a
  record is hashed over and its injectivity; `Chain` what an unbroken chain
  proves and what damage does; `AuditTables` appending, over runs of committed
  and rolled-back operations in every marketplace; `AuditLog` the code that
  appends, and verifies page by page while more is appended; `PersonKeys` the key
  of each person and `AuditReading` reading a record back, erased or not. SHA-256
  is any function to thirty-two bytes, of which some texts always collide: what
  depends on it names the two texts that would have to, those hashed for the very
  records it speaks of.
- **The rate limiters** (`internal/platform/ratelimit`). `TokenBucket` over real
  numbers and `Forgetting`, when what it forgets is missed; `FixedWindow` with the
  table it shares, and `WindowRuns` for many instances whose clocks differ, each
  statement on its own.
- **Work done once** (`internal/platform/jobs`, `internal/platform/outbox`).
  `Jobs` is the lease, `Outbox` the delivery and the dispatcher, `Deliveries`
  their runs.

Some promises hold only under a condition. For each, one result gives the exact
condition, and with it the case in which the promise fails:

- Verification of an audit chain does not look at the hash the chain ends in, so
  the last records can be altered or removed unseen, and others only by a record
  that collides with it or with its neighbour (`Chain.DamageIsSeen`,
  `Chain.RemovalIsSeen`).
- A record is hashed over the identifiers as the caller spelled them and verified
  over the spelling that the database's uuid column gives back, so an identifier
  in another spelling makes a record that does not verify, unless its two
  spellings collide (`AuditTables.AppendKeeps`, `AuditTables.EveryRunIsHonest`).
- Destroying a person's key before there is one is not remembered
  (`PersonKeys.DestroySticksIfThereIsAKey`).
- Forgetting idle buckets changes no answer exactly when ten minutes refill a
  whole bucket, as they do at 240 a minute and a burst of 120
  (`Forgetting.ForgettingIsHarmlessExactly`, `TokenBucket.FillsWhenTenMinutesDo`).
- The lease tells runs apart by their holder, and the service passes its version,
  which instances share: then a run that gives its lease back late, while another
  works on under the same name, frees that one's
  (`Jobs.ReleaseIsHarmlessExactly`, `Jobs.AlikeHoldersOverlap`).
- Consumers of one kind all work exactly when their names are distinct
  (`Deliveries.AllWorkExactlyWhenDistinct`).
- An hour counted with both its ends can hold six mailed codes, one at each end
  (`SendingSafety.ClosedHourHoldsSixExactly`,
  `ExampleRuns.AnHourWithBothEndsMayHoldSix`).
- A password change does not ask again whether the session it was begun on is
  still live (`Guarantees.ChangeOnALiveSession`,
  `ExampleRuns.ChangeOutlivesSignOut`).
- The gate of the password and the factors asks whether the account held a factor
  when the request was authenticated, and for the password when the change is
  begun (`Guarantees.GateIsExact`, `ExampleRuns.FactorsChangeWithoutProof`).
- A window's counter is short exactly when it was swept after it had counted, as
  a clock a window or more behind the others can find it
  (`WindowRuns.CountersAreShortExactly`, `WindowRuns.ASlowClockCountsAgain`).

`dafny verify dfyconfig.toml` checks everything.

## Model

| member | source | states |
|---|---|---|
| Guarantees.EveryRunIsSafe | internal/identity/identity.go:376-469 | every account that any run of committed transactions brings about, in any interleaving of the flows' separate transactions, meets all twelve invariants below |
| Guarantees.StepIsSafe | internal/identity/identity.go:589-690 | each of the eighteen transactions keeps the twelve invariants together |
| Guarantees.CreatedIsSafe | internal/identity/store.go:74-81 | an account just created meets them |
| Guarantees.PasswordChangeEndsEverything | internal/identity/identity.go:628-671 | after any run, every unrevoked session and every sign-in challenge was opened after the last committed password change, and a sign-in that verified an older hash is refused and commits nothing |
| Guarantees.ChangeOnALiveSession | internal/identity/identity.go:589-687 | after any run, a password change that reads the stored hash is committed on a live session if and only if neither a sign-out of that session nor a password change was committed since the request was authenticated with it, and it is within thirty days of being seen and ninety of its creation; it is committed, and opens a live session, either way |
| Guarantees.AChallengeWorksOnce | internal/identity/challengestore.go:49-80 | after any run, one challenge had at most five answers checked, at most one right, and opened at most one session |
| Guarantees.SessionsAreEarned | internal/identity/identity.go:448-456 | after any run, every session ever opened was opened by a password just when the account held no factor, or right after a right answer to a sign-in challenge by a method of a factor then held and permitted or by an issued recovery code never used before, or by a password change begun past its gate, on a session a request was authenticated with, against the hash still stored |
| Guarantees.FailuresAreCounted | internal/identity/failures.go:36-122 | after any run, the failure row is exactly the wrong second-factor answers since the last right one or password change; the two notices were each sent once a run; no app or e-mail code was accepted or sent for a challenge at a hundred or more |
| Guarantees.CodesArePaced | internal/identity/emailcode.go:76-100 | after any run, any hour holds at most five mailed codes, any two are a minute apart, and the pruned table holds at most five rows |
| Guarantees.MailedCodesWorkOnce | internal/identity/emailcode.go:86-131 | after any run, one unspent code a purpose; an accepted code was the last sent of the purpose it was accepted for, under ten minutes old, never accepted before; five typed texts compared with it at most; and what it brought about was of its purpose: a sign-in, a step-up or adding e-mail |
| Guarantees.MarksAreProofs | internal/identity/stepup.go:35-46 | after any run, a session's step-up mark is a moment the account proved a factor or a recovery code, its e-mail mark a moment it answered a code to a mere address, and each change of the factors, or of the password begun, came within ten minutes of a proof or of a request authenticated while the account held no factor |
| Guarantees.GateIsExact | internal/identity/factorpolicy.go:95-108 | after any run, the gate of the password and the factors is passed if and only if the session was stepped up under ten minutes ago, which was a proof, or, of a kind the policy knows, the request was authenticated while the account held no factor, whatever it holds when it is committed |
| Guarantees.AppCodesWorkOnce | internal/identity/challenge.go:196-218 | after any run, an app's accepted steps strictly increase, and between two moments number at most the steps between them and three |
| Guarantees.RecoverySetsAreWhole | internal/identity/factors.go:259-304 | after any run, no factor means no recovery codes, a set is none or ten, a code is accepted at most once, and an account that must have 2FA never loses its last factor |
| Guarantees.SignInAcceptsExactly | internal/identity/challenge.go:314-347 | of every reached account with an open sign-in challenge: the answer is right if and only if it fits what the account holds (a held key proved, a code of a held app fresh within a step, the live mailed code, an unused recovery code in any spelling, the codes not locked); then what was typed is spent, the run of failures over, and the session open for thirty days and stepped up; otherwise the answer costs exactly one attempt, and one failure when it counts |
| Guarantees.StepUpAcceptsExactly | internal/identity/stepup.go:75-99 | the same of a step-up, whose session then passes, for ten minutes, every gate when a factor was proved, and those that take an address when that was |
| PasswordSafety.Kept | internal/identity/identity.go:589-690 | every step keeps: of all hashes ever seen exactly the stored one was never superseded, and nothing that still opens is older than the last password change |
| PasswordSafety.StoreKeeps | internal/identity/store.go:74-81 | storing a hash nobody held before makes it the only current one |
| PasswordSafety.SignInKeeps | internal/identity/identity.go:429-460 | the second transaction of a sign-in, with or without a rehash, keeps both |
| PasswordSafety.FinishChangeKeeps | internal/identity/identity.go:628-687 | the second transaction of a password change keeps both |
| PasswordSafety.LateSignInRefused | internal/identity/store.go:119-128 | a sign-in is refused at its second transaction if and only if another hash was stored since it read the one it verified, and a refusal commits nothing |
| PasswordSafety.LateChangeRefused | internal/identity/identity.go:628-640 | the same of a password change |
| LiveSafety.Kept | internal/identity/identity.go:512-574 | every step keeps: a session handed to a request is unrevoked exactly while no sign-out of it and no password change was committed since |
| LiveSafety.LiveExactlyWhileUndisturbed | internal/identity/identity.go:545-574 | a session handed to a request still authenticates if and only if nothing ended it since and it is neither idle nor too old |
| ExampleRuns.ChangeOutlivesSignOut | internal/identity/identity.go:628-671 | what the code does not check, as a legal run from the account's creation: a session ends after its request was authenticated, and the request still changes the password and is given a live session |
| ChallengeSafety.Kept | internal/identity/challengestore.go:24-80 | every step keeps the counts of each challenge bounded, with an unused row having counted every answer to it |
| ChallengeSafety.AnswerKeeps | internal/identity/challenge.go:232-276 | an answer to an answerable challenge keeps the bounds, and a right one is the only one and has opened nothing yet |
| ChallengeSafety.NeverAgain | internal/identity/challengestore.go:49-60 | a challenge answered right, or five times wrong, is refused by both flows, which then change nothing |
| ChallengeSafety.OnlyAnswerableRemain | internal/identity/challengestore.go:20-36 | after a challenge is opened, every challenge row of the account can still be answered |
| SessionSafety.Kept | internal/identity/identity.go:448-456 | every step keeps: the factor rows are, by identifier and method, the factors added and not removed, and every session opened had its ground |
| SessionSafety.CompleteSignInKeeps | internal/identity/challenge.go:318-341 | a completed second step opens its session on the ground of an answer that proved a held factor or an unused recovery code |
| SessionSafety.RightAnswerProves | internal/identity/challenge.go:154-193 | an answer found right at sign-in is by the method of a factor the history says is held and the policy permits, or by a recovery code that was issued and never used |
| SessionSafety.RightAnswerAllows | internal/identity/challenge.go:232-276 | and right after it, a session may be opened by that challenge and that method |
| StepUpSafety.SignInProvesAFactor | internal/identity/challenge.go:80-104 | at sign-in a right answer is by a method the account holds and the policy permits, or a recovery code |
| SessionLife.Kept | internal/identity/store.go:147-203 | no step revives a session that is revoked, idle or too old at a moment the clock has passed |
| SessionLife.EndedForGood | internal/identity/identity.go:513-574 | after any further run, a session once signed out, ended or expired authenticates no request and nothing is written |
| Answers.RightIsFitting | internal/identity/challenge.go:154-193 | an answer is found right if and only if it fits: by each method, said of the account, what was typed and the moment |
| Answers.SignInIsExact | internal/identity/challenge.go:314-347 | an open sign-in is done if and only if the answer fits, a mere address never answering |
| Answers.SignInOpens | internal/identity/challenge.go:318-341 | the session it opens is the one row added, authenticates for thirty days of not being seen, and is stepped up at once |
| Answers.StepUpIsExact | internal/identity/stepup.go:75-99 | an open step-up is done if and only if the answer fits, where an action other than the password and the factors takes a code to the address |
| Answers.StepUpMarks | internal/identity/stepup.go:83-95 | it marks its session, and no other: as stepped up if and only if the method was not e-mail or e-mail is a held factor, as having confirmed the address otherwise |
| Answers.StepUpOpensTheGate | internal/identity/stepup.go:35-46 | a request authenticated with it at any moment before ten minutes are over passes the gate of every action when a factor was proved, and of those that take an address when that was |
| Flows.SeenIsKept | internal/identity/identity.go:545-574 | a token that opened a request opens every later one for thirty days but an hour, none after thirty days unseen or ninety in all, and no other session notices |
| Flows.EndIsExact | internal/identity/identity.go:512-524 | a session that was ended opens nothing any more, and every other what it did |
| Flows.SignInWithThePassword | internal/identity/identity.go:424-469 | the password alone signs in if and only if no factor is held; else it opens a challenge for five minutes; a hash made anew is stored either way, and nothing else that can be answered or opens is touched |
| Flows.ChangeMayBegin | internal/identity/identity.go:595-611 | a password change begins if and only if the request may make it |
| Flows.ChangeLeavesOneSession | internal/identity/identity.go:628-687 | a password change is done if and only if the hash read is still stored; then one session is open, with no more proved than the request had, no sign-in goes on, every step-up stays and the run of failures is over |
| Flows.StepUpBegins | internal/identity/stepup.go:48-73 | a step-up begins if and only if some method answers it or the codes are locked, its session answers it for five minutes, and every other challenge stays as it was |
| Flows.WrongSignInCosts | internal/identity/challenge.go:240-259 | a wrong answer costs one attempt, the fifth the challenge, and one failure if and only if it was one with a second factor; the reply says which limit was met |
| Flows.WrongStepUpCosts | internal/identity/challenge.go:240-259 | the same at a step-up |
| Flows.RightSignInEndsTheRun | internal/identity/challenge.go:260-288 | a right answer uses its challenge, and ends the run of failures if and only if it was one with a second factor |
| Flows.RightStepUpEndsTheRun | internal/identity/challenge.go:260-288 | the same at a step-up |
| Flows.RightAnswerSpends | internal/identity/challenge.go:169-218 | a right answer spends the step of an app it is the code of, the mailed code or the recovery code that was typed, and nothing else |
| Changes.SentIsTheOneThatFits | internal/identity/emailcode.go:83-131 | a code that is sent is the one code of its purpose for ten minutes; which codes of other purposes fit, and until when, is as before |
| Changes.ChallengeCodeIsSent | internal/identity/emailcode.go:181-204 | a code is sent for a challenge if and only if it is open, the codes are not locked, the account's e-mail answers it, and both limits let it; each refusal says which |
| Changes.AddingBegins | internal/identity/factors.go:117-148 | an app or a key may be begun exactly by whom the policy permits it past the gate, for fifteen minutes |
| Changes.AddingEmailBegins | internal/identity/emailcode.go:227-244 | a code to add the address is sent if and only if the request may add it, it is no factor yet, and both limits let it |
| Changes.EmailIsAdded | internal/identity/emailcode.go:246-288 | the address is added if and only if the code mailed for that is typed |
| Changes.AddedEmailComesLast | internal/identity/emailcode.go:246-288 | it comes last of the factors and its code is spent |
| Changes.AppIsAdded | internal/identity/factors.go:180-243 | an app is added if and only if it was begun within fifteen minutes and what it shows is typed; recovery codes come with it if and only if there were none |
| Changes.KeyIsAdded | internal/identity/key.go:134-220 | the same of a key that proves itself |
| Changes.FactorIsRemoved | internal/identity/factors.go:270-304 | a factor is removed if and only if the request may, it is there, and it is not the only one of an account that must keep one; each refusal says which |
| Changes.OneFactorGoes | internal/identity/factors.go:273-304 | the others stay as and where they were, and the recovery codes go if and only if it was the last |
| Changes.RecoveryIsReplaced | internal/identity/factors.go:306-337 | fresh recovery codes are shown if and only if the request may and a factor is held; from then on they and no others are accepted, in any spelling |
| FailureSafety.Kept | internal/identity/failures.go:61-80 | every step keeps the row equal to the run of failures, each notice sent once a run, and the lock |
| FailureSafety.AnswerKeeps | internal/identity/challenge.go:241-276 | an answer, right or wrong, leaves the row equal to the run |
| FailureSafety.LockedCodesAreNeverRight | internal/identity/failures.go:36-38 | at a hundred failures an app or e-mail code is not offered, so it is refused unchecked |
| FailureSafety.UnknownMethodsAreNoFailures | internal/identity/failures.go:40-54 | an answer by a method nothing knows is refused and counted on its challenge, and is no failure of a second factor |
| SendingSafety.Kept | internal/identity/emailcode.go:141-171 | every step keeps the pace, the pruned table as the latest sends, and at most five rows |
| SendingSafety.PruningChangesNothing | internal/identity/emailcode.go:86-100 | both limits read from the pruned table what they would read from the whole history |
| SendingSafety.FiveInAnHour | internal/identity/emailcode.go:76-81 | any hour, its beginning excluded, holds at most five sends |
| SendingSafety.PrunedIsTheEnd | internal/identity/emailcode.go:87-90 | what pruning leaves is the end of the table, and what it drops is an hour old or more |
| SendingSafety.PrunedIsCounted | internal/identity/emailcode.go:76-90 | what pruning leaves is what the hourly limit counts |
| SendingSafety.SentExactlyWithinTheLimits | internal/identity/emailcode.go:141-171 | a code is sent if and only if none was in the last minute and fewer than five in the last hour, by the whole history; a refusal says which |
| SendingSafety.ClosedHourHoldsSixExactly | internal/identity/emailcode.go:76-81 | an hour with both its ends counted holds at most six sends, and six if and only if the first is at its beginning and the sixth at its end |
| ExampleRuns.AnHourWithBothEndsMayHoldSix | internal/identity/emailcode.go:76-81 | which happens, as a legal run from the account's creation: six codes, the first exactly an hour before the sixth |
| CodeSafety.Kept | internal/identity/emailcode.go:86-131 | every step keeps the code rows telling the history and every acceptance well founded |
| CodeSafety.OneUnspentPerPurpose | internal/identity/emailcode.go:91-94 | two unspent rows of one purpose are one row |
| CodeSafety.CompareKeeps | internal/identity/emailcode.go:104-131 | comparing a live code, right or wrong, keeps all of it |
| PurposeSafety.Kept | internal/identity/emailcode.go:30-38 | every step keeps: a right answer by e-mail accepted a code of its challenge's purpose, and e-mail was added only by a code sent to add it |
| PurposeSafety.AnswerKeeps | internal/identity/emailcode.go:173-179 | an answer to a challenge keeps it |
| StepUpSafety.Kept | internal/identity/stepup.go:51-99 | every step keeps marks telling proofs, and each change of the factors, or of the password begun, of a request authenticated with 2FA, within ten minutes of one |
| StepUpSafety.GateProves | internal/identity/stepup.go:35-46 | passing the gate of the password or the factors on a session with 2FA takes a proof under ten minutes old |
| StepUpSafety.StepUpKeeps | internal/identity/stepup.go:81-99 | a step-up keeps that every mark is a proof; that it marks at all, and what, is Answers.StepUpMarks |
| StepUpSafety.OpenedKeeps | internal/identity/identity.go:659-671 | the session a password change opens keeps only a mark that was proved |
| GateSafety.Kept | internal/identity/identity.go:545-574 | every step keeps: a session handed to a request says whether the account held a second factor at that moment |
| GateSafety.ChangesAreGuarded | internal/identity/stepup.go:35-46 | and so each change was proved recently or came of a request authenticated while no factor was held |
| ExampleRuns.FactorsChangeWithoutProof | internal/identity/factors.go:270-304 | which happens, as a legal run from the account's creation: a request authenticated before the first factor was added removes it again with nothing ever proved |
| Policy.OnlyAFactorOpensPasswordAndFactors | internal/identity/factorpolicy.go:102-108 | with 2FA, the password and the factors ask for a step-up unless a factor was proved under ten minutes ago, whatever code was answered |
| Policy.StaffNeverUseEmail | internal/identity/factorpolicy.go:74-85 | kinds that must have 2FA never enrol, answer or step up with an e-mail code |
| Policy.PermitsExactly | internal/identity/factorpolicy.go:70-86 | any kind the policy knows may enrol and use an app or a key, all of them but staff a code by e-mail, and nobody anything else |
| Policy.OtherActionsTakeEither | internal/identity/factorpolicy.go:95-108 | every other action asks for a proof under ten minutes old, of a factor or, of a kind that may use e-mail, of the address |
| Policy.Strongest | internal/identity/factorpolicy.go:113-124 | the loop returns the methods given that are kinds of second factor, each once, strongest first |
| AppSafety.Kept | internal/identity/challenge.go:196-218 | every step keeps each app's row at the last step accepted and every acceptance fresh and within one step of its moment |
| AppSafety.AppKeeps | internal/identity/challengestore.go:139-143 | accepting an app's code keeps it |
| AppSafety.AcceptancesAreBounded | internal/identity/totp.go:58-77 | acceptances of an app between two moments increase and are no more than the steps between them and three |
| Totp.Hotp | internal/identity/totp.go:40-53 | for any number of digits: nothing, where the code divides by zero, if and only if thirty-two or more make the 32-bit modulus vanish; else the padded digits that write, modulo it, the four bytes of the HMAC of the counter's eight bytes, from the one that the low bits of its last byte name, without their top bit |
| Totp.ModulusVanishes | internal/identity/totp.go:48-52 | the modulus, multiplied up in 32 bits, is zero if and only if it has thirty-two factors of ten |
| Totp.CodeWritesTheBytesRead | internal/identity/totp.go:40-53 | the six digits write, modulo a million, the four bytes that section 5.3 of RFC 4226 names, byte by byte of the HMAC |
| Totp.TheExampleOfTheStandard | internal/identity/totp.go:40-53 | for the digest of section 5.4 of RFC 4226 the code is 872921 |
| Totp.StepsOfTheStandard | internal/identity/totp.go:37-37 | a step is thirty seconds since 1970, as the test values of RFC 6238 have it |
| Bytes.EightBytesWrite | internal/identity/totp.go:40-44 | the counter is eight bytes, most significant first, each written out |
| Totp.CodesAreSixDigits | internal/identity/totp.go:56-56 | every code is six digits |
| Totp.TotpCode | internal/identity/totp.go:56-56 | the code of a step is the six-digit one, which CodeWritesTheBytesRead writes out |
| Totp.MatchTotp | internal/identity/totp.go:58-77 | the loop finds the earliest step after the last accepted, within one of now, whose code was typed with its spaces dropped, and none for what is not six digits |
| Totp.Match | internal/identity/totp.go:58-77 | a step found is after the last accepted and within the drift of now |
| Totp.IncreasingIsShort | internal/identity/totp.go:58-61 | strictly increasing steps between two bounds are no more than the bounds allow |
| RecoverySafety.Kept | internal/identity/factors.go:259-337 | every step keeps recovery codes whole, used once, and there only with a factor |
| RecoverySafety.OldCodesStop | internal/identity/factors.go:306-337 | after a set is replaced no code issued before is accepted |
| RecoverySafety.RemoveKeeps | internal/identity/factors.go:270-304 | removing a factor keeps it, for the last factor too |
| RecoverySafety.ReplaceKeeps | internal/identity/factorstore.go:93-109 | a fresh set of ten in place of the old keeps it |
| RecoverySafety.UseRecoveryKeeps | internal/identity/challengestore.go:145-157 | spending a recovery code keeps it: a code is accepted at most once |
| RecoveryCode.Write | internal/identity/recovery.go:34-43 | a code written from twelve random bytes is read back as its twelve symbols, whose hyphens stand after every four |
| RecoveryCode.NewRecoveryCodes | internal/identity/recovery.go:27-46 | ten codes, each read back as the symbols it was made of |
| RecoveryCode.SpellingDoesNotMatter | internal/identity/recovery.go:48-69 | hyphens, spaces, the case of any character, and O, I and L do not change what code a text is |
| RecoveryCode.ReadExactly | internal/identity/recovery.go:48-69 | a typed text is read as a code if and only if it spells its twelve symbols, each as itself, its capital or what is taken for it, with hyphens and spaces anywhere |
| RecoveryCode.StoredStandsForTheCode | internal/identity/recovery.go:71-83 | two stored values are equal if and only if account and code are, or the very bytes hashed for the two collide |
| Service.AccountRows.constructor | internal/identity/store.go:74-81 | an account starts with its password and no other row |
| Service.AccountRows.InsertSession | internal/identity/store.go:130-137 | the session row, seen when created, unmarked and unrevoked |
| Service.AccountRows.MarkSteppedUp | internal/identity/challengestore.go:92-96 | the one mark set, of a session that exists |
| Service.AccountRows.MarkEmailConfirmed | internal/identity/challengestore.go:98-103 | the one mark set, of a session that exists |
| Service.AccountRows.RevokeSessions | internal/identity/store.go:196-203 | every live session ends, and those ended keep when |
| Service.AccountRows.End | internal/identity/identity.go:512-524 | the live session a token opened ends, and nothing else changes |
| Service.AccountRows.Authenticate | internal/identity/identity.go:545-574 | what a request is told of its session, and the hourly touch |
| Service.AccountRows.InsertChallenge | internal/identity/challengestore.go:20-36 | challenges that can no longer be answered go, and the new one is there |
| Service.AccountRows.EndSignIns | internal/identity/challengestore.go:38-45 | sign-in challenges go and step-ups stay |
| Service.AccountRows.Challenge | internal/identity/challenge.go:123-136 | the live challenge a token opened, of the session that asks or of none |
| Service.AccountRows.ChallengeAttempt | internal/identity/challengestore.go:62-73 | one more attempt, the fifth spending the challenge |
| Service.AccountRows.SpendChallenge | internal/identity/challengestore.go:75-80 | nobody finds the challenge again, at any time and from any session, and every other is found as before |
| Service.AccountRows.Offers | internal/identity/challenge.go:75-104 | the loop over the factors offers exactly what the policy and the lock allow, strongest first |
| Service.AccountRows.InsertEmailCode | internal/identity/emailcode.go:83-100 | old rows pruned, the purpose's earlier codes retired, the new one last |
| Service.AccountRows.SendCode | internal/identity/emailcode.go:133-171 | a code within both limits, or which limit refused it |
| Service.AccountRows.UseEmailCode | internal/identity/emailcode.go:102-131 | the live code spent when typed, an attempt counted when not |
| Service.AccountRows.CheckApp | internal/identity/challenge.go:195-218 | the loop accepts the code of the first app it fits, once |
| Service.AccountRows.UseRecoveryCode | internal/identity/challengestore.go:145-157 | an unused code of the account spent, or nothing |
| Service.AccountRows.ReplaceRecoveryCodes | internal/identity/factorstore.go:93-109 | the loop leaves exactly the new set, unused |
| Service.AccountRows.FirstRecoverySet | internal/identity/factors.go:259-268 | a set only for an account that has none |
| Service.AccountRows.Check | internal/identity/challenge.go:154-193 | whether an answer proves what the challenge offered, which Answers.RightIsFitting says of the account alone, spending what it used |
| Service.AccountRows.Failed | internal/identity/failures.go:55-80 | the count grows by one and the owner is told at exactly two counts |
| Service.AccountRows.SecondFactor | internal/identity/failures.go:40-54 | whether an answer with a method counts as one of a second factor |
| Service.AccountRows.WrongAnswer | internal/identity/challenge.go:240-259 | the rows after a wrong answer, and which of three replies it gets |
| Service.AccountRows.AnswerChallenge | internal/identity/challenge.go:220-288 | the rows after a right or a wrong answer and which of four replies it gets |
| Service.AccountRows.CompleteSignIn | internal/identity/challenge.go:314-347 | the step of a completed sign-in, of which Answers.SignInIsExact says when it is done and Flows.WrongSignInCosts what it costs otherwise |
| Service.AccountRows.StepUp | internal/identity/stepup.go:75-99 | the step of a step-up, of which Answers.StepUpIsExact says when it is done and Answers.StepUpMarks what it marks |
| Service.AccountRows.BeginStepUp | internal/identity/stepup.go:48-73 | a challenge, or a refusal when there is nothing to answer with |
| Service.AccountRows.SendChallengeCode | internal/identity/emailcode.go:181-204 | a code for a challenge that accepts one, or which refusal |
| Service.AccountRows.HasEmailFactor | internal/identity/emailcode.go:218-225 | whether e-mail is one of the account's factors |
| Service.AccountRows.Credentials | internal/identity/identity.go:346-370 | the first transaction of a sign-in reads the stored hash |
| Service.AccountRows.FinishSignIn | internal/identity/identity.go:424-469 | the second one: refused, a challenge or a session, with a stale hash replaced |
| Service.AccountRows.BeginChange | internal/identity/identity.go:595-611 | the gate and the first transaction of a password change |
| Service.AccountRows.FinishChange | internal/identity/identity.go:628-687 | the second one, its seven writes in order |
| Service.AccountRows.InsertFactor | internal/identity/factorstore.go:52-57 | the factor is last |
| Service.AccountRows.BeginApp | internal/identity/factors.go:117-148 | an enrolment, or which refusal |
| Service.AccountRows.ConfirmApp | internal/identity/factors.go:180-243 | the app becomes a factor when its code fits, with the first recovery set |
| Service.AccountRows.BeginKey | internal/identity/key.go:96-130 | an enrolment, or which refusal |
| Service.AccountRows.ConfirmKey | internal/identity/key.go:134-220 | the key becomes a factor when its answer proves it, with the first recovery set |
| Enrolments.AppIsConfirmedOnce | internal/identity/factors.go:180-243 | over any run in which a session begins no other enrolment, confirming the app it began succeeds if and only if it was not confirmed yet, under fifteen minutes passed, the code typed is of that secret and the gate is passed; what is added is that secret at that step, and a key is never confirmed in its place |
| Enrolments.KeyIsConfirmedOnce | internal/identity/key.go:134-220 | the same of a key that proves itself |
| Enrolments.OpenUntilUsed | internal/identity/factorstore.go:132-174 | over any such run the session's enrolment is there exactly until it is confirmed, unchanged |
| Service.AccountRows.BeginEmail | internal/identity/emailcode.go:227-244 | a code to add e-mail, or which refusal |
| Service.AccountRows.ConfirmEmail | internal/identity/emailcode.go:246-288 | e-mail becomes a factor when its code comes back |
| Service.AccountRows.RemoveFactor | internal/identity/factors.go:270-304 | a factor goes, with the recovery codes if it was the last, and comes back when the account must keep one |
| Service.AccountRows.RegenerateRecoveryCodes | internal/identity/factors.go:306-337 | a fresh set for an account with a factor |
| ServiceRuns.Perform | internal/identity/identity.go:376-690 | each step of a run is what the service's method of that name does to its rows |
| ServiceRuns.Serve | internal/identity/identity.go:376-690 | a service whose account is safe keeps it safe over any calls its callers may make, in any order |
| Phc.DecodeUndoesEncode | internal/identity/password.go:94-159 | decode undoes encode for every parameter, salt and key within its ceilings, and refuses every one beyond |
| Phc.EncodesThePhcString | internal/identity/password.go:94-101 | what is written is the PHC string of argon2id version 19, its three costs in decimal, then salt and key in Base64 |
| Phc.DecodesExactly | internal/identity/password.go:129-159 | a text is read as a hash if and only if it is six parts between dollars, whose second says argon2id and third version 19, with costs within the ceilings and 1 to 1024 bytes of salt and of key, whatever the first |
| Phc.FreshHashVerifies | internal/identity/password.go:85-120 | a fresh hash verifies with any hasher, matching exactly the passwords that give its key, stale exactly for other parameters; and is refused exactly beyond the ceilings |
| Phc.SaltsTellHashesApart | internal/identity/password.go:94-101 | hashes with different salts are different texts |
| Phc.CostsScanBack | internal/identity/password.go:134-137 | the costs are scanned back whatever follows them |
| Phc.EncodedSplits | internal/identity/password.go:98-133 | the parts of a hash are told apart at its dollars |
| Phc.Hasher.Hash | internal/identity/password.go:85-92 | the text of a fresh hash, the slot given back, or nothing when no slot was free |
| Phc.Hasher.Verify | internal/identity/password.go:103-120 | the verdict on a stored hash, the slot given back |
| Phc.Hasher.Acquire | internal/identity/password.go:74-81 | never more slots taken than there are |
| Base64.DecodeUndoesEncode | internal/identity/password.go:98-150 | raw base64 decodes to what was encoded, for all bytes |
| Base64.EncodesInGroups | internal/identity/password.go:98-101 | three bytes are written as the four symbols that the table of RFC 4648 has for their bits, six at a time |
| Base64.EncodesTheRest | internal/identity/password.go:98-101 | one or two bytes over as the symbols that hold their bits, without padding |
| Base64.DecodesExactly | internal/identity/password.go:143-150 | a text decodes if and only if it is of the table and new lines, with no single symbol over |
| Base64.BitsOverAreDropped | internal/identity/password.go:143-150 | the bits a last symbol has over are not looked at |
| Base64.NewLinesAreSkipped | internal/identity/password.go:143-150 | new lines are skipped |
| Decimal.ScanUndoesWritten | internal/identity/password.go:98-137 | a number is scanned back where its digits end, or refused at its type's bound |
| Decimal.WrittenIsTheOnly | internal/identity/password.go:98-101 | no other digits without a zero in front write a number |
| Digest.Digest | internal/platform/audit/audit.go:119-150 | the running hash, written field by field, is the hash of the one encoding |
| Digest.DigestedInOrder | internal/platform/audit/audit.go:111-150 | the bytes hashed are, in this order, the hash before, the chain, the number, the moment, the actor and its kind, the action, the subject's kind and identifier, and the two sealed parts, each text behind its length in eight bytes and each number in eight |
| Digest.EncodingReadsBack | internal/platform/audit/audit.go:113-131 | two lists of parts of one shape with one encoding are one list |
| Digest.DigestedTellsApart | internal/platform/audit/audit.go:111-150 | the bytes hashed for two records are the same if and only if the hash before and every digested field are |
| Digest.DigestIsInjective | internal/platform/audit/audit.go:111-150 | two records hash alike if and only if they follow one hash and hold the same in every digested field, or the bytes hashed for these two collide |
| Chain.SameEndSameChain | internal/platform/audit/log.go:199-233 | two unbroken chains of one length end in one hash if and only if they are identical record for record, or the last records in which they differ collide |
| Chain.SameEndSameNumberedChain | internal/platform/audit/log.go:58-60 | and numbered ones of any lengths if and only if they are identical, or those records or their last ones collide |
| Chain.DamageIsLocal | internal/platform/audit/log.go:229-232 | with one record changed in any way, every break is at it or at its successor |
| Chain.DamageIsSeen | internal/platform/audit/log.go:212-232 | the change is unseen if and only if the record was hashed again and either was the last or collides with what it was |
| Chain.RemovalIsSeen | internal/platform/audit/log.go:212-232 | a record taken out is unseen if and only if it was the last, or it collides with the one before it, or, the first, hashes to the zeros a chain begins with |
| Chain.TruncationIsUnseen | internal/platform/audit/log.go:190-245 | records taken off the end are never missed |
| Chain.NoBreaksMeansSound | internal/platform/audit/log.go:212-227 | the walk reports nothing exactly when no record is broken |
| Chain.ReportedIsBroken | internal/platform/audit/log.go:216-227 | what is reported is broken, for the reason given |
| Chain.BrokenIsReported | internal/platform/audit/log.go:216-227 | what is broken is reported, with its reason |
| AuditTables.AppendKeeps | internal/platform/audit/log.go:31-88 | an append, committed or not, keeps every chain numbered, linked and headed; and the log verifies after it if and only if it did before and the record added has its identifiers in the database's spelling, or collides with itself in that spelling |
| AuditTables.AppendsExactly | internal/platform/audit/log.go:31-88 | an append commits if and only if the entry is complete, of a known kind, its identifiers are some to the database, the chain is short of the largest number, and both parts can be sealed, the second with the key the first may have made |
| AuditTables.AppendsTheEntry | internal/platform/audit/log.go:49-87 | what commits is one row at the end of its chain that says what the caller said, when, behind the hash of the head, and is hashed as the caller spelled it |
| AuditTables.EveryRunIsHonest | internal/platform/audit/log.go:31-137 | over any run of operations committed or rolled back and keys destroyed, every chain is numbered 1 to n and headed by its last hash and length; and none is broken if and only if each record committed was in the database's spelling or collides with itself in that spelling |
| AuditTables.ErasureKeepsTheLog | internal/platform/audit/keys.go:97-119 | destroying a key changes no record and no head |
| AuditTables.ErasedStopsAppends | internal/platform/audit/log.go:31-48 | an append that would seal with a destroyed key fails, as destroyed when JSON takes what it holds, and changes nothing; one that seals nothing does not |
| AuditLog.VerifyFindsNothing | internal/platform/audit/log.go:184-245 | whatever appends commit between its reads, a verification finds each chain it listed at every later read, in order, and its report has no break, when the identifiers are in the database's spelling |
| AuditLog.BeyondIsTheRest | migrations/00008_audit_log.sql:182-208 | the rows past the number of the k-th are those after it |
| AuditLog.NextPage | internal/platform/audit/log.go:275-315 | a page is the records that follow those read |
| AuditLog.Log.Verify | internal/platform/audit/log.go:190-245 | with each page read in a transaction of its own and any records appended in between, the loops end, having read of every chain at least what it held at the start, and report exactly the breaks and the count of what was read, for every page size and whatever the rows hold |
| AuditLog.Log.VerifyChain | internal/platform/audit/log.go:199-234 | one chain is read to where some read found no more, and its breaks are the plain walk's |
| AuditLog.ReadPage | internal/platform/audit/log.go:275-315 | one read's page is what follows the records read before, of those there are by then, and empty only when there are no more |
| AuditLog.Log.WalkPage | internal/platform/audit/log.go:212-233 | one page adds its records' breaks |
| AuditLog.Log.Verdict | internal/platform/audit/log.go:216-227 | which of the two ways one record is broken, if any |
| AuditLog.Log.Append | internal/platform/audit/log.go:31-88 | the new tables of an append, or an error and nothing changed |
| AuditLog.Log.Insert | internal/platform/audit/log.go:49-87 | the record behind the head, hashed over it, and the head moved |
| AuditLog.Log.HeadFor | internal/platform/audit/log.go:114-137 | the head, begun where it was first asked for |
| AuditLog.Log.SealParts | internal/platform/audit/log.go:36-47 | both parts sealed, or why not and no key left behind |
| AuditLog.Log.Seal | internal/platform/audit/log.go:90-112 | one part sealed, or nothing when there is nothing to protect |
| AuditLog.Log.Open | internal/platform/audit/open.go:35-75 | a record as its keys still allow it to be read |
| AuditLog.Log.OpenOne | internal/platform/audit/open.go:77-95 | one part's bytes, or that its key is gone |
| AuditReading.OpenUndoesAppend | internal/platform/audit/open.go:31-95 | after any run, a record reads back as what was appended, as JSON gives it back, less exactly the parts whose person was erased since, which it names |
| AuditReading.ErasureTakesExactlyTheirs | internal/platform/audit/audit.go:170-193 | erasing one person takes of a record its origin if and only if they acted, and its state if and only if it is about them, or they acted and it names nobody; the rest reads back |
| AuditReading.SomethingIsAppended | internal/platform/audit/log.go:31-88 | what these ask of the cipher, of JSON and of an append is met together, for any actor, origin and state |
| AuditReading.RowsStay | internal/platform/audit/log.go:31-88 | no run changes or moves a row that is there |
| AuditReading.KeysAreKept | internal/platform/audit/keys.go:32-119 | over any run a key row stays as it is or is destroyed, and nothing else |
| PersonKeys.DestroyedForGood | internal/platform/audit/keys.go:97-119 | once destroyed, no run makes a second key |
| PersonKeys.KeyStays | internal/platform/audit/keys.go:68-119 | a key nobody destroys stays, whoever else's goes and however many race to make it, and the platform's whatever is asked |
| PersonKeys.SealsExactly | internal/platform/audit/seal.go:22-35 | sealing for a person succeeds if and only if they are one, were not erased, a key of thirty-two bytes unwraps and the text is of a length AES-GCM takes; it is with their one key, says destroyed exactly of who was erased, and leaves a new key exactly when it succeeds |
| PersonKeys.OpensExactly | internal/platform/audit/seal.go:37-53 | opening likewise, of what is long enough and the cipher takes |
| PersonKeys.ErasedIsErased | internal/platform/audit/seal.go:22-53 | after a person's existing key is destroyed, sealing and opening for them fail as destroyed after any run |
| PersonKeys.SealedOpens | internal/platform/audit/seal.go:22-53 | what was sealed, of any length AES-GCM takes, opens to what it was after any run in which nobody destroyed that key |
| PersonKeys.SomethingSeals | internal/platform/keys/keys.go:60-103 | there is a cipher of which all that is asked holds |
| PersonKeys.DestroySticksIfThereIsAKey | internal/platform/audit/keys.go:102-119 | destroying takes if and only if there is a key: a person with none gets one at the next use |
| PersonKeys.KeyTable.Read | internal/platform/audit/keys.go:50-66 | no row, a destroyed key or the wrapped one |
| PersonKeys.KeyTable.Create | internal/platform/audit/keys.go:68-95 | the writer that loses the race reads the winner's row |
| PersonKeys.KeyTable.Open | internal/platform/audit/keys.go:28-48 | losing a race is as if the winner had committed before, and a failure leaves no key |
| PersonKeys.KeyTable.Forget | internal/platform/audit/keys.go:97-119 | the key is destroyed where there is one, and never the platform's |
| PersonKeys.KeyTable.Seal | internal/platform/audit/seal.go:22-35 | sealed with the person's own key, or refused |
| PersonKeys.KeyTable.Unseal | internal/platform/audit/seal.go:37-53 | opened with the person's own key, or refused |
| TokenBucket.Memory.Allow | internal/platform/ratelimit/memory.go:49-77 | one request's answer and the buckets after it, which AdmittedExactly, WaitingIsEnough and WaitingIsNeeded pin down |
| TokenBucket.Memory.ForgetIdle | internal/platform/ratelimit/memory.go:79-92 | the loop drops exactly the idle buckets of a map grown enough |
| TokenBucket.AdmittedIsBounded | internal/platform/ratelimit/memory.go:10-21 | in any span no key is admitted more than a full bucket and what the span refills |
| TokenBucket.ForgettingChangesNothing | internal/platform/ratelimit/memory.go:79-92 | when a bucket fills while it is kept, every request of every run is answered as if nothing were ever forgotten |
| TokenBucket.ForgettingKeepsTheBound | internal/platform/ratelimit/memory.go:10-24 | and the bound holds of the limiter that forgets |
| TokenBucket.ForgettingOneIsHarmless | internal/platform/ratelimit/memory.go:79-92 | forgetting one bucket changes nothing if and only if it would be full by then |
| TokenBucket.FillsWhenTenMinutesDo | internal/platform/ratelimit/memory.go:37-47 | which limiters of whole numbers fill a bucket while it is kept: up to sixty thousand million a minute, if and only if ten times the rate per minute is the burst or more |
| Forgetting.ForgettingIsHarmlessExactly | internal/platform/ratelimit/memory.go:79-92 | for every limiter of whole numbers, forgetting changes no answer of any run if and only if a bucket fills while it is kept |
| Forgetting.ForgettingTooSoon | internal/platform/ratelimit/memory.go:79-92 | for every one that does not there is a run from the empty map, among 1024 keys, in which the limiter that forgets admits what the other refuses |
| TokenBucket.WaitingIsEnough | internal/platform/ratelimit/memory.go:69-73 | a refused key that waits RetryAfter untouched, or half a second less, or any longer, is admitted, forgotten meanwhile or not |
| TokenBucket.WaitingIsNeeded | internal/platform/ratelimit/memory.go:69-73 | RetryAfter is whole seconds, and until a second and a half before it is over the key is still refused |
| TokenBucket.AdmittedExactly | internal/platform/ratelimit/memory.go:49-77 | a request is admitted if and only if, with it, no span of the key's run up to now was admitted more than a full bucket and what the span refills |
| FixedWindow.NewDatabase | internal/platform/ratelimit/database.go:42-58 | a limiter if and only if its name is one; what the code panics on makes none |
| FixedWindow.Database.Allow | internal/platform/ratelimit/database.go:60-97 | one attempt's answer, and the table after its upsert, or after the sweep of whatever the other instances made of the table between the two statements |
| FixedWindow.SweepMatchesItsOwn | internal/platform/ratelimit/database.go:42-49 | a sweep's pattern matches a limiter's rows if and only if the names are one, whatever the keys |
| FixedWindow.AWildcardWouldSweepOthers | internal/platform/ratelimit/database.go:42-45 | a refused name, with an underscore, would sweep another limiter's rows |
| FixedWindow.SubjectsDiffer | internal/platform/ratelimit/database.go:68-74 | subjects of different names or keys are different |
| FixedWindow.StartsNear | internal/platform/ratelimit/database.go:63-65 | a clock less than a window behind is at most one window behind |
| FixedWindow.WaitingReachesTheNextWindow | internal/platform/ratelimit/database.go:93-95 | who waits as long as a refusal said, or half a second less, or any longer, is in a later window |
| FixedWindow.WaitIsWhole | internal/platform/ratelimit/database.go:93-95 | the wait is whole seconds, one more than what is left of the window to the nearest one |
| FixedWindow.WaitingIsNeeded | internal/platform/ratelimit/database.go:93-95 | and until a second and a half before it is over the window is the same |
| FixedWindow.WindowsBegin | internal/platform/ratelimit/database.go:63-65 | windows of a minute begin on the minute, of a day at midnight, of seven days on a Monday |
| FixedWindow.SweptExactly | internal/platform/ratelimit/database.go:79-91 | a sweep deletes exactly its own limiter's rows of windows before the one given |
| WindowRuns.CountersAreShortExactly | internal/platform/ratelimit/database.go:79-91 | whatever the clocks say and whoever sweeps, a counter never holds more than what was counted in it, and less if and only if a sweep deleted it after something was |
| WindowRuns.CountersAreExact | internal/platform/ratelimit/database.go:79-91 | for instances whose clocks differ by less than a window, with every sweep coming at once, later or never, a counter that can still be needed is what it would be had nothing been swept |
| WindowRuns.AdmittedWithinTheLimit | internal/platform/ratelimit/database.go:60-97 | an attempt is admitted if and only if its key has made no more than the limit in its window |
| WindowRuns.LimitHolds | internal/platform/ratelimit/database.go:60-97 | at most the limit in a window |
| WindowRuns.TwiceTheLimitInASpan | internal/platform/ratelimit/database.go:22-26 | at most twice the limit in any span no longer than a window |
| WindowRuns.TwiceIsReached | internal/platform/ratelimit/database.go:22-26 | and twice is reached, by every limiter, in a moment and the next |
| WindowRuns.WaitingIsEnough | internal/platform/ratelimit/database.go:60-97 | a refused key that waits RetryAfter is admitted when it next asks, whoever else asks and sweeps in between |
| WindowRuns.ASlowClockCountsAgain | internal/platform/ratelimit/database.go:79-91 | a clock two windows behind finds its counter swept and counts again |
| Jobs.Runner.TakeLock | internal/platform/jobs/jobs.go:115-138 | the lock taken when nobody ever ran the job or its lease expired |
| Jobs.Runner.ReleaseLock | internal/platform/jobs/jobs.go:140-149 | only what this holder holds is given back |
| Jobs.Runner.Run | internal/platform/jobs/jobs.go:83-113 | an unknown job, a busy one, or a run whose lease is given back whether it failed or not, if others left it this holder's while it worked |
| Jobs.RunsNeverOverlap | internal/platform/jobs/jobs.go:3-8 | over any run of the protocol in which each run ends within its lease and each release is harmless, two runs are never at work at once |
| Jobs.ReleaseIsHarmlessExactly | internal/platform/jobs/jobs.go:140-149 | a release is harmless — the latest run's own, or that one has ended, or holds the lock under another name, or is at its lease's end — if and only if no instance that asks next can overlap |
| Jobs.PromptRunsAreLegal | internal/platform/jobs/jobs.go:121-149 | releases within a run's own lease, or by holders with names of their own, are all harmless |
| Jobs.TakenExactly | internal/platform/jobs/jobs.go:115-138 | after any run of such releases, who asks later is let run for ten minutes if and only if nobody ran yet, the latest run gave the lock back, or its ten minutes are over; else nothing changes |
| Jobs.GivingBackFrees | internal/platform/jobs/jobs.go:140-149 | the latest run that gives the lock back leaves it free, with when it finished |
| Jobs.StepKeeps | internal/platform/jobs/jobs.go:121-149 | each step keeps the lock with the latest run |
| Jobs.LateReleaseFreesNobodyElse | internal/platform/jobs/jobs.go:140-149 | a late release frees no lease of another holder |
| Jobs.AlikeHoldersOverlap | cmd/marketplace/main.go:439-439 | instances that name themselves alike, as by their version: a late release frees the successor's lease and two runs are at work at once |
| Outbox.Worker.On | internal/platform/outbox/consumer.go:39-42 | the consumer comes after those the kind has |
| Outbox.Worker.Claim | internal/platform/outbox/consumer.go:90-102 | whether this consumer is the first |
| Outbox.Worker.HandleOnce | internal/platform/outbox/consumer.go:71-82 | the claim and the work commit together or not at all |
| Outbox.Worker.DeliverEvent | internal/platform/outbox/consumer.go:57-88 | the loop does each consumer's work not yet done, up to the first that fails |
| Outbox.Worker.Dispatch | internal/platform/outbox/dispatcher.go:47-103 | the events and the count of a dispatch, of which Deliveries.DispatchIsExact says what becomes of each |
| Outbox.Worker.Write | internal/platform/outbox/outbox.go:39-64 | the event waits |
| Deliveries.HandledOnceAndInOrder | internal/platform/outbox/consumer.go:57-88 | over any redeliveries, interleavings and failures: no consumer's work commits twice, those committed are a prefix of those registered, a delivery ends well and an event is marked only with all of them done, and none waits after five attempts |
| Deliveries.StepKeeps | internal/platform/outbox/consumer.go:70-87 | each consumer's transaction, mark and refusal keeps it |
| Deliveries.DispatchKeeps | internal/platform/outbox/dispatcher.go:85-102 | so does a whole dispatch through the inline queue |
| Deliveries.DispatchIsExact | internal/platform/outbox/dispatcher.go:47-103 | over any tables, of a dispatch: each event offered is dispatched afterwards if and only if its kind has consumers, each of them had done its work or does, and the mark is written; its attempts grow by one if and only if its statement is written, and it is parked exactly at the fifth refusal; every other row is untouched, and the count is the number of events turned to dispatched |
| Deliveries.FirstWaiting | internal/platform/outbox/dispatcher.go:53-75 | the events offered are the first ones waiting, in order, up to a batch, and all of them when they are fewer |
| Deliveries.OfferIsExact | internal/platform/outbox/dispatcher.go:85-102 | what offering one event makes of its row, and whether it counts |
| Deliveries.DeliveryIsExact | internal/platform/outbox/consumer.go:57-88 | a delivery answers delivered if and only if each consumer of the kind has its claim or would do its work, and claims nothing for another event |
| Deliveries.DeliveredMeansAllClaimed | internal/platform/outbox/consumer.go:57-88 | a delivery answers with no error if and only if every consumer has committed |
| Deliveries.AgainIsNothing | internal/platform/outbox/consumer.go:59-63 | delivering again what was delivered changes nothing and answers the same |
| Deliveries.AllWorkExactlyWhenDistinct | internal/platform/outbox/consumer.go:12-16 | for any list of consumers, each works on a new event if and only if their names are distinct; the delivery ends well either way |

## Left out

- Creating accounts, verifying addresses and resending (`SignUp`, `Verify`, `Resend`, staff accounts): an account starts created, verified and with a password; they would add only easy members.
- Other accounts: the rows are one account's, and every transaction of the flows touches one account's rows, found by a token, a session or an identifier that is that account's.
- `Service.AccountRows.FinishSignIn`: the first half of a sign-in, its check of the password with argon2 and the audit of a wrong one are the caller's; what matters of it is the hash that was read, which any other transaction may come after.
- `Service.AccountRows.Authenticate`: a request is authenticated in the scope of a marketplace or of the platform, which row-level security keeps apart and the model does not have.
- `Service.AccountRows.Check`: whether a key's answer proves the key, and that a credential is not added twice, is what the WebAuthn library and the table decide, a parameter here; the counters and ceremonies it stores (`KeyOptions`) are not rows here.
- `Service.AccountRows.CheckApp`: an app's secret is a row's plain bytes here; that it is sealed with its owner's key, and cannot be read once that is destroyed, is what `PersonKeys` proves of any sealed value. The HMAC is any function giving twenty bytes.
- `Service.AccountRows.Offers`: factors made in one microsecond are ordered by identifier in the database and by insertion here; no result depends on which.
- `Totp.Hotp`: a negative number of digits, which `fmt` would take for another alignment; the service asks for six.
- `RecoveryCode.NewRecoveryCodes`: the random bytes are given; that ten codes differ from each other and from all before is what a run takes as given, since sixty random bits do not promise it.
- Locks and statements: each transaction is atomic. The code documents one read without a lock, of the failure row, by which an answer already being checked when another reaches the limit is still checked; it is not modelled.
- The session sweep: it deletes only rows of sessions already dead, over ninety days old, unseen for thirty or revoked; where a result has a session's row, a swept one is one that authenticates nothing. `last_used_at`, labels, IP addresses and user agents: nothing proved depends on them.
- The mail and audit records that the identity flows write, apart from the two failure notices, which are events here.
- `Phc.Hasher.Acquire`: a caller waiting for a slot is a caller that comes later; the dummy hash that equalises timing and comparison in constant time are not modelled.
- `Decimal.ScanUndoesWritten`: of the spaces that fmt skips, those outside ASCII.
- `Digest.DigestIsInjective`: the moment is a number of microseconds, which is what the digest and the database keep.
- `AuditTables.AppendKeeps`: the caller's JSON is bytes, and what marshalling takes and makes of it a parameter; row-level security is not modelled.
- `AuditLog.Log.Verify`: chains come in the order they began rather than by identifier; a verification that never catches up with the appends, one page behind for ever, is not a finite run and is not one here.
- `PersonKeys.SealedOpens`: that an altered ciphertext is refused, and that nothing is learnt from one, is AES-GCM's and not modelled.
- `PersonKeys.KeyTable.Open`: a person is the text of one identifier; two spellings of one identifier, which name one row in the database, are not told to be one here. The keeper is a partial function that never changes its mind.
- `TokenBucket.Memory.Allow`: floating-point rounding, and a rate of zero or less, by which the code would divide or drain: the service is given 240 a minute.
- `FixedWindow.Database.Allow`: the width of the counter's column, and a window of zero or less, in which every moment would be its own window.
- `Jobs.RunsNeverOverlap`: the database's clock is taken not to go back from one transaction to the next.
- `Outbox.Worker.Dispatch`: handing over to Cloud Tasks, which delivers by itself, is the run of deliveries that `Deliveries` allows; two dispatchers at once are its steps in any order.
- HTTP handlers, pages, cookies, mail, Cloud Tasks, Cloud KMS, configuration and the other packages of the repository.
