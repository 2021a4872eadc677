# MALV: verified models of the service's stateful and textual cores

This project models the parts of MALV whose correctness is a statement about all inputs or all runs, and proves those
statements with Dafny 4.11. `dafny verify dfyconfig.toml` checks everything.

| file | what it models |
|---|---|
| `AuthTables.dfy`, `AuthProtocol.dfy` | refresh tokens, sessions and password resets as a state machine: every awaited repository call is one atomic step, and any number of requests interleave, crash or wait |
| `AuthAgreement.dfy` | exactly when tokens and sessions agree, and when a reset token is refused, over every interleaving |
| `AuthCalls.dfy` | what each request of a run may have done, told from the call it was begun with: who issues, what each refresh replaces, when a lookup or a conditional update is lost |
| `AuthService.dfy` | the same operations run to completion, as a class that updates the tables; every method is tied to one atomic operation, and the steps of the state machine, run alone, are proved to amount to that operation |
| `Accounts.dfy` | signup and the Google, GitHub and Apple upserts over the user table |
| `Prompt.dfy`, `PromptLayout.dfy` (with `Text.dfy`) | the chat prompt printer, which blocks it holds in which order, the splitter that takes the prompt apart again, and the log summary |
| `Continuation.dfy`, `CodeFence.dfy`, `AutoContinuation.dfy` | the bounded loop that asks a worker for more text, cuts the overlap, appends, streams and decides when to stop |
| `Handoff.dfy`, `HandoffLegacy.dfy` | the versioned Explore handoff: strict version 2 decoder, lenient version 1 migration, encoder, on JSON values; the names and words of both versions |
| `Toasts.dfy` | the toast store: reducer, timers and id counter under any order of events |
| `Candidates.dfy`, `StringHash.dfy` | the hash that breaks ties, and the choice of an answer direction built on it |
| `Shaping.dfy`, `Spacing.dfy`, `HistoryWindow.dfy`, `CappedReader.dfy` (with `Sequences.dfy`) | reply reshaping and white space, the history window, the byte-capped reader |

## How the models are set up

- *Tokens.* A token hash is a number, so hashing is injective; a save draws a random value that must be unused, and the
  step does not happen otherwise. Row ids are indexes.
- *Actions that are not enabled* leave the state as it is, so every list of actions is a run and the theorems about
  `Exec` quantify over all interleavings. `Crash` ends a request between two of its calls.
- *The continuation loop* is proved for any judge of texts (`Setting.judge`), any script of answers and any abort
  schedule; `MALV` is the judge the service uses.
- *Strings* are sequences of Unicode scalar values, except in `StringHash.dfy`, which works on UTF-16 code units.
  Lower-casing is over ASCII letters.
- *Numbers.* Scores and tie keys are exact reals. The hash is computed with its 32-bit truncation written out.

## What turned out not to hold

Where a property one would expect is false of the code, the code is modelled as it is and the exact condition is proved.

- Sessions and tokens agree when requests run one at a time, but not when they overlap or crash (`TornPairIsReachable`,
  `CrashLeavesTokenAlone`). Over every run a token has an agreeing session if and only if its issuer went on to save one
  and the run deactivated both halves or neither (`PairAgreesExactly`).
- A reset token works once when requests run one at a time, but two overlapping resets can both complete
  (`ResetTokenCanWorkTwice`). A reset is refused if and only if its lookup comes after the consuming step, or the row is
  expired or unknown (`ResetRefusedExactly`).
- The user message survives printing and splitting if and only if two marker conditions hold (`SplitInvertsBuild`). The
  second one is about the message followed by a line break, because the reply marker can overlap itself by one.
- The logged message length depends on a shorter marker than the splitter's, so it needs a stronger condition
  (`SummaryMatchesMessage`).
- Signing in again with the same profile can reach another user, if a second subject with the first user's email arrived
  in between (`UpsertCanMoveToAnotherUser`). It reaches the same user if and only if that user still holds the subject, or
  nobody does and the profile has that user's email (`UpsertReturnsExactly`).
- A toast id whose timer has fired can come back (`FiredIdCanReturn`), if and only if a caller dismissed it before it was
  handed out (`FiredIdReturnsExactly`). A closed toast can lack a timer (`ClosedToastCanLackTimer`): one loses it through
  an update that closes it, and `TimersKeptExactly` says over every run whether that was mended.
- The history window is the true last-L window if and only if enough survivors were fetched or none was left behind
  (`WindowIsTrueExactly`).
- The two handoff decoders agree on a canonical record if and only if its viewport to restore is trimmed, because only
  the older one trims it (`DecodersAgree`).
- The check at lines 148-150 of `malv-chat-worker-auto-continuation.util.ts` never applies (`RunIsBounded`).
- The comment above the list-marker test in `malv-assistant-reply-structure.util.ts` speaks of the end of the text, but
  its pattern has the multi-line flag and matches on any line. `CodeFence.HasDanglingListMarker` follows the code; as a
  result such a marker in the first reply keeps every later one looking cut off (`MalvDanglingStays`).

## Model

| member | source | states |
|---|---|---|
| AuthTables.FindToken | apps/api/src/auth/auth.service.ts:330-332 | the lookup by hash finds the first row with that hash, and fails only if there is none |
| AuthTables.FindReset | apps/api/src/auth/auth.service.ts:302-306 | the same for reset rows |
| AuthProtocol.StepKeepsInv | apps/api/src/auth/auth.service.ts:64-101 | every repository call of every request, in any state, keeps the protocol invariant: a token row knows the one request that saved it and the token it replaces; a won token is inactive and was won once |
| AuthProtocol.ApplyKeepsInv | apps/api/src/auth/auth.service.ts:330-388 | so does every action: new requests, steps, clock ticks, crashes |
| AuthProtocol.ExecKeepsInv | apps/api/src/auth/auth.service.ts:330-388 | so does every run, by induction |
| AuthProtocol.Reach | apps/api/src/auth/auth.service.ts:330-388 | every state that any interleaving reaches satisfies the invariant |
| AuthProtocol.OneWinner | apps/api/src/auth/auth.service.ts:360-364 | in every interleaving at most one request wins the conditional deactivation of a token, and the token is inactive from then on |
| AuthProtocol.OnlyTheWinnerIssues | apps/api/src/auth/auth.service.ts:360-368 | a successor token was saved by the winner of its parent, belongs to the same user, and a parent has at most one successor |
| AuthProtocol.SameLoginIsAChain | apps/api/src/auth/auth.service.ts:330-372 | of two tokens of one login, the older is an ancestor of the younger |
| AuthProtocol.AncestorIsInactive | apps/api/src/auth/auth.service.ts:360-368 | a token with a descendant is inactive and has a direct successor on the way |
| AuthProtocol.LoginChain | apps/api/src/auth/auth.service.ts:330-372 | in every reachable state the tokens of one login form a chain with at most its last one active |
| AuthProtocol.ApplyEvolves | apps/api/src/auth/auth.service.ts:317-323 | no action turns a token row active again, changes its other columns, or lets a request win an inactive token |
| AuthProtocol.ExecEvolves | apps/api/src/auth/auth.service.ts:317-323 | nor does any run |
| AuthProtocol.RevocationIsPermanent | apps/api/src/auth/auth.service.ts:317-323 | every row that a reset, logout or logout-all update selects is inactive in all later states of all interleavings, and no request that had not won it by then ever does |
| AuthProtocol.OverlapTearsPairExactly | apps/api/src/auth/auth.service.ts:77-98 | the case of two requests and four consecutive steps, in any state: for every order of a login's two saves and a revocation's two updates, the new token stays active exactly when the token update came first, the new session exactly when the session update came first |
| AuthAgreement.TokenActiveExactly | apps/api/src/auth/auth.service.ts:317-388 | from any state, over every run of any number of requests: a token is active if and only if it was, or is new, and no rotation or bulk update hit it |
| AuthAgreement.SessionActiveExactly | apps/api/src/auth/auth.service.ts:317-388 | the same for sessions |
| AuthAgreement.ApplyKeepsSessionsInv | apps/api/src/auth/auth.service.ts:83-98 | every action keeps this: a session belongs to one token, saved by the same request, with the same user and expiry |
| AuthAgreement.TokenHasSessionExactly | apps/api/src/auth/auth.service.ts:83-98 | in every reachable state a token has a session if and only if its issuer went on to save one; otherwise that request is still before the save, or crashed |
| AuthAgreement.PairAgreesExactly | apps/api/src/auth/auth.service.ts:64-388 | over every run, crashes included, a token has an agreeing session if and only if its session was saved and the run deactivated both halves or neither |
| AuthAgreement.TornPairIsReachable | apps/api/src/auth/auth.service.ts:77-98 | a run from the empty tables that ends with an active session on an inactive token |
| AuthAgreement.CrashLeavesTokenAlone | apps/api/src/auth/auth.service.ts:83-98 | a run that ends with an active token and no session |
| AuthAgreement.ConsumedExactly | apps/api/src/auth/auth.service.ts:325-326 | over every run a reset row is consumed if and only if it was, or a consuming step ran |
| AuthAgreement.ResetRefusedExactly | apps/api/src/auth/auth.service.ts:302-315 | in every interleaving a reset is refused at its lookup if and only if the row is unknown, expired, or consumed by an earlier step of the run |
| AuthAgreement.PassedResetIsNotRefused | apps/api/src/auth/auth.service.ts:302-327 | a reset that has passed its lookup is never refused later, whatever else runs |
| AuthAgreement.PassedResetCompletes | apps/api/src/auth/auth.service.ts:317-327 | it completes with three more steps, whoever consumed the row meanwhile |
| AuthAgreement.ResetTokenCanWorkTwice | apps/api/src/auth/auth.service.ts:302-327 | a run in which two resets with one token both complete |
| AuthCalls.ReachKeepsCalls | apps/api/src/auth/auth.service.ts:64-388 | in every reachable state every request is where the call it was begun with allows, and has won and saved only what that call may |
| AuthCalls.IssuerExactly | apps/api/src/auth/auth.service.ts:330-372 | in every reachable state a token replaces no other if and only if its issuer was begun as a login, of its user; one saved by a refresh replaces the token whose hash that refresh was called with |
| AuthCalls.OneRefreshIssues | apps/api/src/auth/auth.service.ts:360-372 | of two requests begun to refresh with the same token at most one ever saves a token or is answered with one, in every interleaving |
| AuthCalls.RootHasNoParent | apps/api/src/auth/auth.service.ts:330-372 | the token a chain of replacements starts from replaces no other |
| AuthCalls.LoginHasOneLiveToken | apps/api/src/auth/auth.service.ts:330-372 | in every reachable state the tokens that go back to one login request have at most one active one among them |
| AuthCalls.OthersNeverIssue | apps/api/src/auth/auth.service.ts:302-388 | a logout, a reset or a reset request never saves a token |
| AuthCalls.ClockIsElapsed | apps/api/src/auth/auth.service.ts:346 | the clock shows the time that passed in the run |
| AuthCalls.LookupExactly | apps/api/src/auth/auth.service.ts:330-358 | a refresh at its lookup is refused as unknown, or as expired, told from the rows, the earlier steps that hit the token and the time that passed; otherwise it goes on to the conditional update |
| AuthCalls.RotationExactly | apps/api/src/auth/auth.service.ts:360-364 | a request loses the conditional update if and only if an earlier step of the run hit the token; it then ends as already used, and no table changes |
| AuthService.StepsRefineAtomic | apps/api/src/auth/auth.service.ts:302-388 | run without interference, the steps of any call leave the tables and the outcome of its atomic form |
| AuthService.RefreshAloneIsAtomic | apps/api/src/auth/auth.service.ts:330-372 | the case of refresh |
| AuthService.ResetAloneIsAtomic | apps/api/src/auth/auth.service.ts:302-328 | the case of a password reset |
| AuthService.LogoutAloneIsAtomic | apps/api/src/auth/auth.service.ts:374-388 | the cases of logout and logout-all |
| AuthService.SavingAloneIsAtomic | apps/api/src/auth/auth.service.ts:64-101 | the cases of a login and of a password-reset request |
| AuthService.RevokingKeepsCoherence | apps/api/src/auth/auth.service.ts:319-323 | the two bulk updates of a revocation, by owner, token id or hash, hit both halves of every token and session pair they touch |
| AuthService.IssueKeepsCoherence | apps/api/src/auth/auth.service.ts:77-98 | issuing adds a coherent pair |
| AuthService.AtomicKeepsCoherence | apps/api/src/auth/auth.service.ts:302-388 | every completed call keeps sessions and tokens one-to-one, agreeing on user and expiry, and active together |
| AuthService.ServeKeepsCoherence | apps/api/src/auth/auth.service.ts:64-388 | so does every sequential run |
| AuthService.SequentialStatesAreCoherent | apps/api/src/auth/auth.service.ts:64-388 | every state that requests served one at a time reach from empty tables is coherent |
| AuthService.ServeIsMonotone | apps/api/src/auth/auth.service.ts:317-327 | over every sequential run rows keep their hashes, inactive tokens stay inactive and consumed resets consumed |
| AuthService.RefreshTokenWorksOnce | apps/api/src/auth/auth.service.ts:345-364 | requests served one at a time: a refresh token that has been exchanged is refused after any further ones |
| AuthService.ResetTokenWorksOnce | apps/api/src/auth/auth.service.ts:308-327 | requests served one at a time: a reset token that has been used is refused after any further ones |
| AuthService.RefreshExactly | apps/api/src/auth/auth.service.ts:330-372 | row by row: a refresh succeeds if and only if an active token with the hash is in time; it then revokes that pair, adds an active one for the same user and leaves all others; a refused one changes nothing |
| AuthService.LogoutExactly | apps/api/src/auth/auth.service.ts:374-388 | row by row: logout revokes the pair with the hash and no other, logout-all every pair of its owner and no other |
| AuthService.ResetExactly | apps/api/src/auth/auth.service.ts:302-328 | row by row: a reset is carried out if and only if the first row with the hash is in time and not consumed; it then revokes every pair of the owner and no other, and consumes that row only; a refused one changes nothing |
| AuthService.AuthService.IssueTokens | apps/api/src/auth/auth.service.ts:64-101 | adds one active token and its session, and keeps coherence |
| AuthService.AuthService.RefreshSession | apps/api/src/auth/auth.service.ts:330-372 | new tables, outcome and metrics are those of the atomic refresh; coherence is kept |
| AuthService.AuthService.LogoutSession | apps/api/src/auth/auth.service.ts:374-388 | both forms of logout, and nothing at all without a token; coherence is kept |
| AuthService.AuthService.ForgotPassword | apps/api/src/auth/auth.service.ts:286-300 | adds an unconsumed reset row and touches nothing else; nothing at all for an address without an owner |
| AuthService.AuthService.ResetPassword | apps/api/src/auth/auth.service.ts:302-328 | refuses unknown, expired and consumed tokens and missing users without effect, otherwise sets the password hash, revokes everything of the user and consumes the row |
| Accounts.FindByEmail | apps/api/src/auth/auth.service.ts:135-136 | first row with that email, or there is none |
| Accounts.FindBySub | apps/api/src/auth/oauth.service.ts:157-158 | first row with that subject of that provider, or there is none; a null column never matches |
| Accounts.ApplyKeepsDistinct | apps/api/src/auth/oauth.service.ts:156-172 | a signup or upsert keeps emails and each provider's subjects unique |
| Accounts.RunsKeepDistinct | apps/api/src/auth/oauth.service.ts:264-280 | so does every sequential run, from the lookups alone |
| Accounts.RunsPreserve | apps/api/src/auth/auth.service.ts:205-240 | users keep their id and email over every run, and a subject changes only through a profile with the user's email |
| Accounts.KeepsSubExactly | apps/api/src/auth/oauth.service.ts:160-164 | over one event a user keeps a subject if and only if no unknown subject of that provider comes with the user's email |
| Accounts.FreeSubExactly | apps/api/src/auth/oauth.service.ts:268-279 | over one event a subject that nobody has finds an owner if and only if it comes in, and the owner is the user reached |
| Accounts.HolderIsFound | apps/api/src/auth/oauth.service.ts:156-172 | over every run the lookup by subject finds the holder that the events determine |
| Accounts.NewUserExactly | apps/api/src/auth/auth.service.ts:134-228 | a new user column by column: by signup with a password, a verified flag and no subject, by a provider without a password, verified, and with that provider's subject only |
| Accounts.LinkedUserExactly | apps/api/src/auth/auth.service.ts:230-240 | a user that an upsert changes has the profile's email, and keeps all columns but the verified flag and that provider's subject |
| Accounts.UpsertReturnsExactly | apps/api/src/auth/oauth.service.ts:462-478 | signing in again with the same profile after any run reaches the same user if and only if that user still holds the subject, or nobody does and the profile has that user's email |
| Accounts.UpsertIsStable | apps/api/src/auth/oauth.service.ts:462-478 | so it does, and creates nobody and changes nothing, at once or after any run without another profile of that email |
| Accounts.UpsertCanMoveToAnotherUser | apps/api/src/auth/oauth.service.ts:156-172 | an input on which a repeated profile reaches another user |
| Accounts.UserDirectory.Register | apps/api/src/auth/auth.service.ts:134-149 | signup's effect on the table, or the refusal of a used email |
| Accounts.UserDirectory.RegisterOAuthUser | apps/api/src/auth/auth.service.ts:205-228 | refuses exactly the emails in use, otherwise adds one verified user without a password |
| Accounts.UserDirectory.LinkOAuthToExistingUser | apps/api/src/auth/auth.service.ts:230-240 | sets one provider column and the verified flag of one user |
| Accounts.UserDirectory.UpsertUser | apps/api/src/auth/oauth.service.ts:156-172 | by subject, then by email, then a new user; never fails, and keeps uniqueness |
| Prompt.UserMarkerHasNoBorder | apps/api/src/beast/malv-brain-prompt.ts:262 | the user marker cannot overlap itself |
| Prompt.ReplyMarkerBorder | apps/api/src/beast/malv-brain-prompt.ts:263 | the reply marker overlaps itself by a line break and by nothing else |
| Prompt.ReplyHeadingHasNoBorder | apps/api/src/beast/malv-brain-prompt.ts:300 | the summary's end marker cannot overlap itself |
| Prompt.FirstOccurrence | apps/api/src/beast/malv-brain-prompt.ts:264-273 | a marker with border b is first found right after a text exactly when it does not occur in the text followed by its own first b characters |
| Prompt.SplitExactly | apps/api/src/beast/malv-brain-prompt.ts:258-288 | for any markers of that kind, splitting inverts printing if and only if the header and the message are free of them |
| Prompt.CharsExactly | apps/api/src/beast/malv-brain-prompt.ts:291-310 | for any such markers, the length read between them is the trimmed message's if and only if the message is free of the end marker |
| Prompt.SplitInvertsBuild | apps/api/src/beast/malv-brain-prompt.ts:223-233 | splitting a built prompt gives back the trimmed message and the role prompt plus everything printed before it, if and only if the header lacks the user marker and the message plus a line break lacks the reply marker |
| Prompt.SummaryMatchesMessage | apps/api/src/beast/malv-brain-prompt.ts:291-310 | the summarised length is the trimmed message's if and only if the message lacks the reply heading, and then it is the splitter's too |
| Prompt.NoUserSection | apps/api/src/beast/malv-brain-prompt.ts:258-307 | a prompt without the user marker becomes the user turn as a whole, under the role prompt alone, and its logged length is 0 |
| Prompt.NoReplySection | apps/api/src/beast/malv-brain-prompt.ts:272-307 | a user section without a reply section goes on to the end of the prompt |
| PromptLayout.PromptHoldsBlocks | apps/api/src/beast/malv-brain-prompt.ts:109-234 | a built prompt holds every block that is there and not blank, trimmed and under its heading, in the order of the source, then the message under its heading, then the reply heading and discipline |
| PromptLayout.SystemTurnHoldsBlocks | apps/api/src/beast/malv-brain-prompt.ts:109-288 | under the two marker conditions the splitter hands on the trimmed message, and instructions that hold the role prompt and every block in order and end with the context summary under its heading: the trimmed context, or the stand-in when it is blank |
| PromptLayout.CoreIsTrimmed | apps/api/src/beast/malv-brain-prompt.ts:223-233 | what is printed before the message is trimmed but for one blank line at its end |
| PromptLayout.NoticeReplacesDirectives | apps/api/src/beast/malv-brain-prompt.ts:169-173 | with a phased notice that is not blank, the prompt does not depend on the autonomous directives |
| PromptLayout.BlankIsAbsent | apps/api/src/beast/malv-brain-prompt.ts:160-221 | the prompt depends on its optional blocks only up to outer white space, and a blank block is like none |
| CodeFence.CountAfterRun | apps/api/src/beast/malv-assistant-reply-structure.util.ts:6-10 | the leftmost count gives the first backtick run a third of its length and goes on after the run |
| CodeFence.CountIsByRuns | apps/api/src/beast/malv-assistant-reply-structure.util.ts:6-10 | the leftmost non-overlapping count is the sum, over maximal backtick runs, of length div 3 |
| CodeFence.CountIsAdditive | apps/api/src/beast/malv-assistant-reply-structure.util.ts:6-14 | the count adds up over any seam that does not join two backticks |
| CodeFence.OpenFenceAfterAppend | apps/api/src/beast/malv-chat-worker-auto-continuation.util.ts:122-132 | across the separators the loop inserts, the open-fence test of the whole is the xor of the tests of the parts |
| CodeFence.DanglingAfterBreak | apps/api/src/beast/malv-assistant-reply-structure.util.ts:28-29 | after a line break, a text has a dangling list marker if and only if one of the two parts has |
| CodeFence.DanglesExactly | apps/api/src/beast/malv-assistant-reply-structure.util.ts:28-29 | a text has a dangling list marker if and only if one of its lines begins with a marker that nothing but white space follows |
| CodeFence.IncompleteExactly | apps/api/src/beast/malv-assistant-reply-structure.util.ts:20-35 | a reply looks cut off if and only if it is not blank and its backtick runs hold an odd number of fences, or it ends, but for white space, in dots or in a whole connecting word, or it has a dangling list marker |
| CodeFence.IncompleteAfterAppend | apps/api/src/beast/malv-assistant-reply-structure.util.ts:20-35 | when a reply looks cut off after an append, told from its parts: fences that do not match, a new part that trails off, or a dangling list marker in either |
| Continuation.LongestOverlap | apps/api/src/beast/malv-continuation.util.ts:116-123 | the overlap found is a case-insensitive one of at least 24 characters, and no longer one in the window is |
| Continuation.ExtractMeaningfulContinuationAppend | apps/api/src/beast/malv-continuation.util.ts:105-133 | the descending search with early returns computes `NewText` |
| Continuation.NewTextIsTheRest | apps/api/src/beast/malv-continuation.util.ts:105-133 | what is appended is a trimmed suffix of the trimmed candidate; only the recognised part and the white space after it is dropped, and that part is the prior text or the longest overlap of 24 to 240 characters |
| Continuation.ExtendingCandidate | apps/api/src/beast/malv-continuation.util.ts:110-114 | a candidate that extends the prior text contributes exactly its extension |
| Continuation.RepeatedTail | apps/api/src/beast/malv-continuation.util.ts:116-123 | a candidate that first repeats the last n characters contributes exactly what follows, unless it overlaps by even more |
| Continuation.FreshTextExactly | apps/api/src/beast/malv-continuation.util.ts:105-133 | a candidate that neither extends nor overlaps the prior text is appended trimmed and whole, unless, up to case and spacing, it holds the first 160 characters of the prior text, or all of them if there are fewer; then nothing is |
| Continuation.FreshTextCases | apps/api/src/beast/malv-continuation.util.ts:125-132 | so one shorter than that is kept whole, and one that holds the whole prior text adds nothing |
| Continuation.FlaggedAsksForMore | apps/api/src/beast/malv-continuation.util.ts:35-47 | an outcome, streaming mode or truncation flag asks for more, in that order, whatever else the metadata says |
| Continuation.FinishValueExactly | apps/api/src/beast/malv-continuation.util.ts:36 | the finish reason is read under the first of the four keys that is present |
| Continuation.FinishReasonDecides | apps/api/src/beast/malv-continuation.util.ts:20-56 | otherwise the finish word decides: five words mean cut off, seven mean finished, any other word is a stop of another kind; after a finished one only a trailing ellipsis asks for more |
| Continuation.NoFinishReason | apps/api/src/beast/malv-continuation.util.ts:48-56 | without a finish word only a trailing ellipsis asks for more |
| Text.SpaceExactly | apps/api/src/beast/malv-continuation.util.ts:106-127 | which characters trimming and the white-space pattern mean, by code points |
| Spacing.CollapseRun | apps/api/src/beast/malv-continuation.util.ts:126-127 | collapsing makes one blank of a whole run of white space |
| Spacing.CollapseKeepsInk | apps/api/src/beast/malv-continuation.util.ts:126-127 | it keeps the sequence of visible characters of every text |
| Spacing.CollapseLeavesBlanks | apps/api/src/beast/malv-continuation.util.ts:126-127 | and leaves only single blanks between them |
| Spacing.CollapsedStays | apps/api/src/beast/malv-continuation.util.ts:126-127 | a text with single blanks only is a fixed point |
| Continuation.PlanAfterAppend | apps/api/src/beast/malv-continuation.util.ts:29-65 | after an append, whether metadata and reply ask for more depends on the metadata and the appended text only |
| AutoContinuation.Setting.StopIsDetermined | apps/api/src/beast/malv-chat-worker-auto-continuation.util.ts:61-146 | after a number of appends at most one stop reason applies |
| AutoContinuation.Setting.RunIsUnique | apps/api/src/beast/malv-chat-worker-auto-continuation.util.ts:61-146 | script, abort schedule and bound determine how many answers are appended and why the loop stops |
| AutoContinuation.Setting.ReplyIsInitialPlusStream | apps/api/src/beast/malv-chat-worker-auto-continuation.util.ts:122-132 | for every script the reply is the initial one followed by exactly what was streamed |
| AutoContinuation.Setting.AtMostOneWeakAppend | apps/api/src/beast/malv-chat-worker-auto-continuation.util.ts:91-116 | at most one append is short, and every append brings new text |
| AutoContinuation.Setting.RunIsBounded | apps/api/src/beast/malv-chat-worker-auto-continuation.util.ts:61-150 | attempts never exceed the bound, the reason is never left at `max_not_reached`, and it is `not_triggered` exactly when nothing could be asked |
| AutoContinuation.Setting.FinalReplyFences | apps/api/src/beast/malv-chat-worker-auto-continuation.util.ts:122-132 | the final reply is inside a code block exactly when an odd number of its parts, taken alone, are |
| AutoContinuation.Setting.AppendedExactly | apps/api/src/beast/malv-chat-worker-auto-continuation.util.ts:82-116 | for any judge: an answer is appended if and only if it is not blank and brings 24 characters, or any when no answer before it brought less and the reply looks cut off |
| AutoContinuation.Attempt | apps/api/src/beast/malv-chat-worker-auto-continuation.util.ts:76-132 | one pass of the loop body: accepted exactly when meaningful or admissibly weak; a rejected answer leaves only its snapshot |
| AutoContinuation.AfterAppend | apps/api/src/beast/malv-chat-worker-auto-continuation.util.ts:134-145 | the breaks after an append name the reason that applies; without one the answer asked for more and the bound is not reached |
| AutoContinuation.Loop | apps/api/src/beast/malv-chat-worker-auto-continuation.util.ts:61-146 | the loop performs the one run the script allows |
| AutoContinuation.RunAutoContinuation | apps/api/src/beast/malv-chat-worker-auto-continuation.util.ts:36-181 | the resulting answer, the streamed pieces and every recorded field, for every setting |
| AutoContinuation.MalvAppendsSuffix | apps/api/src/beast/malv-chat-worker-auto-continuation.util.ts:82-127 | with the service's own text functions, every appended text is a non-empty trimmed suffix of the worker's trimmed answer |
| AutoContinuation.MalvAppendsExactly | apps/api/src/beast/malv-chat-worker-auto-continuation.util.ts:82-132 | there, exactly which answers are appended, and with which line breaks, told from the texts |
| AutoContinuation.MalvGoesOnByLastAnswer | apps/api/src/beast/malv-chat-worker-auto-continuation.util.ts:134-141 | there, whether the loop goes on after an append depends only on the last answer's metadata and added text |
| AutoContinuation.MalvRunGoesOn | apps/api/src/beast/malv-chat-worker-auto-continuation.util.ts:61-146 | there, a run goes on exactly as long as each answer, taken alone, asks for more, and it is completed exactly when one does not |
| AutoContinuation.MalvDanglingStays | apps/api/src/beast/malv-chat-worker-auto-continuation.util.ts:90-92 | there, a list marker left alone on a line of the first reply keeps every later reply looking cut off |
| Handoff.SpelledBack | packages/explore-action-handoff/src/index.ts:94-110 | a spelling that no other value shares reads back as its value |
| Handoff.MigrateV1ToV2 | packages/explore-action-handoff/src/index.ts:141-249 | the field-by-field migration, section by section with its defaults, computes `MigrateV1` |
| Handoff.MigratedIsCanonical | packages/explore-action-handoff/src/index.ts:141-249 | every version 1 payload that is accepted migrates to a canonical record |
| Handoff.NormalizedV2IsCanonical | packages/explore-action-handoff/src/index.ts:261-345 | every version 2 payload that is accepted decodes to a canonical record |
| Handoff.NormalizedIsCanonical | packages/explore-action-handoff/src/index.ts:254-346 | whatever is accepted is canonical |
| Handoff.PreviewReads | packages/explore-action-handoff/src/index.ts:261-345 | a preview survives encoding and decoding if and only if it is canonical, and the two decoders agree on it |
| Handoff.PresentationReads | packages/explore-action-handoff/src/index.ts:261-345 | every presentation survives encoding and either decoder |
| Handoff.ContinuityReads | packages/explore-action-handoff/src/index.ts:261-345 | the same for the continuity part |
| Handoff.ImprovementReads | packages/explore-action-handoff/src/index.ts:261-345 | an improvement survives if and only if its prompt seed is not blank |
| Handoff.StrictRoundTrip | packages/explore-action-handoff/src/index.ts:254-362 | a record survives serialising and strict decoding if and only if it is canonical |
| Handoff.NormalizeIsIdempotent | packages/explore-action-handoff/src/index.ts:254-346 | for every JSON value of either version, what the normaliser returns is a fixed point of serialising and normalising |
| Handoff.DecodersAgree | packages/explore-action-handoff/src/index.ts:112-345 | re-tagged as version 1, a canonical record migrates to itself if and only if its viewport to restore is trimmed |
| HandoffLegacy.OldEncodingMigrates | packages/explore-action-handoff/src/index.ts:112-249 | a canonical record written with the property names and action words of version 1 migrates to itself if and only if its viewport to restore is trimmed |
| HandoffLegacy.OldPreviewReads | packages/explore-action-handoff/src/index.ts:152-169 | a preview under the old names migrates to itself if and only if it is canonical |
| HandoffLegacy.OldContinuityReads | packages/explore-action-handoff/src/index.ts:213-228 | a continuity part under the old names migrates to itself if and only if its viewport is trimmed |
| HandoffLegacy.OldImprovementReads | packages/explore-action-handoff/src/index.ts:197-211 | an improvement under the old names migrates to itself, or to none if its prompt seed is blank |
| HandoffLegacy.FirstStrExactly | packages/explore-action-handoff/src/index.ts:157-166 | the string under the old name, or else under the new one, or else none |
| HandoffLegacy.OldPreviewNamesWin | packages/explore-action-handoff/src/index.ts:152-169 | with strings under both old names, a preview does not depend on the new ones |
| HandoffLegacy.OldPresentationNamesWin | packages/explore-action-handoff/src/index.ts:181-195 | the same for the presentation |
| HandoffLegacy.OldImprovementNamesWin | packages/explore-action-handoff/src/index.ts:197-211 | the same for the improvement |
| HandoffLegacy.OldContinuityNamesWin | packages/explore-action-handoff/src/index.ts:213-228 | the same for the continuity part |
| HandoffLegacy.BarePayloadMigrates | packages/explore-action-handoff/src/index.ts:141-249 | a version 1 payload with the surface and the two ids only gets every default |
| HandoffLegacy.UnknownWords | packages/explore-action-handoff/src/index.ts:112-139 | an action word of neither version opens the studio, an unknown intent with a seed is a generic improvement |
| HandoffLegacy.AcceptedExactly | packages/explore-action-handoff/src/index.ts:254-345 | which version 2 payloads are accepted: told from sections, words and names |
| HandoffLegacy.AcceptedOtherwise | packages/explore-action-handoff/src/index.ts:141-260 | which of all the others are: version 1 with the surface and two ids that are not blank |
| HandoffLegacy.WordsOfPreview | packages/explore-action-handoff/src/index.ts:272-277 | which words a strict preview needs |
| HandoffLegacy.WordsOfPresentation | packages/explore-action-handoff/src/index.ts:286-292 | which words a strict presentation needs |
| HandoffLegacy.WordsOfContinuity | packages/explore-action-handoff/src/index.ts:294-301 | which words and texts a strict continuity part needs |
| Toasts.DecimalIsInjective | apps/malv-frontend/hooks/use-toast.ts:25-30 | different counts make different ids |
| Toasts.QueueKeepsSound | apps/malv-frontend/hooks/use-toast.ts:58-72 | queueing keeps one runtime timer for each queued id and leaves the rest alone |
| Toasts.ApplyKeepsSound | apps/malv-frontend/hooks/use-toast.ts:56-138 | every event keeps at most one toast and exactly one timer for each queued id |
| Toasts.ExecKeepsSound | apps/malv-frontend/hooks/use-toast.ts:56-169 | so does every interleaving; no id ever has two pending timers |
| Toasts.ClosedHaveTimersExactly | apps/malv-frontend/hooks/use-toast.ts:82-114 | closed toasts keep having a pending timer across an event if and only if the event is not an update that closes an unqueued toast |
| Toasts.ExecKeepsClosedHaveTimers | apps/malv-frontend/hooks/use-toast.ts:82-169 | so over every interleaving without such updates |
| Toasts.TimersAfterExactly | apps/malv-frontend/hooks/use-toast.ts:74-127 | from any state, whether closed toasts have timers after an event: unless it closes an unqueued toast, and if they had them or the event mends it |
| Toasts.TimersKeptExactly | apps/malv-frontend/hooks/use-toast.ts:56-169 | and after every interleaving, told from its events |
| Toasts.ClosedToastCanLackTimer | apps/malv-frontend/hooks/use-toast.ts:82-88 | a run from the empty store that ends with a closed toast without a timer |
| Toasts.ExecKeepsGone | apps/malv-frontend/hooks/use-toast.ts:74-169 | an id without a toast that will not be handed out again never has one, within the counter's range |
| Toasts.FiredIdReturnsExactly | apps/malv-frontend/hooks/use-toast.ts:63-69 | after an id's timer has fired a toast with it can be in the store again if and only if the id is still to be handed out |
| Toasts.FiredIdCanReturn | apps/malv-frontend/hooks/use-toast.ts:90-97 | a run from the empty store in which it does |
| Toasts.IssuedIsNotUpcoming | apps/malv-frontend/hooks/use-toast.ts:27-30 | an id that has been handed out is not |
| Toasts.CountsUp | apps/malv-frontend/hooks/use-toast.ts:27-30 | the counter goes up by one and starts again at 0 when it reaches 2^53 - 1 |
| Toasts.ShownToast | apps/malv-frontend/hooks/use-toast.ts:142-162 | showing leaves one toast: a new one, open, with the title, under the next count; timers stay as they are |
| Toasts.UpdatedToast | apps/malv-frontend/hooks/use-toast.ts:82-88 | an update leaves exactly the open flag and the title it names on the toast with its id, and changes nothing else |
| Toasts.DismissedToasts | apps/malv-frontend/hooks/use-toast.ts:90-114 | dismissing an id closes every toast with it and changes no other, dismissing all leaves none open; and exactly which ids then have timers |
| Toasts.FiredTimer | apps/malv-frontend/hooks/use-toast.ts:63-69 | a timer that fires takes out exactly the toasts with its id, and itself |
| Toasts.ClosedStaysClosed | apps/malv-frontend/hooks/use-toast.ts:74-127 | without a toast shown or opened by an update, none is ever open again, over every run |
| Toasts.ToastStore.GenId | apps/malv-frontend/hooks/use-toast.ts:27-30 | the next id and count |
| Toasts.ToastStore.AddToRemoveQueue | apps/malv-frontend/hooks/use-toast.ts:58-72 | schedules a timer unless the id has one |
| Toasts.ToastStore.AddAllToRemoveQueue | apps/malv-frontend/hooks/use-toast.ts:98-100 | the loop over all toasts queues each of them |
| Toasts.ToastStore.Dispatch | apps/malv-frontend/hooks/use-toast.ts:133-138 | the reducer's new state with its timer side effect |
| Toasts.ToastStore.ShowToast | apps/malv-frontend/hooks/use-toast.ts:142-169 | shows an open toast under a new id; soundness is kept |
| Toasts.ToastStore.UpdateShown | apps/malv-frontend/hooks/use-toast.ts:145-149 | changes open and title of the toast with that id only; soundness is kept |
| Toasts.ToastStore.DismissShown | apps/malv-frontend/hooks/use-toast.ts:90-114 | closes one toast or all and queues their timers; soundness is kept |
| Toasts.ToastStore.FireTimer | apps/malv-frontend/hooks/use-toast.ts:63-69 | the callback forgets the timer and removes the toast; soundness is kept |
| StringHash.Hash32 | apps/api/src/beast/malv-response-generator.ts:103-109 | the loop with `>>> 0` computes the base-31 polynomial modulo 2^32, every sum on the way being below 2^53 |
| StringHash.PolyOfConcat | apps/api/src/beast/malv-response-generator.ts:103-109 | the polynomial of a concatenation |
| StringHash.HashOfConcat | apps/api/src/beast/malv-broad-request-resolution.util.ts:258-265 | the hash of a concatenation follows from the hashes of the parts and the second's length |
| StringHash.PickIndex | apps/api/src/beast/malv-response-generator.ts:213-215 | a pick from a non-empty bank is in range |
| StringHash.PickStepsOn | apps/api/src/beast/malv-response-generator.ts:213-215 | the first pick is at the seed, each further step moves 17 places on around the bank |
| Candidates.SortSorts | apps/api/src/beast/malv-broad-request-resolution.util.ts:273-278 | sorting by any strict order leaves no pair the wrong way round |
| Candidates.SortedIsUnique | apps/api/src/beast/malv-broad-request-resolution.util.ts:273-278 | a sorted arrangement is unique, so the engine's algorithm does not matter |
| Candidates.KeyBeforeIsStrict | apps/api/src/beast/malv-broad-request-resolution.util.ts:273-278 | hash key then name is a strict order in which any two kinds are comparable |
| Candidates.BetterIsStrict | apps/api/src/beast/malv-broad-request-resolution.util.ts:378-386 | so is score, then tie key, then name |
| Candidates.GenerateExactly | apps/api/src/beast/malv-broad-request-resolution.util.ts:267-283 | the generated list is the one list that has every kind once, by rising hash key and then by name |
| Candidates.SelectExactly | apps/api/src/beast/malv-broad-request-resolution.util.ts:368-388 | a candidate is selected if and only if it beats every other one on score, then tie key, then name; nothing is selected from an empty list |
| Candidates.SelectIgnoresOrder | apps/api/src/beast/malv-broad-request-resolution.util.ts:368-388 | the selection does not depend on order or repetition of the candidates |
| Candidates.NoKeywordChoice | apps/api/src/beast/malv-broad-request-resolution.util.ts:346-388 | without a keyword in the message or the last turns the choice is the same kind for every message, whatever the hashes |
| Candidates.OneKindChoice | apps/api/src/beast/malv-broad-request-resolution.util.ts:305-388 | with keywords of one kind only, in the message and the last turns, the number of them from which that kind is chosen, kind by kind, instead of the everyday one |
| Candidates.ScoreExactly | apps/api/src/beast/malv-broad-request-resolution.util.ts:305-366 | the score as a linear function of the two numbers of keywords found, kind by kind |
| Candidates.AlphabeticalExactly | apps/api/src/beast/malv-broad-request-resolution.util.ts:277 | the last criterion orders the kinds as their names stand in a dictionary |
| Shaping.Separator.FirstMatch | apps/api/src/beast/malv-response-shaping-layer.util.ts:43-45 | the first match of the pattern at or after a position, or the end |
| Shaping.Separator.SplitDecomposes | apps/api/src/beast/malv-response-shaping-layer.util.ts:43-45 | splitting leaves pieces without a match, with one maximal match between any two |
| Shaping.Separator.SplitIsUnique | apps/api/src/beast/malv-response-shaping-layer.util.ts:83-87 | and there is no other way to take the text apart like that |
| Shaping.SplitOfJoin | apps/api/src/beast/malv-response-shaping-layer.util.ts:83-87 | joining pieces and splitting again gives the pieces back |
| Shaping.SentencesAreSentences | apps/api/src/beast/malv-response-shaping-layer.util.ts:43-48 | sentences are trimmed, non-empty, without a gap inside, and all but the last end with a full stop, exclamation or question mark |
| Shaping.SectionedKeepsInk | apps/api/src/beast/malv-response-shaping-layer.util.ts:83-94 | sectioned shaping keeps the sequence of visible characters of every text, and returns it trimmed |
| Shaping.SectionedIsIdempotent | apps/api/src/beast/malv-response-shaping-layer.util.ts:83-94 | shaping into sections twice is the same as once, for every text |
| Shaping.SectionedParagraphs | apps/api/src/beast/malv-response-shaping-layer.util.ts:83-94 | the paragraphs of a shaped text without a heading are those of the text; one paragraph of at least four sentences becomes two that share its sentences out evenly, the odd one going first; any other text is only trimmed |
| Shaping.HeadingExactly | apps/api/src/beast/malv-response-shaping-layer.util.ts:85 | a text has a heading if and only if one of its lines begins with one to three number signs and white space; it then keeps its layout |
| Shaping.DirectKeepsTwoSentences | apps/api/src/beast/malv-response-shaping-layer.util.ts:77-81 | direct shaping keeps a prefix of the visible characters; of every text, exactly the first two sentences or as many as there are, unchanged if there are no more; and it is idempotent |
| Shaping.DedupeAdjacentLines | apps/api/src/beast/malv-response-shaping-layer.util.ts:50-57 | the loop computes `Dedupe` |
| Shaping.DedupeIsUnique | apps/api/src/beast/malv-response-shaping-layer.util.ts:50-57 | equal neighbours can be merged away in one way only |
| Shaping.DedupeMergesLines | apps/api/src/beast/malv-response-shaping-layer.util.ts:50-57 | the lines of the result are the lines of the text with equal neighbours merged: a subsequence without equal neighbours, with the same set of lines, and a fixed point |
| HistoryWindow.SurvivorsAreASuffix | apps/api/src/beast/chat-context-assembly.service.ts:164-177 | filtering the fetched rows gives an end piece of the filtered thread |
| HistoryWindow.WindowIsEndOfSurvivors | apps/api/src/beast/chat-context-assembly.service.ts:164-178 | for every positive limit the window is the last min(L, k) survivors of the whole thread, with k survivors fetched |
| HistoryWindow.WindowIsTrueExactly | apps/api/src/beast/chat-context-assembly.service.ts:413-427 | it is the true last-L window if and only if L survivors were fetched or none was left behind |
| HistoryWindow.SixDropsAreHarmless | apps/api/src/beast/chat-context-assembly.service.ts:413-427 | in particular whenever at most six fetched rows are dropped |
| HistoryWindow.WindowHoldsMessages | apps/api/src/beast/chat-context-assembly.service.ts:164-178 | a window is never longer than its limit and holds no placeholder and no empty unfinished reply |
| HistoryWindow.FewPlaceholdersAreHarmless | apps/api/src/beast/chat-context-assembly.service.ts:164-178 | a thread with at most six such rows gets its true window |
| HistoryWindow.KeepsExactly | apps/api/src/beast/chat-context-assembly.service.ts:170-177 | which rows count, by their columns: no placeholder, and visible text if it is an assistant row still being written |
| CappedReader.StreamPrefix | apps/api/src/beast/malv-controlled-fetch.util.ts:92-104 | what the first reads delivered is a prefix of the stream |
| CappedReader.ReadCapped | apps/api/src/beast/malv-controlled-fetch.util.ts:92-107 | however the stream is cut into pieces, the collected bytes are exactly its first min(maxBytes, total) bytes |

## Left out

- HTTP, cookies, provider calls, JWT signing, password hashing and random number quality: foreign code; tokens are fresh values and hashing is injective.
- Roles, e-mail verification, device and address columns, and the revokedAt and lastSeenAt timestamps: they play no part in the invariants. The interleaved model leaves out the password write, and takes it that a user with a reset row exists; the service class has both.
- Concurrent provider upserts, e-mail verification and role changes: they check and then write without a conditional update, so only their sequential behaviour has an invariant.
- A worker call that throws during continuation: the script always answers. The prompt sent to the worker is not part of the model.
- AutoContinuation.RunAutoContinuation: the record is returned beside the answer's metadata instead of inside it, and log lines are dropped.
- The wording of prompt sections and the rewrite under `dedupeOverlappingSystemRole`: section texts are parameters, and the option is taken to be off.
- StringHash.PickIndex: a seed near 2^53 would lose digits as a double; seeds are 32-bit hashes plus small constants, so this is not modelled.
- JSON text and its 20,000-character cap: the handoff is modelled on JSON values, with absent and undefined fields identified and property names as a datatype.
- Toast listeners, `onOpenChange`, and toast properties other than id, open and title: an update may set the latter two.
- UTF-16 lengths and non-ASCII case folding in the text modules.
- Rounding of floating-point scores, and the keyword counting behind them: hit counts are parameters of a request.
- Candidates.OneKindChoice: with exactly two social keywords the two best scores are equal as reals and the tie key decides; in doubles, rounding may decide before it does.
- Collation of e-mail addresses in the database and its unique indexes: comparison is exact, and uniqueness is proved without the indexes.
- Step-by-step shaping, white-space normalisation and the removal of internal phrases: not modelled; the last of them is not idempotent.
- Keyword classifiers (intent, tone, safety): they have no meaning beyond their word lists.
