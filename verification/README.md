# Patform: a verified model

This project models the parts of Patform that decide what a process accepts, and proves
what they promise. Patform is a typed process platform: a *blueprint* holds a form, a
workflow and its scenario tests; respondents submit the form, staff carry out tasks, and
other programs use an HTTP API under OAuth grants.

Four groups of code are modelled.

**Conditions, form validation and constrained revision.** `Conditions` gives the condition
language its meaning, with `any` and `all` over rows, and proves that evaluation depends on
the answers only through the collected keys. `Forms` and `Submission` model the check of one
answer and the two walks over a submission, the one that lists what is missing and the one
that lists everything wrong, each as loops proved against a specification. `Agreement`
proves how far the two walks agree, `ReadSet` what they can depend on, and `Acceptance` tells,
without the walks, which answers each kind of field accepts and which errors and gaps a
submission has. `Documents` is
reading and writing JSON along paths, `Revision` the patching of a blueprint through a
whitelist of paths, and `Strengthening` the proof that a patched form only asks for more.

**Blueprint rewriting.** `CanonicalJson` is the printer used as an equality test, `Routes`
the removal of equivalent transitions with it, `RouteOrder` what that does to which one
runs, `SampleAnswers` the guarded path search that completes a test's answers, `Normalize`
the mechanical corrections and their log, `Corrections` what they mean, `Generation` the
bounded repair loop and the attempt loop that may publish a blueprint.

**OAuth grants.** `OAuth` is the state machine over clients, members, codes, grants and
tokens (authorization code with PKCE, rotating refresh tokens, reuse read as theft),
`OAuthServer` the same as a mutable store whose methods are proved against it, and
`OAuthSafety` the invariants over every run, in which role changes, departures, manual
revocation and the clock are steps like any other.

**Counters and cursors.** `RateLimits` is the local and the shared rate limiter and the
two-window intake budget, `Pager` the keyset pager in its three orders, `Idempotency` the
stored-response protocol, both as one mutable table and as interleaved steps.

## Conventions

JavaScript's `undefined` is a value of `Values.Value`, so a missing key and a key holding
`undefined` read alike. Objects carry an identity because `===` compares them by it. Numbers
are reals; where distinct numbers must print differently they are binary fractions.
Regular expressions, the number parser, the calendar, the signature reader, `slug`'s text
operations, `localeCompare`, base64 and JSON text of a cursor, case-insensitive matching,
hashing, schema parsing and the compiler are function-valued parameters (`Host`, `Text`,
`Rules`, `Codec`, `Matcher`, `Crypto`, `Reader`, `Gates`, `Bench`), so every theorem holds
for whatever they do. The few that need something of them say so: `GoodRules` (numbers
print as distinct numerals and no two keys tie), `GoodCodec` (a cursor decodes to what was
encoded) and `Trailing` (an underscore at the end of a text changes nothing for `slug` and
makes it no yes/no word).
Each exported OAuth call is one atomic step. An error message is the constructor that
produces it, not its wording.

## What was found

* A form may pass validation and still be missing answers: a required field that staff or
  the system sets, placed on a page, is skipped by one walk and not by the other
  (`Agreement.StaffFieldOnAPageDisagrees`). `Agreement.CleanIsCompleteExactly` says for
  which layouts this cannot happen.
* An author's empty message hides what a field refuses: the answer is not accepted, and
  nobody is told (`Acceptance.AnswerExactly`).
* Removal of duplicate routes goes by key, so a route that shares the key of a removed one
  is lost with it. `Routes.SafeExactly` says for which lists of keys this cannot happen.
* The removal keeps the moves a workflow offers, but not their order, and the first open
  route is the one that runs: a removed route's stand-in may come after another that is
  open too (`RouteOrder.TwinComesTooLate`), or bring actions where there were none
  (`RouteOrder.ActionsAppear`). `RouteOrder.FiresAlikeExactly` says when every record still
  moves as before.
* Normalizing twice can change more than normalizing once: a yes/no field with both choices
  and child fields turns into a group after the conditions were read against a yes/no field.
  `Normalize.UnmixedExactly` says for which forms one pass is enough.
* The pager's cursor keeps the time to the millisecond while the table keeps microseconds
  (`Pager.CursorIsExact`). Oldest first, a walk can then return a record again and never
  end; newest first, it can pass a record over. `Pager.RepeatsExactly`, `Pager.EndsExactly`
  and `Pager.SkipsExactly` say for which creation times.
* The printer prints a list holding one `undefined` like an empty list
  (`CanonicalJson.Mean` identifies the two), and two keys that tie under `localeCompare` make
  equal objects print differently (`CanonicalJson.TiedKeysSplit`).
* Reuse of an authorization code revokes every live grant of its client and member, which
  is more than what was issued from it, as the comment at `src/api/oauth.ts:355-361` has it
  (`OAuthSafety.CodeReuseRevokesExactly`).
* Two concurrent requests under one idempotency key can both run
  (`Idempotency.TwoMayRun`), as the source's comment admits; the stored answer is still one.
  `Idempotency.OneCompletesExactly` and `Idempotency.OneEverCompletesExactly` say from which
  states at most one does.

## Model

| member | source | states |
|---|---|---|
| Values.SameLaws | src/blueprint/common.ts:270-275 | scalars are the same when equal, objects when identical, lists element by element; sameness is reflexive and symmetric |
| Values.TextLessExactly | src/blueprint/common.ts:278-284 | of two texts the first differing code unit decides, and of two that do not differ the shorter comes first |
| Values.BlankLaws | src/blueprint/common.ts:263-268 | nothing, null, white space and an empty list are empty; a flag, a number, an object, a list with members and a text with a printable character are not |
| Values.OverlayReads | src/blueprint/common.ts:206 | over a form overlaid with a row the row's own properties come first |
| Conditions.OperandLaws | src/blueprint/common.ts:248-261 | what a literal, a field and each part of the context stand for |
| Conditions.ComparisonLaws | src/blueprint/common.ts:227-243 | `gt`/`lt` and `gte`/`lte` are converses; on numbers and on texts `lt` and `lte` are the numeric and the code-unit order, and between anything else false |
| Conditions.ConnectiveLaws | src/blueprint/common.ts:192-197 | `and` of nothing is true and `or` of nothing false; a further operand conjoins or disjoins |
| Conditions.DualityLaws | src/blueprint/common.ts:194-199 | `not` is always the other answer, and turns `and` into `or` of the negations |
| Conditions.AllReads | src/blueprint/common.ts:200-209 | `all` holds when the condition does of the form overlaid with each row that is an object; what is no list has no rows |
| Conditions.AnyReads | src/blueprint/common.ts:200-209 | `any` is the negation of `all` of the negation |
| Conditions.MembershipLaws | src/blueprint/common.ts:210-228 | `in` is built from equality member by member, `not_in` and `ne` are the complements, `is_present` is the complement of `is_empty` |
| Conditions.ContainsLaws | src/blueprint/common.ts:218-224 | a list contains what is the same as a member, a text the texts it has as a part, nothing else anything |
| Conditions.Coincidence | src/blueprint/common.ts:111-246 | two answers maps that agree on the collected keys give every expression the same value, also under row overlays |
| Conditions.CollectFields | src/blueprint/common.ts:111-146 | the growing-list walk collects exactly the keys `FieldsInExpr` lists, in order |
| Forms.CheckCoincides | src/blueprint/answers.ts:94-120 | a field's check reads other answers only at the fields its `atMost` and `notBefore` name |
| Forms.RequiringMore | src/blueprint/answers.ts:67-70 | making an answer required never clears or changes a problem it already had |
| Submission.ComputeVisible | src/blueprint/answers.ts:39-51 | the nested loops give exactly the keys of shown sections of shown pages |
| Acceptance.ShownExactly | src/blueprint/answers.ts:39-51 | a question is on show exactly when a section whose condition holds, of a page whose condition holds, has it |
| Acceptance.AnswerExactly | src/blueprint/answers.ts:67-185 | for every kind of field, the exact set of answers it accepts: numbers by bounds, scale and the compared answer, dates by days and the compared date, texts by length and pattern, choices, files, flags, signatures, groups; a refusal goes unreported only by an empty author message |
| Acceptance.ProblemsAreTrue | src/blueprint/answers.ts:67-185 | whatever problem a check names, with its bounds and labels, is so |
| Acceptance.MessageIsUsed | src/blueprint/answers.ts:72-182 | an author's message stands in for whatever the field itself refuses |
| Submission.MissingRequiredFields | src/blueprint/answers.ts:200-234 | the loops give the gaps of `Missing`, in order: unmet requirements, bad uploads, absent mandatory choices and row cells |
| Submission.ValidateAnswers | src/blueprint/answers.ts:236-287 | the loops give the errors of `Errors`, in order, for any scope |
| Acceptance.OwnErrorExactly | src/blueprint/answers.ts:251-260 | a question has an error of its own if and only if it is on show, in scope, the respondent's, and its answer is not in the accepted set, required by flag or by a condition that holds |
| Acceptance.RowErrorExactly | src/blueprint/answers.ts:263-268 | a mandatory choice is asked for if and only if no row carries it |
| Acceptance.CellErrorExactly | src/blueprint/answers.ts:269-282 | a cell has an error if and only if staff fill it and it is given, or the form with its row over it does not accept it |
| Acceptance.GapExactly | src/blueprint/answers.ts:200-234 | the gaps of a submission are exactly the unmet requirements, false uploads, absent mandatory choices and lacking cells of the questions on show |
| Agreement.RespondentGapIsAnError | src/blueprint/answers.ts:200-287 | every gap in a shown field the respondent fills is reported as an error at the same place |
| Agreement.CleanMissesOnlyStaff | src/blueprint/answers.ts:200-287 | a submission without errors misses exactly what its staff-set fields miss |
| Agreement.CleanIsCompleteExactly | src/blueprint/answers.ts:200-287 | every form of a layout (same keys, kinds, setters and places; any requirements, conditions and answers) misses nothing when it has no errors, if and only if no field that staff or the system sets, and a walk looks at, is on a page |
| Agreement.CleanIsComplete | src/blueprint/answers.ts:200-287 | with those fields off the pages, no errors means nothing missing, across uploads, groups, required choices and row conditions |
| Agreement.StaffFieldOnAPageDisagrees | src/blueprint/answers.ts:204-210 | for any layout with such a field on a page, the form that requires only its staff fields has no errors for empty answers, yet that field is missing |
| Agreement.ScopeRestricts | src/blueprint/answers.ts:256 | checking with a scope reports exactly the whole form's errors on the keys in scope |
| ReadSet.ValidationReadsOnly | src/blueprint/answers.ts:200-287 | two submissions that agree on what visibility conditions read and on what the shown fields' checks and requirements read have the same errors and the same gaps |
| Strengthening.StrongerReportsMore | src/blueprint/answers.ts:200-287 | a form that requires at least as much reports every error and every gap the other reports |
| Documents.ReadWritten | src/ai/targeted-revision.ts:43-48 | after a write along a path, reading at or below it gives the written value |
| Documents.WriteSucceedsExactly | src/ai/targeted-revision.ts:43-48 | a write succeeds if and only if each step up to the parent is an own property holding an object or list and the parent is an object; the leaf need not be there |
| Documents.OwnProperties | src/ai/targeted-revision.ts:45 | own properties are an object's entries and a list's elements by their numerals |
| Documents.ReadElsewhere | src/ai/targeted-revision.ts:43-48 | a write leaves every path apart from its own as it was |
| Documents.LastWriteWins | src/ai/targeted-revision.ts:43-48 | two writes to one path leave the document the second alone would |
| Documents.WritesCommute | src/ai/targeted-revision.ts:43-48 | writes to paths apart succeed in either order together and read alike at every path |
| Revision.ApplyTargetedRevision | src/ai/targeted-revision.ts:10-64 | the loops accept exactly the patch lists `Revise` accepts, and give its result |
| Revision.WhitelistIsPrefixFree | src/ai/targeted-revision.ts:16-20 | no whitelisted path is a prefix of another |
| Revision.CheckPatch | src/ai/targeted-revision.ts:14-42 | the checks of one patch, written out in order, are `Permitted` |
| Revision.CheckTest | src/ai/targeted-revision.ts:52-62 | the comparisons of one test, written out in order, are `TestKept` |
| Revision.PatchedExactly | src/ai/targeted-revision.ts:13-49 | a list of patches of any length goes through if and only if each patch is permitted and its parent exists, whatever their order |
| Revision.RevisedExactly | src/ai/targeted-revision.ts:10-64 | a revision is accepted if and only if it has one to thirty such patches, and the schema, the compiler and every test agree |
| Revision.LeavesMayBePatched | src/ai/targeted-revision.ts:16-18 | open decisions, assumptions, retention, guards, targets, steps and expectations may be given any value |
| Revision.ChecklistMayAsk | src/ai/targeted-revision.ts:27-36 | a respondent's checklist may be required, and asked for declared choices that drop none asked for before |
| Revision.EvidenceMayBeRequired | src/ai/targeted-revision.ts:37-48 | an optional upload of a respondent's group gets the condition it did not have |
| Revision.GuardMayBeAdded | src/ai/targeted-revision.ts:43-48 | an unguarded route gets a guard |
| Revision.PatchesCommute | src/ai/targeted-revision.ts:13-49 | any reordering of a list that keeps the order of the patches to each path goes through alike and reads alike at every place not above a patched leaf |
| Revision.LastPatchWins | src/ai/targeted-revision.ts:13-49 | after any list, at and below a whitelisted leaf stands the last value written to it, or what was there before |
| Revision.RevisionFrame | src/ai/targeted-revision.ts:13-49 | an accepted revision keeps every path no whitelisted leaf touches, the shape (with all list lengths) of everything above a leaf, and puts in a leaf only a permitted value |
| Revision.NamedPartsUntouched | src/ai/targeted-revision.ts:16-20 | roles, approvals, tasks, rule sources, triggers and actions, messages, documents, pages and every other field property are among the untouched paths |
| Revision.RevisionStrengthensForm | src/ai/targeted-revision.ts:22-42 | the form read from an accepted revision is the source's form with at most more required of it |
| Revision.RevisionOnlyStrengthens | src/ai/targeted-revision.ts:10-64 | every error and every gap of any submission under the source is one under an accepted revision, at every scope and clock |
| Revision.RevisionKeepsTests | src/ai/targeted-revision.ts:52-62 | test for test, permission and duplicate tests are unchanged, and every step that expects a denial, the record count and each expected message and document is kept |
| CanonicalJson.JoinInjective | src/ai/repair.ts:10-11 | comma-joined lists of closed texts are equal only when the lists are, up to the one list that prints as nothing |
| CanonicalJson.CanonicalDecides | src/ai/repair.ts:9-13 | two values print alike if and only if they are equal up to key order and dropped undefined entries |
| CanonicalJson.TiedKeysSplit | src/ai/repair.ts:11 | where two distinct keys tie in the order, two equal objects print differently |
| CanonicalJson.DecidesExactly | src/ai/repair.ts:9-13 | under a strict order of keys the printer decides equality of all values if and only if no two distinct keys tie |
| Routes.RemoveDuplicateRoutes | src/ai/repair.ts:52-64 | the loop keeps the routes of `Kept`, logs exactly the removed keys, and each entry names a route that covered the removed one |
| Routes.FindEquivalent | src/ai/repair.ts:56-59 | the first route that could stand in, or none |
| Routes.CoversIsRetains | src/ai/repair.ts:57-59 | the printer's comparison holds exactly when the other route takes the same step with the same effects, or the removed one had none |
| Routes.RemovedIsRetained | src/ai/repair.ts:54-64 | every removed route is retained by a survivor, also when its first stand-in was removed later |
| Routes.ReferencedSurvives | src/ai/repair.ts:52-55 | routes a test names are never removed |
| Routes.Irredundant | src/ai/repair.ts:54-64 | a survivor another survivor could stand in for is one a test names |
| Routes.RemovalKeepsMoves | src/ai/repair.ts:52-64 | the sets of moves and of effects the workflow offers, whatever their order, are the same before and after |
| Routes.ReachabilityUnchanged | src/ai/repair.ts:52-64 | one state reaches another after removal exactly when it did before |
| Routes.NamesakeIsLost | src/ai/repair.ts:64 | for each list of keys with a shared, unreferenced key and a rival, a workflow of submission triggers, guards and a create_task action whose moves removal does not keep |
| Routes.SafeExactly | src/ai/repair.ts:52-64 | removal keeps the moves of every workflow with given keys if and only if each shared key is referenced by a test or is the only key |
| RouteOrder.FireIsFirst | src/runtime/engine.ts:838-840 | of the routes left, the one that runs is the first in the whole list that is left, answers the event and is open |
| RouteOrder.FiresAlikeExactly | src/ai/repair.ts:52-64 | in every state, on every event and for all guards, the routes left run as all did, if and only if each route that overtakes a removed one has its target and effects |
| RouteOrder.UndisturbedInOrder | src/ai/repair.ts:52-64 | for which it is enough that each removed route has a survivor with its trigger and guard before it, or after it with no other target or effect up to and including it |
| RouteOrder.TwinComesTooLate | src/ai/repair.ts:54-64 | three routes of which the first is removed for the third: with both guards true the record goes elsewhere |
| RouteOrder.ActionsAppear | src/ai/repair.ts:59 | a route without actions removed for a later one with some: they happen where none did |
| SampleAnswers.FreshActionKey | src/ai/repair.ts:32-33 | the loop ends, with the shortest padding that is not taken |
| SampleAnswers.Search | src/ai/repair.ts:92-102 | the recursive walk ends and finds the routes of `Walk`, in order |
| SampleAnswers.RoutesAreSound | src/ai/repair.ts:92-102 | every route found is a simple path from the initial state, by submission and then record updates, that ends in the first rule creating the task |
| SampleAnswers.PathsFollow | src/ai/repair.ts:95-99 | along such a path the first route answers submission and the others record updates, each from where the last led, to a state not met before |
| SampleAnswers.RoutesAreComplete | src/ai/repair.ts:92-102 | unless it stopped at its cap the search misses no such path of nine routes or fewer |
| SampleAnswers.FillSample | src/ai/repair.ts:85-126 | search, combination and copying give the answers of `Filled` |
| SampleAnswers.SampleValuesAre | src/ai/repair.ts:110-113 | yes and no for a yes/no question, its choices for a choice question, nothing for what staff fill or the runtime computes |
| SampleAnswers.MissingExactly | src/ai/repair.ts:105-106 | what is missing is what some guard of the path reads and the answers leave open |
| SampleAnswers.SampleExactly | src/ai/repair.ts:104-117 | below the cap, a route gives a sample if and only if something is missing and some assignment of declared values to it opens every guard |
| SampleAnswers.FilledExactly | src/ai/repair.ts:119-125 | nothing is filled in when no route gives a sample or several do; when one does, exactly the unanswered keys are filled from it |
| SampleAnswers.FilledOpensARoute | src/ai/repair.ts:103-126 | when the answers change there is such a path whose every guard holds of the new answers; no given answer changed and every new value is declared by its field |
| Normalize.Reword | src/ai/normalize.ts:87-106 | the passes over routes, completion, guards, pages with their sections and messages give the plan and log of `Reworded`, in order |
| Normalize.NormalizeBlueprint | src/ai/normalize.ts:29-172 | all passes, fields and references included, give the plan and the log of `Normalized` |
| Corrections.YesAndNoAreRead | src/ai/normalize.ts:35-42 | a comparison with a yes word, once corrected, is true of the answer yes alone, with a no word of no alone; any other text stays |
| Corrections.ChoicesAreRead | src/ai/normalize.ts:43-48 | a declared value stays; another text becomes the value of the first choice whose value or label reads like it, and stays when none does |
| Corrections.OthersAreLeft | src/ai/normalize.ts:36-81 | what is no text, has no choices to be read by, or is not compared with a field of the form stays |
| Corrections.DifferencesAreRead | src/ai/normalize.ts:127-142 | a time less a time is the hours from the second to the first, a date less a date the days; any other difference of fields stays |
| Corrections.StatusesAreResolved | src/ai/normalize.ts:89-93 | a status key stays; a name becomes the key of the one state that reads like it, and stays when several do |
| Corrections.ReferenceIsGenerated | src/ai/normalize.ts:155-169 | a short text the runtime generates becomes the system's, is not required and leaves every section; every other question stays |
| Normalize.ExprHonest | src/ai/normalize.ts:56-85 | correcting a condition logs nothing exactly when it changes nothing |
| Normalize.SpansHonest | src/ai/normalize.ts:127-142 | reading spans in a calculation logs nothing exactly when it changes nothing |
| Normalize.LogIsComplete | src/ai/normalize.ts:29-172 | the change list is empty if and only if the output equals the input |
| Normalize.LiteralSettles | src/ai/normalize.ts:35-49 | a literal once read is read no further, also when its field has become a group meanwhile |
| Normalize.ExprSettles | src/ai/normalize.ts:56-85 | a condition corrected against the fields of any point of the pass needs no correction against the final ones |
| Normalize.SpansSettle | src/ai/normalize.ts:127-142 | a calculation with its spans read has none left, at any depth |
| Normalize.ReferencesSettle | src/ai/normalize.ts:151-169 | after the references are taken none needs taking |
| Normalize.SecondPassSettles | src/ai/normalize.ts:29-172 | a second pass over the output changes and logs nothing, for forms where no visible field wavers |
| Normalize.SettlesExactly | src/ai/normalize.ts:29-172 | a form lets every plan settle in one pass if and only if no visible yes/no field with children has a choice that some non-yes/no text reads as; the failing plan has two states, a route, a page and one message condition |
| Normalize.WaversExactly | src/ai/normalize.ts:27-49 | where `slug` drops a trailing underscore, such a text exists exactly when the field has choices |
| Normalize.UnmixedExactly | src/ai/normalize.ts:29-172 | so every plan settles in one pass if and only if no visible yes/no or acknowledgment field has both choices and children |
| Normalize.UnmixedSettles | src/ai/normalize.ts:29-172 | where no yes/no or acknowledgment field has both choices and children every plan settles |
| Generation.VerifiedRepair | src/ai/verified-repair.ts:8-34 | at most three runs; ready only when the results returned are the last run's of exactly the returned blueprint, all passed, one per test, with nothing open |
| Generation.VerifyIsSound | src/ai/verified-repair.ts:17-32 | the same of the loop's specification, whatever the repairs, the compiler, the warning review and the scenario runs do |
| Generation.GenerateBlueprint | src/ai/pipeline.ts:127-312 | at most one call more than the allowed repairs, stopping at the first refusal or success; a blueprint comes back exactly when publishable; otherwise the best failing draft is offered |
| Generation.MakeAttempt | src/ai/pipeline.ts:145-282 | one call taken through the gates of shape, compiler and scenarios |
| Generation.BetterEditable | src/ai/pipeline.ts:215-218 | the draft kept for editing has the fewest errors of the failing shape-valid attempts so far |
| Generation.PublishedIsProven | src/ai/pipeline.ts:145-296 | what is published comes of a candidate that compiled clean against the description and declares its assumptions; with a pool it compiles as it is and passed one scenario per test in a run of exactly that blueprint |
| Generation.PublishedExactly | src/ai/pipeline.ts:245-272 | what can be published of a parsed reply, over all scenario runs, is exactly what some chain of at most two repairs of failed scenarios makes of its clean candidate, with nothing open at any step and at least one test |
| Generation.FitsExactly | src/ai/pipeline.ts:213-272 | every published blueprint compiles against the description, for all models and runs, if and only if every such chain from a candidate that does keeps it |
| Generation.SteadyRepairsFit | src/ai/pipeline.ts:213-272 | for which it is enough that no single repair and no review takes a blueprint that compiles against it to one that does not |
| OAuthServer.Store.Authorize | src/api/oauth.ts:112-141 | the stored code row and outcome are the specification's |
| OAuthServer.Store.CheckRequest | src/api/oauth.ts:251-281 | the checks of a consent, written out in order |
| OAuthServer.Store.RequireClientAuth | src/api/oauth.ts:452-463 | the checks of a client's secret, written out in order |
| OAuthServer.Store.IssueTokens | src/api/oauth.ts:293-330 | inserts one token pair, and the grant when there is none yet |
| OAuthServer.Store.Exchange | src/api/oauth.ts:332-392 | the branch order, the spent code, the new grant and the reuse branch are the specification's |
| OAuthServer.Store.Refresh | src/api/oauth.ts:403-450 | the branch order, the spent token, the rotated pair and the reuse branch are the specification's |
| OAuthServer.Store.ResolveAccessToken | src/api/oauth.ts:473-505 | what an access token may do now, changing nothing |
| OAuthServer.Store.RevokeGrant | src/api/oauth.ts:519-525 | revokes an unrevoked grant of the tenant and says whether it did |
| OAuthSafety.RevocationLasts | src/api/oauth.ts:498 | in every continuation of a run a revoked grant resolves no access token and issues on no refresh |
| OAuthSafety.RefreshReuseKillsFamily | src/api/oauth.ts:430-438 | a spent refresh token presented again kills its whole family for ever |
| OAuthSafety.CodeReuseKillsGrants | src/api/oauth.ts:363-370 | a used code presented again kills every grant that client then holds from that member |
| OAuthSafety.CodeReuseRevokesExactly | src/api/oauth.ts:363-370 | in every reachable state, presenting a used code revokes exactly the live grants whose codes have its client and member, its own among them, and changes nothing else |
| OAuthSafety.ReuseReachesFurther | src/api/oauth.ts:363-370 | a grant of that client and member is dead for ever after, whichever code it came from |
| OAuthSafety.RefreshIsSingleUse | src/api/oauth.ts:403-450 | once exchanged, a refresh token never issues again, whatever happens between |
| OAuthSafety.CodeIsSingleUse | src/api/oauth.ts:332-392 | once exchanged, a code is answered as reused in every continuation |
| OAuthSafety.RotationAlways | src/api/oauth.ts:308-321 | in every reachable state each grant has exactly one unspent refresh token, and no two tokens share a hash |
| OAuthSafety.FamilyCounts | src/api/oauth.ts:441-449 | a grant's token pairs number one more than its successful refreshes |
| OAuthSafety.OriginsAlways | src/api/oauth.ts:383-391 | grants correspond one to one with used codes that carry the same client, tenant, actor and scopes |
| OAuthSafety.CodeHasConsent | src/api/oauth.ts:112-141 | every code of a run comes from one consent call that passed all checks, with its client, address, challenge, scopes and expiry |
| OAuthSafety.ConsentExactly | src/api/oauth.ts:251-281 | consent is given if and only if the request is S256 with a long enough challenge, of a client of the workspace at one of its addresses, by an active member who holds some of it |
| OAuthSafety.OnlyProvenClients | src/api/oauth.ts:452-463 | over every run, tokens are issued only to a registered client, and to a confidential one only for a secret whose digest is the one it registered |
| OAuthSafety.ProvenIsNotRefused | src/api/oauth.ts:452-463 | a public client, or one with the right secret, is never told it failed to authenticate |
| OAuthSafety.ExchangesExactly | src/api/oauth.ts:332-392 | a code is exchanged if and only if it is there, unused, in time, and client, address, verifier and secret fit |
| OAuthSafety.RefreshesExactly | src/api/oauth.ts:403-450 | a refresh token is exchanged if and only if it is unspent, in time, of a live grant of the client, and the secret fits |
| OAuthSafety.ResolvesExactly | src/api/oauth.ts:473-505 | an access token is good if and only if it is in time, its grant lives, its member is active and holds something of the grant |
| OAuthSafety.Lifetimes | src/api/oauth.ts:317-321 | a code lives sixty seconds, an access token an hour, a refresh token thirty days |
| OAuthSafety.HoldersExactly | src/runtime/policy.ts:40-60 | for each capability, the roles that hold it |
| OAuthSafety.ScopesOnlyShrink | src/api/oauth.ts:500-504 | what an access token may do is nonempty and within what the client asked for, what the member held at consent and what the member holds now |
| OAuthSafety.ExchangeMatchesConsent | src/api/oauth.ts:371-382 | a code is exchanged only by its client, at its redirect address, with the verifier of its challenge, within a minute |
| OAuth.Filtered | src/api/oauth.ts:274-275 | keeps exactly the scopes the role holds |
| Pager.ListRecordsPage | src/api/public.ts:228-381 | refusals, filters, the extra row and the next cursor are the specification's |
| Pager.BuildFilters | src/api/public.ts:269-323 | the conditions pushed one by one are those of `Filters`, in order |
| Pager.SelectsExactly | src/api/public.ts:269-334 | a record is selected if and only if it passes each filter given and comes after the cursor in the order asked for |
| Pager.LimitIsKept | src/api/public.ts:343 | a limit from one to a hundred is kept, any other becomes the nearer end |
| Pager.QueryIs | src/api/public.ts:336-362 | a query gives exactly the selected rows, in strictly ascending order |
| Pager.HiddenAnswersAreSilent | src/api/public.ts:296-372 | from two tables that differ only in answers hidden from the caller, a request is refused alike or gets the same records, the same cursor and the same word on whether there is more |
| Pager.CursorIsExact | src/api/public.ts:325-341 | a cursor resumes exactly after its row in every table if and only if the order is by reference or the row was created on a whole millisecond |
| Pager.PagesAscend | src/api/public.ts:325-372 | rows of later pages come strictly later in the order, whatever was inserted or deleted meanwhile: newest first and by reference always, oldest first where the cursor keeps its place |
| Pager.NothingRepeats | src/api/public.ts:325-372 | under the same condition no record comes twice in a walk |
| Pager.NothingIsSkipped | src/api/public.ts:325-372 | a walk followed to the end returns every record present and matching throughout: oldest first and by reference always, newest first where the cursor loses nothing |
| Pager.WalkTerminates | src/api/public.ts:343-372 | where the cursor keeps its place, with finitely many records ever inserted a walk has at most that many pages and a last one |
| Pager.OldestNeverEnds | src/api/public.ts:325-341 | oldest first, a record off the whole millisecond with one after it is on every page of a walk of any length over a table that never changes |
| Pager.NewestSkips | src/api/public.ts:325-341 | newest first, a record that follows another of its millisecond is on no page of a finished walk over a table it never leaves |
| Pager.RepeatsExactly | src/api/public.ts:325-372 | walks over records with given creation times never repeat one if and only if the order is not oldest first or every record with one after it is on a whole millisecond |
| Pager.EndsExactly | src/api/public.ts:325-372 | they have at most one page for each record and a last one under exactly that condition |
| Pager.SkipsExactly | src/api/public.ts:325-372 | finished ones return every record present throughout if and only if the order is not newest first or, of two records of a millisecond, the first is on the whole one or the second is and has the smaller id |
| RateLimits.Limiter.TakeRateToken | src/api/keys.ts:221-246 | the bucket is opened or continued, counted, and the verdict given as specified, the sweep included |
| RateLimits.Limiter.Sweep | src/api/keys.ts:234-236 | the deleting loop keeps exactly the buckets whose window is not over |
| RateLimits.Limiter.TakeRateTokenShared | src/api/keys.ts:187-219 | the shared counter when it answers, the local bucket when it fails or is absent |
| RateLimits.VerdictExactly | src/api/keys.ts:200-246 | accepted exactly within the limit; what is left, the end of the window and the least whole seconds until then are told right, by either counter |
| RateLimits.TighterDecides | src/api/intake-limits.ts:101-107 | a refusing window decides, the minute's first; of two accepting ones the one with less left |
| RateLimits.EvictionIsInvisible | src/api/keys.ts:227-245 | over any trace with a forward clock the sweep changes no verdict, whatever the windows |
| RateLimits.LocalBound | src/api/keys.ts:221-246 | the buckets alone accept at most twice the limit in any interval one window long, one less when every bucket was opened by a call |
| RateLimits.SharedBound | src/api/keys.ts:200-212 | the shared counter accepts at most what its two overlapping windows have left |
| RateLimits.RateIsBounded | src/api/keys.ts:187-246 | at most twice the limit by either counter, at most four times when the shared one fails and recovers arbitrarily; one less by the buckets, and so in all, when they were opened by calls |
| RateLimits.RateIsAttained | src/api/keys.ts:187-246 | for every limit and window one trace from the start has the buckets accept twice the limit less one and the shared counter twice the limit in one such interval |
| RateLimits.OneCounter | src/api/keys.ts:187-246 | a counter that never fails, or is never there, leaves the other without accepted calls |
| RateLimits.Limiter.TakeIntakeToken | src/api/intake-limits.ts:116-151 | spends from both windows and gives the tighter verdict |
| RateLimits.LetThroughIsPaid | src/api/intake-limits.ts:116-151 | requests let through are at most the accepted calls of either window's key |
| RateLimits.IntakeIsBounded | src/api/intake-limits.ts:116-151 | both windows' bounds hold of the requests let through |
| Idempotency.Ledger.Find | src/api/public.ts:115-124 | nothing, a replay or a conflict, according to the row and the body hash |
| Idempotency.Ledger.Keep | src/api/public.ts:135-139 | stores unless there is a row, and touches no other |
| Idempotency.Ledger.WithIdempotency | src/api/public.ts:102-142 | one request alone: no key, too long a key, replay, conflict, failure, or run and store |
| Idempotency.HistoryKeeps | src/api/public.ts:113-141 | in every interleaving the stored row came from a caller with its hash that got the same reply, and every lookup's answer is what the row says |
| Idempotency.RowIsWrittenOnce | src/api/public.ts:135-139 | once there the row never changes |
| Idempotency.LookupAfterWrite | src/api/public.ts:115-124 | every lookup after the write replays it or conflicts, by the caller's own hash |
| Idempotency.ReplaysAreHonest | src/api/public.ts:113-141 | every replayed reply was the fresh reply of a caller with the same body |
| Idempotency.SequentialRunsOnce | src/api/public.ts:113-141 | where callers do not overlap at most one run completes |
| Idempotency.TwoMayRun | src/api/public.ts:128-134 | two overlapping callers can both run; the row holds the first reply |
| Idempotency.AllComplete | src/api/public.ts:113-141 | every caller between lookup and store can still complete, so as many runs complete as are at stake |
| Idempotency.OneCompletesExactly | src/api/public.ts:113-141 | from any state, every continuation without a lookup completes at most one run if and only if at most one has completed or is between lookup and store |
| Idempotency.OneEverCompletesExactly | src/api/public.ts:113-141 | with lookups to come, the same holds if and only if there is a stored row besides |

## Left out

- The workflow engine, the compiler's rules, the scenario runner, approvals and the process policy: their sources are used only through parameters.
- HTTP, Postgres, Redis, file storage, mail, the command-line tools, the web client, prompts and the model clients.
- `repairStaffFixtures`, the wiring of tasks to their only entry, acknowledgment tasks and duplicate-identity fixtures (src/ai/repair.ts:25-51, 66-83): local edits with no invariant of their own.
- Regular expressions, `Number`, `Date`, trimming and lower-casing inside `slug`, `JSON.parse` and schema parsing are parameters; NaN, infinities and properties reached through a prototype do not occur.
- A schema's defaults are not modelled: an `undefined` written by a patch stays undefined.
- `JSON.stringify` comparison of tests in a revision is modelled as equality of the values, so it ignores nothing, key order included.
- Transactions: each OAuth call is one step. The code reads, then updates, without one, so two calls that interleave are not covered. Collisions of random codes and tokens are excluded by the runs considered.
- In-place aliasing of a cloned blueprint: `Revision`, `Routes`, `SampleAnswers` and `Normalize` hold the blueprint in a local that is reassigned, which loses no sharing because the source clones first.
- Nesting below the children of a group: the checks look one level down, and so does the form read from a blueprint.
- `Normalize` lists fields flat, as `flattenFields` does, keeps only whether a field has children, and leaves the location text out of a log entry.
- Routes that are called by their own key, as manual and timer routes are, are gone with it; `RouteOrder` is about those found by state, trigger and guard, and not about joins over several tasks, which may compete under different triggers.
- `callerFor` and the parsing of the proxy header: the caller is a parameter of the intake budget.
- SampleAnswers.SampleExactly: assumes that the candidates never number more than sixty-four, where the source cuts them off.
- A cursor's text, and `ilike` escaping of a search, are left to `Codec` and `Matcher`.
- Expiry of a shared counter's key: the key names its window, so an expired one is never asked for again.
- Normalize.SettlesExactly: characterises the forms for which every plan settles; on another form a single plan may still settle.
- Routes.NamesakeIsLost: gives one workflow for each unsafe list of keys, not every workflow that loses a move.
- Agreement.CleanIsCompleteExactly: is about all forms of a layout; a single form with a staff-set field on a page may still agree.
- Revision.PatchesCommute: is about the patched document; the schema, the compiler and the comparison of tests then see documents that may differ in the key order of objects above a leaf.
- Generation.PublishedIsProven: with a pool does not promise that the published blueprint compiles against the description, because it is not compiled against it again; whether the program's own repairs keep that (Generation.FitsExactly) is not part of this model.
- Revision.RevisionOnlyStrengthens: assumes the source's own required choices name a field, as its schema does.
