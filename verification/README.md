# Memzoi, modelled and proved

Memzoi turns Markdown notes into reviewed memory proposals and serves ranked memory back as context. This
project models the deterministic parts of that and proves what they promise, for every input and every run.

**Capture** (`crates/memzoi-core/src/capture.rs`). A Markdown source is scanned into headings, the headings
into nested sections, typed sections into candidates with byte-exact evidence. Each candidate is classified
against the inventory and the candidates before it: a duplicate, a conflict, or a create that reserves a
proposal id. A reviewer accepts, rejects, edits or defers every candidate. A later review may name one earlier
review, which is replayed and whose decisions it must repeat unless they were deferred.

- `Text`, `Utf8`, `Sorting`, `Prelude`: Rust's string operations, UTF-8, sorting and deduplication.
- `CaptureModel`: the entities; hashes and other foreign calls are fields of `Env`, so every theorem holds
  for all of them.
- `Markdown`, `Sections`, `Extract`: lines, fences, headings, the two heading stacks, candidates, diagnostics.
- `TypedNotes`, `Request`: typed sections written and extracted; which Markdown sources are admitted.
- `Validate`, `CanonicalForm`: the validator that re-derives a plan from bytes and a second policy table, and
  the form it demands of planned memories.
- `LivePlan`, `MarkdownReview`: planning, the live check a plan passes again before every review, and reviews of
  Markdown plans with that check made.
- `ProposalIds`, `Normalize`, `Classify`, `Edit`: slugs and reservation, the reviewed form, classification,
  one decision.
- `ReviewCore`, `ReviewLineage`: building a review, and the prior-review check.
- `ReviewTheorems`, `ReviewLiveness`, `EditIds`, `ReviewExamples`: what holds of every built review, exactly when
  one is built, when an edit keeps its proposal id, and concrete reviews.
- `PaymentCard`: the card-number detector.

**Around it**

- `ContextPack`, `PromptBudget`, `Words` (`context.rs`): ranking, two-pass deduplication, budget, rendering.
- `Replacement` (`crates/memzoi-cli/src/update.rs`): the replacement transaction over a file system in which
  any operation may fail.
- `MergedEvents` (`events.rs`): two event logs visited as one.
- `Matching` (`capture_eval.rs`): greedy matching of expected against emitted candidates.
- `Framing` (`config.rs`, `capture_eval.rs`): length-prefixed hash material.

Code that changes state is a method, a class or both, proved equal to a specification function; the lemmas
are about that function. Each refinement is an `ensures` of the method that has the source's loop.

Five promises are not kept as one might expect. The exact conditions are proved, and each has its input:

- A second classification pass changes a candidate that lost its runtime route (`Classify.ClassificationFixpoint`,
  `Classify.MissingRuntimeIsNoFixpoint`).
- The review of an empty plan is no valid prior (`ReviewTheorems.FirstReviewIsAValidPrior`,
  `ReviewExamples.EmptyReviewIsNoPrior`). Markdown plans are never empty; instruction and decision-record plans
  can be.
- A later review may move an edit to another proposal id (`EditIds.EditsKeepTheirIds`,
  `ReviewExamples.EditMayMove`).
- Some files are planned, but their plan fails its own live check (`LivePlan.FreshPlanIsLive`): a blank file, or
  one whose only heading has an empty title; a control character inside a title; a path that begins with a blank;
  or a title and body that only together are prohibited (`MarkdownReview.BlankFileIsNeverLive`,
  `MarkdownReview.ControlHeadingIsNeverLive`, `MarkdownReview.BlankPathIsNeverLive`).
- The transaction reports a rollback when a stale backup cannot be removed, but rolls nothing back
  (`Replacement.AtomicIff`, `Replacement.StaleExitReached`, `Replacement.StaleExitKeepsNewFile`).

## Model

| member | source | states |
|---|---|---|
| ProposalIds.SlugIsWellFormed | crates/memzoi-core/src/capture.rs:4787-4803 | The slug of any title is non-empty, at most 48 characters over a-z, 0-9 and `-`, without `--` and not starting with `-`. |
| ProposalIds.ReplaceShrinks | crates/memzoi-core/src/capture.rs:4797-4799 | Each turn of the dash loop strictly shortens the slug, so the loop ends. |
| ProposalIds.ReplaceKeepsSqueeze | crates/memzoi-core/src/capture.rs:4797-4799 | Each turn keeps the dash-squeezed form, so the loop ends in it whatever the order of replacements. |
| ProposalIds.ComputeSlug | crates/memzoi-core/src/capture.rs:4787-4803 | The loop and the cuts give the slug stated by its result: squeeze, trim dashes, cut at 48, fall back to a word. |
| ProposalIds.DecimalInjective | crates/memzoi-core/src/capture.rs:4805-4810 | Different suffix numbers are written differently. |
| ProposalIds.NumberedInjective | crates/memzoi-core/src/capture.rs:4805-4810 | Different suffixes of one base name give different ids. |
| ProposalIds.TakenNamesCount | crates/memzoi-core/src/capture.rs:4804-4814 | Pigeonhole: n taken names of one base need n used ids. |
| ProposalIds.Reservations.Reserve | crates/memzoi-core/src/capture.rs:4786-4816 | Returns the least free numbered name within one attempt more than there are used ids, and adds exactly that id to the set. |
| ProposalIds.LeastFreeUnique | crates/memzoi-core/src/capture.rs:4804-4814 | There is only one least free name, so the search result is determined by the set. |
| ProposalIds.ReservationStable | crates/memzoi-core/src/capture.rs:4804-4814 | Using up other ids changes a reservation if and only if the reserved id is one of them. |
| Normalize.NormalizeReviewedMemory | crates/memzoi-core/src/capture.rs:4063-4103 | The in-place trim, check, sort and dedup give the canonical draft, or the first error in the order of the checks. |
| Normalize.NormalizeIdempotent | crates/memzoi-core/src/capture.rs:4063-4103 | A normalised draft is accepted again and comes back unchanged. |
| Normalize.NormalizedMeaning | crates/memzoi-core/src/capture.rs:4063-4103 | Title and body trimmed and non-empty; paths and tags strictly ascending, exactly the trimmed input strings, each passing its check; nothing else changed. |
| Normalize.CanonicalStringsMeaning | crates/memzoi-core/src/capture.rs:4082-4101 | A canonical list is trimmed, strictly ascending, has the same trimmed elements, and is a fixed point. |
| Normalize.TrimAndCheck | crates/memzoi-core/src/capture.rs:4082-4099 | The element loop trims all values or stops at the first bad one. |
| Classify.ExactKeyRefinesConflictKey | crates/memzoi-core/src/capture.rs:4763-4784 | Drafts with the same exact key always share the conflict key. |
| Classify.MatchesMeaning | crates/memzoi-core/src/capture.rs:4194-4224 | The collected matches are exactly the inventory entries in the relation, and the list is empty exactly when there is none. |
| Classify.CollectMatches | crates/memzoi-core/src/capture.rs:4196-4224 | One pass over the entries gives both the duplicates and the conflicts. |
| Classify.ClassifyCandidate | crates/memzoi-core/src/capture.rs:4194-4263 | One loop turn computes the classified candidate and adds exactly its own proposal id to the used ids. |
| Classify.ClassifyInPlace | crates/memzoi-core/src/capture.rs:4174-4278 | The array is rewritten in place to the list in which each candidate is classified against the inventory and the candidates before it; the used ids grow by exactly the new proposal ids. |
| Classify.ClassifiedMeaning | crates/memzoi-core/src/capture.rs:4174-4278 | A candidate becomes a duplicate exactly when its draft was seen in the inventory or an earlier candidate, else a conflict exactly when its subject was; the matches listed are all of them in order; anything else is routed by its policy. Memory, claim and evidence stay. |
| Classify.RouteableIsFirstOfItsSubject | crates/memzoi-core/src/capture.rs:4174-4278 | A routeable candidate shares its conflict key with no inventory entry and no earlier candidate, so at most one per key is routeable. |
| Classify.ProposalIdsAreFresh | crates/memzoi-core/src/capture.rs:4227-4246 | Planned proposal ids are outside the inventory ids and pairwise different. |
| Classify.ClassifiedTwice | crates/memzoi-core/src/capture.rs:4159-4172 | Classifying one result again in the same surroundings changes nothing, if and only if it was not downgraded for a missing runtime. |
| Classify.ClassificationFixpoint | crates/memzoi-core/src/capture.rs:4144-4278 | Classifying the output again returns it unchanged, ids and match lists included, if and only if no candidate was downgraded for a missing runtime. |
| Classify.MissingRuntimeIsNoFixpoint | crates/memzoi-core/src/capture.rs:4159-4172 | On an empty inventory without the runtime, every candidate routed to the runtime breaks the fixpoint. |
| Classify.FixpointWithRuntime | crates/memzoi-core/src/capture.rs:4144-4278 | With the runtime inventory available the fixpoint always holds. |
| Edit.RebuildEditedCandidate | crates/memzoi-core/src/capture.rs:3941-4043 | The edit path computes the rebuilt candidate or the first error, and on success reserves exactly its proposal id. |
| Edit.EditMeaning | crates/memzoi-core/src/capture.rs:3941-4043 | A granted edit carries the normalised draft on the original evidence at the requested destination and class; a repo edit is general knowledge with a fresh id, a runtime edit needs the runtime, and no inventory entry shares its subject. |
| Edit.EditGrantedIff | crates/memzoi-core/src/capture.rs:3941-4043 | An edit is granted if and only if its draft normalises, passes the scan, may take the requested route, has a subject no inventory entry has, and, for a private route, the runtime is available; the ids in use play no part. |
| Edit.DecidableIff | crates/memzoi-core/src/capture.rs:950-1006 | A decision succeeds if and only if its own checks pass and, for an edit, the edit is granted. |
| Edit.RebuildReplays | crates/memzoi-core/src/capture.rs:3941-4043 | Rebuilding from the rebuilt candidate's own memory, destination and content class gives it again. |
| Edit.DecisionReplays | crates/memzoi-core/src/capture.rs:1117-1142 | A successful decision turned back into an input is decided the same way, for every outcome. |
| ReviewCore.CollectInputs | crates/memzoi-core/src/capture.rs:917-925 | The inputs by candidate id, or the report of a repeated id. |
| ReviewCore.InputMapSize | crates/memzoi-core/src/capture.rs:917-928 | Without repetition there are as many keyed decisions as given ones. |
| ReviewCore.InputMapLookup | crates/memzoi-core/src/capture.rs:917-925 | Without repetition each decision is found under its candidate id. |
| ReviewCore.ReserveAccepted | crates/memzoi-core/src/capture.rs:934-944 | Succeeds exactly when the accepted planned ids are new and pairwise different, and then adds exactly them. |
| ReviewCore.DecideOne | crates/memzoi-core/src/capture.rs:951-1006 | The outcome branches compute the decision or its error; only an edit adds an id. |
| ReviewCore.DecideAll | crates/memzoi-core/src/capture.rs:946-1009 | The loop over the plan gives one decision per candidate in plan order, each made with the ids used so far, or the first failure. |
| ReviewCore.SelectedErrorMeaning | crates/memzoi-core/src/capture.rs:1238-1257 | The selection scan accepts if and only if all selected subjects differ pairwise. |
| ReviewCore.NoClashMeaning | crates/memzoi-core/src/capture.rs:1244-1253 | A candidate passes the inner scan if and only if no earlier one shares its subject. |
| ReviewCore.ValidateSelected | crates/memzoi-core/src/capture.rs:1238-1257 | The nested loop reports exactly that first clash. |
| ReviewCore.BuildCore | crates/memzoi-core/src/capture.rs:906-1031 | Review building after the lineage check refines its specification, errors in the order of the checks included. |
| ReviewLineage.CheckTerminal | crates/memzoi-core/src/capture.rs:1096-1113 | Reports the first prior terminal decision that is omitted or changed. |
| ReviewLineage.BuildCaptureReview | crates/memzoi-core/src/capture.rs:876-1115 | The whole builder: lineage check with its replay of the prior, then the core. |
| ReviewTheorems.DecidedFields | crates/memzoi-core/src/capture.rs:951-1006 | What a decision keeps of its input and what each outcome demanded of the candidate. |
| ReviewTheorems.DecisionShape | crates/memzoi-core/src/capture.rs:947-1006 | Decision i belongs to candidate i, has the requested outcome and trimmed valid reason, and carries a candidate exactly for accepts and edits; an accept carries the planned one. |
| ReviewTheorems.CoreReplays | crates/memzoi-core/src/capture.rs:934-1012 | A review's decisions, fed back as inputs, are made again. |
| ReviewTheorems.ReviewReplays | crates/memzoi-core/src/capture.rs:1068-1094 | Replay fixpoint: rebuilding any built review from its own decisions gives the same decisions, data class, actor and time. |
| ReviewTheorems.FirstReviewIsAValidPrior | crates/memzoi-core/src/capture.rs:1033-1115 | Every review built without a prior passes the whole prior-review check up to the later terminal decisions, exactly when the plan has a candidate. |
| ReviewTheorems.RebuiltUpToReservation | crates/memzoi-core/src/capture.rs:3941-4043 | The ids in use influence an edit through its reserved proposal id and the candidate id only. |
| ReviewTheorems.TerminalErrorMeaning | crates/memzoi-core/src/capture.rs:1096-1113 | The terminal check passes if and only if every non-deferred prior decision is repeated up to blanks around the reason. |
| ReviewTheorems.PriorIsReplay | crates/memzoi-core/src/capture.rs:1068-1094 | A prior that passed the check is the replay of its own decisions against this plan and inventory. |
| ReviewTheorems.TerminalDecisionsSurvive | crates/memzoi-core/src/capture.rs:1033-1115 | Every prior accept, reject and edit keeps outcome, reason, memory, evidence and whole classification in the later review; accepts and rejects are identical, an edit may differ only in proposal and candidate id. |
| ReviewTheorems.SelectedIdSource | crates/memzoi-core/src/capture.rs:934-1006 | A selected proposal id is the plan's own for an accept, and new against everything used so far for an edit. |
| ReviewTheorems.SelectedProposalIdsDistinct | crates/memzoi-core/src/capture.rs:934-1013 | In every built review the selected proposal ids are pairwise different and absent from the inventory, for any mix of accepts and edits. |
| ReviewTheorems.SelectedSubjectsDistinct | crates/memzoi-core/src/capture.rs:1238-1257 | In every built review the selected candidates have pairwise different conflict keys and exact keys. |
| ReviewLiveness.PlanReservationsHold | crates/memzoi-core/src/capture.rs:934-944 | The stale-reservation check never trips on the plan's own classification, whatever is accepted. |
| ReviewLiveness.DecidedAllIff | crates/memzoi-core/src/capture.rs:946-1011 | All decisions succeed if and only if the candidate ids differ and each candidate is decidable as asked. |
| ReviewLiveness.ReviewBuiltIff | crates/memzoi-core/src/capture.rs:906-1031 | A review is built if and only if actor, time, plan and numbers pass, the accepted ids are free, every candidate is decidable as asked, and the selected memories, foreseen from the inputs, have different subjects. |
| ReviewLiveness.LaterReviewBuiltIff | crates/memzoi-core/src/capture.rs:876-1115 | A later review naming a first one is built if and only if the plan has a candidate, the terminal decisions are repeated, and the review would be built on its own. |
| ReviewLiveness.AcceptingIff | crates/memzoi-core/src/capture.rs:1157-1181 | Accepting routeable candidates and replays on the unchanged inventory is a review if and only if no two accepted candidates share a conflict key. |
| ReviewLiveness.AcceptingRouteableSucceeds | crates/memzoi-core/src/capture.rs:906-1031 | Accepting any routeable candidates of a plan, replays or not beside them, on the unchanged inventory always yields a review. |
| ReviewLiveness.DeferringEverythingSucceeds | crates/memzoi-core/src/capture.rs:906-1031 | Every live plan with distinct candidate ids can be reviewed, whatever its candidates became: deferring all of them always succeeds. |
| EditIds.RebuiltStable | crates/memzoi-core/src/capture.rs:4014-4042 | Taking more ids away changes a rebuilt edit if and only if its own id is taken. |
| EditIds.EditsKeepTheirIds | crates/memzoi-core/src/capture.rs:934-1006 | A later review keeps every terminal decision entirely, ids included, if and only if no id of a prior edit is accepted or foreseen for a new edit in front of it; the condition uses the inventory, the plan, the prior review and the inputs alone. |
| EditIds.NewIdsForeseen | crates/memzoi-core/src/capture.rs:934-1006 | As long as terminal decisions are kept, the ids new edits take are the ones foreseen from the inputs. |
| ReviewExamples.EditMayMove | crates/memzoi-core/src/capture.rs:4023-4029 | On the live plan of a two-fact file, two reviews, both built: the later edits the deferred first candidate to a title with the same slug, and the repeated edit of the second moves from `mem_capture_t` to `mem_capture_t-2`. |
| ReviewExamples.EditMoves | crates/memzoi-core/src/capture.rs:4023-4029 | The same for every live plan of two waiting candidates over an empty inventory. |
| ReviewExamples.NotesAreLive | crates/memzoi-core/src/capture.rs:1509-1623 | A file of two facts is planned as two waiting candidates, and its plan passes its live check. |
| ReviewExamples.EnvironmentExists | crates/memzoi-core/src/capture.rs:3907-3939 | There are hash, scan and clock functions for which the hypotheses of the examples and of the fresh-plan theorems hold together. |
| ReviewExamples.EmptyReviewIsNoPrior | crates/memzoi-core/src/capture.rs:2396-2401 | A plan without candidates has a review, and no later review accepts it as its prior. |
| Request.AcceptedPath | crates/memzoi-core/src/capture.rs:2442-2634 | The path of an accepted Markdown request is a project path that passes the reviewed form's check; trimming leaves it alone exactly when it does not begin with a blank. |
| LivePlan.ApplyOrigins | crates/memzoi-core/src/capture.rs:2806-2862 | The loop marks replays in place, or stops at a pending origin. |
| LivePlan.PlanMarkdown | crates/memzoi-core/src/capture.rs:1332-1507 | Request check, scan, extraction, origins and classification make the declared plan or block it. |
| LivePlan.CheckLive | crates/memzoi-core/src/capture.rs:1509-1623 | The live check, evidence loop, re-extraction, policy and form loop and re-classification, decides the declared condition. |
| LivePlan.FreshCandidate | crates/memzoi-core/src/capture.rs:1574-1690 | Of a planned candidate everything the validator demands holds of itself, except what its texts and the path can violate; and it is rebuilt as extracted. |
| LivePlan.FreshPlanIsLive | crates/memzoi-core/src/capture.rs:1509-1623 | A fresh Markdown plan passes its own live check if and only if no candidate has an empty title or body, a control character in its title or a prohibited text, and the path does not begin with a blank. |
| MarkdownReview.ReviewMarkdown | crates/memzoi-core/src/capture.rs:876-1031 | Reviewing a Markdown plan, the live check made by re-derivation. |
| MarkdownReview.ExtractedStartsDiffer | crates/memzoi-core/src/capture.rs:3508-3567 | The evidence of extracted candidates starts at strictly increasing bytes. |
| MarkdownReview.PlannedIdsDistinct | crates/memzoi-core/src/capture.rs:3907-3939 | Unless the identity hashes collide on them, the candidates of a fresh Markdown plan have pairwise different ids. |
| MarkdownReview.FreshPlanReviewIff | crates/memzoi-core/src/capture.rs:876-1031 | Accepting what a fresh, reviewable Markdown plan offers is a review if and only if no two accepted candidates share a conflict key, which without accepted replays always holds; liveness and distinct ids are derived. |
| MarkdownReview.RefusedWhenOutOfForm | crates/memzoi-core/src/capture.rs:1582-1590 | One candidate outside the canonical form makes a plan fail its own live check. |
| MarkdownReview.BlankFileIsNeverLive | crates/memzoi-core/src/capture.rs:1582-1590 | The plan of every blank file is made and can never be reviewed. |
| MarkdownReview.ControlHeadingIsNeverLive | crates/memzoi-core/src/capture.rs:1582-1590 | Neither can the plan of any one-section file, of any kind and level, with a control character inside its title. |
| MarkdownReview.BlankPathIsNeverLive | crates/memzoi-core/src/capture.rs:1582-1590 | The path ` notes.md` is admitted, and no plan of that file can be reviewed. |
| Markdown.LinesMeaning | crates/memzoi-core/src/capture.rs:3638-3678 | The scanned lines tile the text; each starts at the text start or after a newline and its number counts the newlines before it. |
| Markdown.AtxRoundTrip | crates/memzoi-core/src/capture.rs:3723-3735 | A trimmed title written at level one to six is read back if and only if it does not end in a hash. |
| Markdown.NoHeadingInsideFence | crates/memzoi-core/src/capture.rs:3650-3675 | Inside a fence nothing is a heading until a line with at least as many of the same marks. |
| Markdown.ScanHeadings | crates/memzoi-core/src/capture.rs:3637-3678 | The scanner's loop over offset, line number and fence gives the declared headings. |
| Markdown.HeadingsMeaning | crates/memzoi-core/src/capture.rs:3637-3678 | Headings stand at line starts, in strictly increasing order, with their line numbers, levels and titles as parsed. |
| Markdown.TypedHeadingRoundTrip | crates/memzoi-core/src/capture.rs:3723-3834 | A typed heading of any kind at any level is read back with that kind and level, and with its trimmed title if and only if that does not end in a hash. |
| Markdown.TypedRowReadBack | crates/memzoi-core/src/capture.rs:3828-3833 | No prefix of the table shadows another, so each row is found by its own prefix. |
| Sections.OpenAtMeaning | crates/memzoi-core/src/capture.rs:3680-3690 | The stack in front of a heading holds exactly the headings with only deeper ones in between, at increasing positions and levels. |
| Sections.AncestorsMeaning | crates/memzoi-core/src/capture.rs:3692-3704 | What stays after popping is exactly the open headings of smaller level. |
| Sections.ComputeEnds | crates/memzoi-core/src/capture.rs:3679-3690 | The first stack computes, in one pass, the start of the first later heading that is not deeper, else the text length. |
| Sections.BuildSections | crates/memzoi-core/src/capture.rs:3633-3721 | Scanner and both stacks together give the declared sections. |
| Sections.NestedOrDisjoint | crates/memzoi-core/src/capture.rs:3679-3717 | Any two sections are nested or disjoint, and direct spans lie inside their sections. |
| Sections.HeadingPathMeaning | crates/memzoi-core/src/capture.rs:3691-3719 | The heading path lists exactly the sections that contain the section's start, outermost first with strictly increasing levels, then itself. |
| Extract.CollectDiagnostics | crates/memzoi-core/src/capture.rs:3585-3631 | The diagnostics loop reports the preamble and every unsupported section in order. |
| Extract.DirectSpansTile | crates/memzoi-core/src/capture.rs:3706-3714 | Every position after the preamble lies in exactly one direct span. |
| Extract.NoSilentLoss | crates/memzoi-core/src/capture.rs:3506-3631 | When a source with a typed heading is extracted, every non-blank character lies in a typed section, on a heading line, or in a preamble or untyped direct span reported by a diagnostic the extraction returns. |
| Extract.UnrecognizedKeepsEverything | crates/memzoi-core/src/capture.rs:3470-3504 | Without a typed heading the only candidate's evidence is the whole text and nothing is reported. |
| Extract.ExtractCandidates | crates/memzoi-core/src/capture.rs:3454-3583 | The extractor's branches and loop give the declared candidates, diagnostics or error. |
| Extract.SectionCandidatesSource | crates/memzoi-core/src/capture.rs:3507-3567 | Every extracted candidate comes from one typed section with a title and a body. |
| Validate.EvidencePasses | crates/memzoi-core/src/capture.rs:1650-1690 | Evidence cut at character positions passes the byte-span, boundary, text, hash and line-number checks of the validator. |
| Validate.ExtractedEvidencePasses | crates/memzoi-core/src/capture.rs:3849-3890 | All evidence of every extracted candidate passes those checks. |
| Validate.TypedHeadingPolicy | crates/memzoi-core/src/capture.rs:2061-2120 | The validator's policy table gives each section kind what the extractor's prefix table gave it. |
| Validate.HeadingReadBack | crates/memzoi-core/src/capture.rs:2202-2231 | The heading line read out of the evidence text gives the section's kind and title again. |
| Validate.PolicyRederives | crates/memzoi-core/src/capture.rs:1740-1775 | The validator re-derives exactly the type, lane, destination, sensitivity and reasons of every candidate extracted for an accepted Markdown request. |
| Validate.PlannedCandidateRebuilds | crates/memzoi-core/src/capture.rs:1574-1601 | From the classified candidate the validator rebuilds exactly the extracted one. |
| Validate.ValidatorReproducesPlan | crates/memzoi-core/src/capture.rs:1574-1607 | Re-deriving every planned candidate and classifying again gives the plan's candidates. |
| CanonicalForm.ExtractedFormIff | crates/memzoi-core/src/capture.rs:1582-1590 | When a memory of the extractor's form passes the canonical-form check, in terms of its title, its body and the path. |
| CanonicalForm.ExtractedMemory | crates/memzoi-core/src/capture.rs:3470-3567 | Every extracted memory has a trimmed title and body, the source's scope and no tags; of a typed section neither is empty. |
| CanonicalForm.PlannedFormIff | crates/memzoi-core/src/capture.rs:1582-1590 | An extracted candidate passes the canonical-form check if and only if title and body are not empty, the title has no control character and the path is a canonical scope path. |
| CanonicalForm.BlankSourceIsPlannedButRefused | crates/memzoi-core/src/capture.rs:3470-3504 | Every blank, non-empty file is extracted, but its candidate fails the canonical-form check. |
| TypedNotes.TypedNoteExtracted | crates/memzoi-core/src/capture.rs:3454-3583 | A typed section written at any level with any clean title is extracted as one candidate of that kind, title and body. |
| TypedNotes.TwoFactsExtracted | crates/memzoi-core/src/capture.rs:3454-3583 | Two typed facts are extracted as two candidates that wait for review, in order. |
| CanonicalForm.ControlHeadingIsPlannedButRefused | crates/memzoi-core/src/capture.rs:4070-4072 | A typed section of any kind and level with a control character inside its title is extracted, but its candidate fails the canonical-form check. |
| PaymentCard.ForwardIsRightToLeft | crates/memzoi-core/src/capture.rs:4636-4656 | The forward parity sum is the right-to-left sum of Annex B of ISO/IEC 7812-1. |
| PaymentCard.CheckDigits | crates/memzoi-core/src/capture.rs:4636-4656 | The loop decides length, non-constant digits and the standard's checksum. |
| PaymentCard.OneDigitErrorDetected | crates/memzoi-core/src/capture.rs:4640-4655 | Changing exactly one digit of a passing number makes it fail. |
| PaymentCard.SwapDetectedUnlessZeroNine | crates/memzoi-core/src/capture.rs:4640-4655 | Swapping two neighbours of a passing number passes if and only if they are equal or a zero and a nine. |
| PaymentCard.ContainsCardNumber | crates/memzoi-core/src/capture.rs:4616-4634 | The scanner answers yes if and only if some maximal run of digits, spaces and hyphens has passing digits. |
| Framing.BytesRoundTrip | crates/memzoi-core/src/config.rs:327-330 | A 64-bit length prefix reads back to the length, in either byte order. |
| Framing.UnframeFrame | crates/memzoi-core/src/config.rs:325-331 | A decoder recovers every list of fields shorter than 2^64 bytes each. |
| Framing.FrameUnframe | crates/memzoi-core/src/config.rs:325-331 | Whatever decodes has no second encoding. |
| Framing.FrameInjective | crates/memzoi-core/src/config.rs:325-331 | Two lists of fields give the same hash material if and only if they are equal. |
| Framing.RuntimeKeyMaterial | crates/memzoi-core/src/config.rs:325-331 | The buffer loop appends the framing of its fields. |
| Framing.Hasher.AbsorbEntry | crates/memzoi-core/src/capture_eval.rs:894-900 | Four updates feed the framing of path and bytes. |
| Framing.AbsorbCorpus | crates/memzoi-core/src/capture_eval.rs:877-900 | The digest stream of a corpus is the framing of its flattened entries. |
| Framing.CorpusStreamInjective | crates/memzoi-core/src/capture_eval.rs:877-900 | Two corpora feed the same bytes to the digest if and only if they have the same entries in the same order. |
| MergedEvents.MergedElements | crates/memzoi-core/src/events.rs:76-136 | The merge holds exactly the second log's rows and the first log's rows with ids the second lacks. |
| MergedEvents.MergedAscends | crates/memzoi-core/src/events.rs:93-136 | The merge strictly increases in creation time and id. |
| MergedEvents.MergedMeaning | crates/memzoi-core/src/events.rs:76-136 | Strictly increasing, each id of the union exactly once, the second log's row for every shared id even at another time. |
| MergedEvents.MergedIsDetermined | crates/memzoi-core/src/events.rs:76-136 | No other stream has that order and those rows. |
| MergedEvents.ForEachMergedEvent | crates/memzoi-core/src/events.rs:86-143 | The loop over two cursors ends; it succeeds exactly when no cursor and no visit recorded a failure, and then the whole merge was visited; otherwise exactly one failure was recorded and exactly a prefix visited, a proper one if the visitor failed. |
| Matching.MatchIsEqualShape | crates/memzoi-core/src/capture_eval.rs:3315-3346 | The field-by-field match relation is equality of a projection. |
| Matching.FindUnused | crates/memzoi-core/src/capture_eval.rs:1884-1890 | The first unused candidate with the expected shape, if there is one. |
| Matching.MatchExpectations | crates/memzoi-core/src/capture_eval.rs:1879-1899 | The loop pairs each matched expectation with its own equally shaped candidate; true positives are the sum over shapes of the smaller count, matched and missing add up to the expectations, matched and unexpected to the candidates. |
| Matching.GreedyIsMaximum | crates/memzoi-core/src/capture_eval.rs:1879-1899 | No one-to-one matching is larger than what the greedy loop reaches. |
| Matching.MatchingPicksTheSame | crates/memzoi-core/src/capture_eval.rs:1879-1899 | Any one-to-one matching takes the same multiset of shapes from both sides. |
| ContextPack.Collector.Insert | crates/memzoi-core/src/context.rs:247-261 | Each id keeps its first full-text match, else its first candidate, over every sequence of insertions. |
| ContextPack.CollectedStep | crates/memzoi-core/src/context.rs:231-261 | Inserting one candidate keeps that invariant. |
| ContextPack.ScoreIsLexicographic | crates/memzoi-core/src/context.rs:334-406 | Path, then type, then full-text match decide the computed score, whatever the lesser parts, non-finite inputs and any rounding error up to 72. |
| ContextPack.OutranksIsOrder | crates/memzoi-core/src/context.rs:529-538 | The ranking comparison is a strict weak order. |
| ContextPack.DistinctIdsAreOrdered | crates/memzoi-core/src/context.rs:529-538 | Between records with different ids there are no ties. |
| ContextPack.BestByKey | crates/memzoi-core/src/context.rs:499-520 | The survivors of a pass are exactly the hits that are best of their key. |
| ContextPack.RankedList | crates/memzoi-core/src/context.rs:486-497 | Two passes and the sort give a strictly ranked list of exactly the two-pass survivors. |
| ContextPack.RankPack | crates/memzoi-core/src/context.rs:104-116 | From the collected table, in any order of its values, to that list. |
| ContextPack.RankedListIsDetermined | crates/memzoi-core/src/context.rs:486-538 | Every permutation of the hits gives the same ranked list. |
| ContextPack.PackIsDetermined | crates/memzoi-core/src/context.rs:104-116 | The ranked list does not depend on the hash map's iteration order. |
| ContextPack.SurvivorsDiffer | crates/memzoi-core/src/context.rs:486-527 | No two survivors share a content hash, nor a normalised title and body. |
| ContextPack.EveryHitIsRepresented | crates/memzoi-core/src/context.rs:486-520 | Each hit is beaten, over its hash and then over a text, only by better hits, and a survivor ends the chain. |
| ContextPack.OverallBestSurvives | crates/memzoi-core/src/context.rs:486-538 | The overall best hit is never dropped. |
| PromptBudget.SelectForBudget | crates/memzoi-core/src/context.rs:548-568 | The loop splits the hits into the declared selected and omitted positions with their sizes and total. |
| PromptBudget.SelectionMeaning | crates/memzoi-core/src/context.rs:548-568 | Selected and omitted split the list in rank order, the first is always selected, the total is at most the larger of the budget and the first hit, and no omitted hit still fits. |
| PromptBudget.TruncateKeepsLeadingWords | crates/memzoi-core/src/context.rs:707-714 | Truncation keeps exactly the leading words. |
| PromptBudget.JoinedLinesKeepWords | crates/memzoi-core/src/context.rs:645-652 | The words of the joined lines are the words of the lines, in order. |
| PromptBudget.RenderPrompt | crates/memzoi-core/src/context.rs:640-659 | The prompt has at most budget words, is flagged truncated if and only if the full text had more, and holds a leading part of its words. |
| Words.WordsOfJoin | crates/memzoi-core/src/context.rs:703-714 | Splitting a joined list of words gives the words back. |
| Words.WordsOfTwo | crates/memzoi-core/src/context.rs:645-652 | A blank between two texts keeps their words apart. |
| Replacement.RollbackReplacements | crates/memzoi-cli/src/update.rs:1194-1220 | The reverse loop, going on past failures, is the declared rollback. |
| Replacement.RollBackMeaning | crates/memzoi-cli/src/update.rs:1194-1220 | Under every failure schedule a rollback is clean exactly when no operation failed, and then every destination is restored; every recorded state keeps every original at its destination or backup. |
| Replacement.ReplaceOne | crates/memzoi-cli/src/update.rs:1162-1188 | The body of the loop is the declared turn. |
| Replacement.ReplaceFiles | crates/memzoi-cli/src/update.rs:1157-1191 | The transaction is the declared run under the file system's failure schedule. |
| Replacement.TurnMeaning | crates/memzoi-cli/src/update.rs:1162-1188 | One turn installs its file, or settles the transaction as its failure says. |
| Replacement.RunMeaning | crates/memzoi-cli/src/update.rs:1157-1191 | Under every failure schedule: every recorded state keeps every original at its destination or backup, paths outside are untouched, the final files match the outcome, and the outcome is determined by the number of failed operations. |
| Replacement.StaleExitRestoresIff | crates/memzoi-cli/src/update.rs:1163-1170 | The stale-backup exit leaves every destination as it was if and only if no replacement before it changed its file's bytes. |
| Replacement.AtomicIff | crates/memzoi-cli/src/update.rs:1157-1191 | Every failure schedule without a failed rollback leaves all destinations as they were, if and only if no stale backup stands at the start where the replacements in front of it are complete and change a file. |
| Replacement.StaleExitReached | crates/memzoi-cli/src/update.rs:1163-1170 | From every start with such a stale backup, the schedule that fails only its removal runs into that exit. |
| Replacement.StaleExitKeepsNewFile | crates/memzoi-cli/src/update.rs:1163-1170 | A concrete run of the transaction, its third operation failing, ends in that exit with the first destination holding the new bytes. |
| Replacement.ReplaceAndCheck | crates/memzoi-cli/src/update.rs:1082-1096 | A failing version check rolls everything back; success leaves the new bytes at every destination; until the files are replaced for good every recorded state keeps every original, and failures are explained by the fault count. |

## Left out

- ReviewCore.BuildCore: takes the outcome of the live check as a boolean, so that it covers the plans of all extractor profiles; for Markdown plans `MarkdownReview.ReviewMarkdown` makes the check.
- ReviewLineage.BuildCaptureReview: the same boolean; schema names and the plan's own identity hash are not checked again.
- ReviewLiveness.AcceptingRouteableSucceeds: takes distinct candidate ids of a plan of any profile as given; `MarkdownReview.FreshPlanReviewIff` derives them and liveness for Markdown plans, unless the identity hashes collide on the plan's own candidates.
- LivePlan.FreshPlanIsLive: preconditions and summary are functions of the candidates and are not stored in the plan; the plan's identity hash is a free string; a failing origin lookup blocks like a pending one and is not told apart.
- ReviewTheorems.FirstReviewIsAValidPrior: asks that the identity hash renders as a well-formed review id and that the plan has a non-blank id, which the source's own constructors ensure.
- Validate.EvidencePasses: without the other extractor profiles' semantic locations.
- Matching.MatchExpectations: distinct expectation ids are what the corpus validation establishes before the loop.
- Replacement.ReplaceFiles: source, destination and backup paths are pairwise distinct, as the caller builds them; existence checks are read as membership in the file map and do not fail.
- MergedEvents.ForEachMergedEvent: the logs are the ordered rows of the queries; a row whose payload cannot be decoded counts as a visitor failure, and preparing the queries and reading the second log's ids do not fail.
- ContextPack.ScoreIsLexicographic: rounding enters as a bounded error of the score; elsewhere scores are the exact sums.
- Size limits on plans, reviews, evidence, headings and candidates, cancellation and deadlines: single-branch checks.
- Hashes, Unicode lower-casing, RFC 3339 parsing and the detectors of prohibited content other than card numbers are parameters of every theorem (`Env`); exact and conflict keys are the tuples that are hashed.
- The file path of a proposal is a fixed function of its id and is not stored; reason codes and section kinds are constructors instead of strings.
- Section positions are character indexes; evidence spans are converted to UTF-8 byte offsets, where the validator works.
- Text is a sequence of Unicode scalar values; strings are compared by scalar value, which is Rust's byte order for UTF-8.
- The ranking reasons and the formatting of prompt lines.
- The order in which a deduplication pass yields its survivors is left open, since the sort that follows determines the list.
- The branch for a decision that names an unknown candidate cannot be reached after the count check and is not modelled.
- Staging, permissions and the version run of the update, HTTP, archives, git, SQLite and every other I/O.
- The instruction, decision-record and git extractors, search, retention, command line and exporters; threshold tables and baselines of the evaluation.
