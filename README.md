# Agent conversations: a Dafny model of the persona policy engine

The `agent-conversations` plugin lets a chat user ask several personas at
once: `@CTO`, `@DEV`, `@PM` and the others. When a user message names
personas, the plugin records a per-session policy. The policy holds:

- the roles, the first of them being the lead;
- the request's intent;
- a turn target for every role;
- the tool providers the request names;
- whether the request asks for live data or for a deeper investigation.

The plugin then shapes the conversation around that policy:

- it appends a format contract to the user message;
- it adds a system instruction once per session;
- it lets provider tools through only under the policy's rules;
- it normalises the reply into numbered persona turns within the targets;
- it appends the suggestion to use `/mcp` or the notice of providers not yet checked.

The project models all of this in Dafny and proves what each step
promises. It has one module per part of the engine:

| file | module | what it holds |
|---|---|---|
| `wrappers.dfy` | `Wrappers` | `Option` |
| `vocabulary.dfy` | `Vocabulary` | roles, intents, providers, the alias table; the keyword classifiers as the uninterpreted `Keywords` |
| `text.dfy` | `Text` | ASCII character classes, trimming, splitting and joining, numerals |
| `seqs.dfy` | `Seqs` | generic sequence facts: filters, sums, recognised prefixes |
| `personas.dfy` | `Personas` | role normalisation, mention detection, the persona marker and its removal, the prompt-append hook |
| `classify.dfy` | `Classify` | the intent argmax, the provider detection, the provider hints |
| `allocation.dfy` | `Allocation` | the turn budget and the largest-remainder turn targets |
| `transcript.dfy` | `Transcript` | the reply normaliser |
| `notices.dfy` | `Notices` | the format contract, the `/mcp` suggestion, the missing-provider notice, turn numbering |
| `gate.dfy` | `Gate` | the policy record, the tool gate and its invariant |
| `session.dfy` | `Session` | the session registry as a class and the hooks that update it |

The model follows the source's form:

- Expression-only code becomes functions and lemmas.
- Each loop of the source becomes a method proved against a specification.
  Most are proved equal to a specification function: the scoring and
  selection loops of the intent detector, the floor, share and leftover
  passes of the turn allocation, each pass of the normaliser, and the
  turn-number scan. The backward floor repair is specified by where its
  scan stops: every non-lead role listed after that point loses its floor
  turn (`Allocation.Dropped`, `Allocation.Lowered`), and the scan stops at
  the first point where the floors fit the budget.
- The module-level session maps become the fields of the class
  `Session.SessionStore`. Its hook methods state the whole new state and
  keep the invariant `Valid`.
- Message parts that the hooks rewrite in place are an `array<Part>`.

Notes on how the model reads the source:

- Marker roles are not de-duplicated, so a marker may repeat a role. The
  allocation properties are stated for duplicate-free role lists. A
  duplicate is counted twice in the floor sum, so the budget no longer adds
  up for such a list.
- Backend budgets step 8, 10, 10, 12. Marketing gives 10 even for two
  personas. Detected providers follow the order of the provider table, not
  the order of mention. All three are as the code writes them.

## Model

| member | source | states |
|---|---|---|
| Personas.SupportedRoleNamed | plugins/agent-conversations.ts:159-161 | a string is a supported role exactly when it spells that role's canonical name |
| Personas.NormalizeRole | plugins/agent-conversations.ts:163-171 | an alias key (lower-cased input) maps to its role; any role returned is one the input spells, ignoring case |
| Personas.NormalizeRoleSpec | plugins/agent-conversations.ts:163-171 | normalisation yields role `r` if and only if the input spells `r` case-insensitively (its canonical name, or "developer" for DEV); everything else yields nothing |
| Personas.NormalizeRoleIgnoresCase | plugins/agent-conversations.ts:163-171 | inputs equal up to case normalise alike; every canonical name, and its lower-case form, maps to its own role |
| Personas.AliasesSpellTheirRoles | plugins/agent-conversations.ts:28-37 | every entry of the alias table spells the role it maps to |
| Personas.MentionRolesSpec | plugins/agent-conversations.ts:173-184 | mention detection gives distinct roles, exactly those some `@Name` mention normalises to, in the order of their first mention |
| Personas.DetectRolesFromMentions | plugins/agent-conversations.ts:173-184 | the loop over mention matches with its seen-set returns the mention roles |
| Personas.ParseRolesFromMarker | plugins/agent-conversations.ts:186-199 | a marker yields a role list only when it names at least one valid role |
| Personas.DetectRolesFromText | plugins/agent-conversations.ts:201-209 | a marker with a valid role wins; otherwise the mention roles if any; otherwise nothing |
| Personas.MarkerRoundTrip | plugins/agent-conversations.ts:186-199 | for a text without a marker, parsing the marker appended to it gives back exactly the roles it was built from |
| Personas.StripAppendedMarker | plugins/agent-conversations.ts:41 | removing markers from a text with an appended marker gives the original text without its trailing newlines |
| Personas.PromptAppend | plugins/agent-conversations.ts:714-721 | without mentions the input is unchanged; otherwise the marker of the mention roles is appended after a blank line, and that output reads back as the same roles and strips back to the input |
| Allocation.TotalTurnsRange | plugins/agent-conversations.ts:211-243 | the budget is 0 exactly for at most one persona, and otherwise one of 8, 10, 12 or 14 |
| Allocation.TotalTurnsSteps | plugins/agent-conversations.ts:211-243 | the step tables per intent: backend 8/10/10/12, marketing 10 up to three personas then 12, the others 8/10/12/12/14 |
| Allocation.TotalTurnsMonotone | plugins/agent-conversations.ts:211-243 | adding personas never lowers the budget |
| Classify.ScoreIntents | plugins/agent-conversations.ts:246-264 | every scored intent's score is the number of its keyword groups that match |
| Classify.DetectIntent | plugins/agent-conversations.ts:245-276 | the result is `Mixed` exactly when no group matches, otherwise an intent of maximal score, the earliest on ties |
| Classify.IntentUnique | plugins/agent-conversations.ts:266-275 | the intent of a request is determined uniquely by the scores |
| Classify.MentionedProviders | plugins/agent-conversations.ts:278-290 | the providers are exactly those whose pattern matches, each once, in provider-table order |
| Classify.DetectMcpProviders | plugins/agent-conversations.ts:278-290 | the loop with its seen-set returns the mentioned providers |
| Classify.McpHints | plugins/agent-conversations.ts:292-294 | the hints are exactly those of the given providers, at most one per provider-table entry |
| Classify.HintsOfMentioned | plugins/agent-conversations.ts:292-294 | the hints of the detected providers are their hints, one each, in table order |
| Allocation.FloorMins | plugins/agent-conversations.ts:316-324 | every listed role gets its floor: two for the lead, one for a role with positive weight, else zero |
| Allocation.FloorTurns | plugins/agent-conversations.ts:316-329 | the floors and their sum |
| Allocation.RepairFloors | plugins/agent-conversations.ts:331-343 | floors that fit the budget are left alone; otherwise the backward scan stops at the first position where they fit, or runs off the front of the list; every non-lead role listed after the stopping point has lost its floor turn, once however often it is listed; the sum has dropped by the number of such roles |
| Allocation.ScanBack | plugins/agent-conversations.ts:332-342 | the backward `for` loop, which stops once the sum fits, proved against the same specification by its stopping point |
| Allocation.RepairAt | plugins/agent-conversations.ts:333-341 | one position of the scan: the lead, or a role whose floor turn is already gone, lowers nothing; any other role loses its floor turn and the sum drops by one |
| Allocation.RepairOutcome | plugins/agent-conversations.ts:331-343 | the repair keeps the listed roles and the lead's floor; it changes nothing when the floors fit; a sum still over budget leaves every non-lead floor at 0 (only the lead's 2 remain) |
| Allocation.RemainingPositive | plugins/agent-conversations.ts:326-352 | for distinct personas the floors never exceed the budget, so the repair never runs and some turns remain to share |
| Allocation.SetFloors | plugins/agent-conversations.ts:345-347 | listed roles take their floor, other roles keep their target |
| Allocation.EffectiveWeights | plugins/agent-conversations.ts:354-360 | each listed role's effective weight (the lead's plus one) and their sum |
| Allocation.ShareOut | plugins/agent-conversations.ts:367-375 | each role gains the whole part of its proportional share; the fractions record each remainder in list position; `assignedTurns` is the sum of the whole parts |
| Allocation.ShareSplits | plugins/agent-conversations.ts:370-371 | remaining turns times a role's weight is total weight times its whole share plus its remainder, the remainder below the total weight |
| Allocation.LeftoversBound | plugins/agent-conversations.ts:378 | the whole shares never exceed the remaining turns, and fewer leftovers remain than there are personas |
| Allocation.SortFractions | plugins/agent-conversations.ts:377 | the sorted fractions are a permutation of the input, in descending remainder with ties in list order |
| Allocation.HandOutLeftovers | plugins/agent-conversations.ts:378-385 | the leftover loop gives one turn to each of the first `extra` sorted roles |
| Allocation.LeftoversFollowOrder | plugins/agent-conversations.ts:377-385 | a role with no remainder gets no leftover turn, and a role that gets one has a larger remainder than any role that does not, or the same remainder and an earlier position |
| Allocation.BuildTurnTargets | plugins/agent-conversations.ts:296-388 | all zero for at most one persona; for distinct personas the listed targets sum to the budget, unlisted roles get 0, the lead gets at least 2, each role gets its floor plus its whole share plus at most one leftover in remainder order, and a non-lead role with weight 0 gets 0 |
| Notices.EnforceUserContract | plugins/agent-conversations.ts:537-550 | the result holds the contract heading; a message that already has it is unchanged; otherwise the contract block is appended |
| Notices.EnforceIdempotent | plugins/agent-conversations.ts:545-549 | applying the contract twice, whatever the later rules, equals applying it once |
| Notices.PlanAndOmittedPartition | plugins/agent-conversations.ts:423-427 | every persona appears either in the turn plan or among the omitted roles, the omitted ones being exactly those with target 0 |
| Transcript.ParseLine | plugins/agent-conversations.ts:560-581 | a line that is read gives an active role and a non-empty, trimmed, single-line message |
| Transcript.ReadPersonaLines | plugins/agent-conversations.ts:560-582 | the parsing loop returns the recognised lines of the reply |
| Transcript.KeepWithinTargets | plugins/agent-conversations.ts:588-610 | the quota loop with its counts returns the selection specification |
| Transcript.SelectKeepsFirstLines | plugins/agent-conversations.ts:598-610 | each role keeps exactly its first lines, up to its target |
| Transcript.SelectWithinQuota | plugins/agent-conversations.ts:598-610 | lines already within every quota are all kept |
| Transcript.FirstLeadToFront | plugins/agent-conversations.ts:616-621 | the splice that moves the lead's first line to the front |
| Transcript.LastLeadToBack | plugins/agent-conversations.ts:623-635 | the splice that moves the lead's last line to the end |
| Transcript.ReorderKeepsLines | plugins/agent-conversations.ts:616-635 | reordering keeps the same lines, and the lines of every other role in their order |
| Transcript.ReorderKeepsOthers | plugins/agent-conversations.ts:616-635 | the non-lead lines keep their relative order |
| Transcript.ReorderPlacesLead | plugins/agent-conversations.ts:616-635 | with a lead line the last line is the lead's; with two or more the first is too |
| Transcript.ReorderIdempotent | plugins/agent-conversations.ts:616-635 | reordering an already reordered selection changes nothing |
| Transcript.NumberLines | plugins/agent-conversations.ts:637 | the lines are numbered from 1 |
| Transcript.NormalizeThreadOutput | plugins/agent-conversations.ts:552-639 | the normaliser's passes compute `Normalize`: the text itself for at most one persona or when nothing is kept, else the kept lines numbered and joined by blank lines |
| Transcript.KeptFromReply | plugins/agent-conversations.ts:552-614 | every kept line comes from the reply, belongs to an active role with a positive target and has a proper message |
| Transcript.KeptQuota | plugins/agent-conversations.ts:598-635 | each role keeps the lesser of its matched lines and its target, and a non-lead role keeps its first ones |
| Transcript.KeptOrder | plugins/agent-conversations.ts:616-635 | only lead lines move: the other kept lines are in reply order |
| Transcript.KeptLeadPlaced | plugins/agent-conversations.ts:616-635 | a kept lead line ends the thread, and with two or more one opens it |
| Transcript.MatchedRender | plugins/agent-conversations.ts:637-638 | reading back the rendered lines gives exactly those lines |
| Transcript.NormalizeReadsBack | plugins/agent-conversations.ts:552-639 | the normalised reply reads back as the kept lines, within every role's target |
| Transcript.NormalizeIdempotent | plugins/agent-conversations.ts:552-639 | normalising a normalised reply changes nothing |
| Notices.MaxTurnNumber | plugins/agent-conversations.ts:650-656 | the scan over `[n] NAME:` matches returns the largest turn number, 0 when none |
| Notices.MaxTurnAttained | plugins/agent-conversations.ts:650-656 | a positive maximum is the number of some turn in the text |
| Notices.NextTurnAbove | plugins/agent-conversations.ts:658 | the next turn exceeds every turn number in the text |
| Notices.AppendMcpSuggestion | plugins/agent-conversations.ts:641-661 | the loop-based appender computes `McpSuggested`: unchanged when `/mcp` is mentioned, else the suggestion, numbered as the next turn when the reply is a thread |
| Notices.McpSuggestedIdempotent | plugins/agent-conversations.ts:642-647 | the result mentions `/mcp`, so suggesting again changes nothing |
| Notices.McpSuggestedTurn | plugins/agent-conversations.ts:650-660 | a numbered suggestion raises the largest turn number by exactly one |
| Notices.AppendMissingProviderNotice | plugins/agent-conversations.ts:663-690 | the appender computes `ProviderNoticed`: unchanged for no missing provider, else the notice, numbered as the next turn in a thread |
| Notices.MissingNoticeHasNoBracket | plugins/agent-conversations.ts:673-674 | the notice text starts no turn of its own |
| Notices.ProviderNoticedTurn | plugins/agent-conversations.ts:669-689 | a numbered notice is the next turn, and since nothing checks for an earlier notice a second one is appended as the turn after |
| Gate.MissingProviders | plugins/agent-conversations.ts:692-694 | the missing providers are exactly the named ones not yet called |
| Gate.ProviderFromToolName | plugins/agent-conversations.ts:696-710 | a provider is returned only when its prefix starts the tool name; nothing is returned only when no prefix does |
| Gate.ToolNameRoundTrip | plugins/agent-conversations.ts:696-710 | any tool named with a provider's prefix resolves to that provider |
| Gate.Admit | plugins/agent-conversations.ts:866-889 | an admitted call raises the call count and that provider's touches by exactly one, and leaves the rest of the policy unchanged |
| Gate.AdmitWhen | plugins/agent-conversations.ts:866-886 | a call is admitted if and only if its provider is named, it is the only one named or not called yet or all named ones were called, and the limit is not reached |
| Gate.DenialOrder | plugins/agent-conversations.ts:866-886 | which check refuses a call, in the source's order: no provider named, provider not named, providers still missing, call limit (6 with deep investigation, else 2) |
| Gate.FreshPolicyOk | plugins/agent-conversations.ts:765-775 | a freshly installed policy meets the gate invariant |
| Gate.AdmitKeepsOk | plugins/agent-conversations.ts:883-889 | an admitted call keeps the invariant: count within the cap, count equal to the sum of touches, only named providers touched, none touched twice while another is untouched |
| Gate.TouchesWithinCap | plugins/agent-conversations.ts:881-884 | under the invariant no provider is called more often than the cap |
| Session.LastRequest | plugins/agent-conversations.ts:731-744 | the request of the last part that names personas always has at least one role |
| Session.TakeRequest | plugins/agent-conversations.ts:731-744 | the parts loop returns the last request and strips the marker from each part that names personas |
| Session.EnforceContract | plugins/agent-conversations.ts:759-763 | every text part gets the format contract; other parts are unchanged |
| Session.Ingest | plugins/agent-conversations.ts:731-775 | no request means only stripped parts; a request gives the policy its text determines (intent, targets, providers, hints, flags, no calls) that meets the gate invariant, with every part stripped and contracted |
| Session.SessionStore.constructor | plugins/agent-conversations.ts:71-73 | the registry starts empty and valid |
| Session.SessionStore.ChatMessage | plugins/agent-conversations.ts:723-778 | non-user messages change nothing; no request forgets the session; a request installs its policy and roles and clears the instruction mark; other sessions are untouched and the registry stays valid |
| Session.SessionStore.MessagesTransform | plugins/agent-conversations.ts:779-835 | the same for the last user message, except that installing keeps the instruction mark; no user message changes nothing |
| Session.SessionStore.SystemTransform | plugins/agent-conversations.ts:836-853 | the instruction is pushed once for a session with a policy and marks it; an empty id, a marked session or one without a policy changes nothing |
| Session.SessionStore.ToolExecuteBefore | plugins/agent-conversations.ts:854-890 | tools of no provider and sessions without a policy pass unchanged; otherwise a refusal reports its reason and changes nothing, and an admitted call updates only that session's policy |
| Session.SessionStore.TextComplete | plugins/agent-conversations.ts:891-915 | a session without a policy keeps the reply; otherwise the reply is completed by its policy |
| Session.Complete | plugins/agent-conversations.ts:897-914 | the three steps in order: normalise a thread, the missing-provider notice when several providers are named, the `/mcp` suggestion for live data without providers |
| Session.CompletedSuggestsMcp | plugins/agent-conversations.ts:909-912 | a reply to a live-data request naming no provider always ends up mentioning `/mcp` |
| Session.CompletedNoticeIsNextTurn | plugins/agent-conversations.ts:902-907 | in a thread the missing-provider notice is the normalised reply's next turn |
| Session.CompletedStable | plugins/agent-conversations.ts:897-914 | when nothing is appended, completing a completed reply changes nothing |
| Personas.ConstructorMentionAsWritten | plugins/agent-conversations.ts:163-167 | as written, "@Constructor" is a mention whose alias lookup returns the inherited `Object` constructor, a truthy value that is no role |
| Personas.NormalizeRoleAsWritten | plugins/agent-conversations.ts:163-171 | the normaliser as written agrees with `NormalizeRole` wherever it returns a role |

## Left out

- The host wiring is not modelled: the async hook signatures, the `Plugin` type and the shape of the host's message objects. A message is a session id, a user flag and an `array<Part>`.
- The keyword regex tables are the uninterpreted classifiers of `Vocabulary.Keywords`: the intent groups, the provider patterns, the stale-data and deeper-investigation patterns. Only their results enter the model.
- The English prose of the system instruction and the user contract is the `Prose` parameter (functions of the policy). The contract block is modelled only as the heading "Assistant format contract:" plus the rule text. The turn plan and the omitted roles that the prose lists are modelled on their own (`Notices.TurnPlan`, `Notices.OmittedRoles`, with `Notices.PlanAndOmittedPartition`). The `Prose` parameter does not call them, so the model does not state that the instruction the hooks push contains them.
- Allocation.ShareOut: the floating-point share `remaining * w / weightSum` and its fractional part are exact integer division and remainder. Rounding of the float difference, which can split exact ties, is not modelled.
- Allocation.SortFractions: the in-place `Array.prototype.sort` is an insertion sort on a sequence by (remainder descending, position ascending). This is the order a stable sort gives; in-place mutation and the engine's algorithm are not modelled.
- Allocation.BuildTurnTargets: takes the intent as a parameter instead of the source text. The source recomputes the same intent from the same text.
- Allocation.BuildTurnTargets: its fairness contract holds for duplicate-free role lists only. With a repeated marker role the source's sums do not add up, and the model states only that every target exists and that, when there is at most one persona, every target is 0.
- The `roles.length === 0` branches of the hooks are unreachable because a request always has a role; the registry's `Valid` records that every stored policy has a role.
- The `sessionRoles` fallback of the system transform is not modelled: the roles map and the policies map always hold the same sessions (`SessionStore.Valid`).
- Session.SessionStore.ToolExecuteBefore: a refusal returns its `Denial` reason instead of throwing an `Error`, and does not carry the message text.
- Session.SessionStore.ToolExecuteBefore: the in-place update of the policy object is a map update of the session's policy value. Aliasing of that object from elsewhere is not modelled.
- `Number(match[1])` and its `Number.isFinite` test in the turn scan are exact natural numbers: digit runs too long for a double are not modelled.
- Characters are ASCII: case mapping, `trim` and `\s` follow the ASCII definitions only, with no Unicode.
- Concurrency is not modelled: the hooks run one at a time.
- The transport of the system instruction into `output.system` is the returned `pushed` value of `SystemTransform`.

## Findings

| source | as written | input that shows it | evidently intended | confidence | as-written member | corrected member |
|---|---|---|---|---|---|---|
| plugins/agent-conversations.ts:163-167 | the alias lookup `ROLE_ALIASES[lowered]` on a plain object literal is truthy for inherited members, so `normalizeRole` returns the `Object` constructor for "constructor" | the prompt "@Constructor" | only the eight own alias entries and the seven canonical names are roles; anything else yields null | not executed | Personas.ConstructorMentionAsWritten | Personas.NormalizeRoleSpec |
