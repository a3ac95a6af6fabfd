# whispie core, modelled in Dafny

whispie is a workplace-conversation practice app. A user talks to an AI
persona inside a scenario, gets an analysis and a score, and earns XP,
levels and daily streaks. This project models the app's decision logic and
proves properties about it:

- **XP and levels** (`Xp`): the curve, the level search, progress within a level, XP from a score, the bonus chain and level titles.
- **Streaks** (`Streaks`): the daily streak update, the at-risk test and the streak messages.
- **Avatars** (`Avatars`, `AvatarPicker`): the 32-bit string hash, the 30 file names and the default-avatar choice.
- **Community sharing** (`ScenarioShare`, `PersonaShare`): the suggested generic scenario title and persona name, the share button's guard and the trimmed fields that get posted.
- **Behavioural rules** (`QaEditor`): adding, removing and updating one rule of a persona.
- **Voting** (`Vote`): the optimistic vote toggle. It is a class whose fields are the hook's state.
- **Conversation list** (`ConversationList`): swipe-to-delete as a class over the list's state, plus the badge, colour and link of a card.
- **Prompts** (`Prompts`): the system prompt and the analysis prompt built for the language model.

JavaScript's string built-ins (`toLowerCase`, `split`, `join`, `trim`,
`includes`, `padStart`, `String(n)`) are modelled once, in `Text`. `filter`
and `map` are modelled in `Seqs`. The threshold chains of `xpFromScore`,
`levelTitle` and `streakMessage` (`if x >= a … else if x >= b …`) are proved
equal to one table lookup, `Tiers.HighestTier`; the score colour of a
conversation card is a three-way chain stated directly in `ConversationList.ColourOf`.
`Wrappers` holds `Option`, which stands for `null` and `undefined`.

Calendar days are integers chosen by the caller. The clock is a parameter
(`today`). Server responses are parameters too: `Vote.Outcome`, and the
`ok` flag of `ConversationList.ListState.FinishDelete`.

A broken streak keeps `longestStreak` as it was, even when it is 0, and does
not raise it to 1 (`src/lib/gamification/streaks.ts:69-73`).

The doc comment at `src/lib/gamification/xp.ts:4` says level 2 needs 100 XP
and level 3 needs 250. The formula below it gives 50 and 141; the model
follows the formula, and `Xp.XpForFirstLevels` proves those values.

## Model

| member | source | states |
|---|---|---|
| Xp.ISqrt | src/lib/gamification/xp.ts:7 | the result is the integer square root: r² ≤ n < (r+1)² |
| Xp.XpForLevel | src/lib/gamification/xp.ts:5-8 | 0 for every level ≤ 1, including 0 and negatives; above that, the floor of 50·(L−1)^1.5, i.e. the integer root of 2500·(L−1)³ |
| Xp.XpForFirstLevels | src/lib/gamification/xp.ts:4-8 | levels 1 to 4 need 0, 50, 141 and 259 XP, not the 100 and 250 the comment claims |
| Xp.XpGap | src/lib/gamification/xp.ts:5-8 | consecutive thresholds from level 1 up differ by at least 50 |
| Xp.XpStrictlyIncreasing | src/lib/gamification/xp.ts:5-8 | the curve is strictly increasing for levels ≥ 1 |
| Xp.XpMonotone | src/lib/gamification/xp.ts:5-8 | the curve is non-decreasing for levels ≥ 1 |
| Xp.XpAtLeastLinear | src/lib/gamification/xp.ts:5-8 | level L needs at least 50·(L−1) XP, so the level search ends |
| Xp.LevelSearch | src/lib/gamification/xp.ts:11-17 | the search that starts at `level` stops at the first level whose successor's threshold exceeds xp |
| Xp.LevelOf | src/lib/gamification/xp.ts:11-17 | the level is ≥ 1, xp is below the next level's threshold, and for xp ≥ 0 the level's own threshold is reached |
| Xp.LevelOfUnique | src/lib/gamification/xp.ts:11-17 | every level that brackets xp this way is the level found, so the level is the largest one reached |
| Xp.LevelOfThreshold | src/lib/gamification/xp.ts:11-17 | `levelFromXp(xpForLevel(L)) == L` for L ≥ 1 |
| Xp.LevelOfMonotone | src/lib/gamification/xp.ts:11-17 | more XP never gives a lower level |
| Xp.LevelFromXp | src/lib/gamification/xp.ts:11-17 | the `while` loop computes exactly `LevelOf(xp)` |
| Xp.LevelProgress | src/lib/gamification/xp.ts:20-28 | the percentage is the floor of 100·(xp − current)/(next − current); for xp ≥ 0 it lies in [0, 99], so the `=== 100` branch at line 25 is never taken |
| Xp.ProgressInBand | src/lib/gamification/xp.ts:23-27 | the floor percentage of the band when it is non-empty, and a value below 100 when xp lies inside the band |
| Xp.Percent | src/lib/gamification/xp.ts:27 | `Math.floor(part / whole * 100)` computed exactly: p·whole ≤ 100·part < (p+1)·whole |
| Xp.XpFromScore | src/lib/gamification/xp.ts:31-43 | the result is 10 to 50 in steps of 10, and it is 10 exactly when score < 50 |
| Xp.XpFromScoreIsTableLookup | src/lib/gamification/xp.ts:38-42 | the result is the step table ≥90→50, ≥80→40, ≥70→30, ≥50→20, else 10, with inclusive bounds |
| Xp.XpFromScoreMonotone | src/lib/gamification/xp.ts:38-42 | a higher score never gives less XP |
| Xp.FirstConversationBonus | src/lib/gamification/xp.ts:57-59 | adds exactly 25 for the first conversation and nothing otherwise |
| Xp.StreakBonus | src/lib/gamification/xp.ts:62-65 | no change for a streak ≤ 0; otherwise the floor of total·(1 + 0.05·min(days, 10)), so at most +50% |
| Xp.DifficultyBonus | src/lib/gamification/xp.ts:68-72 | the floor of ×1.5 when hard and of ×1.25 when medium, unchanged otherwise; never lowers a non-negative total |
| Xp.TotalXp | src/lib/gamification/xp.ts:46-75 | the three bonuses applied in order; the total is never below a non-negative base |
| Xp.CalculateTotalXp | src/lib/gamification/xp.ts:46-75 | the step-by-step reassignment equals `TotalXp`, and the result is ≥ a non-negative base |
| Xp.TotalXpComposition | src/lib/gamification/xp.ts:54-74 | (50, first, 10 days, hard) gives 168, (50, easy) gives 50, and (10, first) gives 35 |
| Xp.LevelTitle | src/lib/gamification/xp.ts:78-87 | 'Beginner' exactly below level 5 |
| Xp.LevelTitleIsTableLookup | src/lib/gamification/xp.ts:78-87 | the title of the highest threshold the level reaches |
| Tiers.HighestTier | src/lib/gamification/xp.ts:38-42 | the first table entry whose bound is reached, else the fallback |
| Tiers.HighestTierIsMaximal | src/lib/gamification/streaks.ts:77-84 | on a descending table, the chosen bound is the largest one not above x |
| Streaks.IsToday | src/lib/gamification/streaks.ts:4-11 | `isToday` as day arithmetic: the day is the caller's `today` |
| Streaks.IsYesterday | src/lib/gamification/streaks.ts:14-22 | `isYesterday` as day arithmetic: yesterday iff the next day is today, and yesterday is never today |
| Streaks.UpdateStreak | src/lib/gamification/streaks.ts:25-74 | the four cases exactly: no date (1, max(longest, 1), true); today (unchanged, false); yesterday (current+1, max(longest, current+1), true); any other day, including a future one (1, longest, true). The longest streak never drops, and increased is false only on the same-day path |
| Streaks.UpdateStreakKeepsConsistent | src/lib/gamification/streaks.ts:37-73 | 0 ≤ current ≤ longest, with current ≥ 1 once a day is recorded, is preserved |
| Streaks.UpdateStreakSameDayIdempotent | src/lib/gamification/streaks.ts:49-56 | a second update on the same day changes nothing |
| Streaks.AtRiskStreakContinues | src/lib/gamification/streaks.ts:59-66 | a streak at risk grows by one when the user practises today |
| Streaks.IsStreakAtRisk | src/lib/gamification/streaks.ts:87-92 | true exactly when the last practice was yesterday; false for null |
| Streaks.StreakMessage | src/lib/gamification/streaks.ts:77-84 | 'Start your streak today!' exactly when the streak is < 1 |
| Streaks.StreakMessageIsTableLookup | src/lib/gamification/streaks.ts:77-84 | the message of the highest threshold among 30/14/7/3/1 that the streak reaches |
| Streaks.StreakResetExample | src/lib/gamification/streaks.ts:69-73 | a broken streak restarts at 1 and keeps the longest streak |
| Avatars.ToInt32 | src/lib/utils.ts:16 | the signed 32-bit value congruent to x modulo 2³² (`hash & hash`) |
| Avatars.PolyHash | src/lib/utils.ts:11-17 | the reference definition of the hash, Σ cᵢ·31^(n−1−i) without reduction; it is non-negative and at least the last character's code |
| Avatars.HashStep | src/lib/utils.ts:14-16 | one step of the loop stays a signed 32-bit value |
| Avatars.HashFold | src/lib/utils.ts:11-17 | the accumulator is a signed 32-bit value after every character |
| Avatars.HashFoldIsPolyHash | src/lib/utils.ts:11-17 | the loop computes the polynomial hash Σ 31^k·c, reduced to signed 32 bits |
| Avatars.HashString | src/lib/utils.ts:11-19 | the `for` loop returns the absolute value of the folded hash, which lies in [0, 2³¹] |
| Avatars.StringHash | src/lib/utils.ts:11-19 | the hash is non-negative and at most 2³¹ |
| Avatars.AvatarFileName | src/lib/utils.ts:9 | `avatar-` + a zero-padded numeral of at least two digits + the extension |
| Avatars.AvatarOptions | src/lib/utils.ts:9 | exactly 30 entries, entry i being `avatar-NN` plus the extension |
| Avatars.PaddedTwoDigits | src/lib/utils.ts:9 | `String(n).padStart(2, '0')` is the two decimal digits of n for 1 ≤ n < 100 |
| Avatars.AvatarFileNameDigits | src/lib/utils.ts:9 | entry i is `avatar-` followed by the two digits of i+1 and the extension |
| Avatars.AvatarUrlDigits | src/lib/utils.ts:9 | the URL of entry i is `/avatars/avatar-NN` plus the extension, with NN = i+1 |
| Avatars.AvatarFileNamesDistinct | src/lib/utils.ts:9 | no two of the 30 file names are equal |
| Avatars.AvatarIndex | src/lib/utils.ts:28-30 | the chosen index is in [0, 30) |
| Avatars.GetPersonaAvatarUrl | src/lib/utils.ts:21-31 | a truthy existing URL is returned unchanged; null or '' falls through to `/avatars/` + the option at the name's hash |
| Avatars.FirstAvatarFileName | src/lib/utils.ts:9 | the first option is `avatar-01` plus the extension |
| Avatars.EmptyNameAvatar | src/lib/utils.ts:11-31 | the empty name hashes to 0 and gives `/avatars/avatar-01.webp` |
| AvatarPicker.AvatarOptions | src/components/personas/avatar-picker.tsx:7 | exactly 30 `.svg` options |
| AvatarPicker.AvatarOptionsEnds | src/components/personas/avatar-picker.tsx:7 | the options run from `avatar-01.svg` to `avatar-30.svg` |
| AvatarPicker.AvatarOptionsDistinct | src/components/personas/avatar-picker.tsx:7 | the 30 options are pairwise distinct |
| AvatarPicker.GetDefaultAvatar | src/components/personas/avatar-picker.tsx:19-23 | always `/avatars/` + one entry of the options, at the name's hash index |
| AvatarPicker.SelectedAvatar | src/components/personas/avatar-picker.tsx:33-34 | `value` when truthy, else the hash default |
| AvatarPicker.ReportedDefault | src/components/personas/avatar-picker.tsx:36-39 | `onChange` receives a value exactly when no value is set and a name is, and that value is the default |
| AvatarPicker.SameAvatarAsFallback | src/components/personas/avatar-picker.tsx:9-23 | the picker and `getPersonaAvatarUrl` pick the same number for a name; only the extension differs (.svg vs .webp) |
| AvatarPicker.EmptyNameSelectsFirst | src/components/personas/avatar-picker.tsx:9-34 | with no value, the empty name selects `/avatars/avatar-01.svg` |
| ScenarioShare.GenericWords | src/components/scenarios/share-dialog.tsx:17-24 | every survivor passes the filter, has no space and is a space-separated word of the lower-cased title |
| ScenarioShare.GenericWordsComplete | src/components/scenarios/share-dialog.tsx:18-24 | every word that passes the filter survives, so a word survives iff it is longer than 2 and contains none of '@', '.com', 'inc', 'corp' |
| ScenarioShare.GenericWordsInOrder | src/components/scenarios/share-dialog.tsx:18-24 | the survivors keep their relative order |
| ScenarioShare.GenericWordsAreLower | src/components/scenarios/share-dialog.tsx:17 | the survivors have no upper-case letter |
| ScenarioShare.SuggestGenericTitle | src/components/scenarios/share-dialog.tsx:15-33 | with no survivor, exactly `category + " Challenge"`; otherwise splitting the result on spaces gives back the capitalised survivors |
| ScenarioShare.SuggestionWordsAreSurvivors | src/components/scenarios/share-dialog.tsx:26-30 | lower-casing the suggested words gives back the survivors: only first letters were changed |
| ScenarioShare.ShareEnabled | src/components/scenarios/share-dialog.tsx:156 | the negation of `disabled`: confirmed, trimmed title and description non-empty, not sharing; so both raw fields are non-empty |
| ScenarioShare.ShareRequest | src/components/scenarios/share-dialog.tsx:43-57 | no request unless confirmed; otherwise the trimmed title, description and context |
| ScenarioShare.ShareEnabledMeaning | src/components/scenarios/share-dialog.tsx:156 | the button is enabled iff confirmed, not sharing, and both title and description have a non-whitespace character |
| ScenarioShare.EnabledShareSendsNonBlank | src/components/scenarios/share-dialog.tsx:53-55 | a share from the enabled button posts a title and description that neither are empty nor start with whitespace |
| PersonaShare.TypeLabel | src/components/personas/share-dialog.tsx:16-25 | a label from the table for a known first tag; 'Contact' for a missing, empty or unknown tag |
| PersonaShare.SuggestGenericName | src/components/personas/share-dialog.tsx:26-30 | "The " + capitalised first trait + " " + label, or "The Difficult " + label when there is no first trait or it is empty |
| PersonaShare.OnlyFirstEntriesMatter | src/components/personas/share-dialog.tsx:24-26 | only the first tag and the first trait are consulted |
| PersonaShare.SuggestionShape | src/components/personas/share-dialog.tsx:25-30 | every suggestion reads "The <adjective> <label>" with a label from the table |
| PersonaShare.SuggestedNameIsNotBlank | src/components/personas/share-dialog.tsx:34 | the suggested name alone never disables the button |
| PersonaShare.ShareEnabled | src/components/personas/share-dialog.tsx:150 | the negation of `disabled`: confirmed, trimmed name and title non-empty, not sharing; so both raw fields are non-empty |
| PersonaShare.ShareRequest | src/components/personas/share-dialog.tsx:41-55 | no request unless confirmed; otherwise the trimmed name, title and description |
| PersonaShare.ShareEnabledMeaning | src/components/personas/share-dialog.tsx:150 | enabled iff confirmed, not sharing, and both name and title have a non-whitespace character; the description is not required |
| QaEditor.WithField | src/components/personas/qa-editor.tsx:33 | `{ ...qa, [field]: value }` sets that field and keeps the others |
| QaEditor.WithFieldOwnValue | src/components/personas/qa-editor.tsx:33 | writing back a field's own value changes nothing |
| QaEditor.AddRule | src/components/personas/qa-editor.tsx:23-25 | the old list plus one rule `{'', '', 'custom'}` at the end |
| QaEditor.KeepOtherPositions | src/components/personas/qa-editor.tsx:28 | the filter by position drops exactly the element at the index, or nothing for an index out of range |
| QaEditor.RemoveRule | src/components/personas/qa-editor.tsx:27-29 | for an index in range, drops exactly that element, keeps the order of the rest and shortens the list by one; otherwise returns an equal list |
| QaEditor.RemoveUndoesAdd | src/components/personas/qa-editor.tsx:23-29 | removing the rule just added gives back the old list |
| QaEditor.UpdateRule | src/components/personas/qa-editor.tsx:31-36 | keeps the length, sets the field of the indexed rule, and leaves every other rule and field unchanged |
| QaEditor.UpdateOutOfRange | src/components/personas/qa-editor.tsx:31-36 | an index out of range returns an equal list |
| QaEditor.UpdateLastWins | src/components/personas/qa-editor.tsx:31-36 | two updates of the same field of the same rule: the last one wins |
| Vote.VoteState.constructor | src/hooks/use-vote.ts:13-15 | starts with the initial flag and count, not loading |
| Vote.VoteState.BeginToggle | src/hooks/use-vote.ts:18-25 | while loading nothing changes; otherwise flips the flag, moves the count by −1 if it was voted and else by +1, sets loading, and remembers the old values |
| Vote.VoteState.FinishToggle | src/hooks/use-vote.ts:34-44 | success takes the server's flag and keeps the optimistic count; failure restores both remembered values; loading ends either way |
| Vote.VoteState.ToggleVote | src/hooks/use-vote.ts:17-45 | a whole toggle: a no-op while loading; a failure changes nothing; a success takes the server's flag with the optimistic count, which is consistent with that flag exactly when the server agrees with the flip |
| ConversationList.RemoveById | src/components/dashboard/conversation-list.tsx:50 | keeps exactly the items with a different id |
| ConversationList.RemoveByIdKeepsOrder | src/components/dashboard/conversation-list.tsx:50 | the kept items stay in their order |
| ConversationList.RemoveAbsentId | src/components/dashboard/conversation-list.tsx:50 | an absent id leaves the list equal |
| ConversationList.RemoveByIdEmpties | src/components/dashboard/conversation-list.tsx:50 | the filtered list is empty iff every item carries the deleted id |
| ConversationList.RemoveByIdIdempotent | src/components/dashboard/conversation-list.tsx:50 | deleting the same id twice is the same as once |
| ConversationList.Score | src/components/dashboard/conversation-list.tsx:79 | the first analysis's score, when there is one |
| ConversationList.ColourOf | src/components/dashboard/conversation-list.tsx:136-137 | the primary colour iff the score is ≥ 80, yellow iff it is in [60, 80), orange iff it is < 60 |
| ConversationList.ColourMonotone | src/components/dashboard/conversation-list.tsx:136-137 | a higher score never gets a lower colour |
| ConversationList.BadgeOf | src/components/dashboard/conversation-list.tsx:130-145 | 'In Progress' iff the status is 'active'; otherwise the score badge iff the score is present and non-zero, with its colour; else 'Completed' |
| ConversationList.UnscoredIsCompleted | src/components/dashboard/conversation-list.tsx:130-145 | a finished conversation with no score reads 'Completed' |
| ConversationList.LinkTarget | src/components/dashboard/conversation-list.tsx:105 | `/analysis/id` iff the status is 'completed', else `/chat/id` |
| ConversationList.LinkTargetRecoversId | src/components/dashboard/conversation-list.tsx:105 | the id is exactly what follows the route prefix |
| ConversationList.OrElse | src/components/dashboard/conversation-list.tsx:116-127 | `s \|\| fallback` |
| ConversationList.CategoryText | src/components/dashboard/conversation-list.tsx:116 | the scenario's category when present and non-empty, else 'Practice' |
| ConversationList.TitleText | src/components/dashboard/conversation-list.tsx:123 | the scenario's title when present and non-empty, else 'Conversation' |
| ConversationList.PersonaText | src/components/dashboard/conversation-list.tsx:127 | the persona's name when present and non-empty, else 'AI' |
| ConversationList.CardTextNeverBlank | src/components/dashboard/conversation-list.tsx:116-127 | with the fallbacks 'Practice', 'Conversation' and 'AI', no card text is empty |
| ConversationList.ListState.constructor | src/components/dashboard/conversation-list.tsx:18-23 | the list given; nothing swiped, nothing deleting, no touch recorded |
| ConversationList.ListState.ShowsEmptyState | src/components/dashboard/conversation-list.tsx:60 | the empty-state card shows exactly when no item is left; `FinishDelete` states when a delete makes it appear |
| ConversationList.ListState.TouchStart | src/components/dashboard/conversation-list.tsx:25-29 | start = current = x and the card's id is recorded; nothing else changes |
| ConversationList.ListState.TouchMove | src/components/dashboard/conversation-list.tsx:31-33 | only the current position changes |
| ConversationList.ListState.TouchEnd | src/components/dashboard/conversation-list.tsx:35-43 | with diff = start − current: diff > 80 and a recorded id reveals that card; otherwise diff < −40 hides any revealed card; otherwise no change; the recorded id is always cleared |
| ConversationList.ListState.CardClick | src/components/dashboard/conversation-list.tsx:107-112 | the link is followed iff the card is not revealed; a click on a revealed card hides it |
| ConversationList.ListState.StartDelete | src/components/dashboard/conversation-list.tsx:46 | the card is marked as deleting; nothing else changes |
| ConversationList.ListState.FinishDelete | src/components/dashboard/conversation-list.tsx:47-57 | success removes exactly the items with that id and hides the revealed card; failure leaves the list and the revealed card alone; deleting ends either way |
| Prompts.BuildSystemPrompt | src/lib/gemini/prompts.ts:3-40 | the character section, the rules section and the objectives section, in that order; what it contains is stated by the `SystemPromptMentions*` lemmas |
| Prompts.BuildAnalysisPrompt | src/lib/gemini/prompts.ts:42-90 | the scenario header, the objectives, the transcript and the required JSON block, in that order; what it contains is stated by `AnalysisPromptMentions` and `SystemMessagesDoNotChangeAnalysis` |
| Prompts.NumberedObjective | src/lib/gemini/prompts.ts:6 | `${i + 1}. ${obj}` |
| Prompts.ObjectiveLines | src/lib/gemini/prompts.ts:5-7 | one line per objective, numbered from 1, in order |
| Prompts.ObjectivesList | src/lib/gemini/prompts.ts:5-7 | the numbered lines joined by '\n'; empty for no objectives |
| Prompts.ObjectiveNumbering | src/lib/gemini/prompts.ts:6 | reading back the digits before ". " gives i + 1, and the rest is the objective |
| Prompts.ObjectivesListLines | src/lib/gemini/prompts.ts:5-7 | splitting the list on '\n' gives back the numbered lines, when no objective holds a newline |
| Prompts.TraitsDescription | src/lib/gemini/prompts.ts:4 | empty for no traits, the trait itself for one |
| Prompts.TraitsInOrder | src/lib/gemini/prompts.ts:4 | one more trait appends ", " and that trait, so the traits appear in order |
| Prompts.TraitsAllMentioned | src/lib/gemini/prompts.ts:4 | every trait occurs in the description |
| Prompts.RoleLabel | src/lib/gemini/prompts.ts:48 | 'User' iff the role is 'user', else 'AI Persona' |
| Prompts.Entry | src/lib/gemini/prompts.ts:48 | label + ": " + content |
| Prompts.TranscriptEntries | src/lib/gemini/prompts.ts:46-48 | one entry per non-system message, so never more entries than messages |
| Prompts.TranscriptAppend | src/lib/gemini/prompts.ts:46-48 | a system message adds no entry; any other message adds its entry at the end |
| Prompts.TranscriptFromShownMessages | src/lib/gemini/prompts.ts:46-48 | the entries are those of the non-system messages, in order |
| Prompts.ConversationText | src/lib/gemini/prompts.ts:46-49 | empty when every message is a system message |
| Prompts.ConversationTextAppend | src/lib/gemini/prompts.ts:46-49 | a new shown message is appended after "\n\n" |
| Prompts.RulesHeaderIsOneLine | src/lib/gemini/prompts.ts:30 | the rules header holds no newline |
| Prompts.RuleLine | src/lib/gemini/prompts.ts:31 | "- When " + trigger + ": " + response |
| Prompts.RuleLines | src/lib/gemini/prompts.ts:31 | one line per rule, in order |
| Prompts.RulesSection | src/lib/gemini/prompts.ts:30-33 | the section is empty iff there are no rules |
| Prompts.RulesSectionLines | src/lib/gemini/prompts.ts:30-33 | line by line, the section is the header, one line per rule in order, and two empty lines |
| Prompts.SystemPromptMentionsTraits | src/lib/gemini/prompts.ts:9-14 | the system prompt contains the traits description |
| Prompts.SystemPromptMentionsObjectives | src/lib/gemini/prompts.ts:33-35 | the system prompt contains the numbered objectives |
| Prompts.SystemPromptMentionsRules | src/lib/gemini/prompts.ts:30-33 | with rules, the system prompt contains the rules section |
| Prompts.AnalysisPromptMentions | src/lib/gemini/prompts.ts:55-65 | the analysis prompt contains the numbered objectives and the transcript |
| Prompts.SystemMessagesDoNotChangeAnalysis | src/lib/gemini/prompts.ts:46-47 | a trailing system message leaves the analysis prompt unchanged |
| Seqs.Filter | src/components/scenarios/share-dialog.tsx:18 | `filter`: every kept element passes and comes from the input, every passing element is kept, never more elements than given (multiplicities in `Seqs.FilterCounts`) |
| Seqs.FilterCounts | src/components/scenarios/share-dialog.tsx:18 | each passing value is kept exactly as often as it occurs and every other value never, so `filter` keeps exactly the passing elements |
| Seqs.FilterIsSubsequence | src/components/scenarios/share-dialog.tsx:18 | the kept elements are a subsequence, in order |
| Seqs.FilterAppend | src/lib/gemini/prompts.ts:47 | filtering distributes over concatenation |
| Seqs.Map | src/components/scenarios/share-dialog.tsx:27 | `map`: same length, element-wise image |
| Text.ToLower | src/components/scenarios/share-dialog.tsx:17 | ASCII `toLowerCase`, character by character |
| Text.Capitalize | src/components/scenarios/share-dialog.tsx:28 | `charAt(0).toUpperCase() + slice(1)` |
| Text.LowerUndoesCapitalize | src/components/scenarios/share-dialog.tsx:28 | lower-casing a capitalised lower-case word gives it back |
| Text.Join | src/lib/gemini/prompts.ts:4 | `join`: empty for no parts, the part itself for one part |
| Text.Contains | src/components/scenarios/share-dialog.tsx:19-22 | `includes`, scanning from the start |
| Text.ContainsIsSlice | src/components/scenarios/share-dialog.tsx:19-22 | `includes` holds iff the text occurs as a slice of the string at some index |
| Text.Split | src/components/scenarios/share-dialog.tsx:17 | `split`: at least one part, no part holds the separator, and joining the parts gives back the text |
| Text.SplitJoin | src/components/scenarios/share-dialog.tsx:29 | splitting a join of separator-free parts gives back the parts |
| Text.JoinContainsPart | src/lib/gemini/prompts.ts:4 | every part occurs in the join |
| Text.Trim | src/components/scenarios/share-dialog.tsx:53-55 | `trim`: never longer than the input, and a non-empty result neither starts nor ends with whitespace |
| Text.TrimIsSlice | src/components/scenarios/share-dialog.tsx:53-55 | `trim` gives a slice of the text that neither starts nor ends with whitespace |
| Text.TrimEmpty | src/components/scenarios/share-dialog.tsx:156 | the trimmed text is empty iff every character is whitespace |
| Text.DecimalRoundTrip | src/lib/utils.ts:9 | `String(n)` reads back as n |
| Text.PadStart | src/lib/utils.ts:9 | `padStart`: the length is max(len, \|s\|), s at the end, pad characters before it |

## Left out

- Floating point: the model computes `Math.pow(level - 1, 1.5) * 50`, `streakDays * 0.05` and `(a / b) * 100` exactly. The float result can differ by one near an exact boundary (for example, `29 / 100 * 100` is 28.999… in JavaScript).
- Xp.XpFromScore: the score is an integer. The caller passes a number parsed from the language model's answer, which may be fractional; because every bound is an integer, the source's result for such a score is `XpFromScore(floor(score))`.
- Xp.StreakBonus: `streakDays` is an integer in the model; a fractional number of days has no counterpart.
- Xp.LevelProgress: xp is an integer; negative xp is modelled but only the xp ≥ 0 range gets the [0, 99] bound, as in the source.
- Dates: `isToday`/`isYesterday` are day arithmetic on integers; `new Date`, `setHours`, time zones and the clock are not modelled. `today` is a parameter.
- Avatars.HashStep: each character counts as one UTF-16 code unit (`c as int`). Characters outside the Basic Multilingual Plane, which are two units in JavaScript, are not modelled.
- PersonaShare.TypeLabel: the lookup `tagLabels[tag]` would also find inherited object keys such as `constructor`; the model knows only the six table keys.
- Text.ToLower: only ASCII letters change case. `Text.Trim` removes only ASCII whitespace, not the other Unicode spaces (such as U+00A0) that JavaScript's `trim` also removes.
- The share dialogs' `isSharing` and `error` state and the `onShared`/`onClose` callbacks: only the guard and the posted fields are modelled.
- Network: every `fetch` is replaced by its outcome, given as a parameter (`Vote.Outcome`, the `ok` flag of `FinishDelete`).
- Vote.VoteState.ToggleVote: models a call that ends before the next one starts. The hook's stale-closure behaviour when calls overlap is not modelled.
- ConversationList.ListState.FinishDelete: a non-ok response and a thrown error are both `ok == false`. The `window.confirm` prompt is not modelled; a declined prompt is a delete that never starts.
- ConversationList.ListState.CardClick: reads the revealed card from the current state, whereas the component captures it when rendering.
- Touch positions are reals, with no pixel rounding.
- Prompts: the full system prompt is never established as equal to one literal. The model proves which parts it contains and how the rules, objectives and transcript are laid out.
- JSX rendering, CSS classes, `useEffect` wiring, analytics and the API route handlers are not modelled.
