# SongStatus template engine, in Dafny

SongStatus is a Beat Saber plugin. When a level starts, it fills a text
template with facts about the song, such as `{songName}`, `{difficulty}`,
`{star}` and `{[modifiers]}`. It then writes the result to a status file
for streaming overlays. This project models the plugin's substitution
engine from `SongStatus/Plugin.cs` and proves properties of it:

- `Keywords.ReplaceKeyword` is the split-based matcher, modelled as written. The template is cut once at every `{` and `}`. A call for one keyword works on the pieces that contain the keyword:
  - with an empty value, it deletes `{piece}` for each such piece;
  - otherwise it strips the braces of those pieces and then replaces the keyword everywhere in the text.
- `Render.GameCoreLoaded` is the render fold. The keywords run in a fixed order against the pieces of the original template. `star` runs only while the text still holds a literal `{star}`.
- `StarTable.GetStarDifficulty` matches the star table line by line, over lines already read from the file.
- `Modifiers.BuildModifiersList` builds the modifier list: fixed labels in a fixed order, trimmed of spaces and commas.
- `Strings` holds the ordinal .NET string operations the plugin uses: `Contains`, `Replace`, `Split(params char[])` and `Trim(params char[])`.

The modules are `Wrappers`, `Strings`, `Keywords`, `StarTable`, `Modifiers`
and `Render`, one file each. The stateful code is written as methods with
loops or straight-line reassignment, as in the plugin. Each method is proved
equal to a pure function (`Substitute`, `Fold`/`RenderText`, `StarRating`,
`ModifiersText`), and the lemmas state the properties about those functions.

Notes on reading the code:

- The matcher has no notion of a placeholder span. A template without braces that mentions a keyword as plain text is rewritten too (`Keywords.BraceFreeTemplate`).
- With a non-empty value, decoration inside the braces stays: `{[modifiers]}` with `Pro Mode` becomes `[Pro Mode]` (`Keywords.DecoratedSpan`, and `Keywords.EmbeddedDecoratedSpan` for a span inside a line).
- The two `foreach` loops of `ReplaceKeyword` differ only in what replaces `{piece}`. Both are the one loop `Keywords.RewriteMatching`, whose flag says whether the piece or nothing is put back.
- The C# code is one `async` method. Here, its twelve straight-line `ReplaceKeyword` calls are grouped into two methods, one before and one after the `{star}` guard (`Render.ReplaceSongKeywords`, `Render.ReplaceSettingKeywords`). `GameCoreLoaded` calls both, in source order.
- The source passes `null` or `""` as "no value" and branches on `string.IsNullOrEmpty`. Both are the empty sequence here.
- `ReplaceKeyword` requires a non-empty keyword. Every call site passes a non-empty literal, and .NET `String.Replace` rejects an empty pattern.

## Model

| member | source | states |
|---|---|---|
| Strings.Contains | SongStatus/Plugin.cs:151 | ordinal `String.Contains`, defined as: the pattern is a prefix of the text or of some suffix of it |
| Strings.ContainsIffOccurs | SongStatus/Plugin.cs:253-254 | `Contains(s, sub)` holds exactly when `sub` occurs at some index of `s`, in both directions |
| Strings.ContainedCharsOccur | SongStatus/Plugin.cs:253-254 | every character of a contained substring is a character of the text |
| Strings.ContainsEmbedded | SongStatus/Plugin.cs:253-254 | a text `a + sub + b` contains `sub` |
| Strings.ContainsTransitive | SongStatus/Plugin.cs:253-254 | whatever a substring of `s` contains, `s` contains |
| Strings.Replace | SongStatus/Plugin.cs:261 | left-to-right, non-overlapping ordinal replace-all; a text that does not contain the pattern comes back unchanged |
| Strings.ReplaceIdentity | SongStatus/Plugin.cs:272 | a general property of the ordinal `Replace` used here: replacing a pattern by itself gives back the text, for every text |
| Strings.ReplaceWhole | SongStatus/Plugin.cs:261 | a text equal to the pattern becomes the replacement |
| Strings.ReplaceAtHead | SongStatus/Plugin.cs:272 | an occurrence at the start is replaced and the scan resumes right after it |
| Strings.ReplaceSkipsPrefix | SongStatus/Plugin.cs:272 | a prefix none of whose characters starts the pattern is copied unchanged |
| Strings.ReplaceSingleOccurrence | SongStatus/Plugin.cs:272 | a single occurrence embedded as `a + pat + b` is replaced exactly there, giving `a + rep + b` |
| Strings.Split | SongStatus/Plugin.cs:143 | `Split` keeps empty pieces: there is one more piece than there are delimiters, and no piece holds a delimiter |
| Strings.SplitRoundTrip | SongStatus/Plugin.cs:143 | putting the delimiters back between the pieces rebuilds the text |
| Strings.SplitFirstIsPrefix | SongStatus/Plugin.cs:143 | the first piece is a prefix of the text |
| Strings.SplitPieceOccurs | SongStatus/Plugin.cs:143 | every piece is a substring of the text, at the index returned |
| Strings.SplitDelimiterFree | SongStatus/Plugin.cs:143 | a text without delimiters splits into itself alone |
| Strings.SplitAtDelimiter | SongStatus/Plugin.cs:235 | a delimiter-free stretch up to a delimiter is the first piece, and splitting resumes after the delimiter |
| Strings.LeadCount | SongStatus/Plugin.cs:126 | counts the characters of the longest leading run inside the trim set |
| Strings.TrailCount | SongStatus/Plugin.cs:126 | counts the characters of the longest trailing run inside the trim set |
| Strings.Trim | SongStatus/Plugin.cs:126 | the result neither starts nor ends with a trimmed character; it is empty iff every character is trimmed; otherwise it is the untouched middle of the text, and everything cut is in the trim set |
| Strings.TrimBounds | SongStatus/Plugin.cs:126 | characters outside the trim set lie inside the kept middle, so no such character is cut |
| Strings.TrimOccurrence | SongStatus/Plugin.cs:126 | an occurrence that starts and ends outside the trim set is kept, shifted left by the number of leading characters cut |
| Strings.TrimKeepsInterior | SongStatus/Plugin.cs:126 | a stretch that starts and ends outside the trim set survives trimming |
| Keywords.Braced | SongStatus/Plugin.cs:261 | `"{" + piece + "}"` has two more characters, with `{` first and `}` last |
| Keywords.AnyContains | SongStatus/Plugin.cs:253 | LINQ `Any`, defined as: some piece contains the keyword |
| Keywords.Containing | SongStatus/Plugin.cs:254 | LINQ `Where`, keeping order and repeats: no more pieces than the input, and empty exactly when no piece contains the keyword, so the `Any` test at line 253 is the test that the selection is non-empty |
| Keywords.ContainingMembers | SongStatus/Plugin.cs:254 | the pieces `Where` selects are exactly the pieces that contain the keyword, in both directions |
| Keywords.ContainingExtend | SongStatus/Plugin.cs:254 | proof helper for the loop of `RewriteMatching`, unfolding `Containing` by one step: one more piece joins the selection exactly when it contains the keyword, after those already selected |
| Keywords.RewriteBracedExtend | SongStatus/Plugin.cs:259-262 | proof helper for the loop of `RewriteMatching`, unfolding `RewriteBraced` by one step: rewriting one more selected piece is one more `Replace` of it between braces, applied after the earlier ones |
| Keywords.RewriteBraced | SongStatus/Plugin.cs:259-270 | the two `foreach` loops, defined as: one `Replace` of `{p}` per selected piece, in selection order, by `p` when unwrapping and by nothing when deleting |
| Keywords.Substitute | SongStatus/Plugin.cs:251-275 | the text one call returns, defined as: unchanged when no piece contains the keyword; else the matching spans deleted for an empty value; else unwrapped, then the keyword replaced everywhere |
| Keywords.ReplaceKeyword | SongStatus/Plugin.cs:251-275 | the text is unchanged when no piece contains the keyword; with an empty value each matching `{piece}` is deleted in turn; otherwise each loses its braces, then the keyword is replaced everywhere |
| Keywords.RewriteMatching | SongStatus/Plugin.cs:256-270 | either `foreach` loop over the `Where` selection: the text ends as `RewriteBraced` of the whole selection, each matching `{piece}` deleted, or unwrapped to `piece`, in selection order |
| Keywords.AbsentKeyword | SongStatus/Plugin.cs:253 | a keyword the template never mentions is in no piece, so the call leaves any text unchanged |
| Keywords.RewriteBracedAbsent | SongStatus/Plugin.cs:259-262 | deleting or unwrapping braced pieces that do not occur in the text changes nothing |
| Keywords.EmptyValueDeletesOnlyBraced | SongStatus/Plugin.cs:256-265 | with an empty value the bare keyword is never touched: a text holding no matching `{piece}` comes back unchanged, even where it contains the keyword |
| Keywords.SplitSingleSpan | SongStatus/Plugin.cs:143 | the pieces of `{inner}` are the empty piece, `inner` and the empty piece |
| Keywords.RewriteOwnSpan | SongStatus/Plugin.cs:259-270 | the text `{p}` rewritten for `p` becomes `p` when unwrapping and empty when deleting |
| Keywords.SingleSpan | SongStatus/Plugin.cs:256-274 | a template that is one span `{inner}` mentioning the keyword is deleted whole by an empty value; otherwise it becomes `inner` with the keyword replaced |
| Keywords.DecoratedSpan | SongStatus/Plugin.cs:256-274 | a template that is exactly one decorated span `{d1 K d2}` is deleted with its decoration by an empty value; otherwise it becomes `d1 + value + d2` |
| Keywords.PlainSpan | SongStatus/Plugin.cs:267-274 | `{K}` alone becomes exactly the value, and nothing when the value is empty |
| Keywords.SplitEmbedded | SongStatus/Plugin.cs:143 | `a + {inner} + b` with brace-free `a`, `inner` and `b` splits into exactly `a`, `inner` and `b` |
| Keywords.ContainingMiddle | SongStatus/Plugin.cs:254 | of three pieces of which only the middle one contains the keyword, `Where` selects that one alone |
| Keywords.RewriteEmbedded | SongStatus/Plugin.cs:259-270 | in `a + {inner} + b` with brace-free `a` and `b`, deleting the span gives `a + b` and unwrapping it gives `a + inner + b` |
| Keywords.SubstituteOnePiece | SongStatus/Plugin.cs:251-275 | when exactly one piece contains the keyword, a call rewrites that piece's span alone, then replaces the keyword for a non-empty value |
| Keywords.SubstituteEmbedded | SongStatus/Plugin.cs:256-274 | a call on `a + {inner} + b` whose one matching piece is `inner` gives `a + b` for an empty value, and otherwise the keyword replaced throughout `a + inner + b` |
| Keywords.EmbeddedSpan | SongStatus/Plugin.cs:256-274 | a span `{inner}` that mentions the keyword, inside brace-free text that does not: an empty value deletes the span and leaves the surrounding text as it was; otherwise only the braces go and the keyword is then replaced throughout |
| Keywords.EmbeddedDecoratedSpan | SongStatus/Plugin.cs:256-274 | a decorated span `{d1 K d2}` inside text, as a line `Star: {star}` or `{[modifiers]}` of the default template (SongStatus/Plugin.cs:27-32): deleted with its decoration by an empty value; otherwise the text becomes `a + d1 + value + d2 + b`, when the keyword occurs only there |
| Keywords.BraceFreeTemplate | SongStatus/Plugin.cs:253-274 | a template without braces that mentions the keyword is kept whole by an empty value; otherwise every occurrence of the keyword is replaced |
| StarTable.Fields | SongStatus/Plugin.cs:235 | a line splits at commas into at least one field |
| StarTable.RowMatches | SongStatus/Plugin.cs:237-242 | defined as: the row has at least three fields, `custom_level_` + field 0 is the level id, and field 1 is the difficulty |
| StarTable.FirstMatch | SongStatus/Plugin.cs:237-245 | the index of a matching row with no matching row before it; `None` exactly when no row matches |
| StarTable.StarRating | SongStatus/Plugin.cs:221-249 | the value the lookup returns, defined as: `-` for a missing table; otherwise field 2 of the first matching row, or `-` when no row matches |
| StarTable.GetStarDifficulty | SongStatus/Plugin.cs:221-249 | a missing table gives `-`; the first row with `custom_level_` + field 0 equal to the level id and field 1 equal to the difficulty gives its field 2; no match gives `-` |
| StarTable.RowFields | SongStatus/Plugin.cs:235 | a row `id,difficulty,rating` of comma-free fields splits back into those three fields |
| StarTable.OneRowLookup | SongStatus/Plugin.cs:242-244 | a one-row table rates its own custom level on its difficulty, and gives `-` on any other difficulty |
| StarTable.ShortRowSkipped | SongStatus/Plugin.cs:237-240 | a row with fewer than three fields does not change the lookup, whatever the rest of the table |
| Modifiers.Label | SongStatus/Plugin.cs:110-124 | one `cond ? label : string.Empty` term, defined as: the label when enabled, and nothing otherwise |
| Modifiers.LeadingLabels | SongStatus/Plugin.cs:110-119 | defined as: the ten labels before `Fast Notes`, each with its `", "` separator, in source order |
| Modifiers.RawModifiers | SongStatus/Plugin.cs:110-124 | defined as: the leading labels, then `Fast Notes` without a separator, then Small Cubes, Pro Mode, Zen Mode and the speed label, before trimming |
| Modifiers.ModifiersText | SongStatus/Plugin.cs:107-127 | the value put in for `modifiers`, defined as: empty when the game reports no modifiers, and otherwise the raw list trimmed of spaces and commas |
| Modifiers.BuildModifiersList | SongStatus/Plugin.cs:107-127 | empty when the game reports no modifiers; otherwise the enabled labels in fixed order, trimmed; never starts or ends with a space or a comma |
| Modifiers.TrimSeparator | SongStatus/Plugin.cs:126 | a label followed by its `", "` separator trims back to the label |
| Modifiers.OnlyProMode | SongStatus/Plugin.cs:122-126 | with only Pro Mode enabled the list is exactly `Pro Mode` |
| Modifiers.FastNotesRunsIntoSmallCubes | SongStatus/Plugin.cs:120-121 | with Fast Notes and Small Cubes both on, the list contains `Fast NotesSmall Cubes`, because `Fast Notes` has no separator |
| Modifiers.RunInShape | SongStatus/Plugin.cs:110-124 | with both labels on, the raw list is the leading labels, then `Fast NotesSmall Cubes`, then the rest |
| Render.Fold | SongStatus/Plugin.cs:145-204 | defined as: the steps run in order, each a `Substitute` against the same pieces of the original template |
| Render.SongSteps | SongStatus/Plugin.cs:145-150 | the six keywords before the star rating, with their values, in source order; every keyword is non-empty |
| Render.NoFailText | SongStatus/Plugin.cs:156-157 | defined as: `No Fail` when the no-fail modifier is on, and empty otherwise |
| Render.SettingSteps | SongStatus/Plugin.cs:155-203 | the six keywords after the star rating, with their values, in source order; every keyword is non-empty |
| Render.RenderText | SongStatus/Plugin.cs:143-204 | the written text, defined as: split once, the song steps, `star` only while the text holds `{star}`, then the setting steps |
| Render.FoldAt | SongStatus/Plugin.cs:145-204 | proof helper for the straight-line calls, unfolding `Fold` by one step: running the steps from index `k` on is step `k` followed by the rest |
| Render.FoldSkipsAbsent | SongStatus/Plugin.cs:145-204 | steps whose keywords no piece contains leave the text as it is |
| Render.AbsentStepKeywords | SongStatus/Plugin.cs:145-204 | steps whose keywords the template never mentions leave the template unchanged |
| Render.SongStepsAbsent | SongStatus/Plugin.cs:145-150 | a template that mentions none of `songName`, `songSubName`, `authorName`, `levelAuthorName`, `gamemode` and `difficulty` passes the six song calls unchanged |
| Render.StarStepAbsent | SongStatus/Plugin.cs:151-154 | when the template never mentions `star`, the guarded `star` step leaves any text unchanged, whether or not it holds `{star}` |
| Render.SettingStepsAbsent | SongStatus/Plugin.cs:155-203 | a template that mentions none of `isNoFail`, `modifiers`, `beatsPerMinute`, `notesCount`, `obstaclesCount` and `noteJumpStartBeatOffset` passes the six setting calls unchanged |
| Render.NoKeywordsNoChange | SongStatus/Plugin.cs:143-204 | a template that mentions no render keyword is written out unchanged, whatever the level, the modifiers and the star table |
| Render.InsertedPlaceholderStays | SongStatus/Plugin.cs:143-204 | every call tests the original template's pieces, so a placeholder `{k2}` put in as the value of `{k1}` survives the later `k2` step |
| Render.ReplaceSongKeywords | SongStatus/Plugin.cs:145-150 | the six calls before the guard yield the fold of the song steps over the original pieces |
| Render.ReplaceSettingKeywords | SongStatus/Plugin.cs:155-203 | the six calls after the guard yield the fold of the setting steps over the original pieces |
| Render.GameCoreLoaded | SongStatus/Plugin.cs:143-204 | the written text is `RenderText`: split once, song steps, `star` only while the text holds `{star}`, then the setting steps; when `{star}` is absent the result does not depend on the star table |

## Left out

- File I/O is left out: reading the template file, writing the status file, `ClearText`, and opening and streaming `star.csv`. The star table arrives as `None` (file missing) or as its lines.
- The plugin lifecycle is left out: `Init`, `OnApplicationStart`, `OnApplicationQuit`, the BSEvents subscriptions, the Unity `GameObject` and logging.
- The asynchronous `GetBeatmapDataAsync` is left out. The note and obstacle counts are input strings.
- Float formatting is left out, and each of these arrives as an already printed string:
  - the beats per minute;
  - the song speed label's number (`songSpeedIsOne` stands for `songSpeedMul == 1.0f`);
  - the practice-mode suffix of the game mode;
  - the note jump offset, which the source picks by a `switch` on float values or formats as a static duration.
- The game API lookups (`IsWithoutModifiers()`, `difficulty.Name()`, `serializedName`, the setup data) are plain inputs.
- `null` strings are not modelled separately; they are the empty string, matching `string.IsNullOrEmpty`.
- The span lemmas describe a template with one braced span in brace-free text. A template with several spans, such as the default one, is described only by the general contracts of `ReplaceKeyword` and `GameCoreLoaded` (each call equals `Substitute`, the render equals `RenderText`), not span by span.
