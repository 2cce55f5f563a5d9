# AI Workflow installer — a Dafny model

`install.py` customises a project's AI workflow folder. It renames
`.ai-workflow` to a name the user picks, rewrites every reference to the old
folder in the configuration, scripts, prompts, VSCode settings and
`CLAUDE.md`, and writes the pull-request settings into `config.yml`. This
project models the decisions the installer makes on text. The file system and
the console are not modelled: the contents the installer reads and the answers
it receives are parameters.

The modules follow the installer's steps:

- `Text`: Python's `str.strip()` (with Python's exact whitespace set), `str.lower()` and the `.strip().lower()` normalisation every prompt answer goes through.
- `Replace`: `replace_in_file`, built on Python's `str.count` and `str.replace`. This includes their behaviour for an empty pattern, and replacement seen as splitting and rejoining.
- `References`: `update_file_contents` and `update_vscode_settings`. It covers the reported totals, why the `/ai.add` and `/ai.clarify` command prefixes survive, and exactly when a second run changes nothing.
- `Validation`: `validate_folder_name`.
- `Options`: the prompts of `main` with their defaults and fallbacks, and the non-interactive defaults.
- `Confirmation`: `confirm`, and the gate before installation.
- `Template`: how Python 3.12's `re` module parses a replacement template such as `\1` followed by a value.
- `ConfigFields`: `update_pr_config`. It models the field patterns `key:\s*` followed by `\S+`, and `pull_request:\s*\n\s*tool:\s*` followed by `\S+`, scanned left to right as `re.sub` does. It comes in two versions: the substitution as written, and a corrected one that inserts the value literally.

`branch_format` is set to the commit-convention value (install.py:296-300).
The model keeps this behaviour. `ConfigFields.BranchFormatGetsConvention`
proves it for the installer's own update whenever the base-branch template
compiles, and for the corrected update always.

The comment at install.py:173 says the rewrite is idempotent. It is idempotent
only when the rewritten text no longer contains `.ai-workflow`.
`References.IdempotentIff` proves this condition for every folder name other
than `.ai-workflow` itself. Two lemmas exhibit folder names for which a second
run still changes the text:
`References.NameContainingFolderNotIdempotent` and
`References.BoundaryOccurrenceNotIdempotent`.

## Model

| member | source | states |
|---|---|---|
| Replace.Count | install.py:246 | The non-overlapping occurrences of a nonempty pattern never take up more than the text's length. |
| Replace.CountZeroIff | install.py:246-247 | The count is zero exactly when the old text does not occur, so a file is written exactly when it mentions the old text. |
| Replace.RewriteContent | install.py:245-250 | A file is written iff the old text occurs in it, iff the returned count is positive. An unwritten file keeps its content. A written file holds its pieces between occurrences rejoined with the new text. |
| Replace.RewriteContentIsReplace | install.py:245-250 | The content left behind is always `content.replace(old, new)`, modelled by `Replace.ReplaceAll`, and the count returned is always `content.count(old)`, whether or not the file is written. |
| Replace.ReplaceIsSplitJoin | install.py:248 | Replacing is splitting on the old text and joining the pieces with the new text. |
| Replace.SplitJoinRoundTrip | install.py:248 | Joining the split pieces with the old text gives back the original content. |
| Replace.SplitPatternFree | install.py:248 | No piece of the split contains the old text: every occurrence is replaced. |
| Replace.ReplaceLength | install.py:246-248 | The rewritten text's length is the original length plus count × (length of new − length of old). |
| Replace.AbsentUnchanged | install.py:247-249 | Text without the old literal comes back unchanged. |
| Replace.ReplaceWithItself | install.py:248 | Replacing a pattern by itself changes nothing, including for the empty pattern. |
| Replace.ReplaceChangesText | install.py:248 | When the old text occurs and the new text has a different length, the content always changes. |
| Replace.ReplaceDiffers | install.py:248 | When the old text occurs, replacing it by any different text changes the content, whatever the lengths. |
| Replace.SameLengthReplaceChanges | install.py:248 | When the old text occurs and the new text differs but has the same length, the first occurrence is overwritten, so the content changes. |
| Replace.ReplacementOccurs | install.py:248 | When the old text occurs, the new text appears in the result. |
| Replace.ReplaceConcat | install.py:248 | When no occurrence crosses the boundary, the two halves of a text are rewritten independently, and their counts add up. |
| Replace.SurroundedTextSurvives | install.py:171-174 | A piece of text that cannot take part in an occurrence is kept verbatim between the rewritten text before and after it. |
| References.UpdateFileContents | install.py:154-179 | Every target file holds its own rewritten content afterwards. The reported total is the sum of the files' occurrence counts of `.ai-workflow`. The reported number of files updated is the number of files that mention it. That number is at most the number of files and at most the total. The total is zero exactly when no file mentions `.ai-workflow`. |
| References.MentioningCons | install.py:175-177 | The first file adds one to the files mentioning the folder exactly when it mentions it. |
| References.UpdateSettings | install.py:182-191 | Settings text that does not mention `.ai-workflow/prompts` is left as it is (line endings aside, see Left out). |
| References.SettingsUpdateAfterRewriteIsNoOp | install.py:116-118 | The reference rewrite runs before the settings update and also covers `.vscode/settings.json`. Once it has removed every `.ai-workflow`, the settings update changes nothing. |
| References.NamedCommandsAreInert | install.py:171-173 | `/ai.add` and `/ai.clarify` contain no `.ai-workflow`, and neither can end a partial occurrence of it. |
| References.CommandSurvivesRewrite | install.py:171-174 | Wherever such a command appears in a file, it survives the rewrite character for character, whatever the folder name is. |
| References.SecondPassNoOpIff | install.py:173-174 | A second pass writes nothing exactly when the first pass left no `.ai-workflow` behind. |
| References.IdempotentIff | install.py:173-174 | For every folder name other than `.ai-workflow` itself, running the rewrite twice equals running it once iff the first output holds no `.ai-workflow`. The installer never uses `.ai-workflow` as the new name: install.py:43 requires that folder to exist, and install.py:65 refuses a name that exists. |
| References.NameContainingFolderNotIdempotent | install.py:173-174 | On every file that mentions `.ai-workflow`, a folder name containing `.ai-workflow` makes both passes write. Unless the name is `.ai-workflow` itself, the second pass changes the text again. |
| References.PrefixedNameGrows | install.py:173-174 | With a name made of one character followed by `.ai-workflow`, a file holding `.ai-workflow` becomes the name, then the name with that character in front. |
| References.BoundaryOccurrenceNotIdempotent | install.py:173-174 | A name that is a proper prefix of `.ai-workflow` can complete a new occurrence with the text that follows it, so the second pass rewrites again. |
| References.BoundaryExample | install.py:173-174 | Concretely, `.ai-workflow-workflow` with the name `.ai` becomes `.ai-workflow` after one pass and `.ai` after two. |
| References.SelfContainingNameExample | install.py:173-174 | Concretely, a file holding `.ai-workflow` with the name `x.ai-workflow` becomes `x.ai-workflow` after one pass and `xx.ai-workflow` after two. |
| Validation.HasAnyOf | install.py:144 | The result is true iff some character of the name is one of the listed characters. |
| Validation.ValidateFolderName | install.py:134-145 | Refusals follow the installer's order: an empty name first, then a name with a space, then one with any of the seven characters refused at line 143. The no-dot warning is printed exactly for nonempty, space-free names that do not start with `.`. |
| Validation.AcceptsExactlyPortable | install.py:134-145 | A name is accepted iff it is nonempty and free of spaces and of the seven refused characters. A missing leading dot never causes a refusal. |
| Validation.SpaceCheckedBeforeInvalidChars | install.py:138-145 | The name `my dir:x`, which holds both a space and a colon, is refused for the space, with no warning printed. The general order is stated by `ValidateFolderName`. |
| Validation.MissingDotOnlyWarns | install.py:140-141 | `workflow` is accepted with only the warning. |
| Options.DecodePrTool | install.py:81-84 | An empty answer selects `gh` silently. A warning is printed exactly when the normalised answer is no tool's name, and then `gh` is used. Otherwise the tool whose name was typed is selected. |
| Options.DecodeConvention | install.py:86-89 | The same three cases for the commit convention, with `conventional` as the default and the fallback. |
| Options.AnswerOr | install.py:91 | The answer, here or for the folder name at line 52, is never empty and has no surrounding whitespace. A non-blank answer is returned stripped and otherwise verbatim. A blank answer gives the default. |
| Options.DecodeYes | install.py:72-73 | The install-commands answer means yes exactly for `y` or `yes` after strip and lower-casing. |
| Options.ResolveSettings | install.py:49-95 | A non-interactive run uses the argument as the folder name, with no commands and `gh`/`conventional`/`main`. An interactive run always gets a nonempty folder name and base branch. Its folder name and base branch are the answers as `AnswerOr` returns them, with defaults `.ai` and `main`. The install-commands flag is the decoded yes/no answer, and the tool and convention are the decoded choices. |
| Options.ResolveRoundTrip | install.py:49-95 | Typing back every setting an interactive run can produce gives those settings again: the folder name, `y` or `n`, the tool, the convention and the base branch. |
| Options.ToolRoundTrip | install.py:81-84 | Typing a tool's own name selects that tool without a warning. |
| Options.ConventionRoundTrip | install.py:86-89 | Typing a convention's own name selects it without a warning. |
| Options.ToolIgnoresCaseAndSpace | install.py:81 | The tool chosen depends only on the answer after strip and lower-casing. |
| Options.ConventionIgnoresCaseAndSpace | install.py:86 | The convention chosen depends only on the answer after strip and lower-casing. |
| Options.YesIgnoresCaseAndSpace | install.py:72 | The install-commands decision depends only on the answer after strip and lower-casing. |
| Text.Strip | install.py:81 | The stripped answer has no surrounding whitespace and is no longer than the answer. |
| Text.StripIsSlice | install.py:81 | The stripped answer is a contiguous part of the answer, and everything removed from either end is whitespace. |
| Text.Lower | install.py:81 | Lower-casing keeps the length and maps each character on its own. |
| Text.LowerStripCommute | install.py:81 | Lower-casing and stripping can be applied in either order. |
| Text.NormalizeIdempotent | install.py:314 | Normalising an answer a second time changes nothing. `Text.Normalize` models the `.strip().lower()` applied to answers at install.py:72, 81, 86 and 314. |
| Confirmation.DecodeReply | install.py:314-320 | A response means yes exactly when it normalises to `y` or `yes`, and no exactly when it normalises to `n` or `no`. |
| Confirmation.DecodeAll | install.py:314 | Each response is decoded on its own, in order. |
| Confirmation.Confirm | install.py:313-320 | The loop asks until the first recognised reply, which decides the answer. The loop runs out of input exactly when no reply is recognised. |
| Confirmation.RepromptsUntilRecognised | install.py:313-320 | Any number of unrecognised replies followed by a recognised one ends the loop at that reply, whatever comes after it. |
| Confirmation.ResponsesRepromptUntilRecognised | install.py:313-320 | The same over raw typed responses (`ConfirmResponses`): responses that strip and lower-case to neither `y`, `yes`, `n` nor `no` each bring a new prompt, and the first response that does decides the outcome. |
| Confirmation.Proceeds | install.py:103-108 | A non-interactive run always proceeds. An interactive run proceeds iff some reply is yes and every reply before it was unrecognised. |
| Confirmation.CommandsQuestionMatchesYes | install.py:72-73 | The install-commands question accepts exactly the answers that `confirm` treats as yes. |
| Template.Parse | install.py:303 | A template that parses refers only to groups the pattern has (here, group 1). |
| Template.Lits | install.py:303 | Plain text becomes one literal piece per character. |
| Template.ExpandLits | install.py:303 | Literal pieces expand to exactly their text. `Template.Expand` models how `re.sub` fills in a parsed template for a match. |
| Template.PlainTextIsLiteral | install.py:303 | Text without a backslash parses as literal pieces, one per character. |
| Template.SafeValueTemplate | install.py:286-305 | For a value with no backslash that does not start with a digit, the template is group 1 followed by the value, and it expands to the key text followed by the value. |
| Template.OctalValueSwallowsGroup | install.py:303 | A value starting with two octal digits, with no backslash after them, completes a three-digit octal escape with the `1` of `\1`. The parsed template is that one character followed by the rest of the value as literals, so it holds no reference to group 1. |
| Template.DigitValueRejected | install.py:303 | A value starting with any other digit turns `\1` into a group number that does not exist, so the template is rejected. |
| ConfigFields.SkipNonSpace | install.py:292 | `\S+` is greedy: it stops at whitespace or at the end of the text. |
| ConfigFields.HeadEnd | install.py:287 | A head match starts with the field's label, and group 1 ends at a character that is not whitespace. That a present head is found is stated by `KeyMatchFound` and `NestedMatchFound`. |
| ConfigFields.MatchAt | install.py:287 | A match has a nonempty value with no whitespace in it, and the value is followed by whitespace or the end of the text. |
| ConfigFields.KeyMatchFound | install.py:291-305 | Wherever `key:` occurs, followed by whitespace and then a non-whitespace character, the pattern matches. Group 1 ends at that character, and the value is the whole non-whitespace run. |
| ConfigFields.NestedMatchFound | install.py:287 | Wherever `section:` occurs, followed by whitespace holding a line break, then `key:`, whitespace and a non-whitespace character, the nested pattern matches there. This holds for a key that does not start with whitespace, as `tool` does not. |
| ConfigFields.NestedFieldSet | install.py:286-290 | A text that is one nested field has its value replaced. The section label, the line break and indentation, and the key are kept. |
| ConfigFields.ToolFieldSet | install.py:286-290 | `pull_request:` followed by a line break, an indented `tool: <value>` receives the chosen tool's name. |
| ConfigFields.SubAsWritten | install.py:286-290 | A substitution fails exactly when its template is rejected, even if the pattern never matches. Otherwise it applies `ConfigFields.SubFrom`, the left-to-right scan of `re.sub`: each match has its template filled in, and the scan resumes after the match. |
| ConfigFields.UpdatePrConfigAsWritten | install.py:286-305 | The four substitutions fail exactly when the base-branch template is rejected. The tool and convention names never cause a failure. |
| ConfigFields.NameTemplates | install.py:288-298 | The templates built from the option names always compile. |
| ConfigFields.SetField | install.py:286-305 | Text without the field's label comes back unchanged. |
| ConfigFields.UpdatePrConfig | install.py:286-305 | A configuration without any of the four labels is left unchanged. |
| ConfigFields.SubLabelAbsentUnchanged | install.py:286-305 | As written, too, text without the head's first label comes back unchanged, whatever the template. |
| ConfigFields.LabelAbsentUnchanged | install.py:286-305 | Without the head's first label there is no match, so nothing changes. |
| ConfigFields.SetIsLiteralTemplate | install.py:286-305 | The corrected update is a template substitution whose value pieces are all literal, whatever characters the value holds. |
| ConfigFields.SafeSubstitution | install.py:286-305 | For a safe value, the substitution as written equals the corrected one. |
| ConfigFields.AsWrittenAgreesWhenSafe | install.py:286-305 | For a base branch with no backslash that does not start with a digit, the installer computes exactly the corrected update. |
| ConfigFields.ScanFlatten | install.py:286-305 | Splitting the text into plain characters and matched fields loses nothing: the pieces spell the text. |
| ConfigFields.ScanShape | install.py:287-297 | Every field found has the pattern's shape. Its head is the label, then whitespace; a nested head also has a line break and the second label. Its value is a nonempty run of non-whitespace that is followed by whitespace or the end. |
| ConfigFields.WithValue | install.py:286-305 | Every field gets the new value, and every other piece is kept. |
| ConfigFields.SetIsRetarget | install.py:286-305 | The corrected update replaces each field's value and keeps each head (key and whitespace) and all text outside the fields. |
| ConfigFields.SingleFieldSet | install.py:296-300 | For a nonempty value without whitespace, a one-field text `key:<ws><value>` becomes `key:<ws><new value>`, with its whitespace kept. |
| ConfigFields.BranchFormatGetsConvention | install.py:296-300 | For a nonempty value without whitespace and without `:`, as written, `branch_format: <value>` is set to the commit-convention name whenever the base-branch template compiles, for any tool. If that template does not compile, the whole update fails (`UpdatePrConfigAsWritten`). The corrected update always sets it, whatever the base branch. |
| ConfigFields.OnlyBaseBranchField | install.py:286-300 | In `default_base_branch: <value>`, for a nonempty value without whitespace and without `:`, the first three substitutions find no match. |
| ConfigFields.OctalBaseBranchReplacesField | install.py:301-305 | For a nonempty value without whitespace and without `:`, as written, a base branch starting with two octal digits, with no backslash after them, replaces the whole field, key included, by one character and the rest of the name. The corrected update keeps `default_base_branch: ` in front of the name. |
| ConfigFields.Year2024BaseBranch | install.py:301-305 | For a nonempty value without whitespace and without `:`, as written, base branch `2024` turns `default_base_branch: <value>` into `P24`. The corrected update gives `default_base_branch: 2024`. |
| ConfigFields.DigitBaseBranchRejected | install.py:301-305 | As written, a base branch starting with any other digit makes the update fail for every configuration. |
| ConfigFields.ReleaseBaseBranch | install.py:301-305 | As written, base branch `1.0` makes the update fail for every configuration. |

## Left out

- Argument handling and `--help` (install.py:20-30): the mode is a parameter of `Options.ResolveSettings`.
- The `.aiconfig` already-installed gate, the `.ai-workflow` existence check and the target-exists check (install.py:37-46, 64-67): these are file-system queries.
- Renaming the folder, reading and writing files, the missing-file branches and the `except` branch of `replace_in_file`: file contents are parameters, and a file that is missing or unreadable counts 0 references.
- `glob_files` and the list of target patterns (install.py:158-164, 228-235): the model takes the files' contents in glob order.
- `create_config_marker` (install.py:194-203): it needs the clock, and it has no logic beyond formatting.
- `install_commands` (install.py:206-223): it copies files, with no logic on text.
- `print_preview` and every warning or status message, apart from the flags that record whether a warning was printed.
- The `except` in `main` (install.py:127-131): an error is a `Result` value, and what happens after it is not modelled.
- Confirmation.Proceeds: when the input ends before a recognised reply, Python raises `EOFError`. The model reports `Exhausted` and treats the run as not proceeding.
- Text.Lower: only ASCII letters and the KELVIN SIGN are lower-cased. Every other character is kept. Every literal an answer is compared with is ASCII, so no decision changes.
- Template.Parse: named groups and `\g<name>` are not modelled. The pattern has no named groups, so such a reference is an error, as in Python 3.12. Error messages are reduced to three kinds.
- ConfigFields: only the two pattern shapes the installer uses are modelled, not a general regular-expression engine. The nested head is taken to end its whitespace run where the second label starts. This is exact for keys that do not start with whitespace, which includes `tool`.
- Line endings: a file's content is the text `Path.read_text` returns, in which `\r\n` and `\r` have already become `\n`. Any file written back (install.py:188, 249, 307) gets the platform's line endings, and `update_vscode_settings` and `update_pr_config` always write. So a file the model calls unchanged, such as a `settings.json` with `\r\n` line endings, can still change on disk.

## Findings

| source | as written | input that shows it | evidently intended | confidence | as-written member | corrected member |
|---|---|---|---|---|---|---|
| install.py:301-305 | The base branch is spliced into the `re.sub` template `\1` + value, so `re` parses it as template syntax. | Base branch `2024` makes `\12024` parse as the octal escape `\120` (`P`) followed by `24`, so `default_base_branch: main` becomes `P24`. Base branch `1.0` makes `\11` an invalid group reference, so `re.sub` raises after the folder was renamed. | The field keeps its key and gets the base-branch name verbatim, as for `main`. | not executed | ConfigFields.UpdatePrConfigAsWritten | ConfigFields.UpdatePrConfig |

`ConfigFields.OctalBaseBranchReplacesField` and
`ConfigFields.Year2024BaseBranch` exhibit the swallowed key.
`ConfigFields.DigitBaseBranchRejected` and `ConfigFields.ReleaseBaseBranch`
exhibit the failure. `ConfigFields.AsWrittenAgreesWhenSafe` shows that both
versions agree for every base branch that has no backslash and does not start
with a digit.
