# Deploy command model

A Dafny model of the `deploy` console command of valorin/deploy (`src/Command/Deploy.php`), an
interactive Laravel helper that, before deploying to a remote over SSH:

1. **tags a production deploy** (`production`): when production checking is enabled, the remote is
   the production remote and the deployed commit is untagged, the nearest `v*` tag is split into
   its parts, the next release tag is chosen (`incrementTag`) and `git tag` creates it;
2. **pushes** (`push`): `git push`, then `git push --tags`;
3. **runs the configured commands** (`runCommands`): `cd <root>` plus the configured command list,
   falsy entries dropped, with every `{name}` / `{name|default}` placeholder resolved from the
   `--set-<name>` options (`parseTags`), handed to the remote in one call.

`fire` runs the three steps in that order and stops at the first failure (exit code 1).

The model is functional. The modules follow the structure of the command:

| module | models |
|---|---|
| `Outcomes` | the errors the command reports, `Option` and `Result` |
| `Text` | PHP string semantics: truthiness, decimal digits and `+ 1`, `str_replace` |
| `Tags` | the tag split of `production` (`preg_split("#[.-]#", substr($tag, 1))`, 3/4/5 parts) |
| `Releases` | `incrementTag`: the candidate map and the release-type check |
| `Tokens` | the placeholder pattern `REGEX_TAG`, as a scanner proved equal to the grammar |
| `Placeholders` | the `while (preg_match(...))` loop of `parseTags` on one line, and `userOption` |
| `Templates` | `parseTags` on arrays: in order, stopping at the first failure |
| `Deploy` | `production`, `push`, `runCommands` and `fire`, as requests emitted plus an outcome |

Processes and the outside world are not executed. Each is modelled as an input or a request:

- The two `git describe` outputs, the exit codes of `git tag`, `git push` and `git push --tags`, the
  release type the user picks, the `--set-*` options and the configuration are inputs.
- Tagging, pushing and the SSH run are `Effect` values in the `Run` a step returns.

The placeholder loop of the source need not terminate: for example, when an option's value is
the placeholder itself. The model allows at most `fuel` replacements on a line. It reports
`OutOfFuel` when the source loops forever, or when it needs more than `fuel` replacements on some
line. A lookup that fails reports its own error at any fuel.

- `Placeholders.FuelMonotone`, `Templates.ResolveFuelMonotone` and `Deploy.FireFuelMonotone` show
  that once the fuel suffices, more fuel changes nothing.
- `Placeholders.ResolveTerminates` and `Templates.ResolveEnoughFuel` show that fuel as large as the
  most `{` on any line always suffices when no option value contains `{`.

## Model

| member | source | states |
|---|---|---|
| Tags.SplitLength | src/Command/Deploy.php:140 | the split yields exactly one part more than there are `.`/`-` separators |
| Tags.SplitJoin | src/Command/Deploy.php:140 | the parts with the separators between them rebuild the split text: splitting loses nothing |
| Tags.SplitPartsAtomic | src/Command/Deploy.php:140 | no part holds a separator |
| Tags.SplitSeparatorsInterchangeable | src/Command/Deploy.php:140 | texts that differ only in which of `.` and `-` stands at each separator position split into the same parts |
| Tags.Parse | src/Command/Deploy.php:140-153 | a tag parses exactly when the text after its first character has 2 to 4 separators (3 to 5 parts); otherwise the error is "Unknown tag format" for that tag |
| Tags.ParseParts | src/Command/Deploy.php:144-149 | the parts go in order to major, minor and patch; a pre-release is present exactly when there are more than 3 parts; a fourth part is the identifier and a fifth the increment |
| Tags.ParseSeparatorsInterchangeable | src/Command/Deploy.php:140-153 | tags that differ only in the choice of separator parse to the same tag or are both rejected |
| Tags.ParseFormat | src/Command/Deploy.php:140-153 | printing a tag whose parts hold no separator as `vM.m.p[-id[.N]]` and parsing it back gives the same tag |
| Releases.PreIncrementOfParse | src/Command/Deploy.php:142-149 | the pre-release increment is the value of the fifth part when there is one, and 1 otherwise |
| Releases.ReleaseTypeOf | src/Command/Deploy.php:191-204 | a key names a release type exactly when it is one of the six candidate keys, and then names the type with that key |
| Releases.RcOffered | src/Command/Deploy.php:202-205 | the `rc` entry exists exactly when the tag has a pre-release identifier that is truthy in PHP (not "" and not "0") |
| Releases.SelectRelease | src/Command/Deploy.php:216-222 | a key succeeds exactly when some candidate has that key, and then gives that candidate; otherwise the error is "Unknown release type" for the key |
| Releases.IncrementTag | src/Command/Deploy.php:184-223 | the key is the release argument when truthy, else the user's pick; the result is that key's candidate, which starts with `v`, or "Unknown release type" when no offered type has the key |
| Releases.ExplicitReleaseIgnoresPick | src/Command/Deploy.php:207-214 | when a release type is given on the command line, the user's pick does not affect the outcome |
| Releases.CandidateIsFormat | src/Command/Deploy.php:191-204 | each candidate text is the printed form of the structured next tag: M+1.0.0, M.m+1.0, M.m.p+1, the same with `-rc`, or M.m.p-rc with the increment suffix |
| Releases.CandidateReparses | src/Command/Deploy.php:191-204 | every candidate parses back, as the next tag, into 3 parts for major/minor/patch, 4 for rcmajor/rcminor, and 4 or 5 for rc |
| Releases.CandidatesAreNewer | src/Command/Deploy.php:191-204 | whatever release type is offered, the next tag is strictly newer than the current one in release order (major, minor, patch, then a pre-release before its release, then the increment; the pre-release identifier itself is not compared) |
| Releases.RcSequence | src/Command/Deploy.php:202-205 | the rc candidate keeps M.m.p, uses the identifier `rc`, has no suffix only for an explicit increment 0, and otherwise has suffix `.(i+1)`; the rc after it has increment i+1 (2 after an implicit 1) |
| Releases.ParseRelease123 | src/Command/Deploy.php:140-145 | `v1.2.3` parses as major 1, minor 2, patch 3 and no pre-release |
| Releases.ParseImplicitRc | src/Command/Deploy.php:140-147 | `v2.0.0-rc` parses with pre-release `rc` and no explicit increment |
| Releases.DashIncrement | src/Command/Deploy.php:140 | `v1.2.3-rc-1` and `v1.2.3-rc.1` parse to the same tag |
| Releases.TwoPartTagRejected | src/Command/Deploy.php:150-152 | `v1.2` is rejected as an unknown tag format |
| Releases.MinorOfRelease | src/Command/Deploy.php:192 | the `minor` release of `v1.2.3` is `v1.3.0` |
| Releases.RcOfImplicitRc | src/Command/Deploy.php:202-204 | the `rc` release of `v2.0.0-rc` is `v2.0.0-rc.2` |
| Text.ValShow | src/Command/Deploy.php:191-203 | reading back the decimal text PHP prints for a number gives the number |
| Text.ReplaceAllLeftmost | src/Command/Deploy.php:292 | `str_replace` keeps the text before the leftmost occurrence, puts the value in its place, and continues after it, so occurrences never overlap |
| Text.ReplaceAllAbsent | src/Command/Deploy.php:292 | text in which the search string does not occur comes back unchanged |
| Text.ReplaceAllCount | src/Command/Deploy.php:292 | replacing with a value that has fewer `{` than the search string never adds a `{`, and removes one when there is an occurrence |
| Tokens.ParseNameSound | src/Command/Deploy.php:16 | the name capture splits a segment into leading whitespace, a non-empty run of name characters, and trailing whitespace |
| Tokens.BodyTokenSound | src/Command/Deploy.php:16 | the pieces of a reported match put back together give the braced text |
| Tokens.TokenSound | src/Command/Deploy.php:16 | every match the scanner reports reads as the placeholder pattern |
| Tokens.BodyTokenComplete | src/Command/Deploy.php:16 | every text the pattern admits between the braces is recognised by the scanner, and holds no `}` |
| Tokens.MatchAtComplete | src/Command/Deploy.php:16 | wherever some substring matches the pattern, the scanner finds a match at its start |
| Tokens.NoPlaceholderIff | src/Command/Deploy.php:271 | the scan finds nothing exactly when no substring of the line matches the pattern |
| Tokens.FindTokenLeftmost | src/Command/Deploy.php:271 | the reported match is the leftmost: it sits at the position reported, no substring starting earlier matches, and its text does not occur earlier |
| Tokens.ParseNameGreedy | src/Command/Deploy.php:16 | of all the splits the grammar admits, the name capture has the longest leading whitespace and then the longest name, the split PCRE's backtracking tries first |
| Tokens.ParseDefaultGreedy | src/Command/Deploy.php:16 | the same preference for the default capture, which may be empty |
| Tokens.PlainBody | src/Command/Deploy.php:16 | a placeholder written without spaces, with or without a default, captures the name and the default exactly as written |
| Placeholders.Lookup | src/Command/Deploy.php:274-289 | a given `--set-<name>` option wins; otherwise a default group is used, even an empty one; otherwise the error names the missing option |
| Placeholders.ResolveLine | src/Command/Deploy.php:271-295 | a resolved line holds no substring matching the pattern; a failure is a missing option or running out of fuel |
| Placeholders.LineStep | src/Command/Deploy.php:271-292 | one step keeps the text before the leftmost match, puts the value in place of the match, replaces every later occurrence of the same text, and goes on with the result |
| Placeholders.MissingFails | src/Command/Deploy.php:278-287 | a leftmost match with no option and no default fails the line at once with that name |
| Placeholders.UnchangedIff | src/Command/Deploy.php:271 | a line comes back unchanged exactly when it holds no placeholder |
| Placeholders.ResolveIdempotent | src/Command/Deploy.php:271-295 | resolving an already resolved line changes nothing, whatever the fuel |
| Placeholders.FuelMonotone | src/Command/Deploy.php:271-293 | once the fuel suffices, more fuel gives the same outcome: the bound does not change the result |
| Placeholders.ResolveTerminates | src/Command/Deploy.php:271-293 | when no option value contains `{`, fuel equal to the number of `{` in the line always suffices |
| Placeholders.ResolveSingle | src/Command/Deploy.php:271-292 | a line with one placeholder and no other `{` resolves to the option's value, else the default, else fails with the missing name |
| Placeholders.ResolveTwo | src/Command/Deploy.php:271-292 | a line with two placeholders is resolved first placeholder first; the second's missing option fails it |
| Placeholders.FetchDefault | src/config/config.php:57 | with no options, the shipped fetch line resolves to `git fetch origin`, the default of its `remote` placeholder |
| Placeholders.CheckoutOption | src/config/config.php:56 | `--set-branch=develop` takes precedence over the default `master` of the shipped checkout line, giving `git checkout -f develop` |
| Placeholders.EmptyDefault | src/Command/Deploy.php:281-282 | an empty default group still counts as a default and resolves to nothing |
| Placeholders.MissingRemote | src/Command/Deploy.php:284-287 | `git fetch {remote}` with no options fails on the missing option `remote` |
| Placeholders.ComposerDefault | src/config/config.php:60 | with no options, the shipped composer line resolves to `composer install --no-dev` |
| Placeholders.PullDefaults | src/config/config.php:59 | with no options, the shipped pull line resolves to `git pull -f origin master` |
| Templates.Resolve | src/Command/Deploy.php:257-268 | a resolved tree has the shape of the input and holds no placeholder; a failure is a line's error |
| Templates.ResolveAll | src/Command/Deploy.php:260-267 | a resolved array has one entry per element, each the resolution of that element |
| Templates.ResolveAllConcat | src/Command/Deploy.php:261-265 | resolving `a + b` resolves `a` first and looks at `b` only when all of `a` succeeded |
| Templates.ShortCircuit | src/Command/Deploy.php:262-264 | once an element fails, later siblings do not affect the outcome |
| Templates.ResolveAllOkIff | src/Command/Deploy.php:260-267 | an array resolves exactly when each of its elements does |
| Templates.FirstFailure | src/Command/Deploy.php:261-265 | a failing array fails with the error of its first failing element, all earlier ones having resolved |
| Templates.ResolveUnchanged | src/Command/Deploy.php:257-295 | a tree comes back unchanged exactly when none of its lines holds a placeholder |
| Templates.Idempotent | src/Command/Deploy.php:257-295 | resolving a resolved tree again changes nothing |
| Templates.ResolveFuelMonotone | src/Command/Deploy.php:257-295 | once a whole tree resolves without running out of fuel, any larger fuel gives the same outcome |
| Templates.ResolveEnoughFuel | src/Command/Deploy.php:257-295 | when no option value contains `{`, fuel as large as the most `{` on any line never runs out, so the walk ends as the source's does |
| Templates.FuelIrrelevant | src/Command/Deploy.php:257-295 | with such options, every fuel that suffices gives the same outcome |
| Templates.MissingStopsWalk | src/Command/Deploy.php:262-264 | a first command missing its option fails the walk whatever commands follow |
| Templates.NestedArray | src/Command/Deploy.php:260-267 | nested arrays are resolved in place, each line replaced by its own resolution |
| Deploy.Production | src/Command/Deploy.php:118-171 | nothing happens unless tagging applies. When it applies: an unparsable nearest tag fails with its parse error and a rejected release type with that error, neither creating a tag; otherwise exactly one `git tag` of the tag `incrementTag` returns is issued, and the step fails exactly when `git tag` exits non-zero |
| Deploy.Push | src/Command/Deploy.php:91-111 | nothing happens when push is off; `git push` comes first; `git push --tags` is issued exactly when `git push` exited 0; each failure iff its command exited non-zero |
| Deploy.FilterConcat | src/Command/Deploy.php:238 | `array_filter` distributes over concatenation, keeping the relative order |
| Deploy.FilterMembers | src/Command/Deploy.php:238 | an entry survives exactly when it is in the list and truthy |
| Deploy.FilterUnchanged | src/Command/Deploy.php:238 | filtering leaves a list alone exactly when every entry is truthy |
| Deploy.CommandList | src/Command/Deploy.php:233-238 | the command list is `cd <root>` followed by the truthy configured commands in their order |
| Deploy.RunCommands | src/Command/Deploy.php:230-249 | the remote run is requested exactly when the whole list resolves, with the resolved list, one entry per command, none holding a placeholder; a failure requests nothing and fails with the resolution's error, which `Templates.FirstFailure` pins to the first failing command's |
| Deploy.Chain | src/Command/Deploy.php:43-59 | the steps succeed together; a failed step's outcome is the result and later steps' requests are dropped |
| Deploy.ExitCode | src/Command/Deploy.php:43-59 | the exit status is 0 exactly when every step succeeded, and 1 otherwise |
| Deploy.ProductionFailureStops | src/Command/Deploy.php:46-48 | a failed production step ends the command with exit 1 and no push or remote run |
| Deploy.PushFailureStops | src/Command/Deploy.php:98-102 | a failed `git push` ends the command before `git push --tags` and the remote run |
| Deploy.PushTagsFailureStops | src/Command/Deploy.php:104-108 | a failed `git push --tags` ends the command before the remote run |
| Deploy.SkipDoesNotTag | src/Command/Deploy.php:121-137 | with production checking off, another remote, or an already tagged commit, no tag is created and only pushing or the remote run can fail |
| Deploy.UnknownTagFormatCreatesNoTag | src/Command/Deploy.php:150-153 | a nearest tag that does not parse fails the command with "Unknown tag format" and no request at all |
| Deploy.UnknownReleaseTypeCreatesNoTag | src/Command/Deploy.php:156-160 | a release key that names no candidate fails the command with "Unknown release type" and no request at all |
| Deploy.CreatedTag | src/Command/Deploy.php:156-164 | a created tag is the candidate of the chosen release type for the parsed nearest tag and parses back to the structured next tag; when every part of the nearest tag is decimal, that tag is newer |
| Deploy.FireInOrder | src/Command/Deploy.php:43-59 | the requests come in the order tag, push, push of the tags, remote run, each at most once |
| Deploy.SuccessIffRemoteRun | src/Command/Deploy.php:43-59 | the command succeeds exactly when its last request is a remote run, and that run carries the resolved command list |
| Deploy.FireFuelMonotone | src/Command/Deploy.php:43-59 | a run that did not stop for lack of fuel is the same run, requests and outcome, with any larger fuel |
| Deploy.ShippedCommandList | src/config/config.php:53-64 | with the shipped configuration, all eight commands run, in order, after `cd <root>` |
| Deploy.BlankedCommandDropped | src/Command/Deploy.php:237-238 | a command blanked out to "" is dropped and the others keep their order |
| Deploy.TagMinorRelease | src/Command/Deploy.php:118-170 | deploying an untagged commit to production as `minor` when the nearest tag is 1.2.3 tags `v1.3.0` |

## Left out

- Deploy.Production: requires that a nearest tag that parses has decimal major, minor and patch parts (and a decimal increment when the identifier is truthy), because PHP's loose arithmetic on other text (`"x" + 1`) is not modelled.
- Releases.IncrementTag: requires the same decimal parts, for the same reason.
- Releases.IncrementTag: adds one with unbounded integers. PHP turns a digit string above PHP_INT_MAX (9223372036854775807), and the sum `PHP_INT_MAX + 1`, into a float. Interpolation then prints it in floating-point form: major `9223372036854775807` gives `v9.2233720368548E+18.0.0` in PHP where the model gives `v9223372036854775808.0.0`, and `99999999999999999999` plus one prints as `1.0E+20`. The model's candidates agree with the source only while every incremented part stays below PHP_INT_MAX.
- Deploy.Production: tags with a part beyond PHP_INT_MAX are covered only in the unbounded arithmetic of `Releases.IncrementTag`, for the reason above.
- Releases.CandidatesAreNewer: requires the increment to be decimal even when the pre-release identifier is falsy. Without that, the order between tags is not defined.
- Deploy.CreatedTag: states that the created tag is newer only when every part of the nearest tag is decimal (`FullyNumeric`). A nearest tag with a falsy identifier and a non-decimal fifth part, such as `v1.2.3-0.x`, still tags, but the release order is not defined for it, so the model claims no order there.
- Placeholders.ResolveSingle and Placeholders.ResolveTwo: cover only placeholders written without spaces inside the braces. The general pattern, spaces included, is covered by the scanner lemmas in `Tokens`.
- The `OutOfFuel` error: the source has no such error. It stands for a loop that does not end, and also appears when `fuel` is smaller than the replacements a line needs. `Environment.fuel` is an input, so a run with too little fuel fails where the source succeeds; `Deploy.FireFuelMonotone` shows that enough fuel removes the difference.
- Reading `$_SERVER['argv']` in `specifyParameters`, and `getArguments`/`getOptions`: framework plumbing. The options are given as a map from `set-<name>` to the value.
- Console output (`info`, `error`, `line`) and the `choice` prompt: the prompt's answer is the `picked` input, already mapped back to its key.
- The `git describe` outputs are taken as already trimmed.
- Deploy.Tagging: PHP's loose `!=` on the describe outputs and on the remote name (`src/Command/Deploy.php:126-135`) is modelled as string equality. The describe outputs are non-numeric tag names, so nothing changes for them. The remote argument and `production.name` can be any strings, though, and PHP compares numeric-looking strings as numbers: with remote `01` and production name `1`, or `1e1` and `10`, the source goes on to tag while the model does not.
- Command entries that are neither strings nor arrays (numbers, `null`, booleans) are not modelled. An entry is a line or an array of entries.
- How the SSH library runs nested arrays is outside this code. The remote run carries the resolved tree as it is.
- Strings are sequences of characters. PHP strings are bytes, and the pattern has no multi-byte behaviour that matters here.
- `src/DeployServiceProvider.php` is not part of this model: it is service-container wiring.
