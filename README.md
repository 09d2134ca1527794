# Zer0 Config: sections, YAML tags, parse-error remapping and the CLI sub-tree walk

This project models the core of the Zer0 configuration engine in Dafny and proves what that core promises.

A configuration is a tree of *sections*. Every section has a list of *overlay roots*: the parent's roots, each extended by `/<name>`. A section's data is the left-to-right `array_merge` of every YAML file that the glob pattern `{roots}/{*-,}{default,<env>}.y{a,}ml` finds. Each file is appended to a shared log of loaded files before it is parsed.

A section exposes its data through these accessors:

- `__get`: a name whose first character is an upper-case letter gives a child section, built on first access and cached. Any other name gives `data[name] ?? null`.
- `__set`, `getValue`, `toArray` and `exists`: plain accessors.
- `sectionsList`: the child directory names found one level below the roots.

While a file is parsed, three custom tags are resolved:

- `!path` joins the process root with its argument, leading slashes removed.
- `!env A || B || 3` picks the first alternative that is not null. A name is read from the environment, anything else is parsed as YAML.
- `!map path template` walks a `/` path from the root and expands the template once per item. Inside the template, `!item`, `!item[host]` and `!item[port]` pick parts of the item.

A parser error, an `ErrorException` raised while a file or a `!map` template is parsed, is remapped by `YamlParseError::deriveFromError`. Any other exception is not caught, and propagates unchanged. The new error names the YAML file from the first `yaml_parse_file` frame of the trace, and takes its line and bare reason from the message. The original error is chained as previous.

The `config` command line tool selects a sub-tree with `getSubTree`. The arguments name a chain of sections, and at most one final argument is a filter.

The model is organised by program structure:

- `Wrappers`: `Option` and `Result`.
- `PhpStrings`: the PHP string functions the core relies on. These are `explode`/`implode`, `trim`, `ltrim($s, '/')`, the `(int)` cast, and `dirname`/`basename`.
- `PhpArrays`: PHP's ordered arrays with integer and string keys. This covers `$a[$k] = $v`, `$a[$k] ?? null`, `array_merge`, `array_unique` over a list, and the rule that a numeric string key is stored as an integer.
- `YamlErrors`: matching the error message, scanning the trace, and the remapping itself. It also holds the remapping as written, with its declared return type.
- `Tags`: `callbackPath`, `callbackEnv` and `callbackMap`.
- `ConfigSection`: the constructor's load loop, the shared `FileLog`, and the `Section` class with its cached child sections.
- `CliConfig`: `getSubTree`.

Several behaviours are inputs of the model:

- The process root `ZERO_ROOT`, `glob`, `yaml_parse_file` and `yaml_parse` are held in `ConfigSection.Io`, which is shared through `ConfigSection.Runtime`, or are passed as parameters.
- `$_ENV` is a map.
- Property access and iteration on objects met during a `!map` walk are the `Tags.Objects` oracle.
- `$value->{$arg}` in the command line tool is a lookup function that gives a section, another value, or null.

Where PHP versions differ, PHP 7 behaviour is modelled. For example, `explode` on an array item gives null.

A variable set to the empty string is not skipped by `!env`: `$_ENV[$alt] ?? null` is `""`, which is not null. See `Tags.EnvEmptyVariableWins`.

## Model

| member | source | states |
|---|---|---|
| ConfigSection.LoadFiles | src/Zer0/Config/Section.php:65-95 | Loads the files in glob order. The result is the error of the first file that raises or parses to false, or else the left-to-right `array_merge` of all array documents. A parser error is remapped; any other exception propagates unchanged. The log gains exactly the files processed, in order, up to and including a failing one. |
| ConfigSection.MergeNext | src/Zer0/Config/Section.php:73-92 | One round of the load loop. It fails exactly when this file is the first to stop the load, and the failure is the load's result. Otherwise it gives the merge of the files so far. |
| ConfigSection.ParseChecked | src/Zer0/Config/Section.php:73-89 | A parse stops the load exactly when it raises or returns `false`. A raised `ErrorException` becomes the remapped parse error, and any other exception propagates unchanged. `false` becomes `UnableToReadConfigFile` with the file name past the root's length. |
| ConfigSection.StopError | src/Zer0/Config/Section.php:84-89 | The error of a stopping parse: remapped exactly when the parse raised an `ErrorException`, the raised exception itself for any other class, and `UnableToReadConfigFile` exactly when the parse gave a value. |
| ConfigSection.Loaded | src/Zer0/Config/Section.php:69-95 | A failed load fails with the error of one of its files, and that file's parse stops the load. |
| ConfigSection.Logged | src/Zer0/Config/Section.php:69-72 | The logged files are a prefix of the file list. |
| ConfigSection.RelativePath | src/Zer0/Config/Section.php:88 | For a file under the root, the root followed by the result is the file. |
| ConfigSection.GlobPattern | src/Zer0/Config/Section.php:67 | The pattern opens with `{`, the overlay roots joined by `,`, and `}`, so every root appears in it. It ends in `<sub>/{*-,}{default,<env>}.y{a,}ml`: the `default` and environment files, with or without a prefix, as `.yml` or `.yaml`. A section's own files use an empty `sub` (`OwnFiles`). The files of the sections one level below (line 212 of the same file) use `sub` = `/*` (`ChildSectionFiles`), with the same roots and file names. |
| ConfigSection.FileLog.Append | src/Zer0/Config/Section.php:70-72 | The log only grows: the file is appended at its end. |
| ConfigSection.StopAt | src/Zer0/Config/Section.php:69-89 | The position of the first file whose parse stops the load. No earlier file stops it. |
| ConfigSection.StopAtIsFirst | src/Zer0/Config/Section.php:69-89 | Any position with the properties of the first stopping file is that position. |
| ConfigSection.StoppedAt | src/Zer0/Config/Section.php:84-89 | When file `k` is the first to stop, the load fails with that file's error. The log then holds the files up to and including it. |
| ConfigSection.MergedStep | src/Zer0/Config/Section.php:90-92 | One more file merges its document when that document is an array, and leaves the data unchanged otherwise. |
| ConfigSection.LoadedSucceeds | src/Zer0/Config/Section.php:84-92 | The load succeeds if and only if no file raises or parses to `false`. |
| ConfigSection.LoggedOnFailure | src/Zer0/Config/Section.php:69-89 | The logged files are a prefix of the glob list. On failure the last logged file is the one that failed, and its error is the one raised. A file that parsed to `false` is therefore already logged. |
| ConfigSection.Merged | src/Zer0/Config/Section.php:90-92 | The merged data has distinct keys, and its integer keys are 0, 1, 2, … in order. |
| ConfigSection.LastFileWith | src/Zer0/Config/Section.php:90-92 | Gives the last file, if any, whose array document defines a string key. No later file defines it. |
| ConfigSection.MergedStrKey | src/Zer0/Config/Section.php:90-92 | A string key of the merged data has the value that the last file defining it gives it. Documents that are not arrays contribute nothing. |
| ConfigSection.MergedIntValues | src/Zer0/Config/Section.php:90-92 | Integer-keyed values are never overwritten. The merged list items are every file's list items, appended in order. |
| ConfigSection.Section.Init | src/Zer0/Config/Section.php:58-63 | A new section holds its parent, name, environment, shared log and process, with no data and no cached children. |
| ConfigSection.Section.Create | src/Zer0/Config/Section.php:58-96 | The constructor globs the section's files under the child roots. On success the new section's data is the load's result, with no cached children. The load's error is passed on unchanged. Either way the log grows as the load logs. |
| ConfigSection.Section.GetPath | src/Zer0/Config/Section.php:183-191 | Same length and order as the parent's roots; element `i` is parent root `i` followed by `/name`. |
| ConfigSection.Section.GetValue | src/Zer0/Config/Section.php:263-266 | The value stored under the name's key, or null when that key is absent. |
| ConfigSection.Section.Get | src/Zer0/Config/Section.php:234-247 | An upper-case first letter selects a child section; any other name reads the data and changes nothing. A cached child is returned as it is, without loading anything. A new child is built with this section's name, roots, environment and log, is cached only when it loads, and is itself valid. The data never changes. A valid section stays valid, and no validity is required to call it, so access chains through cached children. |
| ConfigSection.Section.GetTwice | src/Zer0/Config/Section.php:237-243 | Reading a section name a second time gives the identical instance. The log grows only by the first read's files. |
| ConfigSection.Section.Set | src/Zer0/Config/Section.php:253-256 | `data[name] = value`: afterwards the name reads the value, every other name reads what it read before, and the cached children and the section's validity are unchanged. |
| ConfigSection.Section.ToArray | src/Zer0/Config/Section.php:271-274 | Returns the data, entry for entry. |
| ConfigSection.Section.Exists | src/Zer0/Config/Section.php:279-282 | True exactly when some key has a value, that is, when the data is not empty. |
| ConfigSection.Section.SectionsList | src/Zer0/Config/Section.php:204-218 | Distinct names, and a name is listed exactly when it is `basename(dirname(hit))` of some glob hit one level below the roots. The names are listed in the order of their first appearance among the hits. |
| ConfigSection.SectionNames | src/Zer0/Config/Section.php:207-216 | One name per hit, in hit order: the base name of the hit's directory. |
| ConfigSection.IsSectionName | src/Zer0/Config/Section.php:236-237 | A name that selects a child section starts with a letter, so it is never a digit or a minus sign and never names a numeric key. |
| PhpStrings.SectionNameOfHit | src/Zer0/Config/Section.php:206-214 | A hit `dir/child/file` yields the child directory's name. |
| PhpStrings.BasenameOfJoin | src/Zer0/Config/Section.php:208 | `basename(dir/child)` is `child`. |
| PhpStrings.DirnameOfJoin | src/Zer0/Config/Section.php:210 | `dirname(head/file)` is `head` when `head` does not end in a slash. |
| PhpArrays.Unique | src/Zer0/Config/Section.php:206 | `array_unique` over a list: no repeats, and the same set of values. |
| PhpArrays.UniqueInOrder | src/Zer0/Config/Section.php:206 | `array_unique` keeps each value at its first occurrence: the kept values are in the order they first appear. |
| PhpArrays.FirstIndex | src/Zer0/Config/Section.php:206 | The position of a value's first occurrence in a list. |
| PhpArrays.UniqueOfDistinct | src/Zer0/Config/Section.php:206 | A list without repeats comes back unchanged. |
| PhpArrays.ArrayMergeSpec | src/Zer0/Config/Section.php:91 | `array_merge`: the later string key wins, integer-keyed values are appended in order, and the result has distinct keys numbered 0, 1, 2, …. |
| PhpArrays.ArrayMergeStrKey | src/Zer0/Config/Section.php:91 | A string key of the merge holds the second array's value when it has one, else the first's. |
| PhpArrays.ArrayMergeInts | src/Zer0/Config/Section.php:91 | The integer-keyed values of the merge are those of the first array followed by those of the second. |
| PhpArrays.ArrayMerge | src/Zer0/Config/Section.php:91 | The merge has distinct keys and renumbered integer keys. |
| PhpArrays.Assign | src/Zer0/Config/Section.php:255 | Assignment keeps every existing key in place. It appends the key when the key is new. |
| PhpArrays.AssignLookup | src/Zer0/Config/Section.php:255 | After `a[k] = v`, `k` reads `v` and every other key reads what it read before. |
| PhpArrays.Lookup | src/Zer0/Config/Section.php:246 | `a[k] ?? null` finds a value exactly when some entry has the key `k`, and that value is stored under `k`. |
| PhpArrays.KeyOf | src/Zer0/Config/Section.php:255 | A string is stored as an integer key exactly when it is an integer's canonical decimal spelling; any other string is kept as it is. |
| PhpArrays.DistinctLookup | src/Zer0/Config/Section.php:246 | With distinct keys, the first and the last entry of a key are the same. |
| PhpArrays.KeyOfName | src/Zer0/Config/Section.php:246 | A name that starts with neither a digit nor a minus sign is a string key. |
| PhpArrays.KeyOfDecimal | src/Zer0/Config/Section.php:117 | The decimal spelling of an integer in the 64-bit range is stored under that integer. |
| Tags.CallbackPath | src/Zer0/Config/Section.php:175-178 | The root, a slash, then the argument with exactly its run of leading slashes removed. |
| Tags.CallbackPathIgnoresLeadingSlashes | src/Zer0/Config/Section.php:177 | Adding any number of leading slashes to the argument does not change the result. |
| Tags.CallbackPathPlain | src/Zer0/Config/Section.php:177 | An argument without a leading slash is appended as it is. |
| Tags.CallbackPathExample | src/Zer0/Config/Section.php:175-178 | `!path /x/y` and `!path x/y` both resolve to `<root>/x/y`. |
| PhpStrings.Implode | src/Zer0/Config/Section.php:67 | `implode` of a non-empty list starts with its first element, and a single element comes back as it is. |
| PhpStrings.LTrimSlashes | src/Zer0/Config/Section.php:177 | `ltrim($s, '/')` keeps a suffix of `s`. Everything dropped is a slash, and what is kept does not start with one. |
| Tags.Alternative | src/Zer0/Config/Section.php:158-163 | An alternative that names a variable never raises. It is null exactly when the variable is not set. |
| Tags.EnvValue | src/Zer0/Config/Section.php:157-168 | The value of `!env` is null or the value of one of its alternatives. |
| Tags.Decisive | src/Zer0/Config/Section.php:157-167 | The position of the first alternative that is not null. Every earlier alternative is null. |
| Tags.DecisiveIsFirst | src/Zer0/Config/Section.php:157-167 | Any position with those properties is that position. |
| Tags.CallbackEnv | src/Zer0/Config/Section.php:155-168 | The early-return loop gives the first alternative that is not null, or an error its parse raised, or null when every alternative is null. |
| Tags.EnvFirstNonNullWins | src/Zer0/Config/Section.php:164-166 | After a run of null alternatives, the first one that is not null decides the result. |
| Tags.EnvAllNull | src/Zer0/Config/Section.php:157-168 | When every alternative is null the tag gives null. |
| Tags.EnvResultIsAnAlternative | src/Zer0/Config/Section.php:157-167 | A result that is not null comes from some alternative, and every alternative before it is null. |
| Tags.EnvThirdAlternative | src/Zer0/Config/Section.php:157-167 | With three alternatives of which the first two are null, the third decides. |
| Tags.EnvEmptyVariableWins | src/Zer0/Config/Section.php:159-160 | A variable that is set to the empty string gives `""`; it is not skipped. |
| Tags.ExampleAlternatives | src/Zer0/Config/Section.php:157 | The `!env` argument `A`, `B`, `3` joined by double bars with spaces splits into `"A "`, `" B "` and `" 3"`. |
| Tags.ExampleTrims | src/Zer0/Config/Section.php:158 | Trimming those gives `A`, `B` and `3`. |
| Tags.TrimAround | src/Zer0/Config/Section.php:158 | `trim` drops one space on either side of a single non-space character. |
| Tags.ExampleValues | src/Zer0/Config/Section.php:158-163 | Unset `A` and `B` are null, and `3` is parsed. |
| Tags.EnvExample | src/Zer0/Config/Section.php:155-168 | The `!env` alternatives `A`, `B`, `3` give the integer 3 when neither A nor B is set. |
| PhpStrings.Trim | src/Zer0/Config/Section.php:158 | `trim` keeps the middle of the string, and the result neither starts nor ends with a trim character. |
| PhpStrings.Explode | src/Zer0/Config/Section.php:157 | `explode` always gives at least one piece, even for the empty string. |
| PhpStrings.ImplodeExplode | src/Zer0/Config/Section.php:157 | Joining the pieces of `explode` with the separator gives back the argument. |
| PhpStrings.ExplodePiecesAreFree | src/Zer0/Config/Section.php:157 | No piece of `explode` contains the separator. |
| PhpStrings.ExplodeFirstIsPrefix | src/Zer0/Config/Section.php:136 | The first piece of `explode` is a prefix of the argument. |
| PhpStrings.ExplodeWithout | src/Zer0/Config/Section.php:136 | Text in which the separator never occurs explodes into itself alone. |
| PhpStrings.ExplodeAtFirst | src/Zer0/Config/Section.php:136 | `explode` splits at the first occurrence of the separator: when no occurrence starts inside `h`, `h` is the first piece and the rest is exploded on its own. |
| PhpStrings.FirstCharAbsent | src/Zer0/Config/Section.php:136 | Text missing the separator's first character has no occurrence of the separator, also where it runs into a following separator. |
| PhpStrings.ImplodeHasPart | src/Zer0/Config/Section.php:67 | Every element of an `implode` occurs in the joined string. |
| Tags.SplitAtWhitespace | src/Zer0/Config/Section.php:113 | `preg_split('~\s+~', s, 2)`. The first part is the white-space-free prefix. The second part, when present, is the rest after the first run of white space and starts with no white space. |
| Tags.SplitAtSpace | src/Zer0/Config/Section.php:113 | A path and a template joined by one space split back into the two. |
| Tags.WalkPath | src/Zer0/Config/Section.php:115-123 | A walk that fails names the whole path and one of its segments. |
| Tags.WalkAppend | src/Zer0/Config/Section.php:115-123 | Walking `xs + ys` is walking `xs`, then walking `ys` from where that ended. |
| Tags.Items | src/Zer0/Config/Section.php:125 | `foreach` over an array visits its values in order, and over a scalar visits nothing. |
| Tags.CallbackMap | src/Zer0/Config/Section.php:111-148 | The two loops compute the `!map` value: the walk's error, an empty list when there are no items, the template's parse error (remapped when it is an `ErrorException`), or one expansion per item keyed 0, 1, …. |
| Tags.MapValue | src/Zer0/Config/Section.php:111-148 | A `!map` value is a list keyed 0, 1, …. An unreachable path is reported with the path and one of its segments. Any other error comes from parsing the template. |
| Tags.UnreachableMessage | src/Zer0/Config/Section.php:121 | An unreachable path raises a `RuntimeException` whose message names the path and then the segment. |
| Tags.CaughtTemplateError | src/Zer0/Config/Section.php:143-145 | A template parse error is remapped exactly when it is an `ErrorException`; any other exception escapes unchanged. |
| Tags.ItemText | src/Zer0/Config/Section.php:136-139 | An item has no text exactly when it is an array or an object; a string is its own text. |
| Tags.ItemHost | src/Zer0/Config/Section.php:135-137 | `!item[host]` is null exactly when the item has no text; otherwise it is a prefix of the text without a colon. |
| Tags.ItemPort | src/Zer0/Config/Section.php:138-140 | `!item[port]` is always an integer: the cast default when the item has no text or no colon. |
| Tags.TagValue | src/Zer0/Config/Section.php:132-141 | `!item[port]` always gives an integer. `!item[host]` gives null exactly when the item has no text. |
| Tags.Expand | src/Zer0/Config/Section.php:127-142 | A mapping or sequence template expands to an array with the same keys in the same order. |
| Tags.MapUnreachable | src/Zer0/Config/Section.php:115-122 | Reaching a value that is neither an array nor an object with segments left fails, naming the next segment. |
| Tags.MapNoItems | src/Zer0/Config/Section.php:124-125 | With nothing to iterate the result is an empty list, whatever the template. |
| Tags.MapTemplateError | src/Zer0/Config/Section.php:143-145 | A template that fails to parse raises the remapped parse error when the parser raised an `ErrorException`, and the parser's exception unchanged otherwise. |
| Tags.MapExpands | src/Zer0/Config/Section.php:124-147 | Otherwise the result lists the template's expansion for every item, in item order. |
| Tags.ItemHostOfText | src/Zer0/Config/Section.php:135-137 | `!item[host]` is the text before the first colon, or the whole text when it has none. |
| Tags.ItemPortOfText | src/Zer0/Config/Section.php:138-140 | `!item[port]` is the number after the colon, or the cast default when there is no colon. |
| Tags.HostsWalk | src/Zer0/Config/Section.php:114-125 | From a root object whose `hosts` property is `["a:1", "b"]`, the path `hosts` reaches that list, whose items are its values. |
| Tags.HostSplit | src/Zer0/Config/Section.php:113 | `hosts !item[host]` splits into path and template. |
| Tags.PortSplit | src/Zer0/Config/Section.php:113 | `hosts !item[port] 80` splits into path and template. |
| Tags.HostExpansions | src/Zer0/Config/Section.php:135-137 | Over `["a:1", "b"]`, `!item[host]` gives `["a", "b"]`. |
| Tags.PortExpansions | src/Zer0/Config/Section.php:138-140 | Over `["a:1", "b"]`, `!item[port] 80` gives `[1, 80]`. |
| Tags.PortWithColon | src/Zer0/Config/Section.php:139 | The port of `a:1` is 1. |
| Tags.PortWithoutColon | src/Zer0/Config/Section.php:139 | The port of `b` is the default 80. |
| Tags.Decimals | src/Zer0/Config/Section.php:139 | The decimal spellings of 1 and 80. |
| Tags.MapHostExample | src/Zer0/Config/Section.php:111-148 | From a root object whose `hosts` property is `["a:1", "b"]`, `!map hosts !item[host]` gives `["a", "b"]`. |
| Tags.MapPortExample | src/Zer0/Config/Section.php:111-148 | From the same root object, `!map hosts !item[port] 80` gives `[1, 80]`. |
| PhpStrings.IntCast | src/Zer0/Config/Section.php:139 | The `(int)` cast of a non-empty run of digits is the number they spell. |
| PhpStrings.Dirname | src/Zer0/Config/Section.php:210 | `dirname` of a non-empty path is never empty. |
| PhpStrings.Basename | src/Zer0/Config/Section.php:208 | `basename` is no longer than the path and contains no slash. |
| PhpStrings.IntCastDecimal | src/Zer0/Config/Section.php:139 | The `(int)` cast of a decimal spelling gives back its number. |
| PhpStrings.DecimalRoundTrip | src/Zer0/Config/Exceptions/YamlParseError.php:30 | The value of the decimal spelling of `n` is `n`. |
| YamlErrors.MatchMessage | src/Zer0/Config/Exceptions/YamlParseError.php:28 | An accepted message starts with `yaml_parse_file(): `. Its reason has no newline, and its line and column are not empty. |
| YamlErrors.MatchBodyOfFormat | src/Zer0/Config/Exceptions/YamlParseError.php:28 | After the prefix, the pattern reads back the reason, line and column of a formatted message. |
| YamlErrors.DropNewlineOf | src/Zer0/Config/Exceptions/YamlParseError.php:28 | `$` matches at the end or before one final newline. |
| YamlErrors.MatchAfterPrefix | src/Zer0/Config/Exceptions/YamlParseError.php:28 | With the prefix in front, with or without a final newline, the match is the match of the rest. |
| YamlErrors.FormatSplit | src/Zer0/Config/Exceptions/YamlParseError.php:28 | A formatted message is the prefix followed by the part the body matcher reads. |
| YamlErrors.MatchFormatted | src/Zer0/Config/Exceptions/YamlParseError.php:28-29 | The pattern accepts every `yaml_parse_file(): R (line L, column C)` message, with or without one final newline, and captures R, L and C. |
| YamlErrors.MatchedBodyIsFormatted | src/Zer0/Config/Exceptions/YamlParseError.php:28 | Whatever the body matcher accepts is a formatted body of its own captures. |
| YamlErrors.DigitRun | src/Zer0/Config/Exceptions/YamlParseError.php:28 | A trailing run of digits consists of digits (the `\d+` groups). |
| YamlErrors.MatchedIsFormatted | src/Zer0/Config/Exceptions/YamlParseError.php:28-29 | Conversely, every accepted message is the formatted message of its captures, possibly with a final newline. The captures are therefore unique. |
| YamlErrors.FirstYamlFrame | src/Zer0/Config/Exceptions/YamlParseError.php:33-38 | The position of the first `yaml_parse_file` frame. No earlier frame is one. |
| YamlErrors.Derive | src/Zer0/Config/Exceptions/YamlParseError.php:28-48 | The original error comes back exactly when there is no `yaml_parse_file` frame or the first one has no arguments. Otherwise the result is a `YamlParseError` with code 0, the original as previous, the file of the first such frame, and the trace without its first frame. |
| YamlErrors.DeriveFromError | src/Zer0/Config/Exceptions/YamlParseError.php:16-55 | The scan with `break` and the field writes compute the remapping: the original error when there is no file, else a `YamlParseError` built from the frame's file. |
| YamlErrors.DeriveRemaps | src/Zer0/Config/Exceptions/YamlParseError.php:28-47 | For a formatted message under a `yaml_parse_file` frame, the new error has message R, line `(int)L` and that frame's `args[0]` as file. The original is its previous, and its trace is the original trace without its first frame. The column is not used. |
| YamlErrors.DeriveMatched | src/Zer0/Config/Exceptions/YamlParseError.php:28-47 | The same for any message the pattern accepts. |
| YamlErrors.DeriveFallback | src/Zer0/Config/Exceptions/YamlParseError.php:39-41 | Without a `yaml_parse_file` frame the original error comes back unchanged. |
| YamlErrors.DeriveFirstFrameOnly | src/Zer0/Config/Exceptions/YamlParseError.php:33-41 | Only the first `yaml_parse_file` frame counts. When it has no arguments the original comes back, whatever later frames hold. |
| YamlErrors.DeriveAsWritten | src/Zer0/Config/Exceptions/YamlParseError.php:16-48 | With the declared `: self` return type enforced, a `TypeError` is raised exactly when the remapping falls back to the original error. |
| YamlErrors.AsWrittenFallbackRaises | src/Zer0/Config/Exceptions/YamlParseError.php:16-41 | As written, an error without a `yaml_parse_file` frame makes the method raise a `TypeError`. |
| YamlErrors.AsWrittenCounterexample | src/Zer0/Config/Exceptions/YamlParseError.php:16-41 | A concrete parser error with an empty trace triggers that `TypeError`. |
| YamlErrors.AsWrittenRemapAgrees | src/Zer0/Config/Exceptions/YamlParseError.php:43-48 | The remapping branch returns its `YamlParseError` as declared. |
| CliConfig.Walk | src/Zer0/Cli/Controllers/Config.php:53-69 | The walk consumes at most all arguments. Without a filter it consumes all of them; with one, the filter is the last argument consumed. An argument reported missing is one of the arguments. |
| CliConfig.SubTreeOf | src/Zer0/Cli/Controllers/Config.php:46-75 | A failure names one of the arguments as not found. A filter, when there is one, is the last argument. |
| CliConfig.WordAccepted | src/Zer0/Cli/Controllers/Config.php:55 | A non-empty run of `\w` characters passes the word test, with or without one final newline. |
| CliConfig.WordShape | src/Zer0/Cli/Controllers/Config.php:55 | Conversely, a word starts with a `\w` character, and every character before its last is one. |
| CliConfig.GetSubTree | src/Zer0/Cli/Controllers/Config.php:46-75 | The loop with its counter, `break` and post-loop check gives the sub-tree the walk selects, or the `InvalidArgument` it raises. |
| CliConfig.ChainTail | src/Zer0/Cli/Controllers/Config.php:59-62 | What follows the first section of a chain is a chain from that section. |
| CliConfig.WalkAlongChain | src/Zer0/Cli/Controllers/Config.php:53-62 | A walk along a chain of sections continues from the last of them, under its name. |
| CliConfig.AllSections | src/Zer0/Cli/Controllers/Config.php:48-74 | When every argument names a section, the result is the deepest section, keyed by the last argument, with no filter. With no arguments it is the app environment and the root config. |
| CliConfig.MissingName | src/Zer0/Cli/Controllers/Config.php:66-67 | A word naming nothing, reached along sections, raises `InvalidArgument` naming it. |
| CliConfig.FilterIsLast | src/Zer0/Cli/Controllers/Config.php:55-72 | A non-word, or a word naming a value, becomes the filter. If it is the last argument it is returned with the current key and section. Otherwise the argument right after it is reported. |
| CliConfig.FilterIsLastArgument | src/Zer0/Cli/Controllers/Config.php:55-74 | A selected sub-tree with a filter always has the last argument as that filter. |

## Left out

- `Section::lastModified` is not modelled. It reads the modification time of a file, which is I/O, through a property the class never defines.
- `glob` is not modelled. The file lists it gives are the `Io.glob` input, taken in their given order.
- `yaml_parse_file` and `yaml_parse` are not modelled. They are the `Io.parseFile` and parser inputs, and their grammar is foreign code.
- The callbacks are not shown wired into the parser. The three tag callbacks are modelled as functions of their argument and inputs; the parser's calls into them are part of the parser input.
- `ZERO_ROOT` and `$_ENV` are not modelled as globals. They are the `Io.zeroRoot` field and an `Env` parameter.
- `root()` and root bootstrapping are not modelled. The root configuration is not part of this model: a top-level section's parent is `null`, its parent's roots are a parameter, and the `!map` walk starts from a given root value.
- The reflection mechanics of `deriveFromError` are not modelled. The `setAccessible` calls and the `finally` block are left out; the new error is built as a record holding the fields the code writes.
- PHP notices and warnings stay non-fatal. Undefined index, undefined offset and `foreach` over a scalar take PHP's defaults (null, no iteration); an error handler that turns them into `ErrorException` is not modelled.
- `Tags.Objects` is an oracle for properties and iteration of objects met during a `!map` walk. Its side effects are not modelled; reading a `Section` property there can load and log files.
- `CliConfig.GetSubTree`: the lookup `$value->{$arg}` is total. A section that fails to load during the lookup, which raises from `__get`, is not modelled.
- `ConfigSection.Section.SectionsList` returns the values `array_unique` keeps, in order. The integer keys with gaps that `array_unique` preserves are not modelled.
- `ConfigSection.ParseChecked` and `Tags.CallbackMap` use the corrected remapping, `YamlErrors.DeriveFromError`. As written, a raised `ErrorException` without a `yaml_parse_file` frame becomes a `TypeError` (see Findings).
- `YamlErrors.Derive` does not saturate `(int) $line` at the 64-bit bounds: the line is the unbounded value of its digits.
- Strings are sequences of code points, not PHP's byte strings. Lengths, `substr` offsets and the character classes count characters, not bytes.
- `PhpStrings.IntCast` does not model saturation at the 64-bit bounds, nor the exponent and float forms that PHP's `(int)` cast accepts in numeric strings. Integers are unbounded.
- `Tags.ItemText` has no string form for floats, because YAML floats are not representable in `PhpArrays.Value` at all: a parsed document holding `ratio: 0.5` is outside the model, and so is the `(string)` cast of a float item.
- `Tags.TagValue` gives its text for any tag other than the three `!item` tags. The parser's own tags belong to the parser input.
- The `config` tool's presentation actions (`drawLevel`, `yamlAction`, `treeAction`, `fmtAction`, `colorfulJson`) are not modelled: they are terminal and shell I/O.

## Findings

| source | as written | input that shows it | evidently intended | confidence | as-written member | corrected member |
|---|---|---|---|---|---|---|
| src/Zer0/Config/Exceptions/YamlParseError.php:16-41 | `deriveFromError` is declared `: self` but returns the original `ErrorException` when no trace frame is a `yaml_parse_file` call, so PHP raises a `TypeError` instead | an `ErrorException` with message `yaml_parse_file(): mapping values are not allowed (line 4, column 7)` and an empty trace | as the docblock's return annotation (an `ErrorException` or a `YamlParseError`) says: hand back the original error unchanged | not executed | YamlErrors.DeriveAsWritten | YamlErrors.DeriveFromError |
