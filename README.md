# winsw service descriptor: configuration values, modelled in Dafny

winsw is a wrapper that runs any executable as a Windows service. It reads an
XML service descriptor, and its `ServiceDescriptor` class turns the raw elements
and attributes of that document into typed settings. Those settings are the
command lines, the working directory, the timeouts, the log settings, the failure
actions, the service account and the environment overrides. This project models
that derivation layer and proves what each accessor returns. It covers which
element wins, what the defaults are, how durations with unit suffixes are read,
and how arguments are quoted and joined. It also covers which inputs raise which
exception, and how the environment table is built and copied.

Modules, one per file:

- `Outcomes` (outcomes.dfy): `Option` stands for a nullable .NET reference. `Result` is a value or the exception thrown.
- `Settings` (settings.dfy): the exceptions with their messages, the environment-variable expander, and the built-in defaults.
- `Xml` (xml.dfy): the document as a tree of elements, each with a tag, inner text, an attribute map and children. `//tag` lookups run over the document-order listing of all its elements.
- `Strings` (strings.dfy): `string.Trim` and the ordinal `StartsWith`/`EndsWith`.
- `Numbers` (numbers.dfy): `int.Parse`/`int.TryParse` with `NumberStyles.Integer`, `bool.TryParse`, and the renderings they invert.
- `Durations` (durations.dfy): the `Suffix` unit table, the order-free reading of a duration, and `ParseTimeSpan` as the loop over the table.
- `Arguments` (arguments.dfy): `AppendTags` and the three argument accessors.
- `OnFailure` (failure_actions.dfy): the decoding of `onfailure` elements into `SC_ACTION` values.
- `Descriptor` (descriptor.dfy): `SingleElement` and its callers, `WorkingDirectory`, `LogMode`, the service account, `StopParentProcessFirst`, `ServiceDependencies`, and the `.vshost` stripping.
- `LogSettings` (log_settings.dfy): the numeric settings of the log element.
- `Environment` (environment.dfy): the `Dictionary` of environment overrides as a class, its loading loop, and the copy `EnvironmentVariables` returns.

Durations are integer milliseconds. Every member that reads a duration takes the
unit table as a parameter `table`; the source always passes `Suffix`. The reading
`DurationWith` follows the source's loop: it uses the first entry whose key the
trimmed text ends with. The lemmas that read a duration without naming the entry
order require `KeysDisjoint(table)`: no key of the table ends with another key.
`SuffixKeysDisjoint` proves that `Suffix` meets this requirement, and the
`DurationOf...` example lemmas use the table `Suffix`.

Two null checks of the source are unreachable, because `SelectNodes` never
returns null. They are the branches of `FailureActions` and `ServiceDependencies`
that return an empty array or the default when the node list is null, and they
are not modelled. Reading `.Value` of a missing `action` attribute in
`FailureActions`, and dereferencing a null log element in `XmlLogSettings`, throw
a NullReferenceException. Both are modelled as the `NullReference` error.

## Model

| member | source | states |
|---|---|---|
| Durations.SuffixKeysDisjoint | src/Core/WinSWCore/ServiceDescriptor.cs:160-173 | No key of the unit table ends with a different key: "secs" does not end with "sec", "hours" does not end with "hour", and "ms" ends no other key. |
| Durations.AtMostOneMatch | src/Core/WinSWCore/ServiceDescriptor.cs:149-155 | With disjoint keys, two entries whose keys a text ends with are the same entry. |
| Durations.Scaled | src/Core/WinSWCore/ServiceDescriptor.cs:153 | `int.Parse(text) * factor`. It fails with a FormatException carrying the text exactly when the text is not an integer. |
| Durations.FirstMatch | src/Core/WinSWCore/ServiceDescriptor.cs:149-155 | An entry it finds is in the table, and the text ends with that entry's key. |
| Durations.FirstMatchNone | src/Core/WinSWCore/ServiceDescriptor.cs:149-157 | No entry is found exactly when the text ends with no key of the table. |
| Durations.FirstMatchAt | src/Core/WinSWCore/ServiceDescriptor.cs:149-155 | Entry k is found when its key matches and no earlier key does, as in the loop's early return. |
| Durations.FirstMatchAbsent | src/Core/WinSWCore/ServiceDescriptor.cs:149-157 | When no key matches, no entry is found and the loop falls through. |
| Durations.DurationOfMatch | src/Core/WinSWCore/ServiceDescriptor.cs:146-155 | With disjoint keys, a trimmed text that ends with the key of any entry is read with that entry: the text before the key is trimmed and scaled by the entry's factor. |
| Durations.DurationOfNoMatch | src/Core/WinSWCore/ServiceDescriptor.cs:146-157 | A trimmed text that ends with no key is read whole as milliseconds. |
| Durations.ParseTimeSpan | src/Core/WinSWCore/ServiceDescriptor.cs:146-158 | The loop over the table, with its early return at the first matching key, computes exactly `DurationWith`. |
| Durations.NotEndsWith | src/Core/WinSWCore/ServiceDescriptor.cs:151 | A text does not end with a longer text, nor with a text that differs from it at some position counted from the end. |
| Durations.SuffixPairDisjointLow | src/Core/WinSWCore/ServiceDescriptor.cs:160-173 | None of the first six keys of the unit table ends with a different key of the table. |
| Durations.SuffixPairDisjointHigh | src/Core/WinSWCore/ServiceDescriptor.cs:160-173 | None of the last five keys of the unit table ends with a different key of the table. |
| Durations.DurationIgnoresOrder | src/Core/WinSWCore/ServiceDescriptor.cs:146-173 | Two tables with the same entries read every text the same way, so the dictionary's enumeration order does not matter. |
| Durations.DurationOfNumberAndUnit | src/Core/WinSWCore/ServiceDescriptor.cs:146-173 | A written integer n, then a key of the table, with white space before, between and after, reads as n times the key's factor. |
| Durations.DurationOfPlainNumber | src/Core/WinSWCore/ServiceDescriptor.cs:157 | When no key of the table ends in a digit, a padded written integer n reads as n milliseconds. |
| Durations.DurationWithBadNumber | src/Core/WinSWCore/ServiceDescriptor.cs:151-153 | When the text ends with a key but what precedes the key is not an integer, the result is a FormatException carrying that text, trimmed. |
| Durations.DurationOfSuffixEntry | src/Core/WinSWCore/ServiceDescriptor.cs:160-173 | For each of the eleven entries of `Suffix`, a padded number followed by the key gives the number times the entry's factor in milliseconds. |
| Durations.DurationOfNumber | src/Core/WinSWCore/ServiceDescriptor.cs:157 | With `Suffix`, a padded number without a unit is that many milliseconds. |
| Durations.DurationOfSixtySec | src/Test/winswTests/ServiceDescriptorTests.cs:157-165 | "60sec" is 60 seconds. |
| Durations.DurationOfTenMin | src/Test/winswTests/ServiceDescriptorTests.cs:168-176 | "10min" is 10 minutes. |
| Durations.DurationOfTwentyMin | src/Test/winswTests/ServiceDescriptorTests.cs:325-334 | "20 min" is 20 minutes. |
| Durations.DurationOfThreeHrs | src/Test/winswTests/ServiceDescriptorTests.cs:364-368 | "3 hrs" is 3 hours. |
| Durations.DurationOfSeventyFiveSec | src/Test/winswTests/ServiceDescriptorTests.cs:371-375 | "75 sec" is 75 seconds. |
| Durations.DurationOfThirtyFiveSecs | src/Test/winswTests/ServiceDescriptorTests.cs:378-382 | "35 secs" is 35 seconds. |
| Durations.DurationOfFiveHundred | src/Core/WinSWCore/ServiceDescriptor.cs:157 | "500" is 500 milliseconds. |
| Numbers.ParsePaddedIntToString | src/Core/WinSWCore/ServiceDescriptor.cs:153 | `int.Parse` gives back any integer written in decimal, with number white space around it. |
| Numbers.ParseIntOfIntToString | src/Core/WinSWCore/ServiceDescriptor.cs:137 | `int.Parse` inverts the decimal rendering of an integer. |
| Numbers.TryParseBoolOfBoolToString | src/Core/WinSWCore/ServiceDescriptor.cs:669-672 | `bool.TryParse` reads back "True"/"False" and "true"/"false" with any white-space or NUL padding. |
| Numbers.TryParseBoolRejectsTrue1 | src/Test/winswTests/ServiceDescriptorTests.cs:296-308 | "true1" is not a boolean. |
| Strings.TrimStartBy | src/Core/WinSWCore/ServiceDescriptor.cs:148 | The result is a suffix of the text that does not start with a trimmed character, and everything removed before it is trimmed characters. |
| Strings.TrimEndBy | src/Core/WinSWCore/ServiceDescriptor.cs:148 | The result is a prefix of the text that does not end with a trimmed character, and everything removed after it is trimmed characters. |
| Strings.TrimBy | src/Core/WinSWCore/ServiceDescriptor.cs:148 | The trimmed text neither starts nor ends with a trimmed character. |
| Strings.TrimOfPadded | src/Core/WinSWCore/ServiceDescriptor.cs:148 | Trimming removes exactly the padding around a text whose ends are not white space. |
| Xml.Select | src/Core/WinSWCore/ServiceDescriptor.cs:292 | `SelectNodes("//tag")` keeps exactly the elements with the tag, in document order. |
| Xml.First | src/Core/WinSWCore/ServiceDescriptor.cs:119 | `SelectSingleNode("//tag")` is null exactly when no element has the tag, and is otherwise the first one `SelectNodes` lists. |
| Xml.GetAttribute | src/Core/WinSWCore/ServiceDescriptor.cs:341-342 | `XmlElement.GetAttribute` gives the value, or "" (not null) when the attribute is absent. |
| Arguments.Quote | src/Core/WinSWCore/ServiceDescriptor.cs:300-311 | A token is kept when already quoted at both ends or when it has no space. Otherwise it is wrapped in double quotes. A written token with a space is always quoted at both ends. |
| Arguments.QuoteOfUnquoted | src/Core/WinSWCore/ServiceDescriptor.cs:300-311 | A non-empty token that does not begin with a quote and holds no space is written as it is. |
| Arguments.QuoteIdempotent | src/Core/WinSWCore/ServiceDescriptor.cs:300-311 | Quoting a written token again changes nothing. |
| Arguments.QuoteWraps | src/Core/WinSWCore/ServiceDescriptor.cs:306-311 | An unquoted token holding a space is changed: the result is quoted at both ends, and dropping its first and last characters gives the token back. |
| Arguments.QuoteForgetsWrapping | src/Core/WinSWCore/ServiceDescriptor.cs:300-311 | An unquoted token with a space and the same token already wrapped in quotes are written identically, so the command line does not tell them apart. |
| Arguments.JoinArgumentsLeadingSpace | src/Core/WinSWCore/ServiceDescriptor.cs:294-316 | The joined line is empty exactly when there are no tokens. Otherwise it starts with the space written before the first token. |
| Arguments.JoinArgumentsAppend | src/Core/WinSWCore/ServiceDescriptor.cs:294-316 | Joining a concatenation of token lists is concatenating their joins: each token contributes on its own. |
| Arguments.JoinArgumentsOfPrefix | src/Core/WinSWCore/ServiceDescriptor.cs:296-315 | One more element adds one space and its expanded, quoted text at the end. |
| Arguments.AppendTags | src/Core/WinSWCore/ServiceDescriptor.cs:283-319 | The result is the default exactly when no element has the tag. Otherwise it is the joined, expanded texts of all such elements, in document order. |
| Arguments.Arguments | src/Core/WinSWCore/ServiceDescriptor.cs:190-205 | When any argument element exists, it alone decides. Otherwise the expanded first arguments element is used, and then the default. |
| Arguments.StartArguments | src/Core/WinSWCore/ServiceDescriptor.cs:210-225 | The same precedence, with startargument and startarguments, giving null when neither exists. |
| Arguments.StopArguments | src/Core/WinSWCore/ServiceDescriptor.cs:230-245 | The same precedence, with stopargument and stoparguments, giving null when neither exists. |
| Arguments.ArgumentsOfThree | src/Core/WinSWCore/ServiceDescriptor.cs:283-319 | Three argument elements give a space and the quoted token for each, in document order. |
| Arguments.ArgumentsOverrideLegacy | src/Core/WinSWCore/ServiceDescriptor.cs:190-205 | A legacy arguments element before two argument elements contributes nothing to the line. |
| Arguments.ArgumentsOfThreeTestElements | src/Test/winswTests/ServiceDescriptorTests.cs:404-415 | Three argument elements give " --arg1=2 --arg2=123 --arg3=null". |
| Arguments.ArgumentsOfLegacyTestDocument | src/Test/winswTests/ServiceDescriptorTests.cs:418-426 | With a legacy arguments element as well, the line is " --arg2=123 --arg3=null". |
| OnFailure.ParseActionType | src/Core/WinSWCore/ServiceDescriptor.cs:617-623 | Any action word other than the three throws "Invalid failure action: " followed by the word. |
| OnFailure.ParseActionTypeOfName | src/Core/WinSWCore/ServiceDescriptor.cs:617-623 | A word maps to a kind exactly when it is that kind's name: "restart", "none" and "reboot" map to RESTART, NONE and REBOOT. |
| OnFailure.ParseActionTypeAccepts | src/Core/WinSWCore/ServiceDescriptor.cs:617-623 | Exactly the three case-sensitive words are accepted. |
| OnFailure.DecodeFailureAction | src/Core/WinSWCore/ServiceDescriptor.cs:615-625 | A missing action attribute is a null dereference, and an unknown action is the action exception. A decoded action names the attribute's kind. Its delay is zero without a delay attribute, and otherwise the attribute read as a duration. |
| OnFailure.DecodeNode | src/Core/WinSWCore/ServiceDescriptor.cs:615-625 | The loop body's switch and delay parse compute exactly `DecodeFailureAction`. |
| OnFailure.FailureActions | src/Core/WinSWCore/ServiceDescriptor.cs:602-630 | On success there is one entry per onfailure element, each the decoding of that element, in document order. On failure, the exception is that of the first element that does not decode. |
| OnFailure.FirstFailureUnique | src/Core/WinSWCore/ServiceDescriptor.cs:609-626 | There is only one first failing element, so the exception of a failed walk is determined by the document. |
| OnFailure.DecodeOfActionAndDelay | src/Core/WinSWCore/ServiceDescriptor.cs:615-625 | An element with a valid action word and a readable delay decodes to that kind and that delay. |
| Descriptor.StripVsHost | src/Core/WinSWCore/ServiceDescriptor.cs:49-51 | A base name ending in ".vshost" loses exactly that suffix. Any other name is kept. |
| Descriptor.StripVsHostOfAppended | src/Core/WinSWCore/ServiceDescriptor.cs:49-51 | Stripping undoes appending ".vshost" once. |
| Descriptor.SingleElement | src/Core/WinSWCore/ServiceDescriptor.cs:117-124 | A missing required element throws "<tag> is missing in configuration XML". A missing optional element gives null. Otherwise the result is the expanded text of the first element. |
| Descriptor.SingleTimeSpanElement | src/Core/WinSWCore/ServiceDescriptor.cs:140-144 | With the element absent the default is returned. Otherwise the result is its expanded text read as a duration. |
| Descriptor.SingleTimeSpanElementOfNumberAndUnit | src/Core/WinSWCore/ServiceDescriptor.cs:140-173 | An element holding a padded number and unit key gives that number of units. |
| Descriptor.SingleTimeSpanElementOfBadNumber | src/Core/WinSWCore/ServiceDescriptor.cs:140-158 | An element whose expanded, trimmed text ends with a unit key, but whose text before the key is not an integer, is a FormatException carrying that text, trimmed. |
| Descriptor.WaitHint | src/Core/WinSWCore/ServiceDescriptor.cs:556 | The waithint element read as a duration, or the default wait hint. |
| Descriptor.SleepTime | src/Core/WinSWCore/ServiceDescriptor.cs:563 | The sleeptime element read as a duration, or the default sleep time. |
| Descriptor.ResetFailureAfter | src/Core/WinSWCore/ServiceDescriptor.cs:632 | The resetfailure element read as a duration, or the default reset period. |
| Descriptor.StopTimeout | src/Core/WinSWCore/ServiceDescriptor.cs:684 | The stoptimeout element read as a duration, or the default stop timeout. |
| Descriptor.WorkingDirectory | src/Core/WinSWCore/ServiceDescriptor.cs:247-254 | The expanded workingdirectory element, or the default when it is absent or expands to "". |
| Descriptor.WorkingDirectoryNonEmpty | src/Core/WinSWCore/ServiceDescriptor.cs:247-254 | The working directory is never empty while the default is not. |
| Descriptor.LogMode | src/Core/WinSWCore/ServiceDescriptor.cs:326-348 | The unexpanded text of the first logmode element wins. Next is the mode attribute of the first log element. The default applies only when neither element exists. |
| Descriptor.LogModeOfLogWithoutMode | src/Core/WinSWCore/ServiceDescriptor.cs:338-346 | A log element without a mode attribute gives the empty mode, not the default. |
| Descriptor.ServiceAccountPart | src/Core/WinSWCore/ServiceDescriptor.cs:634-648 | The raw text of the named child of the first serviceaccount element. It is null when either element is missing. |
| Descriptor.ServiceAccountUser | src/Core/WinSWCore/ServiceDescriptor.cs:652-658 | Null exactly when there is no user element. Otherwise it is the domain (or ".") followed by a backslash and the user. |
| Descriptor.PartsOfJoin | src/Core/WinSWCore/ServiceDescriptor.cs:658 | The parts around the separator of a joined name are the two texts it was joined from. |
| Descriptor.ServiceAccountUserSplits | src/Core/WinSWCore/ServiceDescriptor.cs:658 | For a user without a backslash, the composed name splits at its last backslash, with the domain (or ".") before it and the user after it. |
| Descriptor.HasServiceAccount | src/Core/WinSWCore/ServiceDescriptor.cs:660-663 | True exactly when a user element exists and its text is not empty. A service account then also has a user name. |
| Descriptor.AllowServiceAcountLogonRight | src/Core/WinSWCore/ServiceDescriptor.cs:665-679 | True exactly when allowservicelogon parses as the boolean true. It is false when the element is omitted. |
| Descriptor.AllowServiceAcountLogonRightOfWords | src/Test/winswTests/ServiceDescriptorTests.cs:296-322 | "true1" does not grant the right. "true" and "True", padded or not, grant it. |
| Descriptor.StopParentProcessFirst | src/Core/WinSWCore/ServiceDescriptor.cs:686-698 | The expanded element parsed as a boolean. The default applies when the element is absent or its text does not parse. |
| Descriptor.StopParentProcessFirstOfWord | src/Test/winswTests/ServiceDescriptorTests.cs:146-154 | An element reading "true" or "false" decides the stop order, whatever the default. |
| Descriptor.ServiceDependencies | src/Core/WinSWCore/ServiceDescriptor.cs:485-503 | One entry per depend element, its inner text, in document order. |
| LogSettings.LogElement | src/Core/WinSWCore/ServiceDescriptor.cs:375-384 | The first logmode element, else the first log element, else a null dereference. |
| LogSettings.SingleIntElement | src/Core/WinSWCore/ServiceDescriptor.cs:133-138 | The default without the child. Otherwise `int.Parse` of its text, a FormatException exactly when the text is not an integer. |
| LogSettings.SingleIntElementOfIntToString | src/Core/WinSWCore/ServiceDescriptor.cs:133-138 | A child holding a padded written integer reads back as that integer. |
| LogSettings.SizeThreshold | src/Core/WinSWCore/ServiceDescriptor.cs:402 | The sizeThreshold child, in kilobytes (default 10 * 1024), times 1024. It fails exactly when the log element is missing or the child is not an integer. |
| LogSettings.SizeThresholdDefault | src/Core/WinSWCore/ServiceDescriptor.cs:402 | Without a sizeThreshold child the threshold is 10 * 1024 * 1024 bytes. |
| LogSettings.SizeThresholdOfKilobytes | src/Test/winswTests/ServiceDescriptorTests.cs:234-251 | A threshold written as n kilobytes (112 and 10240 in the tests) is n * 1024 bytes. |
| LogSettings.KeepFiles | src/Core/WinSWCore/ServiceDescriptor.cs:404 | A missing log element is a null dereference. Otherwise: the appender's default without a keepFiles child, a FormatException carrying the text when it is not an integer, and the integer it holds otherwise. |
| LogSettings.KeepFilesDefault | src/Core/WinSWCore/ServiceDescriptor.cs:404 | Without a keepFiles child, the given default number of files is kept. |
| LogSettings.KeepFilesOfIntToString | src/Core/WinSWCore/ServiceDescriptor.cs:404 | A keepFiles child holding a padded written integer n gives n, whatever the default. |
| LogSettings.KeepFilesOfOneHundredThirteen | src/Test/winswTests/ServiceDescriptorTests.cs:234-251 | A keepFiles child holding "113" gives 113 files. |
| LogSettings.Period | src/Core/WinSWCore/ServiceDescriptor.cs:406 | A missing log element is a null dereference. Otherwise: one without a period child, a FormatException carrying the text when it is not an integer, and the integer it holds otherwise. |
| LogSettings.PeriodDefault | src/Core/WinSWCore/ServiceDescriptor.cs:406 | Without a period child the period is one. |
| LogSettings.PeriodOfIntToString | src/Core/WinSWCore/ServiceDescriptor.cs:406 | A period child holding a padded written integer n gives n. |
| LogSettings.PeriodOfSeven | src/Test/winswTests/ServiceDescriptorTests.cs:254-271 | A period child holding "7" gives 7. |
| LogSettings.ZipOlderThanNumDays | src/Core/WinSWCore/ServiceDescriptor.cs:455-470 | An absent child gives null. Text that is not an integer throws the rolling-policy InvalidDataException. Otherwise the result is the integer. |
| LogSettings.ZipOlderThanNumDaysOfIntToString | src/Core/WinSWCore/ServiceDescriptor.cs:455-470 | Any padded written integer is accepted back. |
| LogSettings.ZipOlderThanNumDaysRejectsEmpty | src/Core/WinSWCore/ServiceDescriptor.cs:460-464 | An empty zipOlderThanNumDays element is rejected with the InvalidDataException. |
| LogSettings.ZipOlderThanNumDaysRejectsUnit | src/Core/WinSWCore/ServiceDescriptor.cs:460-464 | A number followed by white space and a word, such as "7 days", is rejected with the InvalidDataException. |
| Numbers.ParseIntRejectsNumberWithWord | src/Core/WinSWCore/ServiceDescriptor.cs:463 | `int.TryParse` rejects a number followed by white space and a word: white space is allowed only around the number. |
| Environment.OverridesKeys | src/Core/WinSWCore/ServiceDescriptor.cs:717-732 | The table's keys are exactly the names the env elements carry. |
| Environment.OverridesLastWins | src/Core/WinSWCore/ServiceDescriptor.cs:721-727 | A name's value is the expanded value of the last env element with that name. |
| Environment.LoadEnvironmentVariables | src/Core/WinSWCore/ServiceDescriptor.cs:717-732 | A new table whose entries are `Overrides` of the env elements, filled by the loop. |
| Environment.StringMap.Set | src/Core/WinSWCore/ServiceDescriptor.cs:726 | The indexer adds the key or overwrites its value and changes nothing else. |
| Environment.StringMap.Copy | src/Core/WinSWCore/ServiceDescriptor.cs:573 | The copy constructor gives a table with the same entries. |
| Environment.ServiceDescriptor.constructor | src/Core/WinSWCore/ServiceDescriptor.cs:97-102 | The descriptor keeps its document and owns a new table loaded from it. |
| Environment.ServiceDescriptor.EnvironmentVariables | src/Core/WinSWCore/ServiceDescriptor.cs:573 | A new table with the descriptor's entries. |
| Environment.OverwriteCopy | src/Core/WinSWCore/ServiceDescriptor.cs:573 | Writing into the returned table changes it and leaves the descriptor's table as it was. |

## Left out

- Parsing and the XPath engine: the document is already a tree. `//tag` is the document-order listing of the elements with that tag, and a relative lookup is the first child with the tag. An element's inner text is a given field rather than the concatenation of its descendants' text.
- `Environment.ExpandEnvironmentVariables` is a fixed function parameter. The `Environment.SetEnvironmentVariable` writes of the constructors and of `LoadEnvironmentVariables` are process state and are dropped, so the model does not capture a later expansion that sees an earlier env element's value.
- The constructor's search up the directory tree for the configuration file, `dom.Load` and `FromXML` are file-system and parser I/O. Only the `.vshost` stripping is modelled.
- `DefaultWinSWSettings` is not part of this model. Its values are the `Defaults` record parameter, and the size-based appender's default number of files is a parameter of `KeepFiles`.
- `StartMode` and `Priority`, which use `Enum.Parse`, and the console output depend on library behaviour. `Downloads`, `ExtensionIds` and `XmlHelper.SingleAttribute` use types that are not shown.
- The one-line accessors outside the core are not modelled: `Executable`, `Id`, `Caption`, `Description`, `HideWindow`, `LogName`, the log directory, pattern, file patterns, `AutoRollAtTime`, `ZipDateFormat`, `DelayedAutoStart`, `BeepOnShutdown`, `Interactive`, `SecurityDescriptor` and `StopExecutable`. The same goes for `SingleBoolElement` with its throwing `bool.Parse`.
- Durations.Scaled: integers are unbounded. `int.Parse` throws an OverflowException for a number outside the 32-bit range, and `TimeSpan.FromMilliseconds` throws one past `TimeSpan.MaxValue`, as for "10675200days". Here both give the exact product. The product of the `int` and the `long` factor is computed in 64 bits and cannot overflow. The `double` conversion in `TimeSpan.FromMilliseconds` is not modelled.
- LogSettings.SizeThreshold: the source multiplies two `int` values in C#'s default unchecked context. A threshold of 2097152 kilobytes or more therefore wraps around to a wrong, possibly negative, byte count, while the model returns the exact product of the kilobytes and 1024.
- Numbers.ParseInt: does not model Int32 overflow, the trailing NUL characters .NET also accepts, or culture-specific signs.
- Numbers.TryParseBool: the case-insensitive comparison folds ASCII letters only.
- Strings.EndsWith: `string.EndsWith(string)` and `StartsWith(string)` are culture-sensitive in .NET and, for example, ignore a soft hyphen (U+00AD). Here they are ordinal, so the two differ on text holding such characters. The source keeps the argument token made of a soft hyphen followed by `"a b"` as written, because under the culture it begins and ends with a quote, while `Quote` wraps it in another pair of quotes. Likewise "5sec" followed by a soft hyphen ends with "sec" for the source but with no key here.
- Environment.LoadEnvironmentVariables: an env element without a name or value attribute makes `.Value` throw a NullReferenceException. That input is excluded by a precondition here, because the exception escapes the constructor.
- OnFailure.FailureActions: the result is the contents of the filled array rather than the array object.
- Windows' numeric values of `SC_ACTION_TYPE` are not modelled. The three kinds are a datatype.
- The process supervisor, failure-action scheduling at run time and the log appenders are outside the descriptor.
