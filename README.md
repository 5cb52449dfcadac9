# Trusted mod store validator, modelled in Dafny

`validate_mods.py` checks the trusted mod store `mods.json` of FM Reloaded
before it is published. It reads the store as JSON and runs four checks:

- the store structure: a top-level `version`, a `mods` list, and a
  `mod_count` that agrees with the list;
- every mod entry: the required fields, the type, version and URL formats,
  blank fields, array fields, and advisory warnings for the changelog URL and
  the description length;
- duplicate mod names;
- the exit status, which is 0 when there is no error, even if there are
  warnings, and 1 otherwise.

The model keeps the script's two outputs, an ordered error list and an ordered
warning list. Each message becomes a `Diagnostic` value that carries the data
the message prints. `Diagnostics.Message` gives the text of each one.

Modules, one per part of the script:

| file | module | models |
|---|---|---|
| `json.dfy` | `JsonValues` | the JSON values `json.load` produces, and the Python operations the script applies to them: truthiness, `len`, `==` against an integer, and dictionary keys |
| `predicates.dfy` | `Predicates` | `validate_version`, the `VERSION_PATTERN` regular expression, `str.strip` blankness, and `validate_url`, including the part of `urllib.parse.urlparse` that it relies on |
| `diagnostics.dfy` | `Diagnostics` | the messages, their text, and counting them |
| `entry.dfy` | `EntryValidation` | `validate_mod_entry`, one method per group of checks, each proved against a function that defines its result |
| `duplicates.dfy` | `Duplicates` | `check_duplicates`, with the `names` dictionary as a Dafny `map` |
| `structure.dfy` | `StoreStructure` | `validate_store_structure` |
| `validator.dfy` | `Validator` | the checking part of `main`: aggregation and exit status |

The model follows `validate_mods.py` as written:

- `download_url` is one of the seven required fields and is checked as a URL.
- There are five valid types, compared case-sensitively.
- Besides the seven required fields, only `changelog_url`, `dependencies` and
  `conflicts` are inspected; any other field is accepted unseen.
- Every check is local to the decoded JSON: no URL is fetched.
- A version with leading zeros (`01.2.3`) is accepted.

The Python semantics the checks depend on are modelled explicitly:

- `mod_count` is compared with Python's `!=`, so `True` equals `1`.
- Duplicate names are dictionary keys, so `True` and `1` are the same name.
- `len` of a description is defined for strings, lists and objects.
- `str.strip` removes exactly the characters for which Python's `isspace` holds.
- `validate_url` on a value that is not a string is false.
- An unclosed `[` in the authority makes `urlparse` raise, and `validate_url`
  catches that and returns false.

## Model

| member | source | states |
|---|---|---|
| JsonValues.KeyOf | validate_mods.py:97-101 | the name's dictionary-key class is represented by a hashable non-bool value: `True`/`False` fall in the class of `1`/`0` (Python keeps whichever object was inserted first, which no message shows) |
| JsonValues.SameKeyIffEqual | validate_mods.py:98 | two hashable names fall on the same dictionary key exactly when Python's `==` holds between them |
| Predicates.DigitRunEnd | validate_mods.py:16 | the greedy `\d+` run that starts at a digit ends at a position where every character before it is a digit and the character at it is not |
| Predicates.ValidVersionHasParts | validate_mods.py:39-41 | an accepted version splits into three non-empty digit runs joined by two dots |
| Predicates.PartsAreValidVersion | validate_mods.py:16 | every string made of three non-empty digit runs joined by dots is accepted |
| Predicates.ValidVersionIff | validate_mods.py:39-41 | `validate_version` holds exactly when the string is `digits.digits.digits` (both directions) |
| Predicates.VersionsAccepted | validate_mods.py:16 | `1.2.3`, `0.0.1` and `01.2.3` are accepted |
| Predicates.VersionsRejected | validate_mods.py:16 | `1.2`, `v1.2.3`, `1.2.3-beta` and the empty string are rejected |
| Predicates.BlankIsNoVersion | validate_mods.py:39-41 | a blank string is never a valid version |
| Predicates.SplitIsAbsolute | validate_mods.py:33-34 | when `urlparse` finds a scheme and a netloc, the cleaned URL is an alphabetic-led scheme, `://`, and a non-empty authority with no `/?#` and no lone `[` or `]`, ended by a delimiter or the end of the string |
| Predicates.AbsoluteSplits | validate_mods.py:33-34 | conversely, every cleaned URL of that shape yields a scheme and a netloc |
| Predicates.ValidUrlIff | validate_mods.py:30-36 | `validate_url` holds exactly when the cleaned URL has the shape scheme `://` authority (both directions) |
| Predicates.StripLeadingIsSuffix | validate_mods.py:33 | stripping leading control characters and spaces leaves a suffix of the URL |
| Predicates.RemoveUnsafeDrawsFrom | validate_mods.py:33 | removing tabs and line breaks introduces no character |
| Predicates.CleanKeeps | validate_mods.py:33 | a URL with no leading control character or space, and no tab or line break, is parsed as written |
| Predicates.BlankIsNoUrl | validate_mods.py:30-36 | a blank string is never a valid URL |
| Predicates.ExampleIsAbsolute | validate_mods.py:33-34 | `https://example.com/x` has a scheme and a netloc |
| Predicates.UrlAccepted | validate_mods.py:30-36 | an `https` URL with a host and a path is accepted |
| Predicates.BareHostRejected | validate_mods.py:30-36 | a host without a scheme (`example.com`) is rejected |
| Predicates.EmptyUrlRejected | validate_mods.py:30-36 | the empty string is rejected |
| Predicates.UnclosedBracketRejected | validate_mods.py:30-36 | a URL whose authority opens `[` without closing it makes `urlparse` raise, and the URL is rejected |
| Diagnostics.NatToString | validate_mods.py:99 | an index or count is printed as a non-empty string of decimal digits with no leading zero; it starts with `0` only for zero, which prints as `0` |
| Diagnostics.NatToStringRoundTrip | validate_mods.py:99 | the printed digits read back as the same number |
| Diagnostics.SubjectPrefixNamesIndex | validate_mods.py:52 | two `Mod #<index> (<name>): ` prefixes with the same name are equal only when the entry numbers are equal, so the prefix identifies the entry |
| Diagnostics.Message | validate_mods.py:52-125 | every message is non-empty; each per-entry message opens with its entry's `Mod #<index> (<name>): ` prefix, and each duplicate message with `Duplicate mod name '` |
| EntryValidation.CheckRequiredFields | validate_mods.py:50-52 | the loop appends one missing-field error per absent required field, in `REQUIRED_FIELDS` order, to the errors so far |
| EntryValidation.CheckFormats | validate_mods.py:55-67 | appends the type, version, homepage and download-URL errors, in that order |
| EntryValidation.CheckAdvisories | validate_mods.py:69-74 | returns the changelog-URL warning followed by the description-length warning |
| EntryValidation.CheckEmptyFields | validate_mods.py:77-79 | the loop appends one "cannot be empty" error per required field that is present as a blank string, in `REQUIRED_FIELDS` order |
| EntryValidation.CheckArrayFields | validate_mods.py:82-86 | appends the `dependencies` error and then the `conflicts` error |
| EntryValidation.ValidateModEntry | validate_mods.py:44-88 | the entry's errors are `EntryErrors`: missing fields, then type, version, homepage and download URL, then blank fields, then array fields; its warnings are `EntryWarnings`: changelog URL, then description length |
| EntryValidation.MissingFieldErrorsCite | validate_mods.py:50-52 | every missing-field error names a field of the list that is absent from the entry |
| EntryValidation.MissingFieldErrorsCount | validate_mods.py:50-52 | over a list of distinct fields, a field is reported missing once if it is listed and absent, and otherwise never |
| EntryValidation.MissingFieldReportedOnce | validate_mods.py:50-52 | in the entry's errors, a field is reported missing exactly once when it is required and absent, and never otherwise |
| EntryValidation.MissingFieldIsError | validate_mods.py:50-52 | a required field absent from the entry is among the entry's errors |
| EntryValidation.MissingFieldErrorsOrdered | validate_mods.py:50-52 | missing-field errors follow the order of the field list |
| EntryValidation.MissingFieldErrorsFirst | validate_mods.py:49-88 | the entry's errors open with its missing-field errors, in `REQUIRED_FIELDS` order, and no missing-field error comes after them |
| EntryValidation.EmptyFieldErrorsCite | validate_mods.py:77-79 | every "cannot be empty" error names a field of the list that is present as a blank string |
| EntryValidation.EmptyFieldErrorsCount | validate_mods.py:77-79 | over distinct fields, a blank listed field is reported once, and any other field never |
| EntryValidation.TypeCheckReported | validate_mods.py:55-56 | an invalid-type error for a value occurs once exactly when `type` holds that value and it is not one of the five types, and otherwise never |
| EntryValidation.VersionCheckReported | validate_mods.py:59-60 | an invalid-version error for a value occurs once exactly when `version` holds that value and it fails the pattern |
| EntryValidation.HomepageCheckReported | validate_mods.py:63-64 | an invalid-homepage error occurs once exactly when `homepage` holds that value and it is not a valid URL |
| EntryValidation.DownloadUrlCheckReported | validate_mods.py:66-67 | an invalid-download-URL error occurs once exactly when `download_url` holds that value and it is not a valid URL |
| EntryValidation.EmptyFieldReported | validate_mods.py:76-79 | a field gets one "cannot be empty" error exactly when it is required and present as a blank string |
| EntryValidation.ArrayFieldReported | validate_mods.py:82-86 | a field gets one "must be an array" error exactly when it is `dependencies` or `conflicts`, present, and not a list |
| EntryValidation.ValidTypesNotBlank | validate_mods.py:15 | no valid type is blank |
| EntryValidation.BlankFailsFormat | validate_mods.py:55-67 | a blank string fails the type, version and URL checks |
| EntryValidation.BlankFieldReportedTwice | validate_mods.py:55-79 | a blank `type`, `version`, `homepage` or `download_url` gets exactly one "cannot be empty" error and exactly one format error |
| EntryValidation.AdvisoryWarningsReported | validate_mods.py:69-74 | a changelog-URL warning exactly when `changelog_url` is present, truthy and not a URL; a description warning, with the actual length, exactly when the length exceeds 200 |
| EntryValidation.EntryWarningsClassified | validate_mods.py:69-74 | every entry warning is an entry-level warning citing the entry's number and name |
| EntryValidation.EntryErrorsClassified | validate_mods.py:44-88 | every entry error is an entry-level error citing the entry's number and name (`Unknown` when unnamed) |
| EntryValidation.ErrorsIgnoreChangelogUrl | validate_mods.py:69-70 | the entry's errors do not depend on `changelog_url`, whatever it holds or whether it is present |
| Duplicates.FirstOccurrence | validate_mods.py:96-101 | the index recorded for a name is at most the list's length; when it is inside the list, the mod there carries the name |
| Duplicates.FirstOccurrenceBefore | validate_mods.py:96-101 | the recorded index is no later than any mod with the same name |
| Duplicates.InKeySet | validate_mods.py:98 | a name is in `names` exactly when some mod carries it |
| Duplicates.CheckDuplicatesStep | validate_mods.py:96-101 | one iteration keeps `names` mapping each name seen so far to its first index, and appends the error for the current mod exactly when its name was seen |
| Duplicates.CheckDuplicates | validate_mods.py:91-103 | the loop with its `names` map returns `DuplicateErrors`: one error for each mod whose name occurred earlier, in mod order |
| Duplicates.DuplicateErrorsCite | validate_mods.py:98-99 | every duplicate error cites a later index, that mod's own name, and the first index of that name |
| Duplicates.SeenBeforeIsReported | validate_mods.py:98-99 | a mod whose name occurred earlier is reported with the first index of the name |
| Duplicates.ReportedIffSeenBefore | validate_mods.py:96-101 | a mod is reported as a duplicate exactly when its name occurred earlier, and then against the name's first index |
| Duplicates.DuplicateErrorsCount | validate_mods.py:91-103 | there are as many duplicate errors as mods minus distinct names |
| Duplicates.KeySetBound | validate_mods.py:93-101 | there are no more distinct names than mods |
| Duplicates.RepeatedNameExample | validate_mods.py:96-101 | names `A`, `B`, `A` give the one error "`A` at indices 0 and 2" |
| Duplicates.MissingNameIsEmptyExample | validate_mods.py:97 | a missing name counts as `''`, so it collides with an empty name; `True` and `1` collide as well |
| StoreStructure.ValidateStoreStructure | validate_mods.py:106-127 | the method returns exactly the structure errors and warnings, including its early returns |
| StoreStructure.AtMostOneStructureError | validate_mods.py:115-121 | at most one structure error; there is one exactly when `mods` is missing or not a list, and a missing `mods` is reported as missing |
| StoreStructure.StructureWarningsReported | validate_mods.py:112-125 | a missing store version is always warned; a count mismatch is warned, with both counts, exactly when `mods` is a list and `mod_count` differs by Python `!=` |
| StoreStructure.ModCountNeverAnError | validate_mods.py:124-125 | the structure errors do not depend on `mod_count` |
| StoreStructure.ModsNotArrayExample | validate_mods.py:119-121 | a string `mods` gives the non-list error and no count warning, even with a `mod_count` |
| StoreStructure.ModCountComparedAsPythonExample | validate_mods.py:124 | `mod_count: true` against an empty list is a mismatch, because `True != 0` |
| Validator.Objects | validate_mods.py:157 | the entries iterated are the list's objects, in order |
| Validator.ExitStatus | validate_mods.py:181-191 | the run returns 0 or 1, and 0 exactly when there is no error; warnings alone never fail it |
| Validator.EntriesStep | validate_mods.py:157-160 | the errors of the first i+1 entries are those of the first i followed by entry i+1's errors |
| Validator.ValidateEntries | validate_mods.py:157-160 | the loop collects every entry's errors and warnings, in entry order and numbered from 1 |
| Validator.Run | validate_mods.py:153-191 | the two lists are the structure, entry and duplicate results in that order, and the status is their exit status |
| Validator.EntriesClassified | validate_mods.py:157-160 | every entry diagnostic cites an entry number between 1 and the number of mods |
| Validator.FlattenEmpty | validate_mods.py:157-160 | the collected list is empty exactly when every entry's list is empty |
| Validator.PassesIffNoErrors | validate_mods.py:181-191 | the run passes exactly when the structure check, every entry and the duplicate check report no error |
| Validator.DuplicateNameFails | validate_mods.py:163-164 | two mods with the same name make the run fail |
| Validator.EntryErrorFails | validate_mods.py:157-160 | an error of any entry is among the run's errors, and the run fails |
| Validator.MissingFieldFails | validate_mods.py:157-160 | a required field missing from any entry makes the run fail |
| Validator.RunDiagnosticsClassified | validate_mods.py:153-164 | warnings are only warning kinds and errors only error kinds |
| Validator.ModCountNeverFails | validate_mods.py:124-125 | `mod_count` never changes the errors or the exit status |
| Validator.MissingModsFails | validate_mods.py:115-117 | a store without `mods` fails with the single error "Missing 'mods' array" |
| Validator.EmptyStorePasses | validate_mods.py:181-184 | a store with a version and an empty `mods` list passes with no diagnostic |

## Left out

- Finding `mods.json`, reading it, `json.load`, and the JSON decode error
  (`validate_mods.py:20-27`, `:135-151`) are I/O. The model starts from the
  decoded store.
- Printing the banner, the results and the emoji, and `sys.exit`
  (`validate_mods.py:166-191`), are I/O. `Diagnostics.Message` gives each
  message's text, and `Validator.ExitStatus` gives the returned value.
- A decoded value that is not an object (for example a top-level list) would
  make `main` raise. The store is an `Object` by type.
- Inputs that make the script raise are excluded by preconditions, not
  modelled as a crash:
  - `WellTypedEntry`: a non-string `version`, or a description without `len`;
  - `IterableMods`: a `mods` value that cannot be iterated as objects;
  - `HashableNames`: a list or object used as a name.
- JSON numbers are integers (`JNum(int)`). Floats, and comparisons such as
  `5.0 == 5`, are not modelled.
- `VERSION_PATTERN` matches ASCII digits only and must end at the end of the
  string. The model omits two regex details: `$` also matching before a final
  newline, and `\d` matching non-ASCII digits.
- Two parts of `urlparse` are omitted: validating a bracketed IPv6 host, and
  the NFKC check of the netloc. Only the lone-bracket error is modelled.
- The `urlparse` model follows CPython 3.12's `urllib.parse.urlsplit`: leading
  C0 controls and spaces are stripped, and a scheme must start with an ASCII
  letter. Python releases without these changes (3.10.0, for one) answer
  differently for some inputs, such as a URL with a leading space.
- `Diagnostics.Message` renders lists and objects in abbreviated form, not as
  Python's `str` would.
- `Validator.PassesIffNoErrors` states the condition on each entry's error list
  (`EntryErrorLists`), not on `validate_mod_entry` called per entry. `Validator.ValidateEntries`
  connects the two.
