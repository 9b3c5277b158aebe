# totp-cli entry manager, modelled in Dafny

totp-cli keeps TOTP secrets in the operating system's keyring under the
service name `totp`. The keyring can only get, set and delete one entry by
name; it cannot list its entries. So the program also keeps a name index,
`~/.totp.json`, holding `{"names": [...]}`, and it keeps the two stores in step
without a transaction across them. Before a secret is stored it is
normalised and checked against the Base32 alphabet.

This project models that core:

- `common.dfy` (`Common`): `Option`, `Result` and the errors the core returns.
- `text.dfy` (`Text`): the three string operations the normaliser uses:
  `strings.TrimSpace`, `strings.ReplaceAll(s, " ", "")` and `strings.ToUpper`.
- `order.dfy` (`Order`): Go's string order and `sort.Strings`, which the
  model gives by its result. The result is the unique ascending arrangement
  of the names.
- `secret.dfy` (`Secret`): `normalizeAndValidateSecret`, and the otpauth
  check the scan command applies to a decoded URI.
- `name_index.dfy` (`NameIndex`):
  - the index file as a value (missing, unreadable, or stored names);
  - `readIndex`, `writeIndex`, `addNameToIndex` and `removeNameFromIndex` as
    functions on that value;
  - the class `IndexStore`, whose methods carry out the same loops on the
    file they hold.
- `entries.dfy` (`Entries`): the class `EntryManager`. It holds the keyring
  as a map from name to secret, plus the `IndexStore`, and provides:
  - `addItem`, `getItem`, `deleteItem`, `listItems` and `nameExists`;
  - the loop of `promptNewName`.
- `scenarios.dfy` (`Scenarios`): a few complete sequences of operations,
  checked by the verifier. Each is written as a client that asserts what the
  contracts let it conclude.

Failures in the environment are parameters of the operations, not hidden
state:
- `down` is the set of names on which `keyring.Get` fails with an error
  other than NotFound.
- `SetOutcome` says how `keyring.Set` ends.
- `deleteFails` says whether `keyring.Delete` fails with an error other than
  NotFound.
- `WriteOutcome` says whether `os.WriteFile` succeeds. A failed write leaves
  the file in any state at all.

## Model

| member | source | states |
|---|---|---|
| Text.TrimSpace | main.go:109 | the result is empty exactly when every character is white space; otherwise it neither starts nor ends with white space |
| Text.TrimSpaceInfix | main.go:109 | the trimmed string is a slice of the input, and everything dropped before and after it is white space |
| Text.UpperChar | main.go:109 | each letter a-z becomes the same letter in A-Z; A-Z and digits stay; white space stays white space and no other character becomes a space |
| Text.ToUpper | main.go:109 | the length is kept and each character is upper-cased on its own, as UpperChar states |
| Text.RemoveSpaces | main.go:109 | no space is left, and a string without spaces is returned unchanged |
| Text.RemoveSpacesCounts | main.go:109 | every character other than a space keeps its count |
| Text.TrimSpaceRemoveSpaces | main.go:109 | dropping spaces before or after trimming gives the same string |
| Order.Insert | main.go:68 | inserting into ascending names keeps them ascending and adds exactly that one name |
| Order.SortNames | main.go:68 | the result is ascending and is a permutation of the input |
| Order.SortedUnique | main.go:68 | two ascending sequences with the same names and counts are equal |
| Order.SortOfSorted | main.go:68 | sorting names that are already ascending changes nothing |
| Order.SortDeterministic | main.go:68 | the sorted result depends only on the multiset of names |
| Secret.IsBase32 | main.go:113 | what the unpadded decoder is modelled to accept: alphabet characters, carriage returns and line feeds; such a string holds no space and is unchanged by upper-casing |
| Secret.Canonical | main.go:109 | the normalised string has no space and no lower-case ASCII letter; it is empty exactly when the input is all white space; it has white space at neither end |
| Secret.NormalizeSecret | main.go:108-117 | all-white-space input fails with NoSecret, before any Base32 check; a non-empty normalised string outside the alphabet fails with InvalidSecret; no other error occurs; success returns the normalised string, which is non-empty, has no space and is Base32 |
| Secret.MixedCaseAccepted | main.go:108-117 | a non-empty secret typed in letters of either case and digits 2-7 is accepted and returned with every letter upper-cased, all in the Base32 alphabet |
| Secret.CanonicalFixed | main.go:109 | a string that is trimmed, has no spaces and is upper case is its own normal form |
| Secret.NormalizeIdempotent | main.go:108-117 | normalising an accepted secret again returns it unchanged |
| Secret.NormalizeIgnoresSpaces | main.go:109 | inserting a space anywhere in the input leaves the outcome unchanged |
| Secret.ScanSecret | main.go:258-264 | a secret error wins over a wrong scheme or host; otherwise the URI must be otpauth://totp; on success the normalised Base32 secret is returned |
| NameIndex.ReadIndex | main.go:41-60 | a missing file is an empty index and not an error; only an unreadable file fails; a stored index returns its names |
| NameIndex.Persist | main.go:62-75 | a successful write stores the same names with the same counts, ascending; a failed write reports IndexWriteFailed and promises nothing about the file |
| NameIndex.Without | main.go:98-104 | no occurrence of the name is left; a list without the name is returned unchanged |
| NameIndex.WithoutCounts | main.go:98-104 | every name other than the one removed keeps its count |
| NameIndex.FilterOut | main.go:98-104 | the filter loop yields exactly Without |
| NameIndex.AddName | main.go:77-90 | an unreadable index fails with the file untouched; a name already indexed returns success with nothing written; an absent name is saved as old names plus that name, ascending, and when that write fails its error is returned |
| NameIndex.RemoveName | main.go:92-106 | after success the name is gone and the index is ascending; every other name keeps its count; removing an absent name only re-sorts; an unreadable index fails with the file untouched; a failed write returns IndexWriteFailed |
| NameIndex.AddNameIdempotent | main.go:77-90 | adding a name again after a successful add writes nothing and succeeds |
| NameIndex.RemoveNameIdempotent | main.go:92-106 | removing a name again after a successful removal saves the same index |
| NameIndex.AddThenRemove | main.go:77-106 | adding an absent name and then removing it leaves the original names, sorted |
| NameIndex.IndexStore.WriteIndex | main.go:62-75 | returns the caller's names sorted, as sort.Strings leaves the shared slice, whether or not the write succeeds; the file and error are as in Persist |
| NameIndex.IndexStore.AddNameToIndex | main.go:77-90 | the scan loop yields the file and error that AddName specifies |
| NameIndex.IndexStore.RemoveNameFromIndex | main.go:92-106 | the read, the filter loop and the write yield the file and error that RemoveName specifies |
| Entries.Kept | main.go:155-165 | the kept names are never more than the indexed names; which names and how often is stated by Entries.KeptCounts |
| Entries.KeptCounts | main.go:154-165 | a name the keyring holds is kept as often as it is indexed; any other name is dropped |
| Entries.KeptAllPresent | main.go:154-165 | when the keyring holds every indexed name, nothing is dropped |
| Entries.ListOutcome | main.go:148-172 | an unreadable index fails untouched; a keyring failure on any indexed name aborts with no write; otherwise the held names are saved and returned sorted, and the saved index equals the returned list; when that write fails its error is returned |
| Entries.ListedNamesResolve | main.go:154-165 | every listed name is held by the keyring and was probed without failure |
| Entries.ListResolvedIndex | main.go:148-172 | an ascending index whose every name resolves is listed and saved unchanged |
| Entries.ListHealed | main.go:148-172 | listing again after a successful listing gives the same names and saves the same index |
| Entries.EntryManager.GetItem | main.go:129-138 | returns the stored secret exactly when the keyring holds the name and the lookup does not fail; NotFound becomes its own error, distinct from a keyring failure |
| Entries.EntryManager.NameExists | main.go:174-183 | when the lookup does not fail, true exactly when the keyring holds the name; the index is never consulted; a keyring failure is returned as an error |
| Entries.EntryManager.AddItem | main.go:119-127 | a refused Set returns its error (too large, or a keyring failure) with both stores untouched; otherwise the keyring maps the name to the secret and the index is updated as by AddName; after success the name is in both stores |
| Entries.EntryManager.DeleteItem | main.go:140-146 | a Delete error other than NotFound returns before the index is touched; otherwise the entry is gone from the keyring and the index is updated as by RemoveName; after success the name is in neither store |
| Entries.EntryManager.ListItems | main.go:148-172 | the probe-and-filter loop and the write yield the file and result that ListOutcome specifies; the returned list is sorted and equals the saved index |
| Entries.Search | main.go:185-207 | the search probe by probe: a name it chooses is free and not failing in the keyring, and is the initial name or the trimmed text of a reply, possibly empty; an abort comes from a failing probe; running out of replies means every candidate was taken |
| Entries.SearchNonBlank | main.go:185-207 | as Search, except that a blank reply keeps the candidate, so a chosen name other than the initial one is never empty |
| Entries.EntryManager.PromptNewName | main.go:185-207 | the loop returns exactly what Search gives for the keyring, the initial name and the replies, probing each candidate in order and reading a reply only after a taken name; a name it returns is free by NameExists |
| Entries.EntryManager.PromptNonBlankName | main.go:202-205 | the loop with blank replies skipped returns exactly what SearchNonBlank gives |

## Findings

| source | as written | input that shows it | evidently intended | confidence | as-written member | corrected member |
|---|---|---|---|---|---|---|
| main.go:202-205 | the trimmed reply is assigned to the candidate before the blank check, and the blank check's `continue` then probes the empty name | keyring holds "x", initial name "x", one reply "\n": the empty name is returned and later stored as an entry named "" (Scenarios.BlankReplyBecomesName) | a blank reply is skipped and the current name is asked about again | medium, not executed | Entries.EntryManager.PromptNewName | Entries.EntryManager.PromptNonBlankName |

## Left out

- The command tree, flag parsing, shell completion and `main` (main.go:209-429). They are command-line wiring around the core.
- Decoding the QR image and parsing the URI (main.go:223-257) are calls into foreign libraries. `Secret.ScanSecret` takes the scheme, host and `secret` parameter after parsing.
- Generating TOTP codes (RFC 6238, through the gotp library) depends on the clock and is a foreign call.
- Real file I/O, the home-directory lookup and the JSON layout of the index file are left out. The JSON layout includes an empty list being written as `null`.
  - A missing home directory, any other read error and unparsable JSON are one state, `Unreadable`.
  - `readIndex` always runs before `writeIndex` within an operation, so a home-directory error is always reported by the read.
- `NameIndex.Persist`: a failed `os.WriteFile` may leave the file in any state, since the file is written in place. The model promises nothing about it, and no atomic replacement is claimed.
- The keyring backend's internals are left out. Its answers are the parameters `down`, `SetOutcome` and `deleteFails`.
- `Entries.EntryManager.PromptNewName`:
  - The prompt text and reading from standard input are left out. The replies are a given sequence.
  - When the replies run out and the name is still taken, the model returns `OutOfInput`. The source keeps reading forever after end of input, since every read error is skipped.
- `Secret.NormalizeSecret`: validity is modelled as the Base32 alphabet (A-Z, 2-7), plus the carriage returns and line feeds that Go's decoder strips. How Go's unpadded decoder treats the final partial group of characters is not modelled.
- `Text.ToUpper` upper-cases the ASCII letters, plus U+0131 and U+017F, the two non-ASCII letters whose upper case is ASCII. Other non-ASCII characters are left as they are. Any non-ASCII character fails the Base32 check either way, so the outcome of normalisation is the same.
- Strings are sequences of Unicode code points. Invalid UTF-8 is not modelled.
- `Order.SortNames` gives the result of `sort.Strings`, not its in-place algorithm. The result is unique: `Order.SortedUnique` shows it.
- Races between concurrent invocations of the program are left out, because they are concurrency and the code does nothing about them.
