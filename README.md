# pytest-expect, modelled in Dafny

pytest-expect is a pytest plugin that stores the set of failing test node
ids in an expectation file. When the file is read back, those tests are
marked `xfail` (or `skip`). This project models the plugin module
`pytest_expect/expect.py` in two parts.

- **Version-1 text format.** The writer emits:
  - the marker line `pytest-expect file v1`;
  - a line with the writer's `sys.version_info` tuple;
  - one `<literal>: FAIL` line per failing id, in sorted order.

  Each literal carries a `b` or `u` prefix, so that its kind survives a change of interpreter. The reader checks every line. When the file was written under the other Python major version, the reader bridges in one direction only. A Python 3 reader of a major-2 file adds the latin-1 decoding of each byte id. A Python 2 reader of a major-3 file adds the latin-1 encoding of each text id whose code points are all below 256. No other id gets an alternate.
- **Older msgpack format.** After decoding, the reader applies a version gate to the map. Under Python 3, when the map has the byte key `py_version`, every key is first renamed to its ASCII-decoded text.
- **The plugin class.** It keeps the two sets `fails` and `expect_xfail`, and its hooks change them in place:
  - a collector report replaces a collector's id by its children's ids;
  - a failed run is recorded;
  - expected failures are marked;
  - at the end of an update run the failures are saved.

An id is either a byte string (`Bytes`: Python 2 `str`, Python 3 `bytes`) or a text string (`Text`: Python 2 `unicode`, Python 3 `str`). The running interpreter's major version (`PY2`/`PY3`) is a parameter of every operation that depends on it.

Files:

- `wrappers.dfy`: Option and Result.
- `ids.dfy`: ids, the latin-1 bridge, and Python's order on ids together with the sorted listing the writer uses.
- `literals.dfy`: `repr` of string literals and the string-literal part of `ast.literal_eval`, plus decimal integers.
- `expect_file.dfy`: the version-1 reader and writer, with their round-trip, rejection and layout lemmas.
- `legacy.dfy`: the msgpack state gate and key renaming.
- `plugin.dfy`: `load_expectations`, `pytest_configure` and the `ExpectationPlugin` hooks.

Behaviours of the code worth noting:

- a file with a format version other than 1 is refused only after its second line has been read (pytest_expect/expect.py:96-106, 131);
- an unsupported legacy version warns and yields an empty set without raising (pytest_expect/expect.py:163-178);
- under Python 2 the version line and the body lines are not decoded (pytest_expect/expect.py:98-100, 109-110).

## Model

| member | source | states |
|---|---|---|
| Ids.Latin1Inverse | pytest_expect/expect.py:119-128 | latin-1 encoding succeeds on exactly the code points decoding produces, and inverts it |
| Ids.ExpandedAdd | pytest_expect/expect.py:118-128 | reading one more stored id adds that id and its alternate to the bridged set |
| Ids.AddWithAlternate | pytest_expect/expect.py:118-128 | the loop's step puts the stored id and, when bridging gives one, its alternate into the set read so far, and nothing else |
| Ids.BridgingAdds | pytest_expect/expect.py:119-128 | bridging never drops a stored id. A Python 3 reader of a major-2 file adds the latin-1 decoding of each byte id. A Python 2 reader of a major-3 file adds the latin-1 encoding of each text id whose code points are all below 256, and nothing for the others |
| Ids.NoAlternateInSameRegime | pytest_expect/expect.py:119-128 | when the file's major version is the reader's, bridging adds nothing |
| Ids.AlternateReversible | pytest_expect/expect.py:119-128 | an alternate added by one regime is mapped back to the original id by the other regime |
| Ids.IdLtStrictTotal | pytest_expect/expect.py:136 | Python's order on ids of one kind is irreflexive, transitive and total |
| Ids.SortedListingUnique | pytest_expect/expect.py:136 | a set has only one strictly increasing listing, so `sorted` output is determined by the set |
| Ids.SortIds | pytest_expect/expect.py:136 | `sorted(fails)`: the result is strictly increasing and lists exactly the set |
| Literals.HexRoundTrip | pytest_expect/expect.py:137 | a hex escape written with n digits reads back as the same value |
| Literals.ReprRoundTrip | pytest_expect/expect.py:117 | `literal_eval` of a quoted and escaped string gives back the string and leaves the rest of the input |
| Literals.LiteralRoundTrip | pytest_expect/expect.py:137-141 | a `b`/`u`-prefixed literal written under either major reads back, under either major, as the same id |
| Literals.LiteralPrefix | pytest_expect/expect.py:137-141 | every literal the writer makes starts with `b` for a byte id and `u` for a text id, and has at least the prefix and two quotes |
| Literals.UnquoteLiteral | pytest_expect/expect.py:117 | a prefixed literal followed only by blanks (spaces, tabs, form feeds, line ends) unquotes to exactly the id it was written for, and is refused when anything else follows it |
| Literals.LiteralShape | pytest_expect/expect.py:137-142 | a literal never contains a newline. It is ASCII unless a Python 3 writer writes a text id with non-ASCII code points |
| Literals.ShowNatRoundTrip | pytest_expect/expect.py:91 | the decimal digits of a number are all digits and read back as that number |
| ExpectFile.AsciiDecodeEncode | pytest_expect/expect.py:144-148 | an ASCII line, encoded and decoded again, is the same line |
| ExpectFile.SplitConcat | pytest_expect/expect.py:108 | iterating over a file of complete lines gives back those lines |
| ExpectFile.ConcatSplit | pytest_expect/expect.py:108 | joining the lines a file iterates over gives back the file's bytes |
| ExpectFile.LastIndexOf | pytest_expect/expect.py:112 | finds the last colon of a line, or reports that there is none |
| ExpectFile.ParseVersionLine | pytest_expect/expect.py:96-103 | a version line that reads is a tuple of exactly five elements |
| ExpectFile.ReadFile | pytest_expect/expect.py:85-131 | `_parse_file` on the file's bytes, reading the body line by line into a set, agrees with the reader specification `ParseFile` |
| ExpectFile.ReadEntries | pytest_expect/expect.py:107-129 | the body loop agrees with the body specification, including stopping at the first bad line |
| ExpectFile.CollectStops | pytest_expect/expect.py:108-118 | the first bad body line decides the result, whatever follows it |
| ExpectFile.CollectMeaning | pytest_expect/expect.py:107-129 | the body reads exactly when every line reads, and gives every stored id with its alternate |
| ExpectFile.ParseFileMeaning | pytest_expect/expect.py:85-131 | a file reads exactly when it has a version-1 header, a five-element version line and body lines that all read. The result is the stored ids with their alternates, so it contains every stored id |
| ExpectFile.ReaderRejects | pytest_expect/expect.py:87-131 | an empty file, a first line without the marker, or a missing or malformed second line is an invalid file. A well-formed file of another format version is an unknown version |
| ExpectFile.BodyRejects | pytest_expect/expect.py:108-117 | past a valid header, the first body line that does not read decides the error |
| ExpectFile.EntrySplitsAtLastColon | pytest_expect/expect.py:110-118 | a body line is split at its last colon, so ids may contain colons. The tail must strip to `FAIL` and the head must be a string literal, each refused with its own error |
| ExpectFile.BlankBeforeColon | pytest_expect/expect.py:112-117 | blanks between a written literal and its colon do not stop the line reading as the id |
| ExpectFile.EntryRejects | pytest_expect/expect.py:109-114 | a body line that is not ASCII, or has no colon, is refused |
| ExpectFile.HeaderRoundTrip | pytest_expect/expect.py:87-93 | the writer's first line reads as format version 1 |
| ExpectFile.VersionLineRoundTrip | pytest_expect/expect.py:96-103 | the writer's version line reads as a five-tuple whose first element is the writer's major version |
| ExpectFile.EntryRoundTrip | pytest_expect/expect.py:108-118 | the writer's line for an id reads back as that id under either major |
| ExpectFile.VersionLineShape | pytest_expect/expect.py:135 | the version line is ASCII and a single line |
| ExpectFile.EntryLineShape | pytest_expect/expect.py:142 | an entry line is a single line, ASCII unless a Python 3 writer writes a non-ASCII text id |
| ExpectFile.WriteLines | pytest_expect/expect.py:144-148 | the write loop agrees with `EncodeLines`: lines are written until the first that is not ASCII |
| ExpectFile.EncodeLinesMeaning | pytest_expect/expect.py:144-148 | writing completes exactly when every line is ASCII, and the file is then the encoded lines in order |
| ExpectFile.MakeFile | pytest_expect/expect.py:133-148 | `_make_file` on a set of failures agrees with the writer specification `WriteFile` |
| ExpectFile.WriteSucceeds | pytest_expect/expect.py:133-148 | writing completes exactly when the set does not mix byte and text ids and, under Python 3, every text id is ASCII |
| ExpectFile.HeaderAlwaysWritten | pytest_expect/expect.py:133-135 | even a write that fails leaves the marker line at the start of the file |
| ExpectFile.WriterLayout | pytest_expect/expect.py:133-142 | a complete write is the marker line with `1`, the version line, then one `<literal>: FAIL` line per id in strictly increasing order, with prefix `b` for byte ids and `u` for text ids |
| ExpectFile.RoundTrip | pytest_expect/expect.py:85-148 | a complete write reads back, under either major, as exactly the written ids plus the alternates bridging adds |
| ExpectFile.SameRegimeRoundTrip | pytest_expect/expect.py:85-148 | written and read under the same major, a complete write reads back as exactly the set written |
| ExpectFile.PartialWriteReadsSubset | pytest_expect/expect.py:133-148 | a write that fails part way leaves a file that still reads under the writer's major, as a subset of the failures |
| Legacy.KeyNameInjective | pytest_expect/expect.py:153-156 | the ASCII decoding of byte keys never sends two keys to one name |
| Legacy.RenameKeysInPlace | pytest_expect/expect.py:153-156 | the in-place renaming loop agrees with `RenameKeys` |
| Legacy.RenameKeysMeaning | pytest_expect/expect.py:153-156 | renaming succeeds exactly when every key is ASCII bytes. It keeps every value under its key's text name and adds no other key |
| Legacy.RenamedLookup | pytest_expect/expect.py:153-159 | after renaming, a Python 3 lookup by text name finds the value stored under the byte key |
| Legacy.CollectIdsLoop | pytest_expect/expect.py:166-175 | the loop over `expect_xfail` agrees with `CollectIds` |
| Legacy.CollectIdsMeaning | pytest_expect/expect.py:166-175 | the list reads exactly when every element is a string, and gives those ids with their alternates |
| Legacy.LoadLegacy | pytest_expect/expect.py:150-178 | `_parse_legacy_file` after unpacking agrees with `ParseLegacy` |
| Legacy.LegacyVersionGate | pytest_expect/expect.py:158-178 | an integer version outside [0x0100, 0x0200) warns and yields the empty set. Inside it, the gate yields exactly the listed ids with their alternates, and fails exactly when `expect_xfail` is missing or not a list of strings |
| Plugin.ExpectationPlugin.constructor | pytest_expect/expect.py:61-69 | the plugin starts with the configured flags, empty sets and no warnings |
| Plugin.ExpectationPlugin.LoadExpectations | pytest_expect/expect.py:73-83 | a missing file changes nothing. A file that starts with the marker goes to the text reader, any other to the legacy reader. `expect_xfail` is replaced only when the reader returns |
| Plugin.Configure | pytest_expect/expect.py:50-57 | an update run loads nothing. A check run loads, and a load that raises gives one warning and an empty `expect_xfail` |
| Plugin.ExpectationPlugin.CollectReport | pytest_expect/expect.py:180-188 | the sets after a collector report are `AfterCollect` of the sets before |
| Plugin.CollectTouchesOneSet | pytest_expect/expect.py:180-188 | update mode never changes `expect_xfail`, and check mode never changes `fails` |
| Plugin.CollectReplacesByChildren | pytest_expect/expect.py:182-186 | a passing expected-to-fail collector is replaced by its children. It stays only when it is one of them. A collector that is not expected to fail changes nothing |
| Plugin.CollectRecordsFailures | pytest_expect/expect.py:187-188 | in update mode a collector is added to `fails` exactly when it failed |
| Plugin.ExpectationPlugin.ModifyItems | pytest_expect/expect.py:190-197 | in check mode exactly the items whose id is expected to fail get one marker, `skip` or `xfail` by the flag. Other items, and every item in update mode, are unchanged |
| Plugin.ExpectationPlugin.RuntestLogreport | pytest_expect/expect.py:199-201 | `fails` after a run report is `AfterRun` of `fails` before, and nothing else changes |
| Plugin.RunRecordsFailures | pytest_expect/expect.py:199-201 | a run report adds its id exactly when updating, failed and not an expected failure, and changes no other id |
| Plugin.ExpectationPlugin.SessionFinish | pytest_expect/expect.py:203-207 | the file is written exactly when updating and not a worker, and what is written is `WriteFile` of the failures |
| Plugin.UpdateThenCheck | tests/test_plugin.py:14-27 | an update run's complete save, loaded by a check run under the same major, gives exactly the failures, without a warning |
| Plugin.CheckAfterUpdate | tests/test_plugin.py:14-27 | a complete save, loaded by `pytest_configure` in a check run under the same major and followed by `pytest_collection_modifyitems` (pytest_expect/expect.py:190-197), raises no warning and gives exactly the items whose id failed one `xfail` marker, leaving the others as they were |
| Plugin.FailedSaveLoadsSubset | pytest_expect/expect.py:73-83 | a save that fails part way still loads under the writer's major, without warning, as a subset of the failures |

## Left out

- Option registration, `config.pluginmanager.register` and the `rootdir` default path (pytest_expect/expect.py:24-48, 52, 70-71) are host-framework glue. The file's contents are a parameter.
- File I/O (`os.path.isfile`, `open`, `seek`, `write`) is replaced by the file's bytes, passed in (None for no file) and returned.
- `umsgpack.unpack` is a foreign library. It is the `unpack` parameter, which gives a decoded map or None when it raises or decodes a non-map.
- `sys.version_info`, `six.PY2`/`PY3` and the `slaveinput` worker test are parameters: a `VersionInfo`, its major, and a worker boolean.
- `config.warn` is modelled as the `warnings` sequence the plugin records.
- `warn_on_python_xfail` is stored but never read, as in the source.
- Items are values: `ModifyItems` returns the items with their markers added instead of calling `add_marker` on shared objects, so aliasing between items is not modelled.
- Literals.Repr: every non-ASCII code point is treated as printable. Python's `repr` escapes non-printable ones, so the model fails some Python 3 writes that Python would complete.
- Literals.ParseStringLiteral: only the string literals the writer can produce are modelled. That is an optional `b`/`u` prefix, either quote, and the escapes `\\ \' \" \t \n \r \xhh`, plus `\uXXXX` and `\UXXXXXXXX` in text. A raw LF, CR or NUL between the quotes is refused, as Python's `compile` refuses it. Other literal syntax (raw strings, octal and named escapes, adjacent literals, comments, blanks before the literal) is refused, where Python would accept it. Blanks after the literal are accepted, as Python accepts them.
- ExpectFile.ParseVersionLine: it accepts only a five-tuple of decimal integers and string literals. After the closing parenthesis it accepts only blanks, tabs, form feeds and the line end (CR LF included). `ast.literal_eval` would also accept other five-element values, blanks inside the tuple other than `, `, and a trailing comment.
- ExpectFile.ParseHeader: accepts only plain decimal digits. `int()` would also accept a sign, leading blanks and underscores.
- ExpectFile.ParseEntry: under Python 2 the body line is not decoded, but the model still refuses non-ASCII lines there.
- ExpectFile.ParseVersionLine: under Python 2 the version line is not decoded either, but the model refuses a non-ASCII version line there too.
- ExpectFile.WriteFile: sorting a set that mixes byte and text ids is modelled as failing after the two header lines under both majors. Python 2 would sort such a set when its byte ids are ASCII.
- Ids.Expanded: under Python 2 `'a' == u'a'`, so a set there would hold one of the two. The model keeps both ids. For the same reason `Legacy.Lookup` prefers the byte key under Python 2 when a map holds both a byte key and an equal text key, a case a Python 2 dict cannot produce.
- Legacy.Value: msgpack floats are not modelled, and maps and extension types are one opaque `Other`.
- Legacy.ParseLegacy: an `expect_xfail` that is not a list, or holds a non-string element, is an error. Python would iterate over any iterable and add any hashable element.
