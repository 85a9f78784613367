# Contribution loaders of gh-contributions-level, in Dafny

`main.ts` has two loaders. `parseYMLFiles` reads every `contributions_*.yml`
file in `./contributions` and puts each parsed `date: count` pair into a
`Map<string, number>`. `parseHTMLFiles` reads every `contributions_*.html`
file in `./table`, skips documents that do not parse, and for each `td`
whose `data-date` and `data-level` are both non-empty sets `date -> level` in
a `Map<string, string>`. Both end by logging the map's entries in order. An
exception inside either `try` is caught: an error is logged and the map is
not printed.

The model:

- `OrderedMaps` (ordered_maps.dfy) is the JavaScript `Map` as a value. It
  holds the key order and the table. `Put` is `Map.prototype.set`, and
  `PutAll` is a run of `set` calls. `EntrySeq` is what `entries()` yields.
  `Firsts` is an independent reference definition of first-insertion order.
  The lemmas cover keys, last-writer-wins, order and idempotence.
- `InsertionMaps.InsertionMap` (insertion_map.dfy) is the `Map` object that
  each loader allocates and updates in place. Its fields are `order` and
  `table`.
- `Loading` (loading.dfy) specifies each loader as a fold (`Accumulate`) over
  what each directory entry contributes: nothing, its pairs, or `Abort`. It
  also holds the name filter `Selected` and the cell filter `Recorded`.
  `CellPairs` is the `(date, level)` pairs of the recorded cells, in order.
- `LoadingProperties` (loading_properties.dfy) proves what the loaders
  promise. It covers the name filter, failure, keys, last-writer-wins,
  order, idempotence, the parse-failure skip and the verbatim level.
- `Loaders` (loaders.dfy) holds `ParseYmlFiles` and `ParseHtmlFiles`. Each
  is a method with the source's nested loops. Each is proved to log exactly
  what its specification describes.
- `LoaderScenarios` (scenarios.dfy) works through two concrete cases. In the
  first, a later YAML file overrides an earlier one, and a `.yaml` file and a
  directory are ignored. In the second, a row of cells is reduced to the
  one complete cell.

The inputs are abstract:
- The directory listing is a sequence of `DirEntry(name, isFile, content)`,
  where `content` is `None` when `Deno.readTextFile` would throw.
- The YAML parser followed by `Object.entries` is a function
  `string -> Option<seq<(string, int)>>`, where `None` means it throws.
- `DOMParser` followed by `querySelectorAll("td")` and `getAttribute` is a
  function `string -> Option<seq<Cell>>`, where `None` means a null document.

Three facts about main.ts shape the model:
- The HTML loader keeps the level as the attribute string. It never parses
  it to a number (main.ts:36, main.ts:64).
- Neither loader returns its map or passes an error to its caller. Each
  catches the error, logs it, and stops (main.ts:29-31, main.ts:74-76). The
  model's observable result is therefore `Outcome`: the logged lines, or
  `Failed`.
- The suffixes are exactly `.yml` and `.html`, and the prefix is exactly
  `contributions_`.

## Model

| member | source | states |
|---|---|---|
| OrderedMaps.Empty | main.ts:6 | `new Map()` is well-formed, with no keys and an empty order |
| OrderedMaps.Put | main.ts:20 | `set` keeps the map well-formed: its keys stay distinct and the order lists exactly the table's keys |
| OrderedMaps.PutSemantics | main.ts:20 | after `set`, the key maps to exactly the new value; every other key keeps its value; the key set only gains this key; an existing key keeps its position; a new key goes last |
| OrderedMaps.PutAll | main.ts:19-21 | setting a sequence of pairs one after the other keeps the map well-formed (distinct keys, order and table agree) |
| OrderedMaps.PutAllKeys | main.ts:19-21 | after the loop, the keys are the old keys plus every key of the pairs, and nothing else |
| OrderedMaps.PutAllUntouched | main.ts:19-21 | a key that no pair mentions keeps its old value |
| OrderedMaps.PutAllLastWins | main.ts:19-21 | a duplicated key ends with the value of its last pair, exactly, so values are never combined |
| OrderedMaps.PutAllTable | main.ts:19-21 | the resulting table is the old table overridden by the table the pairs build on their own |
| OrderedMaps.PutAllOrder | main.ts:19-28 | the log order is the old order followed by the new keys in order of first occurrence, as the reference `Firsts` defines it |
| OrderedMaps.EntrySeq | main.ts:26-28 | `entries()` yields every key of the map exactly once, and no other key, in first-insertion order, each with its current value |
| OrderedMaps.FirstsAppend | main.ts:26-28 | first-occurrence order of a concatenation is that of the first part, followed by the second part's keys that were not seen before |
| OrderedMaps.PutAllKnownKeepsOrder | main.ts:20 | overwriting only existing keys moves no key |
| OrderedMaps.PutAllIdempotent | main.ts:19-21 | re-applying the same pairs leaves the map, order included, unchanged |
| InsertionMaps.InsertionMap.constructor | main.ts:6 | `new Map()` starts empty |
| InsertionMaps.InsertionMap.Set | main.ts:20 | the object's new value is `Put` of its old value |
| InsertionMaps.InsertionMap.Entries | main.ts:26-28 | the log loop visits each key once, in the map's order, with its current value |
| Loaders.SetEntries | main.ts:19-21 | the inner YAML loop leaves the map equal to `PutAll` of the file's pairs over the old map |
| Loaders.SetCells | main.ts:59-66 | the `forEach` leaves the map equal to `PutAll` of the recorded cells' `(date, level)` pairs over the old map, so other cells change nothing |
| Loaders.ParseYmlFiles | main.ts:4-32 | the YAML loader logs exactly the entries of `LoadYml(listing)` in order, or only fails when the specification fails |
| Loaders.ParseHtmlFiles | main.ts:34-77 | the HTML loader logs exactly the entries of `LoadHtml(listing)` in order, or only fails when the specification fails |
| Loading.Accumulate | main.ts:9-23 | the fold over the listing yields a well-formed map whenever it does not fail |
| Loading.Selected | main.ts:10-14 | the name filter: a regular file whose name starts with `contributions_` and ends with the loader's suffix (`.yml` here, `.html` at main.ts:40-44) |
| Loading.Recorded | main.ts:63 | `date && level`: both attributes present and neither the empty string |
| Loading.CellPairs | main.ts:59-66 | the `(date, level)` pairs the `forEach` sets, in document order: never more than the cells, and never an empty date or level |
| Loading.YmlFile | main.ts:10-22 | a YAML entry aborts the load exactly when it is selected and its read or parse throws; an entry the filter rejects contributes nothing |
| Loading.HtmlFile | main.ts:40-66 | an HTML entry aborts the load exactly when it is selected and its read throws; a rejected entry and a null document contribute nothing |
| Loading.LoadYml | main.ts:8-23 | the YAML loader's map, when its `try` does not catch an error, is well-formed |
| Loading.LoadHtml | main.ts:38-68 | the HTML loader's map, when its `try` does not catch an error, is well-formed |
| Loading.Report | main.ts:25-31 | what a loader leaves observable: `Failed` exactly when the load failed; otherwise one line per key of the map, each key exactly once, in first-insertion order, with its current value (also main.ts:70-76) |
| LoadingProperties.AccumulateFails | main.ts:8-31 | the load fails if and only if some entry aborts |
| LoadingProperties.AccumulateStaysFailed | main.ts:29-31 | once an entry has aborted the loop, later entries cannot produce a map |
| LoadingProperties.AccumulateDropsEmpty | main.ts:10-14 | an entry that contributes no pairs can be removed from the listing without changing the result |
| LoadingProperties.AccumulateRepeat | main.ts:19-21 | the same contribution twice in a row has the same effect as once |
| LoadingProperties.AccumulateKeys | main.ts:9-23 | the final keys are exactly the keys that the contributions set |
| LoadingProperties.AllKeysSupplied | main.ts:9-23 | a key is set if and only if some entry supplies it |
| LoadingProperties.AccumulateLastWins | main.ts:19-21 | a key holds the value of its last occurrence in the last entry that supplies it |
| LoadingProperties.AccumulateUnsupplied | main.ts:9-23 | a key that no later entry supplies keeps the value it had after the entry that last set it |
| LoadingProperties.AccumulateOrder | main.ts:9-28 | the final key order is the first-occurrence order of all keys set, across files |
| LoadingProperties.YmlOnlySelected | main.ts:10-14 | an entry that is not a regular file named `contributions_*.yml` can be removed from the listing without changing the YAML result |
| LoadingProperties.YmlFails | main.ts:15-17 | the YAML load fails if and only if some selected file cannot be read or parsed |
| LoadingProperties.YmlKeys | main.ts:9-23 | after a successful YAML load, a key is in the map if and only if some selected file's parsed record has it; no key comes from another entry |
| LoadingProperties.YmlLastFileWins | main.ts:19-21 | on a duplicate date the value comes from the last file that has it, at its last occurrence there |
| LoadingProperties.YmlSameFileTwice | main.ts:19-21 | loading the same file twice in a row gives the same map as loading it once |
| LoadingProperties.HtmlOnlySelected | main.ts:40-44 | an entry that is not a regular file named `contributions_*.html` does not affect the HTML result |
| LoadingProperties.HtmlSkipsUnparsable | main.ts:52-55 | a selected file whose document does not parse adds nothing, and the files after it are still processed |
| LoadingProperties.HtmlFails | main.ts:45-46 | the HTML load fails if and only if some selected file cannot be read; a parse failure never fails it |
| LoadingProperties.HtmlKeys | main.ts:39-68 | after a successful HTML load, a date is in the map if and only if some selected file records it; no date comes from another entry |
| LoadingProperties.HtmlLastFileWins | main.ts:59-66 | on a date recorded by several files the level comes from the last file that records it, from its last recorded cell with that date, as the exact string |
| LoadingProperties.CellPairsSkip | main.ts:59-66 | a cell lacking a non-empty date or a non-empty level is skipped silently |
| LoadingProperties.HtmlLevelVerbatim | main.ts:60-64 | the level stored for a date is exactly the `data-level` string of the last recorded cell with that date |
| LoaderScenarios.LaterYamlFileWins | main.ts:9-23 | on a four-entry listing, the second file's count replaces the first's, the date keeps its position, and the `.yaml` file and the directory are never read |
| LoaderScenarios.OnlyCompleteCellsRecorded | main.ts:59-66 | of three cells, only the one with both attributes non-empty is recorded, with the level as the string "2" |

## Left out

- Deno I/O (`Deno.readDir`, `Deno.readTextFile`) and `for await`: the listing is a given finite sequence, and a failing read is the entry's `content` being `None`. A failure of the directory enumeration itself is not modelled.
- The YAML parser and the deno_dom parser are library calls. They are function parameters here. The `as Record<string, number>` cast (main.ts:17) is unchecked in the source, so the model simply types YAML values as integers. The parser parameter stands for `parse` followed by `Object.entries`. `None` is a parse that throws, or a null or undefined document (an empty file, `~`), on which `Object.entries` throws. A number or a boolean document gives `Some([])`, since `Object.entries` returns no pairs for it. A string document makes `Object.entries` yield index and character pairs whose values are strings. The `int` typing of values cannot hold those, so that case is not modelled.
- The model takes `Object.entries` pairs in the order the parser function gives them. JavaScript's rule that integer-like keys come first is not modelled, and date keys are never integer-like.
- `console.log` and `console.error`: the log is the sequence of `(key, value)` pairs, not formatted text, and the error message is reduced to `Failed`.
- The script entry point (main.ts:79) only calls the HTML loader.
- Merging the two maps, the CSV export, month names and the per-level range report do not exist in `main.ts`. They are not part of this model.
- Strings are sequences of characters. The UTF-16 code units of JavaScript strings are not modelled, and `startsWith`, `endsWith` and the truthiness test do not depend on them.
