# dofushunt core in Dafny

A model of the non-UI core of a treasure-hunt helper for a grid-based game
(`types.go`). It has two independent parts.

- **Directional clue scanner.** From a start cell and a cardinal direction it
  builds a bounded ray of cells, never including the start cell. It looks up
  the clue names at each cell in the game's clue tables and keeps, for every
  name, the nearest cell where the name appears. The result set lists its
  names in sorted order and looks up a name's cell, failing on an unknown
  name. A cell renders as the `/travel X Y` console command.
- **Localization index.** An ordered list of (country code, friendly name)
  entries with two lookup maps built from it. The maps are keyed by the
  lower-cased code or name, and a later entry overwrites an earlier one. The
  index also holds a selection index that starts at -1.

Files and modules:

- `wrappers.dfy` (`Wrappers`): `Option` and `Result`.
- `strings.dfy` (`Strings`): lower-casing, decimal rendering of integers and a
  reader for it, the lexicographic string order, and an in-place string sort.
- `localization.dfy` (`Localization`): `SupportedLanguage` and the class
  `SupportedLanguagesCollection`.
- `positions.dfy` (`Positions`): `ClueDirection`, `MapPosition`,
  `TravelCommand`, and the ray (`Ray` as the specification,
  `DirectedMapPositions` as the loop).
- `scanner.dfy` (`Scanner`): the clue tables as a `ClueIndex` parameter,
  `GetClueNames`, the scan (`ScanPositions` as the specification,
  `GetClueResultSet` as the loop), `FirstHit` as an independent reference
  definition of "nearest cell", and the accessors `Pois` and `Pos`.

The game's global tables `CluesPosMap` and `ClueNamesMap` are read-only
parameters here. `ClueIndex` holds a map from X to a map from Y to a sequence
of clue ids, and a map from clue id to display name. A missing cell gives no
clues. An id without a name gives the name `""`, as Go's map zero value does.

`ClueDirection.Arrow` returns the word `"none"` for the sentinel direction
(types.go:131), not a blank glyph.

## Model

| member | source | states |
|---|---|---|
| `Positions.ClueDirection.String` | types.go:106-118 | The case table: right, down, left and up get their lower-case names, and everything else gets "none". Different directions get different names (`DirectionLabels`). |
| `Positions.ClueDirection.Arrow` | types.go:120-132 | The case table: → ↓ ← ↑ for the four cardinal directions, and the word `"none"` for the sentinel (types.go:131). Different directions get different arrows (`DirectionLabels`). |
| `Positions.DirectionFromInt` | types.go:96-104 | The iota numbering: 0 right, 1 down, 2 left, 3 up. Every other integer falls through to the sentinel, as the switches without a default do (`DirectionNumbering`). |
| `Positions.MapPosition.TravelCommand` | types.go:167-169 | `"/travel " + IntToString(x) + " " + IntToString(y)`. It is unambiguous by `TravelCommandRoundTrip`. |
| `Strings.IntToString` | types.go:168 | The `%d` rendering: a `-` for a negative number, then the decimal digits of its magnitude without padding (`NatToString`). It reads back by `IntToStringRoundTrip`. |
| `Positions.RayEmpty` | types.go:191-227 | The ray is empty exactly when the limit is below 1 or the direction is the sentinel. |
| `Positions.RayShape` | types.go:196-226 | A cardinal ray with limit L has exactly L cells, and cell k is k+1 steps from the start along the direction. |
| `Positions.RayCells` | types.go:197-224 | Right moves X by +k+1, Left by -k-1, Up moves Y by -k-1, Down by +k+1. The other coordinate is unchanged, the Chebyshev distance is k+1, and no cell is the start. |
| `Positions.RayIncreasing` | types.go:196-226 | Later cells of the ray are strictly farther from the start, so no cell repeats. |
| `Positions.DirectedMapPositions` | types.go:191-227 | The four counted loops build exactly `Ray(start, dir, limit)`. |
| `Positions.DirectedMapPositionsSet` | types.go:171-173 | The default-depth ray is `Ray(m, dir, 10)` and has 10 cells for a cardinal direction. |
| `Positions.DirectionLabels` | types.go:106-132 | Different directions get different names and different arrows. Only the sentinel lacks a one-glyph arrow. |
| `Positions.DirectionNumbering` | types.go:96-104 | Exactly the numbers 0 to 3 are cardinal directions, one number per direction. Every other number acts as the sentinel. |
| `Positions.TravelCommandRoundTrip` | types.go:167-169 | Reading the `/travel X Y` string back gives the same position, so the rendering is unambiguous for every X and Y, negatives included. |
| `Positions.TravelCommandExample` | types.go:167-169 | Position (12, -4) renders as `/travel 12 -4`. |
| `Strings.NatToString` | types.go:168 | Decimal rendering gives at least one digit, only digits, and no leading zero except for 0 itself. |
| `Strings.IntToStringRoundTrip` | types.go:168 | Every integer is read back from its `%d` rendering. |
| `Strings.LexIrreflexive` | types.go:155 | No string sorts before itself. |
| `Strings.LexTransitive` | types.go:155 | The string order is transitive. |
| `Strings.LexTotal` | types.go:155 | Of two different strings, one sorts before the other. |
| `Strings.SortStrings` | types.go:155 | Sorting in place leaves the array sorted and a permutation of what it held. |
| `Strings.SortedDistinctIsStrict` | types.go:155 | A sorted sequence with no repeated value is strictly increasing at every pair of positions. |
| `Strings.ToLowerIdempotent` | types.go:27-32 | Lower-casing an already lower-cased key changes nothing. |
| `Scanner.GetClueNames` | types.go:175-185 | The names are those of the cell's clues, one per clue in table order. A clue without a name gives `""`, and a cell missing from the table gives no names. |
| `Scanner.FirstHit` | types.go:229-241 | The reference "nearest cell": the first cell carrying the name, with no earlier cell carrying it, or none when no cell does. |
| `Scanner.RecordNamesSpec` | types.go:234-238 | The inner loop adds each new name at the current cell. It never changes a name already recorded. |
| `Scanner.ScanFirstHit` | types.go:229-241 | A scan records a name exactly when some visited cell carries it, and records the first such cell. |
| `Scanner.ScanKeysAndValues` | types.go:229-241 | The recorded names are the union of the names over all visited cells. Every recorded cell is a visited cell that carries its name. |
| `Scanner.ScanRecordsFirst` | types.go:232-238 | The recorded cell of a name is the earliest cell carrying it, and no earlier cell carries it. |
| `Scanner.ScanNearestWins` | types.go:232-238 | Along a ray, a name carried by any ray cell is recorded. Its recorded cell is never farther from the start than any ray cell carrying the name, so a later occurrence never overwrites a nearer one. |
| `Scanner.GetClueResultSet` | types.go:229-241 | The nested loops build exactly `ScanPositions(index, Ray(start, dir, limit))`. |
| `Scanner.FindNextClue` | types.go:187-189 | The default scan is the scan of the 10-cell ray. |
| `Scanner.Pois` | types.go:150-157 | Returns exactly the result set's names, each once, in strictly increasing lexicographic order. |
| `Scanner.PoisExample` | types.go:150-157 | The names {"Bronze Key", "Ancient Urn"} come out as ["Ancient Urn", "Bronze Key"]. |
| `Scanner.Pos` | types.go:159-165 | Fails exactly when the name is not in the set. Otherwise it returns the stored cell. |
| `Scanner.PosAfterScan` | types.go:159-165 | After a scan, `Pos` fails exactly for names that no visited cell carries. Otherwise it gives the first cell carrying the name. |
| `Localization.LastMatch` | types.go:57-60 | The reference lookup: the last entry whose lower-cased key matches, with no later entry matching, or none when no entry matches. |
| `Localization.LookupMapIsLastWins` | types.go:55-62 | The map the loop builds holds exactly the lower-cased keys of the entries. Each key maps to the value of the last entry with that key. |
| `Localization.SupportedLanguagesCollection.constructor` | types.go:50-64 | The collection keeps the entry list, its maps are those built from the list, and the selection index is -1. |
| `Localization.SupportedLanguagesCollection.SetSelectedIndex` | types.go:23-25 | A write through the exposed selection index sets it. |
| `Localization.SupportedLanguagesCollection.CountryCode` | types.go:27-29 | Gives the code of the last entry whose lower-cased name equals the lower-cased argument. Gives `""` when there is none. |
| `Localization.SupportedLanguagesCollection.Lang` | types.go:30-32 | Gives the name of the last entry whose lower-cased code equals the lower-cased argument. Gives `""` when there is none. |
| `Localization.SupportedLanguagesCollection.Langs` | types.go:34-40 | One friendly name per entry, in entry order. |
| `Localization.SupportedLanguagesCollection.CountryCodes` | types.go:42-48 | One code per entry, in entry order, aligned with `Langs`. |
| `Localization.LookupsRoundTrip` | types.go:27-32 | When codes and names are unique ignoring case, an entry's name looks up its code and its code looks up its name, so `CountryCode(Lang(code))` and `Lang(CountryCode(name))` return the entry's own values. |
| `Localization.SupportedLanguagesAreUnique` | types.go:68-89 | The shipped table has unique codes and unique names ignoring case, so the round trip holds for it. |
| `Localization.LangIgnoresCase` | types.go:30-32 | On the shipped table, `Lang("FR")` and `Lang("fr")` both give "Francais". |
| `Localization.CountryCodeLookups` | types.go:27-29 | On the shipped table, `CountryCode("english")` gives "en" and `CountryCode("klingon")` gives "". |

## Left out

- `ClueDirection.Button` (types.go:134-146) builds UI widgets from a foreign toolkit, so it has no behaviour to state.
- `Strings.ToLower` lower-cases only ASCII A-Z. Go's `strings.ToLower` also maps other Unicode letters.
- `Positions.DirectedMapPositions`: the model uses unbounded integers, but Go's `int` is 32 or 64 bits depending on the platform. So `X + i`, `X - i`, `Y - i` and `Y + i` can wrap near the limits, and the model does not capture that. When `limit` is the largest `int`, the counter of `for i := 1; i <= limit; i++` (types.go:198, 205, 212, 219) wraps to the smallest `int` and stays `<= limit`, so the Go loops never end. The model returns `limit` cells instead.
- `Strings.LexLess` compares characters by code point. Go compares UTF-8 bytes, which gives the same order on valid UTF-8. Invalid byte sequences are not modelled.
- `SelectedIndex()` returns a pointer into the collection (types.go:23-25). The model does not capture that aliasing. The field is a plain mutable `int32`, and `SetSelectedIndex` writes it the way the UI writes through the pointer.
- `AppSupportedLanguages` (types.go:66) is a process-wide global. The lemmas about the shipped table instead take any collection whose entries are `SUPPORTED_LANGUAGES`.
- The contents of `CluesPosMap` and `ClueNamesMap` are static game data outside this file. They are the `ClueIndex` parameter, and clue ids are integers.
- `SupportedLanguagesCollection.constructor`: Go keeps the caller's slice (types.go:52), so later writes to it reach `Langs` and `CountryCodes` but not the maps built at types.go:57-60. The model copies the entries, so it does not capture that sharing.
- A `nil` slice and an empty slice are both the empty sequence.
- Go's map iteration order in `Pois` is an arbitrary choice (`:|`). It does not matter, because the result is sorted.
- `sort.Strings` is modelled by an insertion sort, and only its result is specified. `Pos` returns a pointer to a copy, modelled as the value itself. The `fmt.Errorf` error is modelled as its message string.
- `ParseTravelCommand` is not in the source. It is a reference reader, used only to state that the command is unambiguous.
