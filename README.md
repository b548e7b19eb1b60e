# SymbolPicker in Dafny

A model of the behaviour of `SymbolPicker`, a SwiftUI view that lets the user choose an
SF Symbol name from a searchable grid and writes the choice into a string binding owned
by the host application.

The model covers the three pieces of the view that are behaviour rather than layout:

- **Catalog loading** (`catalog.dfy`, module `Catalog`). The two static lists
  `symbols15` and `symbols16` are the bundled text files split on `"\n"`. A missing or
  unreadable file gives the empty list. `Split` follows Swift's
  `split(separator:)` with its default of omitting empty pieces: blank lines and a
  trailing newline give no entry. `Join`, `Squeeze`, `TrimStart`, `TrimEnd` and
  `Normalize` are reference definitions that the parser is proved against.
- **Search filter** (`search.dfy`, module `Search`). The grid shows every entry of
  `symbols15` when the search text is empty, and otherwise the entries that contain the
  search text case-insensitively, in catalog order. The locale-aware comparison is
  modelled with ASCII lower-casing (`Lower`, `Fold`) and a plain substring test
  (`Contains`). Like Foundation's, `CaseInsensitiveContains`
  never finds the empty string, which is why the source tests `isEmpty` first.
  Only `symbols15` is ever shown; `symbols16` is loaded and never read.
- **Selection and dismissal** (`picker.dfy`, module `Picker`). The session is a value
  `State(selection, searchText, open)`. `Step` gives the effect of one user event and
  `Run` the effect of a sequence of them. `Enabled` says which events the view offers:
  a presented sheet accepts typing and a tap on any visible cell, the xmark
  exists off macOS and Cancel and Done exist only on macOS. That a dismissed sheet
  takes no further input is an assumption about the host (see "Left out"). The view itself is the class
  `SymbolPicker`. It has the `searchText` and presentation fields and a reference to the
  host's `Binding`. Each button action is a method proved to take the step `Step` gives.
  On every platform except macOS, a tap on a cell writes the symbol and dismisses the
  sheet. On macOS a tap only writes the symbol. Cancel writes `""` and dismisses, and
  Done dismisses without writing. A cell is highlighted iff its symbol equals the bound
  value.
- **Layout presets** (`layout.dfy`, module `Layout`). The per-platform grid dimension,
  symbol size and corner radius, and the ordering between platforms.

A pick
on macOS does not close the sheet; only Cancel or Done does. The "fallback" platform
(`#else`) behaves like iOS for picking and closing.

## Model

| member | source | states |
|---|---|---|
| `Catalog.LineLength` | Sources/SymbolPicker/SymbolPicker.swift:29 | the first piece of the text ends exactly at the first newline (or at the end): it holds no newline and is followed by one |
| `Catalog.Split` | Sources/SymbolPicker/SymbolPicker.swift:28-30 | every entry of a split is non-empty and contains no newline |
| `Catalog.LoadCatalog` | Sources/SymbolPicker/SymbolPicker.swift:22-42 | a missing or unreadable file gives the empty list, never a failure; a file gives well-formed entries whose newline-join is the file with its blank lines dropped |
| `Catalog.SplitEmpty` | Sources/SymbolPicker/SymbolPicker.swift:28-30 | the list is empty iff the file holds nothing but newlines |
| `Catalog.JoinSplit` | Sources/SymbolPicker/SymbolPicker.swift:28-30 | joining the entries with newlines gives the input with runs of newlines collapsed and leading and trailing newlines removed |
| `Catalog.SplitJoin` | Sources/SymbolPicker/SymbolPicker.swift:28-30 | splitting the newline-join of any list of non-empty newline-free names gives that list back |
| `Catalog.SplitTrailingNewline` | Sources/SymbolPicker/SymbolPicker.swift:29 | a trailing newline at the end of the file adds no entry |
| `Catalog.SplitNormalize` | Sources/SymbolPicker/SymbolPicker.swift:29 | blank lines in the file do not change the list |
| `Search.Lower` | Sources/SymbolPicker/SymbolPicker.swift:118 | the case fold standing in for the locale rules maps each ASCII capital to its lower-case partner, never yields a capital and changes nothing else |
| `Search.LowerPairs` | Sources/SymbolPicker/SymbolPicker.swift:118 | the upper- and lower-case form of each of the 26 ASCII letters fold to the same lower-case letter |
| `Search.Fold` | Sources/SymbolPicker/SymbolPicker.swift:118 | folding a string keeps its length and folds each character |
| `Search.FoldIdempotent` | Sources/SymbolPicker/SymbolPicker.swift:118 | folding twice is folding once |
| `Search.FoldLowerCase` | Sources/SymbolPicker/SymbolPicker.swift:118 | a string without ASCII capitals, such as every bundled symbol name, is unchanged by the fold |
| `Search.ContainsIff` | Sources/SymbolPicker/SymbolPicker.swift:118 | the substring test holds iff the needle occurs at some offset of the haystack |
| `Search.CaseInsensitiveContains` | Sources/SymbolPicker/SymbolPicker.swift:118 | `localizedCaseInsensitiveContains` holds iff the query is non-empty and its fold occurs at some offset of the symbol's fold; the empty query is never found |
| `Search.Matches` | Sources/SymbolPicker/SymbolPicker.swift:118 | the filter's closure keeps every symbol for an empty search text, and otherwise exactly the symbols in whose fold the folded search text occurs |
| `Search.MatchesIgnoresCase` | Sources/SymbolPicker/SymbolPicker.swift:118 | symbols and search texts that differ only in ASCII case are matched alike |
| `Search.Filter` | Sources/SymbolPicker/SymbolPicker.swift:118 | the grid is no longer than the catalog and every symbol in it matches the search text |
| `Search.FilterEmptySearch` | Sources/SymbolPicker/SymbolPicker.swift:118 | with an empty search text the grid is the whole catalog, unchanged and in order |
| `Search.FilterMembership` | Sources/SymbolPicker/SymbolPicker.swift:118 | a symbol is in the grid iff it is in the catalog and the search text is empty or contained in it case-insensitively |
| `Search.FilterCount` | Sources/SymbolPicker/SymbolPicker.swift:118 | a matching symbol appears in the grid exactly as often as in the catalog, a non-matching one never |
| `Search.FilterIsSubsequence` | Sources/SymbolPicker/SymbolPicker.swift:118 | the grid is a subsequence of the catalog: catalog order is kept |
| `Search.FilterIdempotent` | Sources/SymbolPicker/SymbolPicker.swift:118 | filtering the grid again with the same search text leaves it unchanged |
| `Search.FilterIgnoresQueryCase` | Sources/SymbolPicker/SymbolPicker.swift:118 | a search text and its lower-cased form show the same grid |
| `Search.FilterWellFormed` | Sources/SymbolPicker/SymbolPicker.swift:118 | the grid of a parsed catalog holds only non-empty, newline-free names |
| `Search.StarMissExample` | Sources/SymbolPicker/SymbolPicker.swift:118 | "star" does not occur in "square.and.arrow.up" |
| `Search.StarSearchExample` | Sources/SymbolPicker/SymbolPicker.swift:118 | searching "star" in the catalog `["square.and.arrow.up", "star", "star.fill"]` shows `["star", "star.fill"]` |
| `Layout.PresetFor` | Sources/SymbolPicker/SymbolPicker.swift:44-78 | on every platform the glyph (`symbolSize`) is smaller than its cell (`gridDimension`), and the radius rounding the highlighted cell's background is under half the glyph size, hence under half the cell height |
| `Layout.PresetsOrdered` | Sources/SymbolPicker/SymbolPicker.swift:44-78 | grid dimension, symbol size and corner radius are each larger on tvOS than on iOS, larger on iOS than on macOS, and larger on the fallback platform than on macOS |
| `Picker.Enabled` | Sources/SymbolPicker/SymbolPicker.swift:96-205 | an event is offered only to a presented sheet (the host assumption under "Left out"); a presented sheet accepts typing, offers Cancel and Done exactly on macOS and the xmark exactly elsewhere; a cell can be tapped iff the sheet is presented and its symbol is in `symbols15` and matches the search text |
| `Picker.Step` | Sources/SymbolPicker/SymbolPicker.swift:118-197 | only a pick or Cancel writes the binding (the symbol, or `""`), only typing changes the search text, and the sheet stays presented only after typing or a macOS pick, so a closed sheet stays closed |
| `Picker.PickStep` | Sources/SymbolPicker/SymbolPicker.swift:118-128 | a tap on a visible cell writes exactly its symbol, keeps the search text, leaves the sheet open iff on macOS, and afterwards exactly the cells showing that symbol are highlighted, the tapped one among them |
| `Picker.EmptyBindingHighlightsNothing` | Sources/SymbolPicker/SymbolPicker.swift:128 | with an empty binding (as Cancel leaves it) no cell of a parsed catalog is highlighted |
| `Picker.HighlightedCells` | Sources/SymbolPicker/SymbolPicker.swift:118-128 | the highlighted cells of the grid are exactly those showing the bound symbol: that one symbol if it is in the grid, none otherwise |
| `Picker.ClosedIsFinal` | Sources/SymbolPicker/SymbolPicker.swift:125 | under the host assumption stated under "Left out" (a dismissed sheet is gone), a session that has closed the sheet ends there |
| `Picker.SessionBinding` | Sources/SymbolPicker/SymbolPicker.swift:120-197 | after any session the binding is `""` if it ended with Cancel, and otherwise the last symbol picked, or the host's value if none was |
| `Picker.CompactBindingFixedWhileOpen` | Sources/SymbolPicker/SymbolPicker.swift:120-126 | off macOS, while the sheet is presented the binding still holds the host's value: it changes only as the sheet closes |
| `Picker.BindingOrigin` | Sources/SymbolPicker/SymbolPicker.swift:118-190 | the binding only ever receives a symbol of the catalog, or `""` from the macOS Cancel button |
| `Picker.Binding.constructor` | Sources/SymbolPicker/SymbolPicker.swift:82 | a binding holds the value the host gave it |
| `Picker.SymbolPicker.constructor` | Sources/SymbolPicker/SymbolPicker.swift:83-90 | a new picker holds the host's binding, loads both catalogs, starts with an empty search text and is presented |
| `Picker.SymbolPicker.Grid` | Sources/SymbolPicker/SymbolPicker.swift:118 | the grid is the whole of `symbols15` while the search field is empty; a symbol is in it iff it is in `symbols15` and matches the search text; catalog order is kept |
| `Picker.SymbolPicker.TypeSearch` | Sources/SymbolPicker/SymbolPicker.swift:96-111 | editing the search field sets the search text, regenerates the grid as the filter of `symbols15`, and leaves the binding alone |
| `Picker.SymbolPicker.Dismiss` | Sources/SymbolPicker/SymbolPicker.swift:125 | dismissing closes the sheet and keeps the search text |
| `Picker.SymbolPicker.Pick` | Sources/SymbolPicker/SymbolPicker.swift:120-126 | a cell's button writes its symbol into the binding, dismisses except on macOS (and otherwise leaves the presentation as it was), keeps the search text, and makes exactly the cells with that symbol highlighted |
| `Picker.SymbolPicker.XmarkDismiss` | Sources/SymbolPicker/SymbolPicker.swift:172-174 | the xmark closes the sheet and leaves the binding and search text alone |
| `Picker.SymbolPicker.Cancel` | Sources/SymbolPicker/SymbolPicker.swift:188-190 | Cancel writes `""` into the binding and closes the sheet |
| `Picker.SymbolPicker.Done` | Sources/SymbolPicker/SymbolPicker.swift:196-197 | Done closes the sheet and leaves the binding alone |

## Left out

- Reading the resources (`Bundle.module.path`, `String(contentsOfFile:)`) is file I/O. A file is an input `Option<string>`; `None` stands for "missing or unreadable".
- The characters of the model stand for Swift `Character`s, that is, grapheme clusters. In Swift a `"\r\n"` pair is one `Character`, distinct from `"\n"`, so a file with CRLF line ends would not be split. Decoding a file into `Character`s belongs to the file reading and is not modelled. A lone `'\r'` is kept inside an entry, as in the source.
- `localizedCaseInsensitiveContains` depends on the user's locale, which Foundation applies and which cannot be seen. It is modelled by ASCII lower-casing. Non-ASCII case pairs, diacritic and width rules of the locale are not modelled, and every search property is stated relative to the ASCII fold.
- The lazy, once-only initialisation of the static lists is a runtime guard. Each `SymbolPicker` object holds the two loaded lists as constants instead.
- SwiftUI layout and styling (`ScrollView`, `LazyVGrid`, `.searchable` placements, toolbar, colours, fonts, hover effects, the 520×300 frame) and glyph rendering by `Image(systemName:)` have no checkable behaviour beyond the grid contents and the highlight test.
- Host assumption: the button closures never check whether the sheet is still presented, and the class's methods do not require it either. The session lemmas (`Enabled`, `EnabledRun`, `ClosedIsFinal`, `SessionBinding`, `CompactBindingFixedWhileOpen`) assume that SwiftUI delivers no event to a sheet once it is dismissed. A second tap arriving during the dismiss animation is therefore not covered by them. Dismissals the host performs itself, such as the iOS swipe-down, are represented by `XmarkDismiss`.
- `presentationMode` belongs to the host. It is modelled by the `isPresented` field, which `Dismiss` clears.
- The presets are `CGFloat` in the source. Their values are whole numbers and are modelled as `nat`.
- `LocalizedString` and `NSLocalizedString` are a localisation lookup and are not modelled.
- `SymbolPicker_Previews` is Xcode preview scaffolding and is not modelled. `Package.swift` is a build manifest with no runtime behaviour.
