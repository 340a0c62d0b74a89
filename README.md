# NamuMark renderer core, modelled in Dafny

This project models the core of the `NamuMark` wiki renderer (src/index.ts) and the HTML escaper of src/misc.ts. It also proves properties of both.

The renderer is a fixed pipeline of passes. Each pass finds the next match of a regular expression in the working text and decides what to emit, and it records side data in the renderer's fields. The model takes the matches as inputs (captured groups, or a token sequence of text and tags) and models the decisions and the state:

- **The placeholder store** (`Placeholders`, `Renderer.NamuMark`).
  - `getToolDataStorage` numbers a new `render_n` or `slash_n` entry.
  - `getToolDataRestore` repeatedly replaces the first tag of the requested scope by its stored value, within a budget of three times the counter.
  - `getToolDataRevert` is modelled as written and as evidently intended.
- **Heading numbering** (`Heading`).
  - A line is accepted only when its opening run equals its closing run; a rejected line is restored verbatim through `<heading_N>` markers.
  - A six-slot counter array gives each heading its dotted path: trailing `.0` groups are trimmed, then the `0.` prefix shared by all headings is stripped.
- **The footnote registry** (`Footnote`, `Renderer`).
  - Markers are numbered by ordinal and merged by name.
  - `getToolFootnoteMake` visits keys in JavaScript's `for…in` order (array-index keys first, ascending), then empties the registry.
- **Table cells** (`Table`).
  - `manageTableParameter` reads one bracketed parameter and decides alignment and colspan.
  - The rowspan countdown moves cells right.
  - The call site at src/index.ts:792 is modelled as written and as intended.
- **Link bookkeeping** (`Links`, `Renderer`).
  - Which handler a `[[…]]` link reaches, and the canonical form of an internal target.
  - The de-duplicated category list and its backlinks.
  - The backlinks of file and internal links.
  - The budgeted link loop.
- **The finalizer** (`Finalize`, `Renderer.NamuMark.FixAnchors`): the `<a>` nesting fixer driven by its counter, and the table of contents filled in at most 20 times, with the `$` patterns that `String.prototype.replace` expands in its replacement text.
- **Small helpers** (`Tools`):
  - the `getTool*` helpers;
  - the backslash parity of the include-default handler;
  - the font-size table;
  - `dday` formatting;
  - list items;
  - video embed addresses.
- **The escapers.**
  - `Html` is the chain of five replacements, parameterised by the apostrophe entity.
  - `Misc` instantiates it for src/misc.ts (`&#x27;`).
  - `Renderer.EscapeHtml`/`UnescapeHtml` instantiate it for the copy that src/index.ts defines for itself (`&#039;`).

Code that changes state step by step is modelled as a class with methods, or as methods with loops; pure helpers are modelled as functions.

- `Renderer.NamuMark` keeps the store, the counter, the registry, the category list, the backlinks and the category bar as fields. Its methods update them, and each method is proved against a function of the old state.
- `Heading.PushHeading` updates the counter array in place.
- Budgeted passes are `while` loops with their invariants:
  - `Heading.ManageHeading`;
  - `Table.ManageTable`;
  - `Table.ManageTableParameter`;
  - `Finalize.FillToc`;
  - `NamuMark.ManageFootnote`;
  - `NamuMark.ManageLink`.

The loop budgets are those of the source. Each budget is `.length` of a non-global match array times a factor, so it is a constant:

| pass | iterations at most |
|---|---|
| tables | 5 |
| links | 13 |
| footnote markers | 17 |
| headings | 16 |
| restore | `3 × count + 1` |

Two configuration tests make branches unreachable. `config.useCategorySet || true` and `config.useTocSet || true` are always true, so the branches that test them false never run (`Finalize.AutoTocUnreachable`).

Where the code and its evident intent differ, the model follows the code, and the intended reading sits beside it (see Findings).

## Model

| member | source | states |
|---|---|---|
| Misc.EscapeHtml | src/misc.ts:11-13 | the output contains none of `<`, `>`, `"`, `'`; its length is the input's plus 4 per `&`, 3 per `<` and `>`, 5 per `"` and `'`; text without any of the five specials is returned unchanged |
| Misc.UnescapeHtml | src/misc.ts:15-22 | text without `&` is returned unchanged |
| Misc.RoundTrip | src/misc.ts:11-22 | unescaping undoes escaping for every text that spells neither `&quot;` nor `&#x27;` |
| Misc.RoundTripFails | src/misc.ts:15-22 | the round trip turns `&quot;` into `"` and `&#x27;` into `'`, because `&amp;` is decoded before those entities |
| Html.EscapeIsStage | src/misc.ts:12 | the five chained global replacements equal escaping each character on its own, for either apostrophe entity |
| Html.EscapeRemovesSpecials | src/misc.ts:12 | no `<`, `>`, `"` or `'` survives escaping |
| Html.EscapeIdentity | src/misc.ts:12 | escaping is the identity on text without `& < > " '` |
| Html.EscapeIdentityIf | src/index.ts:11-13 | the same identity, as an implication usable by both escapers |
| Html.UnescapeIdentity | src/misc.ts:15-22 | unescaping is the identity on text without `&` |
| Html.EscapeLength | src/misc.ts:12 | the escaped length is `|x| + 4·#& + 3·#< + 3·#> + 5·#" + 5·#'` |
| Html.RoundTrip | src/misc.ts:11-22 | `Unescape(Escape(x)) == x` whenever `x` spells neither `&quot;` nor the apostrophe entity |
| Html.StageStep | src/misc.ts:15-22 | each unescaping replacement maps one escaping stage back to the previous one, given the entity is not spelled in the input |
| Html.RoundTripFailsOnQuot | src/misc.ts:15-22 | escaping then unescaping the text `&quot;` yields `"` |
| Html.RoundTripFailsOnApos | src/misc.ts:15-22 | escaping then unescaping the apostrophe entity yields `'` |
| Html.DecimalEscapeHasNoHexApos | src/index.ts:11-13 | the decimal escaper of src/index.ts never outputs `&#x27;`, so the hiding of `&#x27;` at src/index.ts:1367 and :1442 never applies to escaped text |
| Renderer.EscapeHtml | src/index.ts:11-13 | the renderer's own escaper (`&#039;`) leaves none of `<`, `>`, `"`, `'` and is the identity on text without specials |
| Renderer.UnescapeHtml | src/index.ts:15-22 | the renderer's own unescaper is the identity on text without `&` |
| Strings.NatToString | src/index.ts:1518 | `String(n)`: decimal digits whose value is `n`, without a leading zero |
| Strings.Split | src/index.ts:174 | `split`: one more piece than separators, no piece contains the separator, and joining the pieces with the separator gives the text back |
| Strings.Repeat | src/index.ts:234 | `repeat`: `n` copies of the character |
| Strings.ReplaceAllAbsent | src/index.ts:161 | a global replacement whose pattern cannot start anywhere leaves the text unchanged |
| Placeholders.KeyNumbers | src/index.ts:87-100 | `render_n`, `/render_n`, `revert_render_n` and `slash_n` all carry the number `n` |
| Placeholders.FreshKey | src/index.ts:87-100 | in a store whose keys are numbered at most the counter, a key numbered counter + 1 is absent, so a new entry never overwrites one |
| Placeholders.PutValid | src/index.ts:87-100 | writing a key numbered within the counter keeps the store well numbered |
| Placeholders.GrowValid | src/index.ts:88 | raising the counter keeps the store well numbered |
| Placeholders.KeyNotTag | src/index.ts:103-105 | a text starting with `<` is never a store key |
| Placeholders.FindTag | src/index.ts:103-106 | a found tag lies at or after the search start and is a well-formed tag of the scope |
| Placeholders.FindTagSkip | src/index.ts:103-106 | the search returns the first tag: when no `<` precedes position `a` and a tag starts there, that tag is returned |
| Placeholders.NoTagWithoutBracket | src/index.ts:108 | text without `<` has no tag of any scope |
| Placeholders.SlashTagFound | src/index.ts:103-106 | `<slash_n>` after a `<`-free prefix is found by the `all` and `slash` scopes, with key `slash_n` |
| Placeholders.RestoreStop | src/index.ts:107-110 | with no tag of the scope (or the budget spent) the text is returned unchanged, after zero replacements |
| Placeholders.RestoreUnfold | src/index.ts:107-118 | one turn replaces the first tag by its stored value and spends one unit of the budget |
| Placeholders.RestoreBound | src/index.ts:102-121 | a restore with budget `b` makes at most `b + 1` replacements, so it always ends |
| Placeholders.RestoreSteps | src/index.ts:102-121 | the result is the input after exactly that many first-tag replacements, each by that tag's stored value |
| Placeholders.RestoreExhausts | src/index.ts:107-118 | a restore that ends before its budget is spent leaves no tag of its scope |
| Placeholders.SlashRoundTrip | src/index.ts:102-121 | a `<slash_n>` tag in `<`-free text is restored to its stored value |
| Placeholders.FindReference | src/index.ts:126-130 | a found reference lies at or after the search start, within the text |
| Placeholders.FindReferenceSkip | src/index.ts:126-130 | the revert search returns the first reference, like the restore search |
| Placeholders.RevertAsWrittenUndefined | src/index.ts:139-146 | as written, every reverted reference becomes the literal `\undefined`, because the whole match is used as a key |
| Placeholders.RevertSlashExample | src/index.ts:123-158 | for `<slash_1>` with value `*`, the as-written revert gives `\undefined` and the intended one `\*` |
| Placeholders.RevertIntendedSlash | src/index.ts:139-146 | read as intended, a `<slash_n>` reference reverts to a backslash and its stored value |
| Tools.CssSafe | src/index.ts:160-162 | no `;` is left, exactly the `;` are removed, and `;`-free text is unchanged |
| Tools.JSSafeQuoted | src/index.ts:164-171 | the result is a JavaScript literal body that no quote, line break or stray backslash can end, and JavaScript reads it back as the input with each line break spelled `\\n` |
| Tools.DarkModeSplit | src/index.ts:173-180 | without a comma the data is returned; with one, the first piece in light mode (`"0"`) and the second otherwise; never a comma |
| Tools.SplitNoSep | src/index.ts:174-175 | `split` gives more than one piece exactly when the separator occurs |
| Tools.PxAddCheck | src/index.ts:182-185 | a digit string gains `px`; anything else is unchanged |
| Tools.PxAddCheckIdempotent | src/index.ts:182-185 | applying the check twice is the same as once |
| Tools.IncludeDefault | src/index.ts:222-241 | a `\` value returns the match; otherwise an odd run of `k` backslashes becomes `k − 1`, an even run stays `k`, then the value |
| Tools.IncludeDefaultEven | src/index.ts:231-240 | the kept backslash run is even and at most one shorter than the original |
| Tools.FontSize | src/index.ts:506-535 | a size exists exactly for `+1`…`+5` and `-1`…`-5`; `+d` gives `100 + 20d` and `-d` gives `100 − 10d` percent |
| Tools.SizeNames | src/index.ts:506-535 | the size names are exactly the ten of the table, and the formulas give the table's literals 200…120 and 50…90 |
| Tools.LargerSize | src/index.ts:515-519 | `+5`…`+1` give 200, 180, 160, 140, 120 |
| Tools.SmallerSize | src/index.ts:529-533 | `-5`…`-1` give 50, 60, 70, 80, 90 |
| Tools.Dday | src/index.ts:1069-1075 | a positive offset is signed `+`, zero gives `-0`, a negative offset `-` and its magnitude |
| Tools.ListDepth | src/index.ts:882-884 | the depth is the number of leading spaces, at least 1 |
| Tools.ListStyle | src/index.ts:886-892 | depth 1 is `unset`, 2 `circle`, anything else `square` |
| Tools.ListItem | src/index.ts:881-895 | the item starts with a margin of `20 × depth` px and ends with the depth's style, the text and `</li>` |
| Tools.VideoEmbed | src/index.ts:979-980 | the width and height put into the style hold no `;` |
| Tools.YoutubeShortLink | src/index.ts:952-954 | a `youtu.be` short link becomes the `youtube.com/embed/` address of the same id |
| Tools.VideoWidthOption | src/index.ts:935-944 | a digit `width=` option sets the width to that number of px |
| Table.Items | src/index.ts:664-665 | the items read are none, or the first `&lt;…&gt;` bracket followed by its inner text |
| Table.FirstBracketOnly | src/index.ts:664-665 | a parameter starting with a plain bracket yields that bracket and its inner text, whatever follows |
| Table.KeepDigits | src/index.ts:699 | removing non-digits leaves only digits, and a digit string is unchanged |
| Table.SpanDigits | src/index.ts:697-703 | a `-N` item's colspan is `N`; a rowspan item leaves a digit string |
| Table.Named | src/index.ts:667-694 | a named option only appends to the style fields, leaves the spans and data alone, and sets the class only for `tableclass` |
| Table.ItemFlags | src/index.ts:696-715 | one item clears the automatic-colspan flag exactly when it is `-N` and the automatic-alignment flag exactly when it is `(`, `:` or `)` |
| Table.ApplyItems | src/index.ts:665-717 | after all items, each flag is still set exactly when no item cleared it; the data is untouched |
| Table.ReadItems | src/index.ts:665-717 | the colspan and rowspan read are digit strings, or the rowspan is empty |
| Table.TableParameter | src/index.ts:658-741 | the resulting colspan is a digit string and the rowspan empty or a digit string |
| Table.ManageTableParameter | src/index.ts:658-741 | the loop over the items computes `TableParameter` |
| Table.AutomaticAlignment | src/index.ts:718-731 | without an alignment item, a leading space is dropped: right-aligned, or centred with the trailing space dropped; otherwise one trailing space is dropped and nothing is added |
| Table.ExplicitAlignment | src/index.ts:707-711 | with an alignment item, the data is untouched and no automatic alignment is added |
| Table.ColspanRule | src/index.ts:733-735 | without a `-N` item the colspan is `floor(len(cellCount)/2)`; a `-N` item sets it to `N` |
| Table.TwoBracketItems | src/index.ts:664-665 | of `&lt;-3&gt;&lt;:&gt;` only the first bracket is read |
| Table.SecondBracketIgnored | src/index.ts:664-665 | in `&lt;-3&gt;&lt;:&gt;` the colspan is 3 and the `:` is ignored, so a spaced body is still centred automatically |
| Table.OneBracketCell | src/index.ts:658-741 | a `&lt;-3&gt;` parameter gives colspan 3 and leaves the data |
| Table.WholeBracketIsBackground | src/index.ts:712-714 | the whole `&lt;…&gt;` item, read as a plain item, adds a background with the bracket text |
| Table.DropLeadingNewlines | src/index.ts:791 | the result is no longer and does not start with a line break |
| Table.AsWrittenIgnoresBrackets | src/index.ts:791-792 | as written, a cell's colspan is `0`, its rowspan empty, its options unread, and its data is the bracket text |
| Table.CallSiteAsWrittenExample | src/index.ts:792 | the cell `\|\|&lt;-3&gt;x` gets colspan `0` and data `&lt;-3&gt;` as written |
| Table.CallSiteIntendedExample | src/index.ts:792 | the same cell gets colspan 3 and data `x` when the groups are passed as intended |
| Table.IntendedColspan | src/index.ts:733-735 | read as intended, a cell without options spans half its `\|\|` run |
| Table.RowspanStaysNonNegative | src/index.ts:800-811 | rowspan countdowns never go negative |
| Table.RowspanCountdown | src/index.ts:800-806 | a running countdown at the column is decremented once and moves the cell exactly one column right; otherwise the cell stays; other columns are unchanged |
| Table.RowspanStarts | src/index.ts:808-811 | a rowspan `N > 1` sets the countdown at the cell's column to `N − 1` |
| Table.AddCellsNonNegative | src/index.ts:789-838 | over a whole table the countdowns stay non-negative and the column number non-negative |
| Table.AsWrittenOneRow | src/index.ts:795-798 | as written no cell ends a row, so every table is one row |
| Table.CellStep | src/index.ts:794-837 | one cell's step computes `AddCell` |
| Table.BuildTable | src/index.ts:758-843 | the cell loop builds the table's HTML as `TableHtml` specifies |
| Table.ManageTable | src/index.ts:747-849 | at most 5 tables are rendered, each to the HTML of its caption and cells |
| Heading.ClosingFrom | src/index.ts:1682-1684 | the closing-run search finds the first position where ` ?#?={1,6}[^=]*` runs to the end, or reports that there is none |
| Heading.WellFormedAccepted | src/index.ts:1682-1693 | a title without `=` followed by ` #?` and `level` `=` signs is accepted, and its text is the title |
| Heading.AcceptedEndsWithFront | src/index.ts:1682-1693 | an accepted line ends with its opening run, and its text is what precedes it, less one space |
| Heading.RestoreVerbatim | src/index.ts:1697-1704 | marking a rejected line's `=` runs as `<heading_N>` and unmarking them (src/index.ts:1788-1792) gives the line back, for every line without the text `<heading_`; other placeholders such as `<render_N>` or `<slash_N>` may occur in it |
| Heading.MidNoMarker | src/index.ts:1788-1792 | no marker starts inside text free of `<heading_` and runs into the `=` run or marker after it |
| Heading.NextStack | src/index.ts:1709-1712 | a level-L heading increments slot L−1, zeroes slots L…5 and keeps slots 0…L−2 |
| Heading.PushHeading | src/index.ts:1709-1712 | the counter array is updated in place to `NextStack` of its old contents |
| Heading.TrimTrailingZeros | src/index.ts:1714 | trimming `(\.0)+$` from the joined counters removes exactly the trailing zero groups |
| Heading.TrimStops | src/index.ts:1714 | a path whose last counter is positive is left as it is |
| Heading.PathAfterPush | src/index.ts:1709-1714 | after a level-L heading the path is the first L counters joined with dots |
| Heading.CommonZeros | src/index.ts:1758-1767 | the removed prefix is the longest `0.` run, up to five, that every path starts with |
| Heading.CommonZerosExactly | src/index.ts:1758-1767 | when all paths start with `z` zero groups and the first has no more, exactly `z` are removed |
| Heading.SameLevelPaths | src/index.ts:1706-1714 | `n` headings of one level get the paths `0.`…`0.` + `k+1` … `k+n` |
| Heading.SameLevelStripped | src/index.ts:1706-1767 | after the common prefix is stripped, `n` headings of one level are numbered 1, 2, …, n |
| Heading.NestedExample | src/index.ts:1706-1767 | levels 1, 2, 1 are numbered 1, 1.1, 2 |
| Heading.HandleLine | src/index.ts:1693-1752 | one line's outcome and counter update, in place |
| Heading.ManageHeading | src/index.ts:1664-1755 | at most 16 heading lines are handled, each with the outcome of the pass over the lines before it |
| Footnote.NameOf | src/index.ts:1521 | a named marker keeps its name; an anonymous one is named by its ordinal |
| Footnote.Register | src/index.ts:1525-1547 | registering keeps the registry well formed (keys listed once, each entry with a non-empty list) |
| Footnote.MergeByName | src/index.ts:1525-1547 | after a run of markers, a name is registered exactly when it was before or is cited; an existing entry gains the run's ordinals and keeps its body; a new one gets the ordinals and the first body |
| Footnote.MergeExisting | src/index.ts:1525-1531 | later markers with an existing name only append their ordinals and never change the body |
| Footnote.MergeNew | src/index.ts:1538-1541 | the first marker with a new name creates the entry with its ordinal and body |
| Footnote.FirstBodyWins | src/index.ts:1525-1547 | from an empty registry, each cited name holds all its ordinals and the body of its first marker |
| Footnote.RegisterAsWritten | src/index.ts:1525-1526 | as written, a new name that an object inherits (`toString`, …) raises a TypeError; otherwise registering is `Register` |
| Footnote.InheritedNameThrows | src/index.ts:1525-1526 | a first marker named `toString` throws as written, while the intended registry creates its entry |
| Footnote.SortIndex | src/index.ts:189 | array-index keys sorted by value, a permutation of the input |
| Footnote.OrderFacts | src/index.ts:189 | the `for…in` order is a permutation of the keys with all index keys first, in ascending value |
| Footnote.OrderExample | src/index.ts:189 | keys inserted as `b, 2, a, 1` are visited as `1, 2, b, a` |
| Footnote.MakeFromGrows | src/index.ts:190-209 | each visited entry extends the list text, which is non-empty once an entry is visited |
| Footnote.MakeEmptyIff | src/index.ts:187-215 | the list is empty exactly when the registry is |
| Links.Route | src/index.ts:1154-1309 | a file link is handled as a file; as written it then falls into the later branches too |
| Links.FileLinkFallsThrough | src/index.ts:1154-1309 | an image link's rewritten target `/image/…` reaches the internal-link branch as written, as a subpage of the document |
| Links.LastIndexOf | src/index.ts:1232-1238 | the last occurrence of a character, or none |
| Links.Extension | src/index.ts:1232-1238 | a found extension is non-empty, without `.`, and ends the name after a `.` |
| Links.OnlyFirstOption | src/index.ts:1164-1196 | as written, each option is read from its whole match, so only the first match can set one |
| Links.TwoOptions | src/index.ts:1161-1196 | for `a&amp;b`, as written only `a` applies; read from its group, `b` applies after `a` |
| Links.AmpKeyUnknown | src/index.ts:1168-1170 | an option that starts with `&amp;` sets nothing |
| Links.HeadKeyUnknown | src/index.ts:1168-1194 | an option whose first character is no white space and begins none of the keys `width`, `height`, `align`, `bgcolor`, `theme` sets nothing |
| Links.FirstDatumHead | src/index.ts:1161-1165 | the first match of the option expression starts at the start of the text, or with `&amp;` |
| Links.FileLinkHead | src/index.ts:1154 | a file link target starts with `f`, `F`, `파`, `외`, `o` or `O` |
| Links.AsWrittenNoFileOption | src/index.ts:1150-1196 | as written, a file link reads its options from group 1, its own target, so no option is ever set: the first match starts with the file prefix and every later one with `&amp;` |
| Links.Parent | src/index.ts:1431 | the parent document name is no longer than the name |
| Links.ParentOfSubpage | src/index.ts:1431 | `../` of `a/b` is `a` |
| Links.CanonicalRules | src/index.ts:1430-1440 | `../` is the parent; a leading `/` names a subpage; `:분류:`/`:category:` become `category:`, `:파일:`/`:file:` become `file:`, `사용자:` becomes `user:` (ASCII prefixes in any case) |
| Links.CanonicalPlain | src/index.ts:1430-1440 | a target without any of those prefixes is unchanged |
| Links.FragmentRules | src/index.ts:1442-1455 | a target without `#` keeps its name; `b#f` loses its fragment |
| Links.InterLink | src/index.ts:1359-1410 | as written, an interwiki link throws exactly when it has no fragment; as intended it is removed |
| Links.InterWithoutFragmentThrows | src/index.ts:1371-1373 | `inter:x:Page` throws as written and is removed as intended |
| Links.CategoryText | src/index.ts:1310-1321 | a blurred title is shorter, by at least the five characters of `#blur`, than the target after its `분류:`/`category:` prefix plus the appended text |
| Links.CategorySuffixExample | src/index.ts:1310-1314 | as written `[[분류:A\|#blur]]` appends group 1 again: title `A분류:A`, not blurred |
| Links.CategorySuffixIntended | src/index.ts:1310-1321 | read from group 2, the same link gives title `A`, blurred |
| Links.Tagged | src/index.ts:1329-1338 | a target in the database gets one backlink of the kind; a missing one gets a `no` backlink before it |
| Links.AddCategory | src/index.ts:1327-1350 | the title is listed afterwards, and a duplicate-free list stays duplicate-free |
| Links.CategoryOnce | src/index.ts:1327-1350 | a repeated title changes nothing; a new one is appended with a `cat` backlink, preceded by `no` when `category:<title>` is missing, and extends the category bar |
| Links.CategoryListIsDedup | src/index.ts:1327-1328 | over a run of category links the list is the titles in order of first appearance, without duplicates |
| Links.InternalBacklinks | src/index.ts:1461-1470 | an empty target gets none; otherwise a plain backlink, preceded by `no` exactly when the target is missing |
| Links.FileBacklinks | src/index.ts:1217-1226 | a `file` backlink, preceded by `no` exactly when `file:<name>` is missing |
| Renderer.InitialConsistent | src/index.ts:45-60 | the initial fields are consistent: empty store, counter 0, empty registry and category list |
| Renderer.StoreKeeps | src/index.ts:87-100 | storing raises the counter by one and returns `render_n`/`slash_n` for the new `n`; render writes exactly `render_n`, `/render_n`, `revert_render_n` and slash only `slash_n`, all fresh; no other key or field changes |
| Renderer.StoreStaysValid | src/index.ts:87-100 | the store stays well numbered after a new entry |
| Renderer.StoreFreshKeys | src/index.ts:89-98 | the keys written were absent and now hold the values given |
| Renderer.StoreExtends | src/index.ts:87-100 | every earlier entry is kept, and no field other than the store and counter changes |
| Renderer.StoreThenRestore | src/index.ts:87-121 | a slash value stored and then restored in `<`-free text comes back in place of its tag |
| Renderer.FootnoteStep | src/index.ts:1516-1550 | a list marker emits the registry and empties it; a citation registers its note and stores one placeholder |
| Renderer.FootnoteRunLength | src/index.ts:1504-1554 | each processed marker yields one piece |
| Renderer.FootnoteRunCount | src/index.ts:1504-1554 | a run of `k` citations raises the counter by `k` |
| Renderer.FootnoteRunRegisters | src/index.ts:1504-1554 | a run of citations registers their notes in order, as `RegisterAll` |
| Renderer.FootnoteRunConsistent | src/index.ts:1504-1554 | the marker loop keeps the renderer consistent |
| Renderer.FootnotePassEmpties | src/index.ts:1499-1558 | the pass handles at most 17 markers, leaves the registry empty and keeps the renderer consistent |
| Renderer.FileLink | src/index.ts:1154-1306 | the file handler stores one placeholder and changes neither the registry nor the category list |
| Renderer.CategoryLink | src/index.ts:1309-1357 | the category handler stores nothing and keeps the category list duplicate-free |
| Renderer.WebLink | src/index.ts:1411-1427 | the web-link handler stores one placeholder and touches no other list |
| Renderer.InternalLink | src/index.ts:1428-1490 | the internal handler stores one placeholder and touches neither registry nor category list |
| Renderer.SharpHrefExample | src/index.ts:1486 | as written an internal link's address ends in `#f,f`; as intended, in `#` and the encoded fragment |
| Renderer.Handle | src/index.ts:1309-1490 | read as intended a handler always completes; none changes the registry |
| Renderer.HandleConsistent | src/index.ts:1309-1490 | every handler that completes keeps the renderer consistent |
| Renderer.LinkStep | src/index.ts:1154-1490 | one turn consumes one link, or two when a file link falls through; as intended always one |
| Renderer.LinkStepConsistent | src/index.ts:1154-1490 | one turn keeps the renderer consistent |
| Renderer.IntendedLinkPass | src/index.ts:1140-1496 | read as intended the pass completes and handles `min(n, 13)` links |
| Renderer.AsWrittenFileSwallowsNext | src/index.ts:1309 | as written a file link's turn also consumes the following link, whatever that link is |
| Renderer.FileStepTakesTwo | src/index.ts:1154-1309 | as written a file link followed by another link takes two links in one turn |
| Renderer.NamuMark.constructor | src/index.ts:75-85 | a new renderer starts from the initial fields, counter 0, with the document's settings |
| Renderer.NamuMark.GetToolDataStorage | src/index.ts:87-100 | updates the fields as `Store` and returns the new key; the object invariant is kept |
| Renderer.NamuMark.GetToolDataRestore | src/index.ts:102-121 | returns the restore of the data with the scope of `doType` and a budget of three times the counter |
| Renderer.NamuMark.GetToolFootnoteMake | src/index.ts:187-215 | returns the footnote list and empties the registry, changing nothing else |
| Renderer.NamuMark.RegisterCite | src/index.ts:1518-1547 | registers one citation and returns its reference, changing only the registry |
| Renderer.NamuMark.FootnoteTurn | src/index.ts:1516-1550 | one marker, as `FootnoteStep` |
| Renderer.NamuMark.FootnoteMarks | src/index.ts:1504-1554 | the budgeted marker loop, as `FootnoteRun` |
| Renderer.NamuMark.ManageFootnote | src/index.ts:1499-1558 | the whole footnote pass, as `FootnotePass`; the object invariant is kept |
| Renderer.NamuMark.LinkTurn | src/index.ts:1146-1492 | one link turn, as `LinkStep`, with a throw reported |
| Renderer.NamuMark.ManageLink | src/index.ts:1138-1496 | the whole link pass, as `LinkPass`; it completes exactly when no handler throws, and then keeps the object invariant |
| Renderer.NamuMark.FixAnchors | src/index.ts:1850-1875 | the anchor fixer's output and final counter are those of `Fix`; nothing else changes |
| Renderer.FootnoteList | src/index.ts:187-215 | the loop over the keys in `for…in` order builds `Make` |
| Renderer.FootnoteItem | src/index.ts:194-206 | the loop over an entry's ordinals builds its list item |
| Finalize.Step | src/index.ts:1855-1873 | a `</a>` at count 0 is dropped; only the outermost opening and its matching close are kept; the count never goes negative |
| Finalize.FixedIsFlat | src/index.ts:1850-1875 | the fixed anchors never nest and every kept `</a>` closes one, so kept tags alternate open/close starting with an open |
| Finalize.FixKeepsText | src/index.ts:1850-1875 | the text between tags is kept exactly |
| Finalize.FixKeepsFlat | src/index.ts:1850-1875 | text whose anchors are already flat is unchanged |
| Finalize.FixIdempotent | src/index.ts:1850-1875 | fixing twice is fixing once |
| Finalize.NestedExample | src/index.ts:1850-1875 | a nested anchor and its close are dropped |
| Finalize.RemoveMarkers | src/index.ts:1914 | every remaining marker is deleted and nothing else changes |
| Finalize.FirstMarker | src/index.ts:1910-1912 | the position `replace` matches: a marker with no marker before it, or none when no marker is left |
| Finalize.ExpandPlain | src/index.ts:1912 | a table of contents without `$$`, `$&`, `` $` `` or `$'` is inserted literally |
| Finalize.FillFirstPlain | src/index.ts:1912 | without a `$` pattern one replacement fills the first marker and leaves every other segment alone |
| Finalize.FilledAt | src/index.ts:1911-1913 | the reference fill: with `j` filled, the first `j` markers hold the table of contents and the rest are untouched |
| Finalize.FillFirstStep | src/index.ts:1911-1913 | without a `$` pattern, one more replacement fills exactly one more marker |
| Finalize.RoundsFilled | src/index.ts:1911-1913 | without a `$` pattern, `n` replacements fill exactly the first `n` markers |
| Finalize.FillToc | src/index.ts:1910-1914 | the loop runs 20 replacements, `$` patterns expanded, then deletes the remaining markers; without a `$` pattern that is the first 20 markers filled |
| Finalize.TocPlacement | src/index.ts:1910-1914 | for a table of contents without a `$` pattern: the first 20 markers hold it, later ones become empty, all other text is kept |
| Finalize.EchoRound | src/index.ts:1912 | with `$&` as the table of contents, one replacement puts the marker back and keeps the visible text |
| Finalize.TocEchoesMarker | src/index.ts:1910-1914 | with `$&` as the table of contents, no round changes the visible text and the final deletion leaves it as it was: the table never appears |
| Finalize.RemoveMarkersVisible | src/index.ts:1914 | deleting the markers keeps the visible text |
| Finalize.AutoTocUnreachable | src/index.ts:1902-1923 | as written `useTocSet` is always true, so the automatic table of contents is never inserted; the intended flag can be false |

## Left out

- `sha224Replace` and `urlPas` are foreign calls (node's SHA-224 and `encodeURIComponent`). They are given functions in `Renderer.Env`.
- Regular-expression matching is not modelled. Each pass takes its matches as input: captured groups, a token sequence for the anchor fixer, segments for the table of contents, parsed lines for headings. Substitution back into the working text is not modelled either.
- The date and clock readings of `age`, `dday` and `date` are left out (src/index.ts:1030-1111). `Tools.Dday` takes the day offset as an integer.
- The emitted scripts and markup are left out: katex, hljs, the heading-folding script, the TOC markup, and the edit-section links (src/index.ts:637-645, 1717-1752, 1795-1812). Table and link HTML is modelled as strings, but no property is stated about its exact text.
- `console.log` calls are left out.
- The interwiki branch is an unimplemented stub (src/index.ts:1359-1410). Only its outcome is modelled: removed, or a thrown TypeError (`Links.InterLink`).
- The bullet-list pass (src/index.ts:899-913) discards its rendered items and splices in the stringified match array. Only the per-item handler (881-895) is modelled (`Tools.ListItem`).
- The quote pass, `manageInclude`, `manageMiddle` apart from the font-size table, `manageMath`, `manageText`, `manageHr` and `manageRemark` are not modelled. `dataInclude` is only recorded for client-side rendering and is left out too.
- The TOC heading ids (`handlerToc`, src/index.ts:1880-1893) and the footnote title lookup (src/index.ts:1929-1943) search the working text, which the model does not keep. They are left out.
- The category bar's placement in `finalize` (src/index.ts:1817-1838) depends on the same flag (`config.useCategorySet || true`, always true). It is left out.
- The constructor's one-time `\r` removal and its initial escaping of the text (src/index.ts:76-77) are left out, because the text itself is not kept.
- Renderer.NamuMark.ManageLink: when a handler throws, the state after the throw is not constrained, since the source then abandons the render.
- Renderer.FootnoteRunCount: stated only for runs made entirely of citations, because a list marker in between resets the registry.
- Renderer.FootnoteRunRegisters: stated only for runs made entirely of citations, for the same reason.
- Finalize.TocPlacement: stated only for a table of contents without `$$`, `$&`, `` $` `` or `$'`. With one of them, what a replacement inserts depends on the text around the marker, and `$&` puts the marker back (`Finalize.TocEchoesMarker`).
- Finalize.FillFirstStep: stated only without a `$` pattern, for the same reason.
- Finalize.RoundsFilled: stated only without a `$` pattern, for the same reason.
- Table.TableParameter: states the shape of colspan and rowspan. Alignment and colspan are stated by `AutomaticAlignment`, `ExplicitAlignment` and `ColspanRule`, and the style fields only up to prefix.
- Tools.VideoEmbed: states only that the style values hold no `;`. The address rules are stated for the YouTube short link and the width option only, not for every service.
- Heading numbering is stated for sequences of one level and for the 1, 2, 1 example, not for arbitrary level sequences.

## Findings

| source | as written | input that shows it | evidently intended | confidence | as-written member | corrected member |
|---|---|---|---|---|---|---|
| src/index.ts:139-146 | the revert looks up `dataTempStorage[match[0]]` with the whole match, and compares keys against the bare word `render` | `<slash_1>` with stored value `*` reverts to `\undefined` | the key in group 1, giving `\*` | high, not executed | Placeholders.RevertAsWrittenUndefined | Placeholders.RevertIntendedSlash |
| src/index.ts:792 | `manageTableParameter(tableSub[1], tableSub[2], tableDataIn)` passes the newline, the `\|\|` run and the bracket run | the cell `\|\|&lt;-3&gt;x` gets colspan `0` and data `&lt;-3&gt;` | groups 2, 3 and 4: colspan 3, data `x` | high, not executed | Table.CallSiteAsWrittenExample | Table.CallSiteIntendedExample |
| src/index.ts:1312-1314 | the category handler appends `linkData[1]` (group 1, the target itself) | `[[분류:A\|#blur]]` gets the title `A분류:A`, not blurred | group 2: title `A`, blurred | medium, not executed | Links.CategorySuffixExample | Links.CategorySuffixIntended |
| src/index.ts:1309 | `if`, not `else if`, after the file branch, so the rewritten `/image/…` target goes on to the internal-link branch | a file link followed by any other link: one turn consumes both | the file branch ends the turn | high, not executed | Renderer.AsWrittenFileSwallowsNext | Renderer.IntendedLinkPass |
| src/index.ts:1371-1373 | the test `linkDataSharp.length === 0` is inverted, so a missing fragment is dereferenced | `[[inter:x:Page]]` throws a TypeError | `!== 0`; the stub then removes the link | high, not executed | Links.InterWithoutFragmentThrows | Links.InterLink |
| src/index.ts:1164-1168 | the options are read from `linkData[1]`, group 1 (the file target itself), where group 2 is meant; and each option is read from its whole match, `&amp;` included, where its group is meant | `[[file:x.png\|width=1]]` sets no option; read from group 2, `width=1&amp;height=2` still sets only the width | group 2, each option from its group: every option applies | high, not executed | Links.AsWrittenNoFileOption | Links.TwoOptions |
| src/index.ts:1902 | `config.useTocSet \|\| true` is always true | any document without `<toc_no_auto>`: the automatic table of contents is never inserted | the configured flag | high, not executed | Finalize.AutoTocUnreachable | Finalize.AutoTocUnreachable |
| src/index.ts:1525-1526 | `if (this.dataFootnote[footnoteName])` is true for names an object inherits | a first marker named `toString` throws a TypeError on `list.push` | an own-key test: the entry is created | high, not executed | Footnote.RegisterAsWritten | Footnote.InheritedNameThrows |
| src/index.ts:1486 | the address uses the match array `linkDataSharp`, which prints as `#f,f` | `[[Page#f]]` links to `/w/Page#f,f` | the encoded fragment `linkDataSharpNew` | high, not executed | Renderer.SharpHrefExample | Renderer.SharpHrefExample |
