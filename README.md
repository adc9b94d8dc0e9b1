# obsidian-plugin-core time accounting, modelled in Dafny

This project models the computing core of an Obsidian plugin for time
accounting. A user keeps a diary; each daily page holds a list of log
lines such as `Работа (review) 1ч. 30м.`. The plugin builds several things
from these lines:

- a graph of categories declared in YAML packs;
- a list of time items, one per log line;
- per-category totals, through the category graph, with a per-date
  history.

Reactive notifiers recompute these values when the pages or the
configuration change. Around this pipeline sit exact helpers, all modelled
here:

- minute formatting;
- the wake/sleep time note;
- editing the entry list in a page's front matter;
- the `+`/`-`/`=` minutes field of the entry widget;
- table and line-chart layout;
- the pie chart's "other" slice;
- parameter averages;
- duplicate removal;
- diary page names.

The older calculator path is modelled as well: `CategoryCalculator`,
`CategoryInformation`, the legacy `Category` and the legacy printer
helpers.

Modules follow the program's files:

| module | file | models |
|---|---|---|
| `CategoryModels` | category_models.dfy | the YAML and graph records, items, units, calculated categories |
| `CategoryConfig` | category_config.dfy | `CategoryConfigManager.calc`: the graph builder |
| `EntryGrammar` | entry_grammar.dfy | the log-line regular expression as a deterministic matcher |
| `ItemManager` | item_manager.dfy | `ItemManager.calc`: lines to items |
| `CategoryManager` | category_manager.dfy | `CategoryManager.calc`: the aggregator |
| `ItemModel` | format_minutes.dfy | `formatMinutes` |
| `Notifiers` | notifiers.dfy | `ValueNotifier`, `DerivedValueNotifier`, `LazyDerivedValueNotifier` (and the legacy copies) as classes |
| `Holders` | holders.dfy | the compute steps and guards of the categories, calculated-item and calculated-categories holders (the calculated-params holder is `ParamsManager.CalculatedParamsOf` in params.dfy) |
| `TimeNoteManager` | time_note.dfy | the wake/sleep time note |
| `FrontmatterManager` | frontmatter.dfy | the add and remove edits of the entry list |
| `EnterCategoryWidget` | enter_widget.dfy | the minutes field, `makeTimeEntry`, `setShownState` |
| `CategoryPrinter` | printer.dfy | table layout, line-chart gap fill, `findPack` |
| `Charts` | charts.dfy | `_shrinkToOther` and the pie branches of both chart files |
| `ParamsManager` | params.dfy | parameter collection and averages |
| `RemoveDuplicates` | remove_duplicates.dfy | `removeDuplicates` |
| `DiaryPagesManager` | diary.dfy | page-name predicates, ranges, week names |
| `CategoryCalculator` | category_calculator.dfy | the legacy calculator |
| `CategoryInformation` | category_information.dfy | the legacy `CategoryInformation.add` |
| `LegacyCategory` | legacy_category.dfy | the legacy `Category` |
| `LegacyCategoryPrinter` | legacy_printer.dfy | the legacy printer helpers |
| `Js`, `Sorting`, `Tally`, `Wrappers` | js.dfy, sorting.dfy, tally.dfy, wrappers.dfy | JavaScript numbers, strings, `parseInt`, `toString`, a stable sort, a keyed tally, `Option`/`Result` |

JavaScript numbers are modelled as integers plus `NaN` (`Js.Num`). A
thrown `Error` becomes `Err(message)` of a `Result`. Calls into code the
repository does not show become function parameters: moment.js date
arithmetic, Dataview page loading and the entry formatter. Object graphs
joined by references (categories and their parents) become maps keyed by
the qualified name.

## Model

| member | source | states |
|---|---|---|
| CategoryConfig.Calc | src/features/categories/managers/category_config_manager.ts:6-74 | the nested loops return exactly `Build(config)`: the same state, or the same error message |
| CategoryConfig.AddOne | src/features/categories/managers/category_config_manager.ts:19-46 | one inner iteration: a qualified name already stored fails with "Category <name> already exists"; otherwise the first unbuilt parent fails with "Parent <p> not found"; otherwise the child is pushed to each parent and the new category stored |
| CategoryConfig.AddPack | src/features/categories/managers/category_config_manager.ts:19-47 | the inner loop over one pack extends the build by that pack's declarations, with the same result or error as the whole-declaration fold |
| CategoryConfig.ResolveParents | src/features/categories/managers/category_config_manager.ts:24-31 | the loop over `parents` stops at the name the `map` throws on: the first one not built |
| CategoryConfig.FirstMissing | src/features/categories/managers/category_config_manager.ts:24-31 | no name is reported exactly when all parents are built; a reported name is a listed parent that is not built |
| CategoryConfig.PushChildren | src/features/categories/managers/category_config_manager.ts:44 | the loop pushing the child into each parent gives `AddChildren` |
| CategoryConfig.AddChildren | src/features/categories/managers/category_config_manager.ts:44 | registering a child changes no key of the store |
| CategoryConfig.BuildDeclsShape | src/features/categories/managers/category_config_manager.ts:19-46 | the build succeeds exactly when every qualified name is new when declared and every parent was declared earlier; the store is then the one the declarations describe |
| CategoryConfig.BuildErrors | src/features/categories/managers/category_config_manager.ts:20-31 | `calc` succeeds exactly for well-declared input; a failed build reports the message of the first declaration that fails, after a well-declared prefix |
| CategoryConfig.ErrPersists | src/features/categories/managers/category_config_manager.ts:20-31 | once a prefix of the declarations fails, the whole build fails with the same message (the throw aborts everything) |
| CategoryConfig.ErrPersistsInPacks | src/features/categories/managers/category_config_manager.ts:12-54 | a pack whose declarations fail makes `calc` fail with that message |
| CategoryConfig.BuildGraph | src/features/categories/managers/category_config_manager.ts:24-46 | a built state is valid (every name is its key, the order lists each key once, parents come earlier, so there are no cycles), and `p` is a parent of `c` exactly when `c` is a child of `p` |
| CategoryConfig.BuildMatchesDeclarations | src/features/categories/managers/category_config_manager.ts:13-46 | packs keep order, type and pretty name and list their categories' qualified names; each category is built as `type.local` with `prettyName = local`, its declared parents and colour, `skipOnDiagramm` only when literally true and `hideOnLineChart` defaulting to true |
| CategoryConfig.BuildKeys | src/features/categories/managers/category_config_manager.ts:33-45 | the keys of `allCategories` are exactly the declared qualified names |
| CategoryConfig.BuiltOrder | src/features/categories/managers/category_config_manager.ts:45 | the Map's insertion order lists every stored name exactly once |
| CategoryConfig.Locate | src/features/categories/managers/category_config_manager.ts:33-45 | every stored category comes from exactly one declaration, at its place in the insertion order, and is the category that declaration describes, children included |
| CategoryConfig.CertainPackIsLast | src/features/categories/managers/category_config_manager.ts:49-58 | `certainPack` is null exactly when no pack is marked certain (no error then); otherwise it is the last pack marked certain |
| CategoryConfig.BuildDefaults | src/features/categories/managers/category_config_manager.ts:56-71 | the other category has its name as pretty name, no parents or children, `hideOnLineChart` false and `skipOnDiagramm` false unless given; `discardCommentsLevel` defaults to 99 |
| CategoryConfig.QualifyInjective | src/features/categories/managers/category_config_manager.ts:33 | two local names of one pack give two qualified names |
| CategoryConfig.SameTwiceFails | src/features/categories/managers/category_config_manager.ts:20-22 | a declaration seen twice fails with "Category <name> already exists" |
| CategoryConfig.DuplicateFails | src/features/categories/managers/category_config_manager.ts:20-22 | the same local name twice in one pack makes `calc` fail with the local name in the message |
| CategoryConfig.FirstParentMissing | src/features/categories/managers/category_config_manager.ts:24-31 | a first declaration with a parent fails with "Parent <p> not found" |
| CategoryConfig.ParentDeclaredLaterFails | src/features/categories/managers/category_config_manager.ts:24-31 | naming a parent declared later in the pack fails; parents must precede their children |
| CategoryConfig.ParentThenChild | src/features/categories/managers/category_config_manager.ts:24-46 | a parent then its child build; the parent's children and the child's parents name each other |
| CategoryConfig.ChildRegistered | src/features/categories/managers/category_config_manager.ts:6-73 | a one-pack configuration with a child builds with the child registered in its parent, the insertion order, no certain pack and comment level 99 |
| ItemManager.TailMinutesValue | src/features/categories/managers/item_manager.ts:23-24 | for a matched tail, `parseInt(h \|\| "0") * 60 + parseInt(m \|\| "0")` is 60 times the hours plus the minutes |
| ItemManager.FindByPrettyName | src/features/categories/managers/item_manager.ts:26-28 | `find` returns a listed, stored category with that pretty name; it returns nothing only when no listed category has it |
| ItemManager.FindIsFirst | src/features/categories/managers/item_manager.ts:26-28 | the category found is the first of the certain pack with that pretty name |
| ItemManager.MapAllEach | src/features/categories/managers/item_manager.ts:13-15 | a `map` whose callback may throw succeeds exactly when the callback succeeds on every element, and then lists the callback's values in order |
| ItemManager.CalcNeedsLists | src/features/categories/managers/item_manager.ts:15 | a page whose items field is missing or not a list makes `calc` throw |
| ItemManager.LineFailureEach | src/features/categories/managers/item_manager.ts:13-41 | a line that fails anywhere in the flat-map is a line of some page's list that fails |
| ItemManager.CalcIsFlatMap | src/features/categories/managers/item_manager.ts:13-41 | when every page has its list, `calc` succeeds exactly when every line parses, and its items are the lines' items, pages in order and lines in order |
| ItemManager.ParsedItem | src/features/categories/managers/item_manager.ts:16-38 | a parsed item comes from a match of its line: its category is the certain-pack category found by the trimmed text, its minutes are 60 times the hours plus the minutes, its comment is the bracketed group and its date the page's name |
| ItemManager.ParsedItemIsFirstMatch | src/features/categories/managers/item_manager.ts:26-34 | no certain-pack category before the one an item names has the line's trimmed text as its pretty name |
| ItemManager.NoTimeIsZero | src/features/categories/managers/item_manager.ts:23-24 | a line with no hours and no minutes is worth 0 minutes |
| ItemManager.CategoryTextIsPlain | src/features/categories/managers/item_manager.ts:6 | the category group holds no digit and no parenthesis, so a category whose pretty name holds one is never found |
| ItemManager.EntryErrors | src/features/categories/managers/item_manager.ts:15-31 | the error cases of one entry in the order the code meets them: a non-string entry, no match ("error with match ..."), no certain pack, no category with that pretty name ("Не найдено конкретной категории ...") |
| ItemManager.LineOfTheLanguage | src/features/categories/managers/item_manager.ts:6-38 | every line made of a category's pretty name, white space, an optional comment and time parts parses to that category, its minutes and its comment |
| ItemManager.LineReading | src/features/categories/managers/item_manager.ts:16-38 | a line whose match names a certain-pack category reads as that category, with the match's comment and time |
| EntryGrammar.TextEnd | src/features/categories/managers/item_manager.ts:6 | `([^\d()]*)` from a position ends inside the line (the longest such run, as its soundness lemma states) |
| EntryGrammar.CloseParen | src/features/categories/managers/item_manager.ts:6 | the lazy `(.*?)\)` closes, if at all, at a position inside the line after the opening |
| EntryGrammar.MatchUnit | src/features/categories/managers/item_manager.ts:6 | an optional unit group either consumes nothing and matches nothing, or advances within the line |
| EntryGrammar.MatchEntrySound | src/features/categories/managers/item_manager.ts:6 | every match is a reading in the pattern's language (text without digits or parentheses, white space, optional comment without line terminators, well-formed time tail) and renders back to the line itself |
| EntryGrammar.MatchesLanguage | src/features/categories/managers/item_manager.ts:6 | every line of the pattern's language is matched, with its own comment and time parts; the captured text is the line's text followed only by white space |
| EntryGrammar.MatchEntryCommentCase | src/features/categories/managers/item_manager.ts:6 | a match whose text is followed by `(` takes the comment up to the `)` where `CloseParen` stops, and the tail after it |
| EntryGrammar.MatchEntryPlainCase | src/features/categories/managers/item_manager.ts:6 | otherwise the match has no comment and the tail starts right after the text |
| EntryGrammar.MatchEntryText | src/features/categories/managers/item_manager.ts:6 | the first group is the longest prefix with no digit and no parenthesis |
| EntryGrammar.TextHasNoDigitOrParen | src/features/categories/managers/item_manager.ts:6 | the first group never holds a digit or a parenthesis |
| EntryGrammar.CloseParenAt | src/features/categories/managers/item_manager.ts:6 | the lazy comment closes at the first `)` after which the tail matches, whatever `)` come before it |
| EntryGrammar.MatchUnitAt | src/features/categories/managers/item_manager.ts:6 | a rendered `<digits>ч.` or `<digits>м.` unit is matched as itself |
| EntryGrammar.MatchUnitOther | src/features/categories/managers/item_manager.ts:6 | digits followed by the other unit mark are not this unit |
| EntryGrammar.MatchTailAt | src/features/categories/managers/item_manager.ts:6 | a well-formed time tail is matched with its own hours and minutes |
| EntryGrammar.StrictIsLenient | src/features/categories/category_calculator.ts:184 | every reading of the legacy pattern, with its dots required, is a reading of the lenient one |
| EntryGrammar.StrictImpliesLenient | src/features/categories/category_calculator.ts:184 | every line the legacy pattern accepts is accepted by the lenient pattern with the same captures |
| CategoryManager.Calc | src/features/categories/managers/category_manager.ts:13-70 | the loop over the items returns the fold `CalcSpec`: the records of every item, or the "Category <name> not found" error of the first unknown one |
| CategoryManager.PushUnits | src/features/categories/managers/category_manager.ts:33-49 | the `forEach` over a chain pushes the item into both records of every category of the chain, in order |
| CategoryManager.DiscardComment | src/features/categories/managers/category_manager.ts:164-175 | the comment is `null` exactly when the level is 0 or the item has no comment |
| CategoryManager.SliceEnd | src/features/categories/managers/category_manager.ts:173 | `slice(0, n)` never runs past the list, a negative `n` counting from the end |
| CategoryManager.DiscardSingleSegment | src/features/categories/managers/category_manager.ts:168-174 | a comment without `;` is kept, trimmed, at every positive level |
| CategoryManager.DiscardNegativeSingleSegment | src/features/categories/managers/category_manager.ts:168-174 | at a negative level a comment without `;` becomes the empty string, not `null` |
| CategoryManager.DiscardParts | src/features/categories/managers/category_manager.ts:168-174 | what is kept is at most `level` trimmed `;`-free segments joined by `"; "` |
| CategoryManager.DiscardOfJoined | src/features/categories/managers/category_manager.ts:168-174 | such a join is kept unchanged |
| CategoryManager.DiscardIdempotent | src/features/categories/managers/category_manager.ts:168-174 | at a positive level, discarding twice is discarding once |
| CategoryManager.FindUnit | src/features/categories/managers/category_manager.ts:127-130 | `units.find` gives the first unit with the same comment and certain category, or none |
| CategoryManager.MakeCalculatedCategory | src/features/categories/managers/category_manager.ts:142-162 | a new bucket holds one unit, and its total is that unit's minutes |
| CategoryManager.PutUnitOk | src/features/categories/managers/category_manager.ts:120-140 | adding a unit keeps the bucket's total equal to the sum of its units with no two units sharing a key, adds the minutes, keeps the name, pretty name, colour and line-chart flag, and leaves a unit with the key |
| CategoryManager.FindDate | src/features/categories/managers/category_manager.ts:101-107 | a category's date record is looked up by date: the first bucket with that date, or none |
| CategoryManager.AddDatedOk | src/features/categories/managers/category_manager.ts:93-118 | adding to a date record keeps one bucket per date, each valid, and adds the minutes to the record's sum |
| CategoryManager.AddDatedDates | src/features/categories/managers/category_manager.ts:101-117 | after adding, the record's dates are the old ones and the item's date |
| CategoryManager.AllParents | src/features/categories/managers/category_manager.ts:177-182 | `getAllParents` lists only stored categories; it terminates because parents come earlier in the insertion order |
| CategoryManager.Chain | src/features/categories/managers/category_manager.ts:33 | `[certainCategory, ...getAllParents(certainCategory)]` starts with the item's own category and lists stored categories only |
| CategoryManager.PushChainValid | src/features/categories/managers/category_manager.ts:33-49 | pushing an item along a chain keeps every record valid |
| CategoryManager.PushChainTotals | src/features/categories/managers/category_manager.ts:33-49 | pushing adds the minutes to a category once per occurrence in the chain, gives a bucket to every category of the chain and leaves the date and grand totals alone |
| CategoryManager.FirstUnknown | src/features/categories/managers/category_manager.ts:28-31 | the first item whose category is not stored, or the end |
| CategoryManager.RunOutcome | src/features/categories/managers/category_manager.ts:22-54 | `calc` succeeds exactly when every item's category is stored, and otherwise throws "Category <name> not found" for the first unknown one |
| CategoryManager.RunErrPersists | src/features/categories/managers/category_manager.ts:28-31 | once a prefix of the items fails, the whole run fails with the same error |
| CategoryManager.RunValid | src/features/categories/managers/category_manager.ts:22-62 | every record a successful `calc` returns is valid: buckets sum their units, units have distinct keys, each category has one bucket per date and its dated totals add up to its all-time total |
| CategoryManager.RunAverages | src/features/categories/managers/category_manager.ts:33-40 | a category's all-time total is the sum of the items' minutes, each counted once per occurrence of the category in the item's chain, and exactly the categories on some chain have a total |
| CategoryManager.RunGrandTotal | src/features/categories/managers/category_manager.ts:53 | `totalMinutes` is the sum of all the items' minutes |
| CategoryManager.RunDays | src/features/categories/managers/category_manager.ts:50-51 | the dates in `totalDateMinutes` are exactly the items' dates, each with the sum of that date's minutes |
| CategoryManager.ItemDates | src/features/categories/managers/category_manager.ts:50-51 | the items' dates in order |
| CategoryManager.DiamondChain | src/features/categories/managers/category_manager.ts:177-182 | in a diamond (a category with two parents sharing a grandparent) the chain lists the grandparent twice |
| CategoryManager.DiamondCountsTwice | src/features/categories/managers/category_manager.ts:33-49 | so the minutes of an item of that category count twice for the grandparent |
| ItemModel.FormatZero | src/features/categories/models/item.ts:5-6 | zero minutes are written "0" |
| ItemModel.FormatMinutesOnly | src/features/categories/models/item.ts:1-10 | under an hour only the minutes are written, "<n>м." |
| ItemModel.FormatHoursOnly | src/features/categories/models/item.ts:1-10 | whole hours are written "<h>ч." with no minutes part |
| ItemModel.FormatHoursAndMinutes | src/features/categories/models/item.ts:1-10 | otherwise hours and minutes are written "<h>ч. <m>м." with one space |
| ItemModel.FormatPositive | src/features/categories/models/item.ts:1-10 | on positive counts the three shapes, with `Math.floor(n / 60)` hours and `n % 60` minutes |
| ItemModel.FormatNonEmpty | src/features/categories/models/item.ts:1-10 | the result is never empty and, thanks to `trim`, never starts or ends with white space |
| ItemModel.FormatReadsBack | src/features/categories/models/item.ts:1-10 | the two numbers written for a count over an hour read back as that count |
| ItemModel.FormatNegativeUnderAnHour | src/features/categories/models/item.ts:2-3 | a negative count under an hour shows "-1ч." before its minutes, because `floor` rounds down while `%` keeps the sign |
| Notifiers.SetAddContents | src/utils/notifiers/value_notifier.ts:12 | `Set.add` keeps one entry per listener: it appends a new listener and leaves a registered one in place |
| Notifiers.SetAddIdempotent | src/utils/notifiers/value_notifier.ts:12 | adding twice is adding once |
| Notifiers.SetDeleteContents | src/utils/notifiers/value_notifier.ts:18 | `Set.delete` removes exactly that listener and keeps the others in order |
| Notifiers.SetDeleteIdempotent | src/utils/notifiers/value_notifier.ts:17-19 | calling the unsubscribe function again is harmless |
| Notifiers.AddThenDelete | src/utils/notifiers/value_notifier.ts:11-19 | listening then unsubscribing a new listener restores the set |
| Notifiers.BroadcastCallsEachOnce | src/utils/notifiers/value_notifier.ts:31-33 | `notify` calls every registered listener once, in insertion order, with the current state |
| Notifiers.ValueNotifier.constructor | src/utils/notifiers/value_notifier.ts:7-9 | a new notifier holds its initial state and no listener |
| Notifiers.ValueNotifier.Listen | src/utils/notifiers/value_notifier.ts:11-20 | `listen` registers the listener, calls it once with the state when `initialCall` is set, and changes no state |
| Notifiers.ValueNotifier.Unsubscribe | src/utils/notifiers/value_notifier.ts:17-19 | the returned function removes only that listener |
| Notifiers.ValueNotifier.SetState | src/utils/notifiers/value_notifier.ts:26-29 | the setter stores the value and notifies every listener, even when the value is unchanged |
| Notifiers.ValueNotifier.Notify | src/utils/notifiers/value_notifier.ts:31-33 | the `forEach` loop produces one call per listener in order, each with the current state |
| Notifiers.States | src/utils/notifiers/derived_notifier.ts:13 | the upstream notifiers' states, one per position |
| Notifiers.RegistrationsOn | src/utils/notifiers/derived_notifier.ts:12-16 | a derived notifier registers one fresh closure on an upstream per position of it in the list, all distinct |
| Notifiers.RegisterAll | src/utils/notifiers/derived_notifier.ts:12-16 | the constructor's loop appends those closures to each upstream's listeners and changes no upstream state |
| Notifiers.UnregisterAll | src/utils/notifiers/derived_notifier.ts:20-22 | `dispose` removes exactly those closures from each upstream |
| Notifiers.DerivedValueNotifier.constructor | src/utils/notifiers/derived_notifier.ts:6-18 | the initial state is `calc(notifiers, null)`, with one closure registered per upstream position |
| Notifiers.DerivedValueNotifier.OnUpstream | src/utils/notifiers/derived_notifier.ts:12-14 | an upstream notification recomputes `state := calc(notifiers, state)` and notifies the derived notifier's own listeners |
| Notifiers.DerivedValueNotifier.Dispose | src/utils/notifiers/derived_notifier.ts:20-22 | disposing removes the derived notifier's closures and no other listener |
| Notifiers.OneRecomputationPerRegistration | src/utils/notifiers/derived_notifier.ts:12-16 | a notification of an upstream runs the derived notifier's closures once per position of that upstream in the list |
| Notifiers.DisposedGetsNoCalls | src/utils/notifiers/derived_notifier.ts:20-22 | once disposed, upstream notifications reach none of its closures |
| Notifiers.LazyDerivedValueNotifier.constructor | src/utils/notifiers/lazy_derived_notifier.ts:10-23 | the lazy notifier computes nothing when built: the cache is null and nothing is dirty |
| Notifiers.LazyDerivedValueNotifier.OnUpstream | src/utils/notifiers/lazy_derived_notifier.ts:17-20 | an upstream notification only marks it dirty and notifies, without calling `calc` |
| Notifiers.LazyDerivedValueNotifier.Update | src/utils/notifiers/lazy_derived_notifier.ts:42-45 | `update` stores `calc(notifiers, cache)` and clears dirty; a throwing `calc` changes neither |
| Notifiers.LazyDerivedValueNotifier.Read | src/utils/notifiers/lazy_derived_notifier.ts:25-30 | the getter returns the cached state when it is truthy and clean, with no `calc`; when the cache is null or falsy (a `null` that `calc` returned) or dirty, it updates first |
| Notifiers.LazyDerivedValueNotifier.SetState | src/utils/notifiers/lazy_derived_notifier.ts:32-36 | the setter stores the value, clears dirty and notifies |
| Notifiers.LazyDerivedValueNotifier.Dispose | src/utils/notifiers/lazy_derived_notifier.ts:38-40 | disposing removes the lazy notifier's closures and no other listener |
| Notifiers.BurstThenRead | src/utils/notifiers/lazy_derived_notifier.ts:17-30 | any number of upstream notifications call no `calc`; the read that follows calls it at most once, and after a notification exactly once, on the cached state |
| Notifiers.ReadTwice | src/utils/notifiers/lazy_derived_notifier.ts:25-30 | of two reads in a row, the second computes nothing when the first yielded a truthy state, and computes again (two `calc` calls in all) when it yielded a falsy one |
| Holders.CategoriesStateOf | src/features/categories/state/categories_holder.ts:16-19 | a missing configuration gives a null state; otherwise the state is built, or the builder's error comes out, and a built state is valid |
| Holders.Present | src/features/categories/state/calculated_item_holder.ts:22 | `filter((page) => !!page)` keeps only present pages, each one from the list |
| Holders.PresentAppend | src/features/categories/state/calculated_item_holder.ts:22 | the filter distributes over concatenation, so it keeps the present pages in order |
| Holders.PresentAll | src/features/categories/state/calculated_item_holder.ts:22 | a list without missing pages is kept as it is |
| Holders.ItemsOf | src/features/categories/state/calculated_item_holder.ts:20-26 | with either upstream state missing the items are the empty list |
| Holders.ItemsOfLines | src/features/categories/state/calculated_item_holder.ts:20-26 | otherwise the items are the parsed lines of the present pages under the state's items field, in order, or the parse error |
| Holders.CalculatedOf | src/features/categories/state/calculated_categories_holder.ts:37-41 | null unless both upstream states are present; the calculation fails exactly when some item's category is unknown |
| Holders.CalculatedTotals | src/features/categories/state/calculated_categories_holder.ts:37-41 | a calculated result has the items' grand total, their per-date totals and each category's weighted total |
| Holders.PipelineOutcome | src/features/categories/state/calculated_categories_holder.ts:33-42 | through the three holders: no configuration gives null, a failing build gives its error, and a configuration without pages gives a zero total |
| TimeNoteManager.TimeToMinutes | src/features/categories/managers/time_note_manager.ts:68-75 | a time is absent exactly when the field is missing or blank |
| TimeNoteManager.TimeOfText | src/features/categories/managers/time_note_manager.ts:73-74 | a non-blank time is read from its `:`-separated parts |
| TimeNoteManager.ReadTimeOfParts | src/features/categories/managers/time_note_manager.ts:73-74 | two numeric parts give sixty times the first plus the second |
| TimeNoteManager.TimeOfDigits | src/features/categories/managers/time_note_manager.ts:68-75 | "H:M" with digit runs H and M, leading zeros allowed, is `60 H + M` minutes |
| TimeNoteManager.TimeOfNumbers | src/features/categories/managers/time_note_manager.ts:68-75 | a time written with `toString` on both parts reads back as its minutes |
| TimeNoteManager.TimeWithoutColon | src/features/categories/managers/time_note_manager.ts:73-74 | a time without `:` has no minutes part, so it reads as NaN |
| TimeNoteManager.TotalMissing | src/features/categories/managers/time_note_manager.ts:52-59 | no wake-up time, or no bed time without the clock, gives no total; with both times the clock is never read |
| TimeNoteManager.TotalWraps | src/features/categories/managers/time_note_manager.ts:61-65 | with both times as minutes of the day, the total is the time from wake-up to bed, wrapping past midnight, within [0, 1440) |
| TimeNoteManager.TotalUsesNow | src/features/categories/managers/time_note_manager.ts:53-55 | without a bed time and with `useNow`, the clock stands in for the bed time |
| TimeNoteManager.DailyTotalOfPage | src/features/categories/managers/time_note_manager.ts:48-66 | a page's day length from its two times, wrapping past midnight, within [0, 1440) |
| TimeNoteManager.ItemDates | src/features/categories/managers/time_note_manager.ts:8 | the set of the items' dates: a date is in it exactly when some item has it |
| TimeNoteManager.ItemDatesCount | src/features/categories/managers/time_note_manager.ts:9-10 | there are no more distinct dates than items, and at least one when there is an item |
| TimeNoteManager.Candidates | src/features/categories/managers/time_note_manager.ts:12-14 | one candidate per page |
| TimeNoteManager.Somes | src/features/categories/managers/time_note_manager.ts:15 | `filter((val) => val != null)` never lengthens the list |
| TimeNoteManager.SomesEmpty | src/features/categories/managers/time_note_manager.ts:15 | nothing is left exactly when every value is null |
| TimeNoteManager.SomesFrom | src/features/categories/managers/time_note_manager.ts:15 | every value left is one of the present values |
| TimeNoteManager.FullInterval | src/features/categories/managers/time_note_manager.ts:9-10 | the full interval is a day per distinct item date: zero exactly without items, at most a day per item |
| TimeNoteManager.CountedIsGrandTotal | src/features/categories/managers/time_note_manager.ts:11 | the counted minutes equal the grand total `CategoryManager.calc` computes for the same items |
| TimeNoteManager.SpecifiedListEmpty | src/features/categories/managers/time_note_manager.ts:12-15 | the list is empty exactly when no page dated like an item has a day length |
| TimeNoteManager.SpecifiedListFrom | src/features/categories/managers/time_note_manager.ts:12-15 | every listed length is the day length, without the clock, of a page dated like an item |
| TimeNoteManager.Specified | src/features/categories/managers/time_note_manager.ts:17-23 | the specified interval is null exactly when that list is empty, and otherwise its sum |
| TimeNoteManager.NumSumOfNumbers | src/features/categories/managers/time_note_manager.ts:19-22 | a sum of numbers that are not NaN is not NaN |
| TimeNoteManager.OnlyOnePage | src/features/categories/managers/time_note_manager.ts:25-36 | start, end and missing minutes stay null unless there is exactly one page, and missing minutes are only given when the wake-up time is known |
| TimeNoteManager.CalcOfOnePage | src/features/categories/managers/time_note_manager.ts:28-36 | for one page, the summary's start, end and missing minutes are the single-page branch applied to that page and the items' total |
| TimeNoteManager.SinglePage | src/features/categories/managers/time_note_manager.ts:28-66 | a page whose two times read as minutes of the day s and e: start and end are s and e, missing minutes are the day length (e − s, plus 1440 when e < s) less the counted minutes, hence in [−counted, 1440 − counted) |
| TimeNoteManager.SinglePageWithoutBedTime | src/features/categories/managers/time_note_manager.ts:28-66 | a page with a wake-up time s and no bed time: the end is null and the missing minutes are the time from s to the clock `now` (past midnight when earlier) less the counted minutes, in [−counted, 1440 − counted) |
| FrontmatterManager.Merge | src/features/categories/managers/frontmatter_manager.ts:69-75 | merging succeeds exactly when the line's category is stored; otherwise reading `prettyName` of `undefined` throws |
| FrontmatterManager.MergeCompatible | src/features/categories/managers/frontmatter_manager.ts:69-75 | two compatible items merge into the line of their summed minutes, with their common comment, under the category's pretty name |
| FrontmatterManager.Candidate | src/features/categories/managers/frontmatter_manager.ts:32-50 | the line merged into is the newest compatible one among the last two, every newer line read and not compatible; none exactly when both scanned lines are read and neither is compatible; an error exactly when a scanned line cannot be read after every newer one passed, and it is that line's error |
| FrontmatterManager.Replace | src/features/categories/managers/frontmatter_manager.ts:44-48 | the list with line `i` replaced and every other line kept |
| FrontmatterManager.AddTimeEntry | src/features/categories/managers/frontmatter_manager.ts:21-53 | the update closure's descending loop, which stops at the first line the parser rejects, returns the edit `AddEntry` describes |
| FrontmatterManager.AddToEmpty | src/features/categories/managers/frontmatter_manager.ts:22-24 | a missing or empty list becomes the one new line, even when the entry cannot be read |
| FrontmatterManager.AddFailsOnEntry | src/features/categories/managers/frontmatter_manager.ts:26-30 | on a non-empty list an entry the parser rejects fails the edit with the parser's error |
| FrontmatterManager.AddFailsOnLine | src/features/categories/managers/frontmatter_manager.ts:32-41 | a scanned line the parser rejects, reached after every newer line was read and not compatible, fails the edit with that error |
| FrontmatterManager.AddAppends | src/features/categories/managers/frontmatter_manager.ts:32-52 | with the last two lines read and neither compatible, the entry is appended whatever the older lines hold |
| FrontmatterManager.AddMerges | src/features/categories/managers/frontmatter_manager.ts:32-49 | when the first line the scan reads as compatible is line `i`, it is replaced by the merge, every other line is kept, and the length is unchanged; the edit fails exactly when the category is unknown, whatever the older lines hold |
| FrontmatterManager.RemoveLast | src/features/categories/managers/frontmatter_manager.ts:61 | removing drops the last line, and a missing or empty list becomes empty |
| FrontmatterManager.RemoveUndoesAppend | src/features/categories/managers/frontmatter_manager.ts:52-61 | removing after an appended entry gives the list back |
| EnterCategoryWidget.OptChar | src/features/categories/ui/enter_category_widget.ts:216 | an optional character takes the character or nothing, and the text is what it took followed by the rest |
| EnterCategoryWidget.SplitSign | src/features/categories/ui/enter_category_widget.ts:216 | `([-+]?)` takes "-", "+" or nothing |
| EnterCategoryWidget.SplitHours | src/features/categories/ui/enter_category_widget.ts:216 | `(?:(\d+)ч\.?)?` takes digits only when "ч" follows them, with an optional dot |
| EnterCategoryWidget.SplitMinutes | src/features/categories/ui/enter_category_widget.ts:216 | `(?:(\d+)м?\.?)?` takes digits with "", "м", "." or "м." after them |
| EnterCategoryWidget.Read | src/features/categories/ui/enter_category_widget.ts:216 | the field read left to right gives digit runs for hours and minutes |
| EnterCategoryWidget.MinutesAreNotHours | src/features/categories/ui/enter_category_widget.ts:216 | minutes digits followed by their unit are not taken as hours |
| EnterCategoryWidget.ReadShape | src/features/categories/ui/enter_category_widget.ts:216 | whatever is read is a text of the pattern followed by what is left |
| EnterCategoryWidget.ReadWellFormed | src/features/categories/ui/enter_category_widget.ts:216 | every text of the pattern is read as exactly its parts, with nothing left |
| EnterCategoryWidget.ParseOfReading | src/features/categories/ui/enter_category_widget.ts:211-225 | a non-empty field read with nothing left is accepted with its amount and kind |
| EnterCategoryWidget.ParseWellFormed | src/features/categories/ui/enter_category_widget.ts:211-225 | every non-empty text of the pattern is accepted with 60 times the hours plus the minutes (an absent part is 0); "-" and "+" give their kind, no sign gives "=" |
| EnterCategoryWidget.RejectedIffNotWellFormed | src/features/categories/ui/enter_category_widget.ts:216-220 | a non-empty field is rejected, with "Invalid minutes field", exactly when it is not a text of the pattern |
| EnterCategoryWidget.MakeTimeEntry | src/features/categories/ui/enter_category_widget.ts:172-205 | the entry line: an invalid field throws first; then missing minutes adjusted to 0 or less throw "Missing minutes must be positive", before a missing category throws "Category is not selected"; otherwise the line is formatted with the category's pretty name, the minutes and the comment |
| EnterCategoryWidget.AdjustedKinds | src/features/categories/ui/enter_category_widget.ts:176-191 | "=" sets the minutes, "+" and "-" move the missing minutes by the amount, an empty field keeps them, and null missing minutes count as 0 |
| EnterCategoryWidget.HiddenUnlessOnePage | src/features/categories/ui/enter_category_widget.ts:233-242 | with other than one page there are no missing minutes, so the widget hides |
| EnterCategoryWidget.HiddenWhenAccounted | src/features/categories/ui/enter_category_widget.ts:233-242 | for one page with both times, the widget hides exactly when the entries account for the whole day length |
| CategoryPrinter.FindPack | src/features/categories/printers/category_printer.ts:151-153 | `packs.find` gives the first pack of that type, and nothing exactly when no pack has it |
| CategoryPrinter.PackInfo | src/features/categories/printers/category_printer.ts:150-160 | `findPack` returns a pack of that type, or throws "Info for pack type <type> not found" exactly when there is none |
| CategoryPrinter.TablePacks | src/features/categories/printers/category_printer.ts:36-44 | one pack per requested type, in order; the first unknown type throws "Pack type <type> not found" |
| CategoryPrinter.TitlesShape | src/features/categories/printers/category_printer.ts:46 | two titles per pack: its pretty name, then "Время" |
| CategoryPrinter.Present | src/features/categories/printers/category_printer.ts:47-50 | the buckets kept are exactly those of the pack's categories that have one |
| CategoryPrinter.ByTimeDescOrders | src/features/categories/printers/category_printer.ts:51 | the comparator `b.totalMinutes - a.totalMinutes` is a total preorder, so the sort is well defined |
| CategoryPrinter.ColumnSpec | src/features/categories/printers/category_printer.ts:47-52 | a column is a permutation of the pack's present buckets, from the most time to the least |
| CategoryPrinter.RoundDivNearest | src/features/categories/printers/category_printer.ts:142 | `Math.round(value / days)` is the nearest whole number, halves rounded up |
| CategoryPrinter.RowAt | src/features/categories/printers/category_printer.ts:58-74 | each row has two cells per column, those of column `j` at `2 j` and `2 j + 1` |
| CategoryPrinter.MaxLen | src/features/categories/printers/category_printer.ts:57 | `Math.max` of the column lengths bounds every column and is reached by one; 0 without columns, where the source's `Math.max()` is -Infinity, which also gives no rows |
| CategoryPrinter.MakeRows | src/features/categories/printers/category_printer.ts:56-75 | the loop pushes one row per index up to the longest column |
| CategoryPrinter.MakeTable | src/features/categories/printers/category_printer.ts:27-78 | `makeTable` fails exactly when some type is unknown, with its message; otherwise the titles, the rows and "Времяучёт не заполнен" |
| CategoryPrinter.TableLayout | src/features/categories/printers/category_printer.ts:46-75 | two titles per pack, as many rows as the longest column, two cells per pack in each row, and an empty pair below a short column |
| CategoryPrinter.ByDateOrders | src/features/categories/printers/category_printer.ts:105 | comparing dates by `localeCompare` (code-unit order on ISO dates) is a total preorder |
| CategoryPrinter.FillDates | src/features/categories/printers/category_printer.ts:106-124 | after the fill, the `i`-th entry is dated by the `i`-th page |
| CategoryPrinter.FillOnlyInserts | src/features/categories/printers/category_printer.ts:112-123 | the fill only inserts: the entries are the old ones plus fillers, each dated by a page |
| CategoryPrinter.FillOfFilled | src/features/categories/printers/category_printer.ts:106-124 | entries already dated by the pages are left as they are, with no filler |
| CategoryPrinter.FillIdempotent | src/features/categories/printers/category_printer.ts:106-124 | filling a filled history changes nothing |
| CategoryPrinter.FillerMeta | src/features/categories/printers/category_printer.ts:113-121 | a filler has zero minutes and no units, and takes the first entry's pretty name, colour and line-chart flag |
| CategoryPrinter.GapFill | src/features/categories/printers/category_printer.ts:106-124 | the splice loop over pages and entries gives `GapFilled`: an empty history with pages throws, since its first entry is `undefined` |
| CategoryPrinter.LineChartShape | src/features/categories/printers/category_printer.ts:94-137 | the histories charted are exactly the histories of the pack's categories; each is its history sorted by date and gap-filled, so it has an entry per page at least and its `i`-th entry is dated by the `i`-th page |
| CategoryPrinter.LineChartWithoutHistory | src/features/categories/printers/category_printer.ts:95-131 | without any history the pack is never looked up, and the text "График не заполнен!" is shown |
| CategoryPrinter.LineChartUnknownPack | src/features/categories/printers/category_printer.ts:95-102 | with some history, an unknown pack throws |
| Charts.LastAbove | src/features/charts/chart_manager.ts:93-99 | the descending scan stops at the last slice whose share of the total is above 1/20, or runs off the front; every slice after it is not above |
| Charts.ShrinkToOther | src/features/charts/chart_manager.ts:85-110 | `_shrinkToOther` on its two arrays returns the pair `Shrink` describes |
| Charts.Cut | src/features/charts/chart_manager.ts:93-100 | the descending loop, started one past the end, stops one past the last slice above the ratio (0 when there is none) |
| Charts.ShrinkKeepsTotal | src/features/charts/chart_manager.ts:101-107 | merging the tail into one slice keeps the total |
| Charts.ShrinkShape | src/features/charts/chart_manager.ts:91-109 | the slices up to the last one above the ratio are kept; anything after it becomes one slice labelled with the other unit's label, worth the rest, and none of the merged slices was above the ratio |
| Charts.ShrinkCollapses | src/features/charts/chart_manager.ts:91-109 | when no slice is above the ratio, everything collapses into the one other slice |
| Charts.ShrinkLabels | src/features/charts/chart_manager.ts:105 | the labels shown are input labels or the other label |
| Charts.ColorOf | src/features/charts/chart_manager.ts:31-33 | `data.find((item) => item.label == label)` finds a unit with that label, and nothing exactly when none has it |
| Charts.Colors | src/features/charts/chart_manager.ts:31-33 | one lookup per label shown |
| Charts.PieColorsFound | src/features/charts/chart_manager.ts:23-42 | with data, every label shown finds its unit (its own, or the pushed other unit), so `item!.color` never fails; one colour per slice |
| Charts.PieKeepsTotal | src/features/charts/chart_manager.ts:23-28 | the slices shown add up to the data's total |
| Charts.PieOfEmpty | src/features/charts/chart_manager.ts:17-19 | empty data throws "Data is empty" |
| Charts.PairLabels | src/features/charts/charts.ts:54 | label k is row k's name |
| Charts.PairValues | src/features/charts/charts.ts:55 | value k is row k's minutes |
| Charts.ColoursOf | src/features/charts/charts.ts:59 | each label takes its colour from the fixed table, if it has one |
| Charts.OtherColour | src/features/charts/charts.ts:22-36 | "Остальное" is graphite, "rgba(87, 117, 144, 0.7)" |
| Charts.LegacyShape | src/features/charts/charts.ts:39-59 | a non-empty chart has one colour per slice, no more slices than rows, each label's fixed colour, and the graphite "Остальное" |
| Charts.LegacyTotal | src/features/charts/charts.ts:39-59 | a non-empty chart's slices add up to the rows' minutes |
| Charts.LegacyLabels | src/features/charts/charts.ts:39-59 | a non-empty chart's labels are row names or "Остальное" |
| Charts.LegacyPieShape | src/features/charts/charts.ts:39-59 | empty data gives only the paragraph "Учёт времени не заполнен.."; otherwise the slices add up to the rows' total, no more slices than rows, every label is a row's name or the merged "Остальное", each takes its fixed colour, and "Остальное" is graphite |
| ParamsManager.GetParams | src/features/params/params_manager.ts:53-59 | `_getParams` returns the configuration, and throws "Params not found" exactly when there is none |
| ParamsManager.Histories | src/features/params/params_manager.ts:14-29 | one history per configured parameter, in order, with its name, order, colour and chart flag copied |
| ParamsManager.WithValues | src/features/params/params_manager.ts:33 | the parameters kept are exactly those with some value |
| ParamsManager.GetParametersArray | src/features/params/params_manager.ts:11-35 | the nested loops, the filter and the sort return `ParametersArray` |
| ParamsManager.RawValuesAppend | src/features/params/params_manager.ts:16-21 | values are collected page by page, in page order |
| ParamsManager.RawValuesOfPage | src/features/params/params_manager.ts:17-20 | a page gives its value, dated by its name, exactly when the field is a number |
| ParamsManager.RawValuesFromPages | src/features/params/params_manager.ts:16-21 | every value collected is a page's number dated by that page, at most one per page |
| ParamsManager.ByOrderOrders | src/features/params/params_manager.ts:34 | comparing by `order` is a total preorder |
| ParamsManager.ParametersArraySpec | src/features/params/params_manager.ts:11-35 | without a configuration "Params not found"; otherwise exactly the configured parameters with some value, ascending by `order`, those of equal order in configuration order |
| ParamsManager.CalculateAverages | src/features/params/params_manager.ts:41-51 | one mean per parameter, in the same order, the other fields copied |
| ParamsManager.SumBounds | src/features/params/params_manager.ts:46 | the sum of values between two bounds lies between the count times each bound |
| ParamsManager.MeanBounds | src/features/params/params_manager.ts:45-47 | a mean of some values lies between their smallest and largest |
| ParamsManager.AveragesOfHistoryAreNumbers | src/features/params/params_manager.ts:33-47 | every parameter kept has a value, so none of the means is NaN |
| ParamsManager.CalculatedParamsOf | src/features/params/states/calculated_params_holder.ts:10-22 | no pages give `null`; otherwise the history and its means, or "Params not found" without a configuration |
| RemoveDuplicates.RemoveDuplicates | src/utils/remove_duplicates.ts:1-13 | the `forEach` over a Map returns the first element of each key, in first-occurrence order (`FirstOccurrences`) |
| RemoveDuplicates.Values | src/utils/remove_duplicates.ts:12 | `Array.from(map.values())` lists the values in the Map's insertion order |
| RemoveDuplicates.FirstIndex | src/utils/remove_duplicates.ts:8 | the first element with a given key |
| RemoveDuplicates.KeysCovered | src/utils/remove_duplicates.ts:6-11 | a key is kept exactly when some input element has it |
| RemoveDuplicates.KeysDistinct | src/utils/remove_duplicates.ts:8-10 | no two kept elements share a key |
| RemoveDuplicates.KeptAreFirst | src/utils/remove_duplicates.ts:6-12 | each kept element is the first input element with its key, and kept elements appear in the order their keys first occur |
| RemoveDuplicates.DistinctUnchanged | src/utils/remove_duplicates.ts:6-12 | a list whose keys are already distinct is returned unchanged |
| RemoveDuplicates.Idempotent | src/utils/remove_duplicates.ts:1-13 | removing duplicates twice is removing them once |
| RemoveDuplicates.LengthIsDistinctKeyCount | src/utils/remove_duplicates.ts:5-12 | the result has one element per distinct input key |
| DiaryPagesManager.OccursIff | src/features/diary/diary_pages_manager.ts:27 | an unanchored `match` succeeds exactly when the pattern matches at some position |
| DiaryPagesManager.IsDayExactly | src/features/diary/diary_pages_manager.ts:8-10 | `isDay` holds exactly for four digits, "-", two digits, "-", two digits |
| DiaryPagesManager.IsWeekExactly | src/features/diary/diary_pages_manager.ts:12-14 | `isWeek` holds exactly for four digits, "-W", two digits |
| DiaryPagesManager.IsMonthExactly | src/features/diary/diary_pages_manager.ts:16-18 | `isMonth` holds exactly for four digits, "-", two digits, so it is false for a full date |
| DiaryPagesManager.KindsExclusive | src/features/diary/diary_pages_manager.ts:8-18 | no name is two of a day, a week and a month |
| DiaryPagesManager.WholeOccurs | src/features/diary/diary_pages_manager.ts:8-18 | an anchored test that holds implies the unanchored match |
| DiaryPagesManager.DayContainsMonth | src/features/diary/diary_pages_manager.ts:187-191 | a name holding a date also holds a month, so the order of the `match` tests matters |
| DiaryPagesManager.Year | src/features/diary/diary_pages_manager.ts:87-89 | `slice(0, 4)`: the first four characters, or the whole of a shorter name |
| DiaryPagesManager.WeekEdges | src/features/diary/diary_pages_manager.ts:23-46 | the week edges exist exactly for a name holding a date or a week, and "Can't get week" is thrown otherwise |
| DiaryPagesManager.MonthWeekEdges | src/features/diary/diary_pages_manager.ts:48-67 | the month's week edges exist exactly for a name holding a month, otherwise "Невозможно получить границы недель месяца" |
| DiaryPagesManager.MonthEdges | src/features/diary/diary_pages_manager.ts:69-85 | the month edges exist exactly for a name holding a month, otherwise "Can't get month edges" |
| DiaryPagesManager.ByNameOrders | src/features/diary/diary_pages_manager.ts:106 | comparing names by `localeCompare`, read as code-unit order, is a total preorder |
| DiaryPagesManager.SelectionSpec | src/features/diary/diary_pages_manager.ts:97-106 | a filtered and sorted list holds each kept name as often as the pages do, no other name, in ascending order |
| DiaryPagesManager.WeekPages | src/features/diary/diary_pages_manager.ts:94-107 | `weekPages` fails exactly when the week edges do, and otherwise selects the daily pages within them |
| DiaryPagesManager.MonthPages | src/features/diary/diary_pages_manager.ts:109-122 | `monthPages` fails exactly when the month edges do, and otherwise selects the daily pages within them |
| DiaryPagesManager.RangePagesSpec | src/features/diary/diary_pages_manager.ts:97-106 | a range list keeps exactly the names of length 10 between the edges, each as often as among the pages, in ascending order |
| DiaryPagesManager.YearPages | src/features/diary/diary_pages_manager.ts:124-135 | `yearPages` keeps exactly the daily names of length 10 whose first four characters are the year |
| DiaryPagesManager.MonthsPages | src/features/diary/diary_pages_manager.ts:137-144 | `monthsPages` keeps exactly the monthly names starting with the year |
| DiaryPagesManager.WeeksByMonthPages | src/features/diary/diary_pages_manager.ts:146-160 | `weeksByMonthPages` fails exactly without a month in the name, and otherwise keeps the weekly names of length 8 whose Monday lies within the month's weeks |
| DiaryPagesManager.WeekPageName | src/features/diary/diary_pages_manager.ts:175-184 | `weekPageName` throws "Can't get week page name" exactly when the name holds neither a date nor a week |
| DiaryPagesManager.WeekPageNameKeepsWeek | src/features/diary/diary_pages_manager.ts:179-180 | a name holding a week and no date is returned unchanged |
| DiaryPagesManager.WeekNameIsItsWeek | src/features/diary/diary_pages_manager.ts:175-184 | in particular every week name is its own week page name |
| DiaryPagesManager.MonthPageName | src/features/diary/diary_pages_manager.ts:186-196 | an error from `monthPageName` is "Can't get month page name" |
| DiaryPagesManager.MonthPageNameFails | src/features/diary/diary_pages_manager.ts:186-196 | it throws exactly when the name holds neither a week nor a month |
| DiaryPagesManager.MonthNameIsItsMonth | src/features/diary/diary_pages_manager.ts:191-192 | a month name is returned unchanged |
| DiaryPagesManager.NextWeekRollsOver | src/features/diary/diary_pages_manager.ts:211-217 | a week name whose week reads as 52 is followed by week 1 of the next year |
| DiaryPagesManager.RollOverBranch | src/features/diary/diary_pages_manager.ts:211-217 | any name holding a week whose `slice(6)` reads as 52 takes the roll-over branch, with `parseInt` of its first four characters plus one |
| DiaryPagesManager.NextWeekAfter52 | src/features/diary/diary_pages_manager.ts:211-217 | "YYYY-W52" is followed by "(YYYY+1)-W01" |
| DiaryPagesManager.NextWeekOtherwise | src/features/diary/diary_pages_manager.ts:215-219 | a week name whose week is not 52 gets the calendar's next week |
| DiaryPagesManager.PrevWeekGoesBackToFirst | src/features/diary/diary_pages_manager.ts:225-231 | a week name whose week reads as 2 goes back to week 1 of the same year, the year kept as text |
| DiaryPagesManager.PrevWeekBefore02 | src/features/diary/diary_pages_manager.ts:225-231 | "YYYY-W02" is preceded by "YYYY-W01" |
| DiaryPagesManager.NextWeekSkipsWeek53 | src/features/diary/diary_pages_manager.ts:211-217 | in a year of 53 ISO weeks, such as 2020, the week after "2020-W52" is given as "2021-W01", skipping "2020-W53" |
| DiaryPagesManager.NextWeekIsoRollsOverLastWeek | src/features/diary/diary_pages_manager.ts:210-222 | the corrected name: the last ISO week of a year, 52 or 53, is followed by week 1 of the next; week 52 of a 53-week year goes to the calendar; in a 52-week year it agrees with the code |
| CategoryCalculator.BuildLevel | src/features/categories/category_calculator.ts:145-154 | the `sub` loop (and the `certain` loop alike) as a method: its result is the level's map or the error of `Level` |
| CategoryCalculator.ParseCategories | src/features/categories/category_calculator.ts:132-170 | `_parseCategories` as a method, level by level: its result is that of `ParsedCategories` |
| CategoryCalculator.LevelSpec | src/features/categories/category_calculator.ts:145-154 | a level loads exactly when every entry's parent is a key of the level above; each stored category is keyed by its own name, refers to the level above and has its parent there; the keys are exactly the entries' names |
| CategoryCalculator.LevelFirstError | src/features/categories/category_calculator.ts:148-152 | a level that fails reports the first entry whose parent is missing, with the message "Родительская категория \"<parent>\" из <level> не найдена в <above>." |
| CategoryCalculator.CommonLevelNames | src/features/categories/category_calculator.ts:137-141 | the common map holds exactly the listed names, each under its own name |
| CategoryCalculator.LevelsLinked | src/features/categories/category_calculator.ts:136-169 | levels built each from the one above are linked: every certain category's parent is a sub category and every sub category's parent a common one |
| CategoryCalculator.ParsedSpec | src/features/categories/category_calculator.ts:132-170 | a loaded configuration is linked and its common names are exactly those listed |
| CategoryCalculator.ParsedErrors | src/features/categories/category_calculator.ts:133-152 | a missing configuration page or one without `settings` throws a TypeError; a failing `sub` level throws its own message |
| CategoryCalculator.TallyLines | src/features/categories/category_calculator.ts:181-208 | the loop over the log lines: it fails exactly when one line fails, with that line's message, and otherwise adds each line's minutes to its sub and its common category, starting from empty maps |
| CategoryCalculator.ParseAndSumDailyTimes | src/features/categories/category_calculator.ts:172-226 | `_parseAndSumDailyTimes` as a method: its result is that of `SumDay` |
| CategoryCalculator.BookingsEach | src/features/categories/category_calculator.ts:181-208 | the lines all book exactly when each line does, and then each line's booking is kept in order |
| CategoryCalculator.BookingsFirstError | src/features/categories/category_calculator.ts:181-208 | a failing loop reports the first failing line |
| CategoryCalculator.EntryBookingSpec | src/features/categories/category_calculator.ts:183-204 | a line that books matched the legacy pattern (units with their dots), names a certain category after trimming, and books 60 hours plus minutes on that category's parent and grandparent |
| CategoryCalculator.EntryBookingErrors | src/features/categories/category_calculator.ts:183-207 | a non-string line throws a TypeError; a line the pattern rejects throws "error with match <line> \| null"; an unknown name throws "Не найдено конкретной категории <name>"; with linked tables a known name never fails |
| CategoryCalculator.TallyNotEmpty | src/features/categories/category_calculator.ts:204 | some line was booked, so the common tally is not empty and its `reduce` without an initial value does not throw |
| CategoryCalculator.SortedTally | src/features/categories/category_calculator.ts:202-211 | a tally of rows, sorted: one row per name, each worth the minutes of that name's rows, from largest down, summing to all the rows |
| CategoryCalculator.SummarySpec | src/features/categories/category_calculator.ts:210-225 | the information built after the loop: the two sorted tallies, the total their sum, the total without "Базированный" the total less that category's minutes, and the day's length |
| CategoryCalculator.SumDaySpec | src/features/categories/category_calculator.ts:172-226 | a day whose lines all book: one row per sub and common name, each worth the minutes of the lines booked on it, sorted by decreasing minutes, both lists summing to the booked minutes, which is the total |
| CategoryCalculator.SumDayCases | src/features/categories/category_calculator.ts:173-175 | a day without a non-empty log array is the empty information; otherwise the day fails exactly when one of its lines does |
| CategoryCalculator.DayValid | src/features/categories/category_calculator.ts:172-226 | every day that loads holds one row per name |
| CategoryCalculator.TimeOfDigits | src/features/categories/category_calculator.ts:94-102 | the legacy `timeToMinutes` reads "H:M" as 60 H + M and agrees with the current time note reading |
| CategoryCalculator.CalculatePerPage | src/features/categories/category_calculator.ts:26-32 | as written, pages give one information per page rather than their sum: `map` returns an array although `CategoryInformation` is declared |
| CategoryCalculator.CalculateOnePage | src/features/categories/category_calculator.ts:26-32 | a single page without a log already shows it: the result is an array holding the empty information |
| CategoryCalculator.ReduceSpec | src/features/categories/category_calculator.ts:26-32 | the corrected sum: adding up valid informations with `add` keeps one row per name and adds every name's minutes and both totals over the days |
| CategoryCalculator.CalculateTotalSpec | src/features/categories/category_calculator.ts:26-32 | the corrected `calculate` over pages that all load: each page's information as `_parseAndSumDailyTimes` gives it, and the result their sum name by name and in the totals |
| CategoryCalculator.PrettyNothing | src/features/categories/category_calculator.ts:118-130 | zero minutes and a missing value print as nothing |
| CategoryCalculator.PrettyIsFormat | src/features/categories/category_calculator.ts:118-130 | away from zero `_prettyMinutes` prints as the current `formatMinutes` does |
| CategoryCalculator.PrettyNegative | src/features/categories/category_calculator.ts:123-124 | under an hour below zero the hours floor to -1 while the remainder keeps its minus sign, as in "-1ч. -30м." |
| LegacyCategoryPrinter.KeptMembers | src/features/categories/managers/category_printer.ts:65 | the items kept on the chart are exactly the items not marked `skipOnDiagramm` |
| LegacyCategoryPrinter.KeptMinutes | src/features/categories/managers/category_printer.ts:59-64 | the items' minutes split into those of the kept items and those of the skipped ones |
| LegacyCategoryPrinter.ChartOfSpec | src/features/categories/managers/category_printer.ts:52-66 | a pack that is found gives a chart titled by its pack type, with the same root and only the unskipped items, the root's minutes becoming the kept items' sum when they were all the items' sum; a missing pack throws "Info pack with type <type> not found" |
| LegacyCategoryPrinter.ChartInfoSpec | src/features/categories/managers/category_printer.ts:51-70 | the charts are built exactly when every pack type has a pack, one chart per pack type, in order |
| LegacyCategoryPrinter.CheckCanBuildSpec | src/features/categories/managers/category_printer.ts:81-90 | the pages can be built exactly when one of them has a non-empty log array |
| LegacyCategoryPrinter.IntervalSumSpec | src/features/categories/managers/category_printer.ts:306-308 | the pages' lengths add up with a missing length as 0, unless one is NaN, which makes the sum NaN |
| LegacyCategoryPrinter.TotalIntervalTimeSpec | src/features/categories/managers/category_printer.ts:305-311 | the total interval is `null` exactly when the lengths add up to zero; otherwise it is their sum, or NaN |
| LegacyCategoryPrinter.MaxLen | src/features/categories/managers/category_printer.ts:281 | the number of rows is the length of the longest pack's items: no pack has more, some pack has as many |
| LegacyCategoryPrinter.MakeTable | src/features/categories/managers/category_printer.ts:265-303 | `_makeTable` as a method with its loop over the rows: the table of `TableOf`, or "Info packs not loaded" without packs |
| LegacyCategoryPrinter.TitlesShape | src/features/categories/managers/category_printer.ts:273-275 | two titles per pack: its root's name, then "Время" |
| LegacyCategoryPrinter.RowLength | src/features/categories/managers/category_printer.ts:284-299 | each row holds two cells per pack |
| LegacyCategoryPrinter.RowAt | src/features/categories/managers/category_printer.ts:284-299 | pack `j`'s two cells sit at positions `2 j` and `2 j + 1` of a row |
| LegacyCategoryPrinter.TableLayout | src/features/categories/managers/category_printer.ts:265-303 | the table has two titles per pack and as many rows as the longest pack has items; in row `i` pack `j` shows its `i`-th item's name and time, or two blanks past its last item |
| LegacyCategory.ParentCategory | src/features/categories/category.ts:16-20 | a parent is found exactly when the category has a map and a parent name that the map holds, and it is the map's entry for that name |
| LegacyCategory.ToStringParts | src/features/categories/category.ts:12-14 | the text is "Категория: " and the name, followed by ", Родительская категория: " and the parent's name exactly when that name is present and not empty |
| CategoryInformation.AccumulateInto | src/features/categories/category_information.ts:26-28 | the `forEach` loop as a method: its result is the map with each row's minutes added to its name's value (0 when absent) |
| CategoryInformation.Add | src/features/categories/category_information.ts:22-44 | `add` as a method, with both loops: its result is that of `AddSpec` |
| CategoryInformation.MergedSpec | src/features/categories/category_information.ts:23-35 | a merged list holds one row per name of either list, worth its minutes in the first list plus those of the second list's rows of that name, from largest down, ties in the order first met, summing to both lists' sums |
| CategoryInformation.MergedValues | src/features/categories/category_information.ts:23-35 | merging two maps adds their values name by name |
| CategoryInformation.AddSums | src/features/categories/category_information.ts:22-44 | `add` of two values with one row per name: each sub and common name is worth its minutes in both added up, its names are those of either, the lists are sorted and sum to both sums, and the totals add up |
| CategoryInformation.AddDailyCases | src/features/categories/category_information.ts:42 | the day lengths add as JavaScript adds `number \| null`: `null` counts as 0, NaN absorbs, and the order does not matter |
| CategoryInformation.AddCommutes | src/features/categories/category_information.ts:22-44 | name by name `a.add(b)` and `b.add(a)` agree |
| CategoryInformation.SortOfSorted | src/features/categories/category_information.ts:34-35 | a list already in decreasing order is its own sort |
| CategoryInformation.AddToEmpty | src/features/categories/category_information.ts:22-44 | adding a value with sorted lists to `new CategoryInformation([], [], 0, 0, 0)` gives back its lists and totals |
| Tally.FromRowsUnique | src/features/categories/category_information.ts:23-24 | `new Map(rows)` holds one row per key, and copies rows that already have one per key in their order |
| Tally.SetGet | src/features/categories/category_information.ts:27 | after `set(k, v)` the key `k` reads `v` and every other key reads as before |
| Tally.AccumulateGet | src/features/categories/category_information.ts:26-32 | after the loop each key holds its old value (0 when absent) plus the minutes of the rows with that key |
| Tally.AccumulateSum | src/features/categories/category_information.ts:26-32 | the loop adds the rows' minutes to the map's sum |
| Tally.SortDescSpec | src/features/categories/category_information.ts:34-35 | `Array.from(map).sort((a, b) => b[1] - a[1])` runs from the largest value down, is a rearrangement of the map's rows keeping rows of equal value in insertion order, and keeps every key's value and the sum |
| Tally.SumExceptUnique | src/features/categories/category_calculator.ts:213-216 | leaving out one name removes exactly its minutes from the sum |
| Sorting.SortSorted | src/features/categories/category_information.ts:34 | `Array.prototype.sort` with a consistent comparator orders its result |
| Sorting.SortPermutes | src/features/categories/category_information.ts:34 | the sort is a permutation of its input |
| Sorting.SortStable | src/features/categories/category_information.ts:34 | the sort is stable, as the language requires: elements the comparator cannot tell apart keep their order |
| Js.JsRem | src/features/categories/category_calculator.ts:123 | `%` takes the sign of its left operand: the remainder is below the divisor in size and the truncated quotient times the divisor plus the remainder gives back the dividend |
| Js.ParseIntOfDigits | src/features/categories/category_calculator.ts:190 | `parseInt` of a non-empty run of digits is its decimal value |
| Js.ToNumberOfDigits | src/features/categories/managers/category_printer.ts:333 | `Number` of a run of digits is its decimal value, the empty string 0 |
| Js.JoinSplit | src/features/categories/category_calculator.ts:146 | joining the parts of `split` with the separator gives back the input |
| Js.TrimSurroundedBySpaces | src/features/categories/category_calculator.ts:188 | `trim` removes exactly leading and trailing white space |
| DiaryPagesManager.IsoBranch | src/features/diary/diary_pages_manager.ts:210-222 | for any name holding a week, the corrected name rolls over exactly at the year's last ISO week and otherwise asks the calendar; in a 52-week year it is the code's name |
| CategoryCalculator.TimeToMinutes | src/features/categories/category_calculator.ts:94-97 | the legacy `timeToMinutes` gives `null` exactly for a missing or blank time |
| Tally.SetShape | src/features/categories/category_information.ts:27 | `set` of a new key appends a row; of a present key it keeps every row's place and key |
| Tally.AccumulateHasKey | src/features/categories/category_information.ts:26-32 | after the loop the keys are the old ones and those of the rows |

## Left out

- The DOM, Chart.js and tables: `buildTable`, `buildChart`, `buildTimeNote` and `getTable` of both printers and of the legacy calculator, the drawing in the `pie` and `line` bodies, the time note printer, the tab, input and autocomplete widgets. They only render values the model computes.
- Note and page I/O: reading and writing a note's YAML header (the outer async methods of `FrontmatterManager`), Dataview's `dv.page` and `dv.pages`, the file observer and the configuration holders that load pages. Pages and configurations are inputs.
- Wiring: dependency injection, the plugin's settings and the API façade. The holders' upstream lists (which notifiers each holder listens to) are wiring too: each holder's `calc` is modelled as a function of its upstreams' states.
- JavaScript truthiness is a parameter of `LazyDerivedValueNotifier` (`truthy`). The holders' `calc` functions return `Option` states, whose truthiness is `Some?` (the null states of the categories, calculated categories and calculated params holders are falsy); the holders are not built as notifier objects, which is wiring.
- Listener closures are identifiers, and a notification is the trace of calls it makes. A listener that re-enters a notifier, and cycles through listeners, are not modelled.
- The legacy notifiers in src/utils/value_notifier.ts behave as the modelled ones. They differ only in the accessor's name (`value`) and in passing `undefined` rather than `null` as the first previous state, so they are covered by the same classes.
- `moment`'s calendar arithmetic is foreign code: ISO weeks, month and week edges, adding and subtracting weeks. Its results are the fields of `DiaryPagesManager.Calendar`.
- The diary operations that are nothing but a `moment` call or a Dataview lookup are not modelled: `nextDayPageName`, `prevDayPageName`, `yearPageName`, `nextMonthPageName`, `prevMonthPageName`, `nextYearPageName`, `prevYearPageName`, `weekPage`, `monthPage` and `yearPage`.
- `localeCompare` and `<` on strings are read as code-unit order. Diary names and ISO dates are digits and dashes, for which the locale order agrees.
- The wall clock: the `useNow` branch of the time note reads `now`, a parameter. The timers (`setTimeout`, `setInterval`) and `Notice` pop-ups of the widget and printers are not modelled.
- Floating point: JavaScript numbers are integers plus NaN (`Js.Num`). Percentages written with `toFixed(1)` are a parameter of the printers' tips. Parameter averages are exact reals. `parseInt` does not switch to base 16 on "0x", and `Number` reads no fractions or exponents.
- `ItemManager.parseEntry`, `ItemManager.formatEntry` and `calcCommentsAndCategoryScore` are called but not defined in the shown item_manager.ts. The first two are parameters of `FrontmatterManager` and `EnterCategoryWidget`, so no round trip between them is stated; in `FrontmatterManager` the parser may fail, and its failure is the edit's error. The holders built on the unseen calls (comments and category score, all comments, category score, time note) are not modelled.
- The mis-encoded minutes pattern of enter_category_widget.ts:216 (the letters show as `Ñ‡` and `Ð¼`) is read as the "ч" and "м" the rest of the code uses.
- test.ts, a scratch script, is not part of this model. Its own notifier skips identical assignments, unlike the shipped ones.
- The type-only files are transcribed as datatypes only.
- `CategoryCalculator`: the `skipBase` setting is only stored, because it is read only by `buildChart`. The `sub` and `certain` entries are split before their loops; splitting cannot fail, so the order of failures is the same. The `ChartManager` the constructor creates is drawing.
- The legacy printer's `loadPages` assigns `root.totalMinutes` on the object the manager returned. The model computes a new root value: the aliasing with the manager's own pack is not captured. `manager.calculate`, `calculateArray`, `loadPages` and `clearPages` of the manager are unseen calls, and `calculate(packType)` is a parameter.
- The legacy printer's `_calcDailyTotalTime` and `_timeToMinutes` read their times with `Number`, as the current time note does. They are defined by `TimeNoteManager.DailyTotal`, so their wrap-around and blank cases are those lemmas.
- The legacy `Category` fields are set only by its constructor, and `add` mutates neither operand. In the model both are values, so neither can change.
- `_shrinkToOther` in both chart files: the ratio test `values[i] / total > 1 / 20` is written as the integer comparison `20 v > total` (reversed for a negative total). This is exact for integer minutes.
- CategoryPrinter.GapFill, CategoryPrinter.LineChartOf: `makeLineChart` sorts and splices, in place, the arrays of the calculated holder's cached `history` (it shares them through `Object.fromEntries`). The model returns new sequences and leaves the cached history unchanged, so the write-back is not captured: a later call starts from the sorted, filled arrays. FillIdempotent shows that a second fill over the same page dates inserts nothing; the model does not prove that sorting a filled history again leaves it as it is.
- `pie` pushes `otherDataUnit` onto the caller's `data` array. The model returns the extended array; the caller seeing its own array grow is not captured.

## Findings

| source | as written | input that shows it | evidently intended | confidence | as-written member | corrected member |
|---|---|---|---|---|---|---|
| src/features/diary/diary_pages_manager.ts:215-217 | `nextWeekPageName` rolls over to week 1 of the next year whenever the week reads as 52 | "2020-W52": 2020 has 53 ISO weeks, yet the next name is "2021-W01" and "2020-W53" is skipped | roll over only after the year's last ISO week (52 or 53) and let `moment` add a week otherwise | not executed | DiaryPagesManager.NextWeekSkipsWeek53 | DiaryPagesManager.NextWeekIsoRollsOverLastWeek |
| src/features/categories/category_calculator.ts:26-32 | `calculate` returns `pages.map(...)`, one `CategoryInformation` per page, although its declared result is a single `CategoryInformation` | one page without a log: the result is `[new CategoryInformation([], [], 0, 0, 0)]`, an array | the pages' informations added up with `add` | not executed | CategoryCalculator.CalculateOnePage | CategoryCalculator.CalculateTotalSpec |
