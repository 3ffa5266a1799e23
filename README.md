# GIMP action search and GimpConfig interface, modelled in Dafny

This project models two parts of GIMP in Dafny and proves properties of the model.

**The action-search dialog** (`app/dialogs/action-search-dialog.c`):
- *Matcher.* `action_search_match_keyword` decides whether a UI action matches a typed query. When it does, it ranks the match in a *section* from 0 (best) to 5.
- *Result list.* `action_search_add_to_results_list` inserts each result into a list store kept in section order.
- *Result assembly.* `action_search_history_and_actions` puts matching history actions first. It then scans the action groups: it filters, matches, and drops actions already listed from the history.

**The GimpConfig interface defaults** (`libgimpconfig/gimpconfig-iface.c`):
- *End of deserialization.* `gimp_config_deserialize_return` decides how reading a config object ends.
- *Equality.* `gimp_config_iface_equal` compares two objects property by property. It recurses into aggregated config objects.
- *Duplication.* `gimp_config_iface_duplicate` selects the construct-time parameters.
- *Same-type checks.* `gimp_config_is_equal_to` and `gimp_config_copy` return FALSE unless both instances have the same type.

Files:
- `optional.dfy`: `Option`, standing for a possibly NULL pointer.
- `action_match.dfy`: the matcher. `KeywordMatch` and `ActionMatches` are pure specification functions over folded token lists. `MatchKeyword`, `MatchLabel` and `MatchTooltip` are the source's loops with their flags `matched`, `match_start`, `match_ordered`, `previous_matched` and `mixed_match`. Each loop method is proved equal to the specification function.
- `results_list.dfy`: `ResultStore` is a class whose `rows` sequence the `Add` method updates in place. `Add` walks the rows up to the first greater section and inserts there. It is proved equal to `AddRow`. Lemmas cover ordering, contents and stability.
- `action_search.dfy`: the filter/match/dedup scan as nested loops over a `ResultStore`. It is proved equal to `SearchResults`. Lemmas show that history rows come first, state exactly which actions are listed, and show that no duplicate of a history name is added.
- `config_scanner.dfy`: a `Scanner` class (a token sequence plus a read position) and the end-of-object decision.
- `config_iface.dfy`: config objects as a finite tree. It holds recursive equality with its loop and proofs, construct-parameter selection into an array, and the same-type guard of copy.

The tokenizer `g_str_tokenize_and_fold` becomes a function-typed parameter `Tokenizer`. It is uninterpreted: it returns the folded tokens and their ASCII alternates. An `Action` carries its label after `gimp_strip_uline`, its optional tooltip, its name and its sensitivity.

## Model

| member | source | states |
|---|---|---|
| ActionMatch.FirstWithPrefix | app/dialogs/action-search-dialog.c:721-734 | the first token that starts with the key, if any: every earlier token fails the prefix test, and None exactly when no token has the key as prefix |
| ActionMatch.HasPrefix | app/dialogs/action-search-dialog.c:723 | defines g_str_has_prefix: the key is an initial segment of the word (the empty key prefixes every word) |
| ActionMatch.FirstChar | app/dialogs/action-search-dialog.c:690-698 | defines g_utf8_get_char on a token: its first character, or NUL for an empty string |
| ActionMatch.LabelLookup | app/dialogs/action-search-dialog.c:718-736 | defines the (found, j) pair one label pass leaves at one_matched: the first label token with the key as prefix, else the first such alternate, else not found with j the alternates count |
| ActionMatch.LabelIndices | app/dialogs/action-search-dialog.c:718-739 | defines the sequence of j values the label loop records, one per key token in order |
| ActionMatch.AllFound | app/dialogs/action-search-dialog.c:715-735 | defines the `matched` flag after the keys seen so far: each of them reached one_matched by a hit, with no early stop |
| ActionMatch.Ordered | app/dialogs/action-search-dialog.c:717-739 | defines the `match_ordered` flag: `previous_matched > j` never held between consecutive recorded indices |
| ActionMatch.StartAligned | app/dialogs/action-search-dialog.c:716-742 | defines the `match_start` flag: `i != j` never held, so key i was recorded at index i |
| ActionMatch.LabelStep | app/dialogs/action-search-dialog.c:708-754 | defines the label step: a match exactly when every key token prefixes a label token or alternate, in section 1 when the recorded indices are non-decreasing and idx[i] == i, 2 when only non-decreasing, 3 otherwise |
| ActionMatch.InitialsMatch | app/dialogs/action-search-dialog.c:688-706 | defines the initials rule: exactly one key token, of two characters, that are the first characters of the first two label tokens or of the first two label alternates |
| ActionMatch.StartsWithInitials | app/dialogs/action-search-dialog.c:693-698 | defines one half of the initials test: the word list has more than one word, and its first two words start with c1 and c2 |
| ActionMatch.TooltipApplies | app/dialogs/action-search-dialog.c:756-767 | defines the tooltip guard: the first key token is longer than two characters and the action has a tooltip that folds to at least one token |
| ActionMatch.TooltipStep | app/dialogs/action-search-dialog.c:767-818 | defines the tooltip step: a match exactly when every key token prefixes a tooltip word or a label word, in section 5 when some key is found in the label but not the tooltip, 4 otherwise |
| ActionMatch.FoldTooltip | app/dialogs/action-search-dialog.c:757-765 | defines the tooltip words: none for a NULL tooltip, else the tokenizer applied to the tooltip |
| ActionMatch.KeywordMatch | app/dialogs/action-search-dialog.c:684-817 | for a non-NULL keyword, a match is always ranked in a section from 1 to 5 |
| ActionMatch.ActionMatches | app/dialogs/action-search-dialog.c:656-828 | a NULL keyword matches every action in section 0; a non-NULL keyword only ever ranks in sections 1 to 5 |
| ActionMatch.ScanForPrefix | app/dialogs/action-search-dialog.c:721-727 | the `for (j ...)` scan finds a token with the key as prefix exactly when one exists, stops at the first one, and leaves j at the array length otherwise |
| ActionMatch.ScanLabel | app/dialogs/action-search-dialog.c:718-736 | the j reaching one_matched indexes label tokens on a token hit, label alternates on an alternate hit, and is the alternates count on a miss |
| ActionMatch.LookupMeaning | app/dialogs/action-search-dialog.c:718-736 | a label pass succeeds exactly when the key prefixes a label token or alternate; the recorded index points at a word that starts with the key |
| ActionMatch.AllFoundMeaning | app/dialogs/action-search-dialog.c:715-735 | the `matched` flag after the label loop holds exactly when every key token prefixes a label token or alternate; a failing key does not stop the loop |
| ActionMatch.OrderedMeaning | app/dialogs/action-search-dialog.c:737-739 | `match_ordered` (never `previous_matched > j`) is the same as the recorded indices being non-decreasing |
| ActionMatch.StartAlignedMeaning | app/dialogs/action-search-dialog.c:741-742 | `match_start` (never `i != j`) is the same as key token i being recorded at index i for every i |
| ActionMatch.LabelFlagsStep | app/dialogs/action-search-dialog.c:736-745 | how one more key token updates the three label-loop flags |
| ActionMatch.LabelStepByFlags | app/dialogs/action-search-dialog.c:747-753 | the label step's verdict read off the final flags: section 1 if ordered and start-aligned, 2 if only ordered, 3 if not ordered |
| ActionMatch.MatchLabel | app/dialogs/action-search-dialog.c:708-754 | the label loop with its flags matches exactly when the declarative label step does, with the same section |
| ActionMatch.MatchTooltip | app/dialogs/action-search-dialog.c:767-818 | the tooltip loop matches exactly when every key prefixes a tooltip or label word, in section 5 when some key was found only in the label and 4 otherwise |
| ActionMatch.MatchKeyword | app/dialogs/action-search-dialog.c:656-828 | the whole imperative matcher agrees with `ActionMatches` on every input, in its verdict and its section |
| ActionMatch.InitialsRule | app/dialogs/action-search-dialog.c:688-706 | one two-character key naming the first letters of the first two label tokens, or of the first two label alternates, matches in section 1 |
| ActionMatch.LabelStepDecides | app/dialogs/action-search-dialog.c:708-760 | past the initials rule, with a non-empty label: every key found in the label gives a match in section 1-3; otherwise the outcome is the tooltip step's, or no match |
| ActionMatch.EmptyQuery | app/dialogs/action-search-dialog.c:708-753 | zero key tokens match any label with a token in section 1, and a label without tokens not at all |
| ActionMatch.SectionOneIsPositional | app/dialogs/action-search-dialog.c:741-753 | a section-1 label match means key token i starts the i-th label token or the i-th label alternate |
| ActionMatch.SectionThreeIsUnordered | app/dialogs/action-search-dialog.c:737-753 | a section-3 label match means some later key was found at a smaller index than an earlier one |
| ActionMatch.TooltipFallback | app/dialogs/action-search-dialog.c:756-817 | when the tooltip step runs, it matches iff every key prefixes a tooltip or label word; section 4 iff every key is in the tooltip; section 5 iff some key is only in the label |
| ActionMatch.MatchIsExplained | app/dialogs/action-search-dialog.c:684-817 | every match comes from the initials rule or from every key prefixing a label or tooltip word; sections 4 and 5 need the tooltip guard |
| ActionMatch.InitialsExample | app/dialogs/action-search-dialog.c:688-706 | "gb" ranks "Gaussian Blur" in section 1 |
| ActionMatch.PrefixExample | app/dialogs/action-search-dialog.c:708-753 | "gaus" ranks "Gaussian Blur" in section 1 |
| ActionMatch.NotAtStartExample | app/dialogs/action-search-dialog.c:708-753 | "blur" ranks "Gaussian Blur" in section 2 |
| ActionMatch.OutOfOrderExample | app/dialogs/action-search-dialog.c:708-753 | "blur gaussian" ranks "Gaussian Blur" in section 3 |
| ActionMatch.NoMatchExample | app/dialogs/action-search-dialog.c:656-828 | "xyz" matches neither the label nor the tooltip |
| ActionMatch.TooltipExample | app/dialogs/action-search-dialog.c:756-817 | "smooths" matches through the tooltip only, in section 4 |
| ActionMatch.MixedExample | app/dialogs/action-search-dialog.c:789-816 | "smooths blur" matches through tooltip and label together, in section 5 |
| ActionMatch.AlternateIndexExample | app/dialogs/action-search-dialog.c:728-742 | a key found among the alternates records the alternates index, so "vital elan" against "Vital Élan" is ordered but not start-aligned (section 2) |
| ResultsList.TrimStartMeaning | app/dialogs/action-search-dialog.c:447 | g_strstrip's leading part removes exactly a white-space prefix |
| ResultsList.TrimEndMeaning | app/dialogs/action-search-dialog.c:447 | g_strstrip's trailing part removes exactly a white-space suffix |
| ResultsList.IsAsciiSpace | app/dialogs/action-search-dialog.c:447 | defines g_ascii_isspace, the test g_strstrip uses: space, tab, line feed, form feed or carriage return |
| ResultsList.TrimStart | app/dialogs/action-search-dialog.c:447 | defines g_strchug: leading white space is dropped one character at a time until a non-space character or the end |
| ResultsList.TrimEnd | app/dialogs/action-search-dialog.c:447 | defines g_strchomp: trailing white space is dropped one character at a time until a non-space character or the start |
| ResultsList.Strip | app/dialogs/action-search-dialog.c:447 | defines g_strstrip as dropping the leading, then the trailing, run of ASCII white space |
| ResultsList.Shown | app/dialogs/action-search-dialog.c:447-453 | defines which actions get a row: those whose stripped label is not empty |
| ResultsList.StripEmpty | app/dialogs/action-search-dialog.c:447-449 | a label strips to the empty string exactly when every character is ASCII white space |
| ResultsList.InsertPos | app/dialogs/action-search-dialog.c:494-513 | the walk stops at the first row of a strictly greater section, or at the end: every earlier row has a section no greater |
| ResultsList.InsertPosAt | app/dialogs/action-search-dialog.c:494-513 | where the imperative walk stops is the insertion point |
| ResultsList.AddRow | app/dialogs/action-search-dialog.c:494-517 | defines the list after one addition: unchanged when the action is not shown, else the new row placed at the insertion point |
| ResultsList.AddRows | app/dialogs/action-search-dialog.c:583-647 | defines the list after a run of additions: each entry added in turn with AddRow |
| ResultsList.ResultStore.Clear | app/dialogs/action-search-dialog.c:253 | the store is emptied before each new search |
| ResultsList.ResultStore.Add | app/dialogs/action-search-dialog.c:447-517 | the in-place insertion leaves exactly `AddRow` of the old rows: unchanged for a blank label, else the new row spliced in at the insertion point; an ordered store stays ordered |
| ResultsList.AddRowSorted | app/dialogs/action-search-dialog.c:494-517 | adding a row keeps the list ordered by non-decreasing section |
| ResultsList.AddRowContents | app/dialogs/action-search-dialog.c:447-517 | adding a row adds exactly that row, and nothing when the stripped label is empty |
| ResultsList.AddRowPlace | app/dialogs/action-search-dialog.c:494-513 | in an ordered list, the new row goes after every row of a section no greater and before every row of a greater section |
| ResultsList.SpliceSectionRows | app/dialogs/action-search-dialog.c:494-517 | splicing at the insertion point appends the row to the rows of its own section |
| ResultsList.AddRowSectionRows | app/dialogs/action-search-dialog.c:494-517 | adding to an ordered list appends the row to its section's rows and leaves every other section as it was |
| ResultsList.AddRowsSorted | app/dialogs/action-search-dialog.c:494-517 | any sequence of additions keeps an ordered list ordered |
| ResultsList.AddRowsStable | app/dialogs/action-search-dialog.c:494-517 | filling an empty store gives, for each section, the shown entries of that section in arrival order: a stable sort by section |
| ResultsList.AddRowsContents | app/dialogs/action-search-dialog.c:447-517 | filling a store adds exactly the entries whose label is not blank |
| ActionSearch.AddRowsAppend | app/dialogs/action-search-dialog.c:583-650 | adding two batches one after the other is adding their concatenation |
| ActionSearch.Skipped | app/dialogs/action-search-dialog.c:616-623 | defines the two filters: an excluded action other than plug-in-repeat and plug-in-reshow, and an insensitive action when unavailable actions are hidden |
| ActionSearch.InHistory | app/dialogs/action-search-dialog.c:632-640 | defines the redundancy test: some action of the matching history has exactly this name |
| ActionSearch.Candidate | app/dialogs/action-search-dialog.c:625-646 | defines what one scanned action contributes: nothing when skipped, named in the history or not matching, else one row in the matcher's section |
| ActionSearch.GroupRows | app/dialogs/action-search-dialog.c:600-647 | defines the rows one action group contributes: the candidates of its actions, in the group's order |
| ActionSearch.ScanRows | app/dialogs/action-search-dialog.c:589-650 | defines the rows the scan contributes: the group rows, group after group |
| ActionSearch.HistoryRows | app/dialogs/action-search-dialog.c:583-586 | defines the history rows: every matching history action, in history order, in section 0 |
| ActionSearch.SearchResults | app/dialogs/action-search-dialog.c:566-653 | defines the list after a search: unchanged for the empty keyword, else the history rows in section 0 and then the scanned rows, each added in turn |
| ActionSearch.FindInHistory | app/dialogs/action-search-dialog.c:632-640 | the redundancy loop sets `is_redundant` exactly when some history action has the same name |
| ActionSearch.AddHistory | app/dialogs/action-search-dialog.c:583-586 | every history action is added in section 0, in history order |
| ActionSearch.AddGroup | app/dialogs/action-search-dialog.c:600-647 | the scan of one group adds exactly `GroupRows`: the skip filters, the match, the dedup against history names |
| ActionSearch.HistoryAndActions | app/dialogs/action-search-dialog.c:566-653 | the store ends as `SearchResults`: unchanged for the empty keyword, else history rows then scanned rows added in order |
| ActionSearch.GroupRowsMembership | app/dialogs/action-search-dialog.c:600-647 | a group yields a row exactly for its actions that are not skipped, have no history namesake and match in that row's section |
| ActionSearch.ScanRowsMembership | app/dialogs/action-search-dialog.c:589-650 | the same over all groups |
| ActionSearch.SearchSorted | app/dialogs/action-search-dialog.c:566-653 | a search keeps an ordered list ordered |
| ActionSearch.SearchContents | app/dialogs/action-search-dialog.c:575-653 | the empty keyword adds nothing; any other keyword adds exactly the shown history and scanned rows |
| ActionSearch.ScanSections | app/dialogs/action-search-dialog.c:625-646 | for a keyword, every scanned row has a section from 1 to 5 |
| ActionSearch.HistorySectionZero | app/dialogs/action-search-dialog.c:583-586 | every history row is in section 0 |
| ActionSearch.ScanSectionZero | app/dialogs/action-search-dialog.c:625-646 | no scanned row lands in section 0 for a keyword |
| ActionSearch.HistoryFirst | app/dialogs/action-search-dialog.c:583-586 | after a search by keyword, the list is ordered and section 0 holds exactly the shown history actions, in history order |
| ActionSearch.NoHistoryDuplicates | app/dialogs/action-search-dialog.c:616-646 | a scanned row never repeats a history name, is never a skipped action, and carries the section the matcher gave |
| ConfigScanner.Scanner.GetNextToken | libgimpconfig/gimpconfig-iface.c:656 | consuming returns the peeked token and advances by one, except at the end of input |
| ConfigScanner.Scanner.Peek | libgimpconfig/gimpconfig-iface.c:652 | defines the peeked token: the token at the read position, or EOF past the end, without consuming it |
| ConfigScanner.ReturnDecision | libgimpconfig/gimpconfig-iface.c:652-676 | success and consuming a token exclude each other; any expected token but LEFT_PAREN fails; with LEFT_PAREN it succeeds exactly on EOF, or on RIGHT_PAREN when nested |
| ConfigScanner.DeserializeReturn | libgimpconfig/gimpconfig-iface.c:644-677 | a NULL scanner fails; otherwise the result is the decision on the peeked token, and exactly one token is consumed when it fails |
| ConfigIface.ConfigOf | libgimpconfig/gimpconfig-iface.c:224-225 | the config object behind an object value lies strictly inside that value, so the recursion descends |
| ConfigIface.ConfigOfWellFormed | libgimpconfig/gimpconfig-iface.c:224-225 | an aggregated object of a well-formed value is itself well formed |
| ConfigIface.IsEqualTo | libgimpconfig/gimpconfig-iface.c:767-776 | TRUE only for two config objects of one type whose properties compare equal; NULL, non-config or differently typed arguments give FALSE |
| ConfigIface.IfaceEqual | libgimpconfig/gimpconfig-iface.c:188-243 | the loop that stops at the first difference returns TRUE exactly when every readable property compares equal, aggregated configs by recursive equality |
| ConfigIface.SameValue | libgimpconfig/gimpconfig-iface.c:217 | defines a zero result of g_param_values_cmp: equal plain values, two NULL objects, or the same object instance |
| ConfigIface.PropEqual | libgimpconfig/gimpconfig-iface.c:209-236 | defines when one property does not make the objects unequal: it is not READABLE, its values compare equal, or it is an aggregated config property whose two objects are equal by gimp_config_is_equal_to |
| ConfigIface.ConfigEqual | libgimpconfig/gimpconfig-iface.c:201-237 | defines gimp_config_iface_equal's verdict: every property passes PropEqual |
| ConfigIface.ComparedDeeply | libgimpconfig/gimpconfig-iface.c:219-223 | defines when a differing property is compared recursively: it has GIMP_CONFIG_PARAM_AGGREGATE and is an object property whose type implements GimpConfig |
| ConfigIface.IsEqualToSpec | libgimpconfig/gimpconfig-iface.c:770-775 | defines gimp_config_is_equal_to: both arguments are config objects, of the same type, and the interface's equal holds for them |
| ConfigIface.SameValueSymmetric | libgimpconfig/gimpconfig-iface.c:217 | the value comparison does not depend on argument order |
| ConfigIface.EqualReflexive | libgimpconfig/gimpconfig-iface.c:767-776 | every well-formed config object is equal to itself |
| ConfigIface.EqualSymmetric | libgimpconfig/gimpconfig-iface.c:767-776 | equality is symmetric through every level of aggregation |
| ConfigIface.ConfigEqualSymmetric | libgimpconfig/gimpconfig-iface.c:201-237 | the property-by-property comparison is symmetric |
| ConfigIface.UnreadableIgnored | libgimpconfig/gimpconfig-iface.c:209-210 | changing a property without READABLE never changes the verdict |
| ConfigIface.DifferenceDecides | libgimpconfig/gimpconfig-iface.c:217-235 | a readable property whose values differ makes the objects unequal unless it is an aggregated config, and then only equal sub-objects keep them equal |
| ConfigIface.ConstructParams | libgimpconfig/gimpconfig-iface.c:152-170 | no more parameters than property specs are collected |
| ConfigIface.IsConstructParam | libgimpconfig/gimpconfig-iface.c:156-158 | defines the duplicate filter: the property is READABLE, WRITABLE and CONSTRUCT_ONLY |
| ConfigIface.CollectConstructParams | libgimpconfig/gimpconfig-iface.c:137-170 | the array has one slot per spec; its first n slots are exactly the collected parameters in declaration order, and every slot from n on keeps the zero value of g_new0 |
| ConfigIface.ConstructParamsMembership | libgimpconfig/gimpconfig-iface.c:152-170 | a parameter is collected exactly for a READABLE, WRITABLE and CONSTRUCT_ONLY property, with its name and the object's value |
| ConfigIface.ConstructParamsAppend | libgimpconfig/gimpconfig-iface.c:152-170 | collection keeps declaration order: two runs of specs collect to the concatenation |
| ConfigIface.ConstructParamsExtremes | libgimpconfig/gimpconfig-iface.c:152-170 | all specs qualifying collects all of them; none qualifying collects nothing |
| ConfigIface.Copy | libgimpconfig/gimpconfig-iface.c:817-835 | unless both are config objects of one type, dest is untouched and the result is FALSE |

## Left out

- GTK dialog construction, key and window handlers, tree-view setup, row activation and `action_search_hide`. These are UI code and are not part of this model. The store clearing done by the key handler is `ResultStore.Clear`.
- Icon, markup, accelerator and tooltip columns of a result row, and `action_search_find_accel_label`. A row keeps its action and section, and its sensitivity is the action's own flag.
- `g_str_tokenize_and_fold`, `gimp_strip_uline` and locale-aware folding. They are a `Tokenizer` parameter, and the label is taken after underscore stripping. Strings are sequences of characters, and the UTF-8 length and first character are the sequence's length and first element.
- A NULL label from `gtk_action_get_label`. Labels are always present strings here.
- ActionMatch.KeywordMatch: with zero key tokens, the source passes `key_tokens[0]` (the array terminator, NULL) to `g_utf8_strlen` at line 756. The model treats it as length 0, so the tooltip step does not run.
- `gimp_action_history_search`, `gimp_action_history_excluded_action` and the group listing sorted by `gimp_action_name_compare`. These are inputs of `SearchContext`: the matching history list, the exclusion predicate and the pre-sorted groups.
- The GUI config lookup of `search_show_unavailable` and the `<Image>` UI manager. The first is a boolean in `SearchContext`.
- `g_scanner_unexp_token` error messages in `gimp_config_deserialize_return`. Only the result and the consumed token are modelled.
- The serialize and deserialize wrappers, `gimp_config_serialize_properties`, `gimp_config_deserialize_properties`, `gimp_config_sync` and `gimp_config_reset_properties`. Their bodies are not part of this model. The copy step is a `sync` parameter of `Copy`.
- In `gimp_config_iface_duplicate`: `g_object_newv`, the final `gimp_config_copy` into the new object, and freeing the values. Only the selection of construct parameters is modelled.
- ConfigIface.IsEqualTo: only the default `equal` of the interface is modelled. A class that overrides the vtable entry is not.
- `g_param_values_cmp` is modelled for integer-like values and object pointers only. Floating-point specs compare with an epsilon in GLib, and that is not modelled. Boxed and pointer specs are not modelled either. GLib compares a boxed value by its address, and `g_object_get_property` hands out a fresh copy of it, so a readable boxed property makes a live object unequal to itself. `ConfigIface.EqualReflexive` and `ConfigIface.SameValueSymmetric` are facts about the modelled value kinds only. Object identity is an `id`; the model does not require two instances with one `id` to hold the same state.
- Cyclic aggregation. Config objects are a finite tree, so two objects whose aggregated properties point at each other cannot be expressed. For such objects `gimp_config_iface_equal` and `gimp_config_is_equal_to` (line 224) would call each other without end.
- The scanner's token stream holds the tokens before the end of input; EOF is what lies past them (`Eof !in tokens` in `Scanner.Valid`). GScanner's own tokenizing of the input text is not modelled.
- GType registration, `base_init`, `freeze_notify`/`thaw_notify`. These are object-system plumbing.
- `libgimpwidgets/gimpunitentries.h`. It holds widget declarations only.
