# Checklist auto-filter: the row-relevance classifier

A Dafny model of the classifier inside `Schematic()` of the Checklist
Auto-Filter. The classifier reads the SCHEMATIC sheet of a design checklist
and decides, row by row, whether a point applies to the selected customer
("project type") and tester. It writes the decision into the "D1" column as
`""` (applies), `"NA"` (does not apply) or `"Checked"` (ticked by the user).

The pipeline, one module per stage:

- `Sheet`: cells (`Missing` or `Value`), rows (`S.No`, `Description`), and
  Python's `str()` of a cell ("nan" for an empty one).
- `Text`: `str.strip()`, ASCII `str.lower()`, and the `\w` and `\d` classes.
- `Serial`: `get_base_serial`, the leading run of digits of a serial, or the
  whole serial when it does not start with a digit.
- `Tags`: `extract_customers` and `extract_testers`. A vocabulary term is kept
  when it occurs as a whole word and no suppression pattern matches. The
  patterns are "for reference", "for e.g." (its dots match any character
  except a newline) and
  "for example", each followed on the same line by a word-start occurrence of
  the term. The tester list spells the last pattern "For example". The text is
  lower-cased and the search is case-sensitive, so that pattern never matches.
- `Sections`: the scan that labels every row with the nearest heading at or
  above it. A heading is a row whose stripped serial is empty or reads "nan".
- `Relevance`: builds the set of relevant `(section, base)` keys from the
  main points, then marks each row `""` or `"NA"` by its own key.
- `Confirm`: offers checkboxes for rows marked `""` and applies the ticked
  ones.
- `Options`: the lists offered in the two select boxes.
- `Schematic`: the whole run, including the required-column check.

Inputs that come from the UI are parameters. These are the selected project,
the selected tester and the set of ticked row positions. Row positions are
the sheet's default index.

Behaviours the classifier does not have, and the model therefore does not
have either:

- There is no feature-flag (relay) exclusion, no section-heading gate and no
  "QA only" rule.
- There is no "undecided" state. Checkboxes are offered for rows already
  marked `""`. An unticked row stays `""`; it does not become `"NA"`.
- Ticking a main point does not confirm its sub-points.
- The base of a sub-point is its leading digit run, not the nearest main point
  above it. A serial reading "nan" (any case) counts as a heading, as does an
  empty one.

Two behaviours of the code are worth knowing. Both are proved.

- The resolver registers the base of the stripped serial. The marking step
  looks up the base of the serial as read. So a main point whose serial has
  surrounding whitespace, such as " 12", can be marked `"NA"` even when both
  selections are "All" (`Relevance.LeadingSpaceMainPointMarkedNA`).
- The checkbox filter treats a serial holding only blanks as a point. The
  section scan treats it as a heading. Such a row is offered a checkbox
  (`Schematic.BlankSerialHeadingOffered`).

## Model

| member | source | states |
|---|---|---|
| `Serial.LeadingDigits` | Schematic.py:17-19 | the result is the longest prefix of the serial made of digits |
| `Serial.BaseSerial` | Schematic.py:17-19 | a serial starting with a digit has as base its maximal leading digit run; any other serial is its own base |
| `Serial.OwnBaseIff` | Schematic.py:75-78 | a serial is its own base (a main point) iff it is empty, does not start with a digit, or is all digits |
| `Serial.BaseOfSubSerial` | Schematic.py:17-19 | a digit run followed by a non-digit ("12.1", "12a") has that run as its base |
| `Serial.SerialExamples` | Schematic.py:17-19 | "12" is its own base, "12.1" has base "12", "nan" is its own base |
| `Tags.Suppresses` | Schematic.py:24-27 | `re.search(phrase + r'.*?\b' + term)` succeeds: the phrase occurs, then a stretch without a newline, then the term starting at a word boundary |
| `Tags.WholeWord` | Schematic.py:29 | `re.search(r'\b' + term + r'\b')` succeeds: the term occurs with a word boundary on both sides |
| `Tags.TagsOf` | Schematic.py:25-31 | the vocabulary entries, in vocabulary order, that no phrase suppresses and that occur as a whole word in the lower-cased text |
| `Tags.CustomersOf` | Schematic.py:21-31 | `extract_customers` as a function: the tags of the lower-cased description over the customer vocabulary and the customer phrases |
| `Tags.TestersOf` | Schematic.py:33-46 | `extract_testers` as a function: the tags of the lower-cased description over the tester vocabulary and the tester phrases, "For example" capitalised |
| `Tags.ExtractTags` | Schematic.py:21-31 | the loop over the vocabulary returns exactly the tags of the lower-cased description |
| `Tags.ExtractCustomers` | Schematic.py:21-31 | `extract_customers` returns the customer tags of the description |
| `Tags.ExtractTesters` | Schematic.py:33-46 | `extract_testers` returns the tester tags of the description |
| `Tags.TagsMembership` | Schematic.py:25-30 | a vocabulary entry is returned iff no suppression pattern matches it and it occurs as a whole word |
| `Tags.TagsInVocabularyOrder` | Schematic.py:25-30 | the tags are a subsequence of the vocabulary, in vocabulary order |
| `Tags.TagsDistinct` | Schematic.py:25-30 | with a repeat-free vocabulary, each tag is returned at most once |
| `Tags.CustomersSpec` | Schematic.py:21-31 | customer tags are distinct, in vocabulary order, and exactly the unsuppressed whole-word occurrences, case-insensitively |
| `Tags.TestersSpec` | Schematic.py:33-46 | the same for tester tags |
| `Tags.SuppressedCustomerDropped` | Schematic.py:24-28 | a suppression phrase earlier on the same line than a word-start occurrence of a customer name drops the name, even if it also occurs elsewhere |
| `Tags.CapitalisedPhraseNeverMatches` | Schematic.py:34-38 | the "For example" pattern never matches a lower-cased description |
| `Tags.TesterSuppressionIgnoresForExample` | Schematic.py:36-43 | a tester name is suppressed iff "for reference" or "for e.g." suppresses it |
| `Tags.ForExampleIntelNotTagged` | Schematic.py:24-28 | "For example Intel parts may need X" is not tagged Intel |
| `Sections.IsHeadingRow` | Schematic.py:55-57 | a row is a heading when its stripped serial is empty or lower-cases to "nan" |
| `Sections.HeadingText` | Schematic.py:56 | the label a heading row opens: its stripped description, or "" when the description cell is empty |
| `Sections.CurrentHeading` | Schematic.py:52-59 | `current_heading` after the first n rows: the text of the last heading among them, or "" if none |
| `Sections.SectionLabels` | Schematic.py:52-61 | the section column has exactly one label per row |
| `Sections.SectionHeadings` | Schematic.py:52-61 | the scan produces the section column |
| `Sections.HeadingLabelsItself` | Schematic.py:55-59 | a heading row is labelled with its own stripped description |
| `Sections.LabelIsNearestHeading` | Schematic.py:52-61 | any other row is labelled with the text of the nearest heading above it |
| `Sections.LabelBeforeAnyHeading` | Schematic.py:52-59 | rows above the first heading are labelled "" |
| `Sections.LabelsAreStripped` | Schematic.py:56-59 | every section label is "" or has no whitespace at either end |
| `Sections.MissingSerialIsHeading` | Schematic.py:55-57 | an empty serial cell, and one reading "NaN", make a heading row |
| `Relevance.Annotate` | Schematic.py:48-61 | the derived columns have one entry per row |
| `Relevance.AnnotateRows` | Schematic.py:48-61 | the column assignments produce exactly the derived columns of every row: its base serial, its customer and tester tags and its section |
| `Relevance.IsMainPoint` | Schematic.py:75-78 | a row is a main point when its stripped serial equals its own base |
| `Relevance.Selects` | Schematic.py:83-89 | the project or the tester matches (named in the tags, or "All"), or the row names no project and no tester |
| `Relevance.Registers` | Schematic.py:82-90 | a main point that the selections match adds its key to `relevant_main_bases` |
| `Relevance.ResolverKey` | Schematic.py:75-77 | the key a main point adds: its section and the base of its stripped serial |
| `Relevance.RelevantKeys` | Schematic.py:73-90 | `relevant_main_bases` after visiting the rows in order: the resolver keys of the rows that register |
| `Relevance.ResolveRelevant` | Schematic.py:73-90 | the loop yields exactly the keys of the main points that are selected |
| `Relevance.RelevantKeysMembership` | Schematic.py:82-90 | a key is in `relevant_main_bases` iff some main point that matches the selections registered it |
| `Relevance.MarkKey` | Schematic.py:93-95 | the key a row is looked up by: its section and its `Base_SNo`, the base of the serial as read, unstripped |
| `Relevance.MarkRelevance` | Schematic.py:92-98 | `mark_relevance`: "" for a heading row, otherwise "" if the row's (section, `Base_SNo`) key is relevant and "NA" if not |
| `Relevance.MarkColumn` | Schematic.py:92-100 | the mark column has one mark per row |
| `Relevance.MarkMeaning` | Schematic.py:92-100 | marks are "" or "NA"; heading rows get ""; any other row gets "" iff a selected main point registered its (section, base) key |
| `Relevance.SharedKeySharedMark` | Schematic.py:92-98 | non-heading rows with the same (section, base) key get the same mark |
| `Relevance.WildcardSelectsEveryMainPoint` | Schematic.py:82-90 | with "All" for the project or the tester, every main point registers its key |
| `Relevance.GenericMainPointSelected` | Schematic.py:87-90 | a main point with no customer and no tester tag registers its key whatever is selected |
| `Relevance.KeysAgree` | Schematic.py:48-48 | for a serial without surrounding whitespace, the key registered and the key looked up coincide |
| `Relevance.WildcardMarksMainPointBlank` | Schematic.py:74-98 | with "All" selected, such a main point is marked "" |
| `Relevance.LeadingSpaceMainPointMarkedNA` | Schematic.py:74-98 | the main point " 12" is marked "NA" even with both selections "All" |
| `Confirm.Offered` | Schematic.py:106-116 | a row gets a checkbox when it is marked "", its serial cell is present and does not read "nan", and its stripped description is not empty |
| `Confirm.CheckboxStates` | Schematic.py:106-117 | `checkbox_states`: one entry per offered row, holding whether that row was ticked |
| `Confirm.OfferCheckboxes` | Schematic.py:106-117 | the loop over the rows builds exactly those entries |
| `Confirm.MergeCheckboxes` | Schematic.py:106-123 | offering the checkboxes and writing "Checked" into the D1 array for the ticked ones yields the merged column |
| `Confirm.Merged` | Schematic.py:121-123 | the merged column has one mark per row |
| `Confirm.ApplyCheckboxes` | Schematic.py:121-123 | each ticked entry sets its own row to "Checked"; every other row keeps its mark |
| `Confirm.ApplyingStatesIsMerge` | Schematic.py:106-123 | applying the offered checkboxes gives the merged column |
| `Confirm.MergeOnlyConfirmsBlankRows` | Schematic.py:106-123 | a row changes only if it was "", offered and ticked, and then becomes "Checked"; "NA" and unticked rows keep their mark |
| `Confirm.MergeIsLocal` | Schematic.py:121-123 | a row's final mark depends on its own tick only |
| `Confirm.MergeIdempotent` | Schematic.py:106-123 | merging the same ticks twice gives the same column as merging once |
| `Confirm.MergeTriState` | Schematic.py:98-123 | from "" and "NA", every row ends as "", "NA" or "Checked" |
| `Options.ProjectOptions` | Schematic.py:63-65 | the project choices are strictly sorted and are exactly "All" plus every customer tag in the sheet |
| `Options.TesterOptions` | Schematic.py:67-70 | the tester choices are the tester tags in the sheet, strictly sorted, followed by "All" |
| `Options.UniversesSorted` | Schematic.py:63-69 | the vocabularies, with "All" among the customers, listed in Python's string order |
| `Schematic.FinalColumn` | Schematic.py:48-123 | the final D1 column has one mark per row |
| `Schematic.Classify` | Schematic.py:11-123 | fails exactly when "S.No", "Description" or "D1" is missing (the column check of lines 11-12); otherwise the result is the final column, one mark per row, each "", "NA" or "Checked" |
| `Schematic.SharedKeySharedFinalMark` | Schematic.py:92-123 | unticked non-heading rows sharing a (section, base) key end with the same mark |
| `Schematic.UntickedRowKeepsMark` | Schematic.py:121-123 | an unticked row keeps the resolver's mark, so ticking a main point does not confirm its sub-points |
| `Schematic.NotApplicableIsFinal` | Schematic.py:98-123 | a row marked "NA" stays "NA" whatever is ticked |
| `Schematic.BlankSerialHeadingOffered` | Schematic.py:106-108 | a row whose serial holds only a blank is a heading for the scan yet is offered a checkbox |

## Left out

- The Streamlit interface: file upload, select boxes, expanders, checkbox
  widgets, messages, the table view and the download button. The selections
  and the ticked rows are parameters.
- Reading the workbook with pandas and writing it back with openpyxl. The
  workbook's columns are a set of names and its rows a sequence of cells.
- pandas type coercion. Serials and descriptions are text, so a numeric serial
  read as the float 12.0 (text "12.0") is not modelled.
- The incoming contents of "D1": the classifier overwrites that column before
  reading it, so only its presence is modelled.
- The `Is_Relevant` column and the dropping of helper columns before export.
  Neither changes "D1".
- The order in which checkboxes are shown. They are grouped by section in the
  UI, but each affects only its own row. `Confirm.ApplyCheckboxes` visits the
  ticked entries in row order rather than in map order.
- Case folding and character classes beyond ASCII. `Text.Lower` folds only
  A-Z. `\w` and `\d` are ASCII. `IGNORECASE` on already lower-cased text is
  taken as an exact match. The whitespace set of `str.strip()` is modelled in
  full.
- The general Python regular-expression engine. Only the patterns the
  classifier uses are modelled, as predicates over positions.
- App.py, which only sets up the page and calls `Schematic()`.
