# Go Botany: importer rules, filter collection and page helpers

This project models the decision logic of the Go Botany plant identification
site, in Dafny:

- **The data importer** (`gobotany/core/importer.py`):
  - the per-state distribution and conservation status strings of a taxon;
  - the roll-up of variety and subspecies status onto the species row of
    the distribution table, using `status_precedence`;
  - the scientific-name and character-name helpers;
  - the row logic of the taxa, taxon character values, characters,
    character values and taxon image imports;
  - the reconciliation of a partner site's species list;
  - the glossary help pages.
- **The filter collection of the identification front end**
  (`gobotany/static/gobotany/filters.js`): a `FilterManager`'s ordered
  list of filters, the selected values, the counter of default filters
  still loading, the query and special-filter pass of `run_filtered_query`,
  and the running range of a `NumericRangeFilter`.
- **The species section of the results page**
  (`gobotany/static/gobotany/sk/SpeciesSectionHelper.js`): grouping the
  results by genus, the default image of a species, and the rows, slot
  classes and genus colours of the result grid.
- **The search suggestions of the Simple Key pages**
  (`gobotany/search/models.py`).
- **The dichotomous key's string helpers** (`gobotany/dkey/models.py`) and
  the figure number of an archive member (`gobotany/dkey/import_figures.py`).

The importer fills staging tables (the `bulkup` library). Each table is
modelled as a map from the key fields a row was requested with to the
fields set on the row:

- `get` creates the row when it is missing (`Staging.Touched`);
- `get(...).set(...)` overwrites the given fields and keeps the others
  (`Staging.Staged`).

A `Staging.Table` class holds such a map for the operations that update
a table in place.

The code's loops are `method`s, each proved against a function that
defines the same result from the end of its input. The properties are
lemmas about those functions. Python and JavaScript failures are modelled
as values:

- a `KeyError`, `IndexError` or `ValueError` is an `Err` or `None`
  result;
- the point where an import would raise is the point where the model
  returns the error.

The modules:

- `wrappers.dfy`: Option and Result.
- `text.dfy`: the string built-ins the code uses, over ASCII
  (`str.replace`, `split`, `strip`, `find`, `capitalize`, `int()`).
- `staging.dfy`: the staging tables.
- `status.dfy`, `names.dfy`, `taxa.dfy`, `characters.dfy`, `images.dfy`,
  `partners.dfy`, `glossary.dfy`: the importer.
- `filters.dfy`: `filters.js`.
- `species_section.dfy`: `SpeciesSectionHelper.js`.
- `search.dfy`, `dkey.dfy`, `figures.dfy`: the search and dichotomous key
  helpers.

## Model

| member | source | states |
|---|---|---|
| Staging.Touched | gobotany/core/importer.py:583-596 | `get` adds exactly its key, creates it with no fields when missing, and changes no existing row |
| Staging.Staged | gobotany/core/importer.py:933-945 | `get().set()` overwrites the given fields, keeps the row's other fields, adds only its key, and changes no other row |
| Staging.Table.Get | gobotany/core/importer.py:583-586 | The table's rows become those of `get` |
| Staging.Table.GetSet | gobotany/core/importer.py:933-945 | The table's rows become those of `get().set()` |
| Status.Qualifier | gobotany/core/importer.py:285-294 | A conservation code adds at most one qualifier, which is one of the five qualifier words; codes "X" and "" add none |
| Status.GetStateStatus | gobotany/core/importer.py:276-316 | The loop over the distribution list returns the status tokens of the state joined with ", " |
| Status.PresentIffListed | gobotany/core/importer.py:281-308 | "present" is reported exactly when the state is listed, unless code X without the invasive flag leaves "extirpated" alone |
| Status.AbsentIffUnlisted | gobotany/core/importer.py:279-308 | "absent" is reported exactly when the state is not listed and the code is not X |
| Status.InvasiveIffListed | gobotany/core/importer.py:281-297 | "invasive" is reported exactly when the state is listed and the plant is invasive there |
| Status.QualifierFollowsPresent | gobotany/core/importer.py:285-294 | A qualifier appears at most once, only at position 1, right after "present" |
| Status.ListedQualifier | gobotany/core/importer.py:285-294 | A listed plant reports exactly its code's qualifier: E endangered, T threatened, SC or SC* special concern, H historic, C, WL, W or Ind rare |
| Status.ExtirpatedAlone | gobotany/core/importer.py:299-308 | "extirpated" is reported exactly for code X. Without an invasive listed plant, the result is "extirpated" alone, or "extirpated, prohibited" |
| Status.ProhibitedLast | gobotany/core/importer.py:310-314 | The status is never empty. "prohibited" is reported exactly for prohibited plants, present or absent, and it comes last |
| Status.ParseStatesOfJoin | gobotany/core/importer.py:323-338 | A "\|"-separated list of state codes without spaces is read back as the same list |
| Status.GetAllStatesStatus | gobotany/core/importer.py:318-348 | Fails with KeyError exactly when a state's conservation status column is missing. Otherwise every state maps to its joined status |
| Status.AllStatesStatus | gobotany/core/importer.py:318-348 | Maps exactly the six New England states |
| Status.StatusesOf | gobotany/core/importer.py:340-346 | The loop over the states fails exactly when a state lacks its column. Otherwise it maps each state to its status |
| Status.PrecedenceOrder | gobotany/core/importer.py:97-112 | The precedences run from 0 to 13, no two statuses tie, and the missing status "" ranks 0 |
| Status.ExtractUnchangedIff | gobotany/core/importer.py:1925-1931 | A name is returned unchanged exactly when it contains neither "var." nor "ssp." |
| Status.ExtractScientificName | gobotany/core/importer.py:1925-1931 | The species name is never longer than the name it comes from |
| Status.ExtractOfVariety | gobotany/core/importer.py:1925-1929 | The species of "<species> var. <epithet>" is the species name, without surrounding whitespace |
| Status.RollUpTakesHigher | gobotany/core/importer.py:1573-1591 | The species row ends with the higher-ranking of its own status and the variety's, and every other row is unchanged |
| Status.RollUp | gobotany/core/importer.py:1574-1591 | The species row is created when missing, and no other row is added |
| Status.SubspeciesStep | gobotany/core/importer.py:1561-1591 | When one row of the roll-up succeeds, the table keeps the key of every existing row |
| Status.ApplySubspeciesStatus | gobotany/core/importer.py:1561-1591 | The in-place roll-up on a table fails exactly when the specification of the step fails; otherwise the table holds the step's rows |
| Status.SubspeciesNoOp | gobotany/core/importer.py:1567-1569 | A name without "var." or "ssp." leaves the table as it is |
| Status.SubspeciesTakesHigher | gobotany/core/importer.py:1561-1591 | For a variety or subspecies row, the species row for the same state and county takes the higher-ranking status (a missing status counts as "" = 0). Every other row is unchanged |
| Status.SubspeciesKeyError | gobotany/core/importer.py:1580 | The roll-up fails exactly when the variety's status or the species row's status is missing from the precedence table |
| Status.ChosenColumn | gobotany/core/importer.py:1532-1544 | The status column is "edited data" exactly when the first row has that column; otherwise it is "status" |
| Status.ImportRow | gobotany/core/importer.py:1546-1557 | A row that imports has the key columns and the status column. It keeps every existing row and stages the row for its key |
| Status.ImportDistributions | gobotany/core/importer.py:1528-1559 | The loop over the rows succeeds exactly when the whole import succeeds, and the table then holds its rows |
| Status.ErrorPersists | gobotany/core/importer.py:1546-1557 | Once a prefix of the rows fails, the whole import fails |
| Status.LastRowStatus | gobotany/core/importer.py:1546-1557 | After a successful import, the last row's own key holds the status that row carries |
| Status.ImportRowOwnStatus | gobotany/core/importer.py:1546-1557 | A row's own key holds its status after the row, roll-up included |
| Status.SubspeciesKeepsOwnRow | gobotany/core/importer.py:1573-1591 | The roll-up never changes the variety's own row |
| Status.ImportKeepsRows | gobotany/core/importer.py:1546-1557 | The import only adds rows |
| Status.ImportStagesEveryRow | gobotany/core/importer.py:1546-1557 | After a successful import, every row had its key and status columns, and its key is in the table |
| Names.Respace | gobotany/core/importer.py:358-363 | Each unexpected character becomes a space and nothing else changes; the length is kept |
| Names.CutEpithet | gobotany/core/importer.py:385-387 | The epithet is cut at its first character outside [a-z-]: the result is the longest such prefix |
| Names.StripTaxonomicAuthority | gobotany/core/importer.py:351-395 | The scan with `continue` and `break` gives the name that the specification function builds |
| Names.StripAuthority | gobotany/core/importer.py:351-395 | The name is "" exactly when it is a single word once the unexpected characters are spaces |
| Names.Infraspecific | gobotany/core/importer.py:371-394 | Adds nothing, or exactly two words of which the first is a connector |
| Names.InfraspecificFound | gobotany/core/importer.py:371-387 | When some connector is followed by a word that is not a connector, the first such connector and its cut epithet are added, and nothing else |
| Names.InfraspecificSkip | gobotany/core/importer.py:371-376 | A connector followed by a connector, or a word that is no connector, is passed over |
| Names.InfraspecificNone | gobotany/core/importer.py:371-383 | Without such a connector nothing is added; this covers a connector at the end |
| Names.InfraspecificIff | gobotany/core/importer.py:371-388 | Something is added exactly when a connector is followed by a word that is not a connector |
| Names.InfraspecificShape | gobotany/core/importer.py:371-388 | The added part is empty or a connector followed by an epithet of lower-case letters and hyphens |
| Names.SingleWordEmpty | gobotany/core/importer.py:365-367 | A single-word name gives "" |
| Names.StripAuthorityStart | gobotany/core/importer.py:365-369 | The result starts with word 0 and word 1, with the commas around word 1 stripped |
| Names.MinMaxShortName | gobotany/core/importer.py:160-165 | "x_min_ca" and "x_max_ca" have the same short name, "x_ca" |
| Names.CharacterShortName | gobotany/core/importer.py:160-165 | The short name is never longer than the raw name, and a name without "_min" or "_max" is its own short name |
| Names.MaxHasNoMin | gobotany/core/importer.py:163-164 | Deleting "_min" first cannot make a new "_min" out of a "_max" name |
| Names.CreateCharacterName | gobotany/core/importer.py:860-869 | The last three characters are dropped exactly when the name ends in "_" and two lower-case letters, or in those before a final newline (where `$` also matches). No "_" is left |
| Names.CharacterNameBeforeNewline | gobotany/core/importer.py:865-868 | "base_xy" followed by a newline loses "xy" and the newline but keeps its "_", which becomes a space: "leaf_ca" and a newline give "Leaf " |
| Names.CharacterNameOfSuffixed | gobotany/core/importer.py:860-869 | "base_xy" is named after base, with "_" turned into spaces and the first letter capitalised |
| Names.FriendlyName | gobotany/core/importer.py:872-879 | A given friendly name is kept. Otherwise one is made from the short name, with no "_" and no longer than it |
| Names.HasUnexpectedDelimiter | gobotany/core/importer.py:1299-1309 | True exactly when the delimiter occurs in the text |
| Names.EmptyDelimiterFound | gobotany/core/importer.py:1299-1305 | An empty delimiter is found in any text |
| Taxa.MissingColumns | gobotany/core/importer.py:417-423 | The columns logged as missing are exactly the required columns absent from the header |
| Taxa.DelimiterFound | gobotany/core/importer.py:431-436 | The scan that stops at the first row with the delimiter gives the result of the row-by-row check |
| Taxa.DelimiterCheckIff | gobotany/core/importer.py:431-436 | When every row has the column, the delimiter counts as found exactly when some row has it after index 0 |
| Taxa.DelimiterAtStartIgnored | gobotany/core/importer.py:434 | A value that starts with the delimiter does not count, because find returns 0 |
| Taxa.NativeFlags | gobotany/core/importer.py:528-540 | An empty value gives None for both flags |
| Taxa.NativeFlagsIgnoreCase | gobotany/core/importer.py:528 | The flags do not depend on the case of the value |
| Taxa.NativeAndIntroduced | gobotany/core/importer.py:528-540 | A value holding both "yes" and "no" sets both flags |
| Taxa.Wetland | gobotany/core/importer.py:515-520 | A code is the stripped first "\|"-separated field, and its text is the indicator table's entry for it |
| Taxa.WetlandFirstCode | gobotany/core/importer.py:517-520 | Of several codes the first is taken, with its text, or KeyError when the table lacks it |
| Taxa.PileSlugs | gobotany/core/importer.py:580-582 | One slug per piece of the pile column split on ",", ";" and "\|", each piece stripped before slugify |
| Taxa.PileNamesOfJoin | gobotany/core/importer.py:580-582 | A pile list written with any one separator gives the slugs of its names, in order |
| Taxa.PileIds | gobotany/core/importer.py:583-586 | KeyError exactly when a slug is not a known pile. Otherwise the ids follow the slugs |
| Taxa.CommonNames | gobotany/core/importer.py:590-596 | The common names are the stripped columns that are not empty |
| Taxa.StrippedNames | gobotany/core/importer.py:601 | The ";"-separated names of the comment, each stripped |
| Taxa.Synonyms | gobotany/core/importer.py:600-616 | A pair is kept exactly when its scientific name, the name without authority, is neither empty nor starts with a space |
| Taxa.KeptSynonyms | gobotany/core/importer.py:602-616 | The pairs kept from a list of names, by the same rule |
| Taxa.StatusFields | gobotany/core/importer.py:562-567 | Each state's conservation status column holds the status of that state |
| Taxa.TouchAll | gobotany/core/importer.py:583-596 | Touching a list of keys adds exactly those keys and changes no existing row |
| Taxa.StageSynonyms | gobotany/core/importer.py:611-616 | Staging the synonyms adds exactly their keys |
| Taxa.TaxaStaging.constructor | gobotany/core/importer.py:405-411 | The seven tables start empty |
| Taxa.TaxaStaging.ImportTaxonRow | gobotany/core/importer.py:454-616 | One row fails with the error its first failing lookup raises. Otherwise the tables become those the specification of the row gives |
| Taxa.TaxaStaging.StageTaxonRows | gobotany/core/importer.py:474-576 | Placeholder family and genus rows appear only for slugs the database lacks. The taxon row gets its fields and state statuses, and the Go Botany partner row is staged |
| Taxa.TaxaStaging.StagePiles | gobotany/core/importer.py:580-586 | The taxon joins each of its piles; no other table changes |
| Taxa.TaxaStaging.StageCommonNames | gobotany/core/importer.py:590-596 | Each common name is recorded for the taxon; no other table changes |
| Taxa.TaxaStaging.StageSynonymList | gobotany/core/importer.py:600-616 | Each kept synonym is recorded with its full name; no other table changes |
| Taxa.PileKeys | gobotany/core/importer.py:583-586 | One pile membership key per pile id, in order |
| Taxa.CommonNameKeys | gobotany/core/importer.py:593-596 | One common name key per name, in order |
| Taxa.SynonymStaged | gobotany/core/importer.py:601-616 | Every listed name whose scientific name passes the two tests is staged as a synonym of the taxon |
| Taxa.SynonymListed | gobotany/core/importer.py:601-616 | Such a name's pair is among the synonyms |
| Taxa.PairStaged | gobotany/core/importer.py:611-616 | Staging a list of synonyms stages each of them |
| Characters.LastThree | gobotany/core/importer.py:779 | `name[-3:]` is the last three characters, or all of a shorter name |
| Characters.Classify | gobotany/core/importer.py:776-811 | A blank value or an unknown pile suffix is skipped. A bound is a parsed value of a known character, in slot 0 exactly for a "_min" column. A listed value is never from a length column |
| Characters.ClassifyCell | gobotany/core/importer.py:776-805 | The tests of the loop body, made in the source's order, give the cell's role |
| Characters.StrippedValues | gobotany/core/importer.py:808-809 | Each "\|"-separated value is stripped |
| Characters.ListedValues | gobotany/core/importer.py:808-818 | A text cell changes neither the character values nor the bad-float and unknown-character sets |
| Characters.ListedValuesEffect | gobotany/core/importer.py:808-818 | Each value the database knows adds a taxon value. Each other value is recorded as unknown, and nothing else is |
| Characters.StageListedValues | gobotany/core/importer.py:808-818 | The loop over the values of a text cell gives the specification's state |
| Characters.Classified | gobotany/core/importer.py:776 | Each cell of the row is classified, and every bound names a known character |
| Characters.CellStep | gobotany/core/importer.py:776-818 | One cell keeps every short name in length_pairs a known character, and leaves the character values alone |
| Characters.CellsStep | gobotany/core/importer.py:776-818 | The same over all the cells of a row |
| Characters.Ranges | gobotany/core/importer.py:822-836 | The range pass records no bad float, unknown character or unknown value |
| Characters.RangesKeys | gobotany/core/importer.py:822-836 | The range pass adds exactly one character value key and one taxon value key per short name in length_pairs |
| Characters.RangesCvKeys | gobotany/core/importer.py:826-832 | The character value keys it adds |
| Characters.RangesTcvKeys | gobotany/core/importer.py:833-836 | The taxon value keys it adds |
| Characters.RangeTextEmpty | gobotany/core/importer.py:826-832 | Every range character value is staged with an empty friendly text |
| Characters.ImportTaxonCharacterValues | gobotany/core/importer.py:757-836 | The loop over the rows of the files gives the specification's tables and problem sets |
| Characters.ImportTaxonValuesRow | gobotany/core/importer.py:764-836 | A row of an unknown taxon changes nothing. Otherwise its cells are imported, then a range per short name |
| Characters.ImportCells | gobotany/core/importer.py:776-818 | The loop over a row's cells gives the specification's row state |
| Characters.CellsStepNext | gobotany/core/importer.py:776-818 | The state after one more cell is one step from the state before it |
| Characters.StageRanges | gobotany/core/importer.py:822-836 | The loop over length_pairs gives the specification's tables |
| Characters.ImportCell | gobotany/core/importer.py:776-818 | The body of the cell loop gives one step of the specification |
| Characters.IgnoredCell | gobotany/core/importer.py:777-800 | A blank value, "n/a" in a length column and a value float() rejects leave length_pairs unchanged |
| Characters.CellPair | gobotany/core/importer.py:802-803 | A "_min" cell fills slot 0 of its short name and a "_max" cell slot 1. The other slot and every other short name are unchanged |
| Characters.LastBoundWins | gobotany/core/importer.py:802-803 | A slot ends with the value of the last cell that fills it |
| Characters.UnfilledSlot | gobotany/core/importer.py:773 | A slot no cell fills stays None |
| Characters.PairedIffBound | gobotany/core/importer.py:773-803 | A short name is in length_pairs exactly when some cell filled one of its slots |
| Characters.OneRangePerShortName | gobotany/core/importer.py:773-836 | A known taxon's row stages exactly one range character value per short name whose bounds it saw, even when one bound stays None |
| Characters.EaseOfObservability | gobotany/core/importer.py:920-925 | A value that holds no digit falls back to 10 |
| Characters.EaseOfObservabilityOfIntString | gobotany/core/importer.py:920-922 | A written integer is read back |
| Characters.EaseOfObservabilitySpacedSign | gobotany/core/importer.py:920-922 | Whitespace between the sign and the digits is allowed: "- 3" reads as -3 and "+ 3" as 3 |
| Characters.GroupsStaged | gobotany/core/importer.py:895-918 | The group table gains exactly the groups of the rows that are not family rows |
| Characters.CharactersStagedKeys | gobotany/core/importer.py:895-945 | The character table gains exactly the short names of the rows that are not family rows |
| Characters.ImportCharacters | gobotany/core/importer.py:881-945 | The loop over the rows, which skips family rows, gives the specification's two tables |
| Characters.LastCharacterRowWins | gobotany/core/importer.py:933-945 | A short name's row carries the fields of the last row with that short name |
| Characters.LaterRowsKeep | gobotany/core/importer.py:933-945 | Later rows with other short names leave the row alone |
| Characters.StagedAtRow | gobotany/core/importer.py:933-935 | A row stages its own short name |
| Characters.OtherRowKeeps | gobotany/core/importer.py:897-945 | A family row, or a row of another short name, keeps a staged row |
| Characters.ValueTypeOfColumn | gobotany/core/importer.py:902-911 | A column whose name holds "_min" or "_max" gets value type LENGTH and the row's unit. Any other column gets TEXT and no unit |
| Characters.CharacterFields | gobotany/core/importer.py:906-945 | A character row gets all nine fields, and its pile is null exactly when the last three characters of its name are no pile suffix |
| Characters.CommonFields | gobotany/core/importer.py:913-944 | The fields other than type and unit are all set, with the pile null exactly for an unknown suffix |
| Characters.PileSuffixOf | gobotany/core/importer.py:1004 | `rsplit('_', 1)[1]` holds no "_" |
| Characters.PileSuffixEnds | gobotany/core/importer.py:1004 | A name with a "_" ends with "_" and its suffix |
| Characters.ValueRowKey | gobotany/core/importer.py:997-1019 | A row is staged exactly when it is not a family row, has a "_", has a known pile suffix and names a known character |
| Characters.ValuesStaged | gobotany/core/importer.py:995-1022 | The character value table gains exactly the keys of the rows that are staged |
| Characters.ImportCharacterValues | gobotany/core/importer.py:989-1024 | The loop over the rows gives the specification's table |
| Characters.CleanUpHtmlWithoutSpaces | gobotany/core/importer.py:977-987 | Text without "&nbsp;" reaches the tag remover unchanged |
| Characters.CleanUpHtml | gobotany/core/importer.py:977-987 | The font-tag substitution runs last, on a text no longer than the input |
| Images.CategoryName | gobotany/core/importer.py:1151 | The category is the text before the last ","; a category without a comma is kept whole |
| Images.CategoryTypes | gobotany/core/importer.py:1145-1151 | One entry per (lower-cased pile, code) of the category rows |
| Images.CategoryTypesLast | gobotany/core/importer.py:1146-1151 | A key's image type is the category name of the last row with that key |
| Images.FileName | gobotany/core/importer.py:1171 | The file name is the text after the last "/". It is None, meaning the import raises, for a path without "/" |
| Images.CheckFilename | gobotany/core/importer.py:1175-1190 | Rejects a name with no ".", with more than one ".", or with any "_", in that order. Then it refuses an extension other than jpg, gif, png or tif in any case. Otherwise it returns the name and the extension |
| Images.FilenameAccepted | gobotany/core/importer.py:1175-1190 | "name.ext" with an image extension in any case is accepted as (name, ext) |
| Images.OtherExtensionRefused | gobotany/core/importer.py:1188-1190 | Any other extension is refused |
| Images.TypeField | gobotany/core/importer.py:1199-1201 | The type field is the first piece of length 2 from index 2 on, or None when there is none (the source then raises IndexError) |
| Images.TypeFieldFrom | gobotany/core/importer.py:1199-1201 | The same scan from any index |
| Images.FindTypeField | gobotany/core/importer.py:1199-1201 | The while loop gives the same index |
| Images.TypeAfterInfraspecificName | gobotany/core/importer.py:1196-1201 | A subspecies or variety piece before the type is passed over |
| Images.FirstImageType | gobotany/core/importer.py:1224-1230 | None exactly when no pile of the taxon has the type. Otherwise the first such pile's type is returned |
| Images.FindImageType | gobotany/core/importer.py:1224-1230 | The for/else loop over the piles gives the same type |
| Images.TaxonOf | gobotany/core/importer.py:1206-1217 | The capitalised binomial is looked up first, then the binomial with "-" and piece 2 appended |
| Images.ExamineName | gobotany/core/importer.py:1192-1234 | An image gets a known image type. A skipped name names an unknown taxon or an unknown image type |
| Images.ExamineTaxon | gobotany/core/importer.py:1203-1234 | The same, once the type field is known |
| Images.Examine | gobotany/core/importer.py:1170-1234 | A path without "/" makes the import raise |
| Images.RejectedFileSkipped | gobotany/core/importer.py:1175-1190 | A rejected file is skipped with its reason |
| Images.RankFor | gobotany/core/importer.py:1240-1245 | Rank is 1 exactly when the (taxon, image type) pair was not seen before; otherwise it is 2 |
| Images.StageImage | gobotany/core/importer.py:1240-1260 | Staging an image adds its pair to already_seen and counts it |
| Images.ImageStep | gobotany/core/importer.py:1168-1260 | A path fails exactly when the import raises on it. A skipped path changes nothing |
| Images.Outcomes | gobotany/core/importer.py:1168 | What the import makes of each path, in order |
| Images.SeenPairsLast | gobotany/core/importer.py:1240-1245 | The pairs of the paths are those of all but the last, plus the last path's pair when it is an image |
| Images.PairsOfLast | gobotany/core/importer.py:1240-1245 | The same over the outcomes |
| Images.AlreadySeenIsStagedPairs | gobotany/core/importer.py:1166-1245 | already_seen holds exactly the pairs of the images staged so far |
| Images.FirstImageRankOne | gobotany/core/importer.py:1237-1258 | An image is staged with rank 1 exactly when no earlier path was an image of the same taxon and type |
| Images.StepsKeepRanksStaged | gobotany/core/importer.py:1247-1258 | Every staged content image has a text alt and an integer rank |
| Images.AltWithRank | gobotany/core/importer.py:1264-1265 | The final pass changes no key and no field name |
| Images.ImageAlt | gobotany/core/importer.py:1253-1265 | An image's final alt text is "name: type rank" |
| Images.ImageStepsStayFailed | gobotany/core/importer.py:1168-1260 | Once a path makes the import raise, the import fails |
| Images.TaxonImages.constructor | gobotany/core/importer.py:1165-1166 | The count is 0, already_seen is empty, and the tables are empty |
| Images.TaxonImages.ImportImage | gobotany/core/importer.py:1168-1260 | The loop body for one path fails exactly when the specification fails. Otherwise the state becomes the step's state |
| Images.TaxonImages.Stage | gobotany/core/importer.py:1234-1260 | Stages the image type and the content image with its rank |
| Images.TaxonImages.ExamineNameSteps | gobotany/core/importer.py:1192-1234 | The statements that take the name apart give the specification's outcome |
| Images.TaxonImages.ExamineTaxonSteps | gobotany/core/importer.py:1203-1234 | The same from the type field on |
| Images.TaxonImages.ImportImages | gobotany/core/importer.py:1165-1265 | The whole import fails exactly when some path makes it raise. Otherwise every path is imported and the ranks are appended |
| Images.TaxonImages.AppendRanks | gobotany/core/importer.py:1264-1265 | The loop appends each row's rank to its alt text |
| Partners.FirstTwoWords | gobotany/core/importer.py:1854 | The first two words of the cell joined by a space, or the only word, or "" |
| Partners.Theirs | gobotany/core/importer.py:1853-1854 | The set of the first two words of each cell |
| Partners.ImportPartnerSpecies | gobotany/core/importer.py:1844-1877 | The cells below the title row are the partner's list. Every taxon ends with a partner row exactly when some such cell names it, and other names keep the row they had |
| Partners.Reconcile | gobotany/core/importer.py:1869-1877 | A listed name never loses its row and an unlisted name never gains one: so the partner ends with at least the names it had that are listed, and at most its own names and the listed ones |
| Partners.ReconcilePartner | gobotany/core/importer.py:1869-1877 | The loop over the species gives the specification's partner rows, removals and additions |
| Partners.ReconcileName | gobotany/core/importer.py:1869-1877 | A taxon keeps a partner row exactly when the partner lists it, and a name that is no taxon keeps its status. A name is removed exactly when it had a row and is not listed, and added exactly when it had none and is listed |
| Partners.PartnerIsKnowns | gobotany/core/importer.py:1854-1877 | When every partner row names a taxon, the partner ends with exactly `theirs & ours` |
| Partners.ReconcileSettles | gobotany/core/importer.py:1869-1877 | A second run against the same list changes nothing |
| Glossary.Letters | gobotany/core/importer.py:1703 | Each letter is lower-case. Every term that starts with a letter gives its letter, and every letter comes from such a term |
| Glossary.PageKey | gobotany/core/importer.py:1710-1711 | A page is keyed by its letter |
| Glossary.PageRowsOfLetters | gobotany/core/importer.py:1708-1715 | Each letter has its page with its title and URL, and every page is a letter's |
| Glossary.StagePages | gobotany/core/importer.py:1708-1715 | The loop over the letters stages the page table of the specification |
| Glossary.PageKeyInjective | gobotany/core/importer.py:1710-1711 | Different letters have different pages |
| Glossary.PageKeyFresh | gobotany/core/importer.py:1709-1715 | A letter not yet seen has no page yet |
| Glossary.PageRowsAdd | gobotany/core/importer.py:1709-1715 | One more letter adds its own page and nothing else |
| Glossary.LinksAsWritten | gobotany/core/importer.py:1702-1729 | As written, the import fails exactly when some term is empty or its lower-cased first character has no page. Otherwise each term is linked to its first letter's page |
| Glossary.LinkTerms | gobotany/core/importer.py:1723-1729 | The loop over the terms gives the same result |
| Glossary.NonLetterTermFails | gobotany/core/importer.py:1702-1727 | The term "2-merous" gets no page, and then linking it fails |
| Glossary.TermLinksOnPages | gobotany/core/importer.py:1703-1715 | With the intended linking, every link points to a registered page, and every term that starts with a letter is linked to its letter |
| Glossary.AgreeOnLetterTerms | gobotany/core/importer.py:1703-1729 | When every term starts with a letter, the code as written and the intended linking agree |
| Filters.BuildFilter | gobotany/static/gobotany/filters.js:204-229 | A LENGTH filter is a numeric range filter and a TEXT filter a multiple choice filter. The fields come from the JSON, the pile is the manager's, and there is no selected value and no callback |
| Filters.BuildFilters | gobotany/static/gobotany/filters.js:175-182 | One filter per default filter JSON, in order |
| Filters.SpecialFilter | gobotany/static/gobotany/filters.js:266-276 | A special filter carries its callback and has no selected value |
| Filters.FirstIndex | gobotany/static/gobotany/filters.js:242-244 | The index of the first filter with the name, or None exactly when no filter has it |
| Filters.SelectedValue | gobotany/static/gobotany/filters.js:298-315 | A returned value is never empty |
| Filters.OthersAppend | gobotany/static/gobotany/filters.js:247-256 | The filters with other names, and the count of the name, distribute over concatenation |
| Filters.RemovedOnlyFirst | gobotany/static/gobotany/filters.js:247-256 | remove_filter keeps the filters with other names, in order, and removes exactly one filter with the name when there is one. Otherwise it removes nothing |
| Filters.RemovedAt | gobotany/static/gobotany/filters.js:250-251 | Taking out one filter with the name lowers its count by one and keeps the others |
| Filters.NoneCounted | gobotany/static/gobotany/filters.js:247-256 | A list without the name has none of it to remove |
| Filters.AppendedFirstIndex | gobotany/static/gobotany/filters.js:257-280 | Appending a filter never changes which filter a name finds first; the new one is found only when the name was missing |
| Filters.WithSelectedOnlyFirst | gobotany/static/gobotany/filters.js:281-297 | set_selected_value changes only the first filter with the name, and only its value. An unknown name changes nothing |
| Filters.SetThenGet | gobotany/static/gobotany/filters.js:281-315 | A value set for a known name is read back when non-empty. Every other name reads what it read before |
| Filters.SameNames | gobotany/static/gobotany/filters.js:242-244 | Lists with the same names find the same first index |
| Filters.Countdown | gobotany/static/gobotany/filters.js:189-199 | One completion flag per loaded filter |
| Filters.CountdownFiresOnce | gobotany/static/gobotany/filters.js:173-199 | Starting from the number of default filters, the counter drops by one per load, and the callbacks fire exactly at the load that reaches 0 |
| Filters.RangeBounds | gobotany/static/gobotany/filters.js:74-83 | After any sequence of values, min is the least non-null lower end and max the greatest non-null upper end. Each is None when there is none |
| Filters.AbsorbAllAppend | gobotany/static/gobotany/filters.js:57-83 | Values are absorbed one after the other, and a null value is ignored |
| Filters.NumericRangeFilter.constructor | gobotany/static/gobotany/filters.js:50-76 | A new filter has no bounds |
| Filters.NumericRangeFilter.ProcessValue | gobotany/static/gobotany/filters.js:74-83 | One value updates the bounds as the specification does |
| Filters.NumericRangeFilter.ProcessValues | gobotany/static/gobotany/filters.js:56-57 | The forEach over the fetched values absorbs them in order |
| Filters.Special | gobotany/static/gobotany/filters.js:339-342 | The special filters are those with a callback |
| Filters.QueryFrom | gobotany/static/gobotany/filters.js:336-348 | Apart from the pile, every query name is that of a filter without a callback and with a non-empty value |
| Filters.Query | gobotany/static/gobotany/filters.js:336-348 | The query always names the pile, and its value is the pile slug unless a filter named "pile" goes into the query |
| Filters.QueryLastWins | gobotany/static/gobotany/filters.js:339-347 | Each such filter is in the query with its value, the last one winning for a repeated name |
| Filters.KeptMembers | gobotany/static/gobotany/filters.js:359-376 | The special pass keeps exactly the items every callback accepts |
| Filters.Kept | gobotany/static/gobotany/filters.js:359-376 | Keeps no more items than it is given, and every kept item is accepted by every callback |
| Filters.KeptAppend | gobotany/static/gobotany/filters.js:362-375 | The special pass keeps the items' order |
| Filters.KeptAll | gobotany/static/gobotany/filters.js:359 | Without special filters every item is kept, so skipping the pass changes nothing |
| Filters.Ids | gobotany/static/gobotany/filters.js:355-357 | The ids of the results, in order |
| Filters.FilterManager.constructor | gobotany/static/gobotany/filters.js:101-106 | The pile slug is given, and there are no filters, none loading, no species count, no species ids, no character groups and no preview characters |
| Filters.FilterManager.HasFilter | gobotany/static/gobotany/filters.js:241-246 | True exactly when some filter has the short name |
| Filters.FilterManager.Find | gobotany/static/gobotany/filters.js:242-244 | The scan gives the first index |
| Filters.FilterManager.RemoveFilter | gobotany/static/gobotany/filters.js:247-256 | The list becomes the list without its first filter of that name, and the removed filter is returned. Nothing else changes |
| Filters.FilterManager.AddFilter | gobotany/static/gobotany/filters.js:257-264 | Exactly the built filter is appended; nothing else changes |
| Filters.FilterManager.AddSpecialFilter | gobotany/static/gobotany/filters.js:265-280 | Exactly the special filter is appended; nothing else changes |
| Filters.FilterManager.SetSelectedValue | gobotany/static/gobotany/filters.js:281-297 | Only the first filter with the name takes the value; nothing else changes |
| Filters.FilterManager.GetSelectedValue | gobotany/static/gobotany/filters.js:298-315 | Returns the first matching filter's value when non-empty, null otherwise |
| Filters.FilterManager.EmptyFilters | gobotany/static/gobotany/filters.js:332-334 | The list becomes empty; nothing else changes |
| Filters.PlainCount | gobotany/static/gobotany/filters.js:37-41 | Counts the default filters whose load_values reports loaded at once; it reaches their number exactly when all are such |
| Filters.FilterManager.AddDefaults | gobotany/static/gobotany/filters.js:171-199 | The defaults are appended in order. Each plain one counts the counter down at once, and the defaults-loaded hook fires exactly when all of them are plain, seeing the filters before the last default was pushed |
| Filters.FilterManager.LoadPileInfo | gobotany/static/gobotany/filters.js:164-199 | The character groups and preview characters are those of the pile info. With defaults requested, they are appended and the counter keeps the filters still loading; the defaults-loaded and info-loaded hooks fire at once exactly when every default is plain. Without them, only the info-loaded hook runs |
| Filters.DefaultsSettle | gobotany/static/gobotany/filters.js:189-199 | Once the remaining default filters finish loading, the counter is 0 and the hook fires exactly on the last of them |
| Filters.FilterManager.DefaultFilterLoaded | gobotany/static/gobotany/filters.js:189-199 | The counter drops by one, and the callbacks fire exactly when it reaches 0 |
| Filters.FilterManager.QueryParts | gobotany/static/gobotany/filters.js:336-348 | The query content and the special filters are those of the specification |
| Filters.FilterManager.OnResults | gobotany/static/gobotany/filters.js:353-381 | The count and ids are those of all the results. The data is specially filtered only when there are special filters |
| Filters.FilterManager.IdsOf | gobotany/static/gobotany/filters.js:355-357 | The loop copies the ids in order |
| Filters.FilterManager.SpecialPass | gobotany/static/gobotany/filters.js:361-376 | The loop keeps the items the specification keeps |
| Filters.FilterManager.Accepted | gobotany/static/gobotany/filters.js:364-371 | The inner loop that stops at the first refusal accepts exactly when every callback accepts |
| SpeciesSection.FlattenAppend | gobotany/static/gobotany/sk/SpeciesSectionHelper.js:97-105 | The species of one more group follow those of the groups before it |
| SpeciesSection.CloseGroup | gobotany/static/gobotany/sk/SpeciesSectionHelper.js:90-99 | Closing a uniform group of a new genus keeps the groups well formed |
| SpeciesSection.GrowGroup | gobotany/static/gobotany/sk/SpeciesSectionHelper.js:101-102 | A species of the group's genus keeps the group uniform |
| SpeciesSection.OrganizeStep | gobotany/static/gobotany/sk/SpeciesSectionHelper.js:89-103 | One step of the loop keeps its invariant; a change of genus closes the open group |
| SpeciesSection.OrganizeByGenera | gobotany/static/gobotany/sk/SpeciesSectionHelper.js:82-108 | The groups' species, concatenated, are the items in order. Every group is uniform and adjacent groups differ in genus. An empty list gives one group with genus "" and no species, and otherwise no group is empty |
| SpeciesSection.OrganizeLoop | gobotany/static/gobotany/sk/SpeciesSectionHelper.js:85-103 | The loop ends with its invariant over all the items |
| SpeciesSection.OrganizeDone | gobotany/static/gobotany/sk/SpeciesSectionHelper.js:104-105 | Pushing the last group completes the result |
| SpeciesSection.DefaultImage | gobotany/static/gobotany/sk/SpeciesSectionHelper.js:110-119 | The result is the first image with rank 1 and type "habit", or `{}` exactly when there is none |
| SpeciesSection.NumRowsIsCeiling | gobotany/static/gobotany/sk/SpeciesSectionHelper.js:136 | The rows hold every item, no row is empty, and no items make no rows |
| SpeciesSection.Color | gobotany/static/gobotany/sk/SpeciesSectionHelper.js:135-171 | The genus colour stays in 1..5 |
| SpeciesSection.ColorCountsChanges | gobotany/static/gobotany/sk/SpeciesSectionHelper.js:162-171 | The colour is the number of genus changes so far, modulo five, plus one |
| SpeciesSection.ColorChangesWithGenus | gobotany/static/gobotany/sk/SpeciesSectionHelper.js:163-170 | The colour changes from one item to the next exactly when the genus does |
| SpeciesSection.RowSlot | gobotany/static/gobotany/sk/SpeciesSectionHelper.js:147-160 | The slot that starts a row is "first". Otherwise a slot is "last" when it is the fourth or holds the final item |
| SpeciesSection.DisplayResults | gobotany/static/gobotany/sk/SpeciesSectionHelper.js:132-171 | ceil(n/4) rows, only the final one marked "last". Each row holds its items in order with their classes and genus colours |
| SpeciesSection.DisplayRow | gobotany/static/gobotany/sk/SpeciesSectionHelper.js:146-171 | The slot loop builds the row's plants and hands on the colour of its last item |
| Search.DropJunk | gobotany/search/models.py:37-40 | Keeps exactly the lower-cased pieces that are not junk |
| Search.KeepShort | gobotany/search/models.py:42-44 | Keeps exactly the suggestions shorter than 30 characters |
| Search.RemoveWords | gobotany/search/models.py:46-50 | Each suggestion has each word deleted in turn |
| Search.RemoveWord | gobotany/search/models.py:48-50 | One pass deletes the word from each suggestion and keeps their number and order |
| Search.StripEach | gobotany/search/models.py:52 | Each suggestion is stripped |
| Search.DropPrefix | gobotany/search/models.py:59-61 | Keeps exactly the suggestions for which find(prefix) is not 0 |
| Search.DropPrefixes | gobotany/search/models.py:57-61 | Keeps exactly the suggestions that start with none of the prefixes |
| Search.GetSearchSuggestions | gobotany/search/models.py:27-64 | The suggestions are exactly the normalised forms of the accepted pieces |
| Search.SuggestionsCharacterized | gobotany/search/models.py:32-64 | The same, for any rules that count None as junk |
| Search.Suggestions | gobotany/search/models.py:32-64 | No suggestion is empty |
| Search.SuggestionSound | gobotany/search/models.py:32-64 | Every suggestion comes from an accepted piece |
| Search.SuggestionComplete | gobotany/search/models.py:32-64 | Every accepted piece gives a suggestion |
| Search.PrefixesByStartsWith | gobotany/search/models.py:59-61 | find(prefix) != 0 for every prefix means that the suggestion starts with none of them |
| Search.SuggestionsWellFormed | gobotany/search/models.py:37-64 | Every suggestion is lower-case, shorter than 30, not empty, without surrounding whitespace, and starts with no omitted prefix |
| Search.AcceptedShape | gobotany/search/models.py:37-55 | What a piece becomes is lower-case and no longer than the piece |
| Search.RemoveAllShrinks | gobotany/search/models.py:46-50 | Deleting words only shortens a suggestion and keeps it lower-case |
| Search.JunkIgnored | gobotany/search/models.py:37-40 | A junk piece adds no suggestion, wherever it comes |
| Search.JunkNotSuggested | gobotany/search/models.py:37-40 | The same for one suggestion |
| Search.GroupsListPage.SearchSuggestions | gobotany/search/models.py:82-85 | The groups page draws its suggestions from its title |
| Search.SubgroupsListPage.SearchSuggestions | gobotany/search/models.py:103-107 | The subgroups page draws from the group's friendly name and friendly title |
| Search.SubgroupResultsPage.SearchSuggestions | gobotany/search/models.py:125-130 | The results page draws from the subgroup's friendly name and friendly title |
| DkeyModels.SlugToTitleShape | gobotany/dkey/models.py:24-27 | The title has the slug's length and no "-", and its first character is the slug's, capitalised, with a dash as a space |
| DkeyModels.SlugToTitle | gobotany/dkey/models.py:24-27 | slug_to_title: dashes become spaces, the text is capitalised, then " families" and " group " are title-cased. Its properties are stated by SlugToTitleShape and the two examples after it |
| DkeyModels.SlugToTitleFamilies | gobotany/dkey/models.py:24-27 | "w-families" becomes "W Families" |
| DkeyModels.SlugToTitleGroup | gobotany/dkey/models.py:24-27 | "w-group-x" becomes "W Group x" |
| DkeyModels.LeadNumber | gobotany/dkey/models.py:67-68 | The letter stripped of "a" and "b" at both ends: the result neither starts nor ends with them |
| DkeyModels.LeadNumberOfLead | gobotany/dkey/models.py:67-68 | The number of lead "12a" is "12" |
| DkeyModels.LeadSortKey | gobotany/dkey/models.py:70-83 | "" gives (0,). A letter ending in a digit gives (n,) or raises. Otherwise the result is (n, last character) |
| DkeyModels.SortKeyOfLead | gobotany/dkey/models.py:82-83 | "12a" sorts as (12, "a") |
| DkeyModels.SortKeyOfNumber | gobotany/dkey/models.py:80-81 | "12" sorts as (12,) |
| DkeyModels.SortKeyOfSpacedSign | gobotany/dkey/models.py:80-81 | A sign, whitespace and then digits sort as the signed number: "- 3" as (-3,) |
| DkeyModels.SortKeyWithoutDigits | gobotany/dkey/models.py:82-83 | A letter without digits makes int() raise |
| DkeyModels.FirstSegment | gobotany/dkey/models.py:88 | A segment is non-empty and holds no ";" or ",". It is None exactly when the text is only separators |
| DkeyModels.TextExcerptShape | gobotany/dkey/models.py:85-90 | The excerpt raises exactly when there is no segment. Otherwise it begins the first segment, has no separator and at most seven words, and is the whole segment when that is short enough |
| DkeyModels.TextExcerpt | gobotany/dkey/models.py:85-90 | text_excerpt: the first seven words of the first segment, or IndexError. Its properties are stated by TextExcerptShape |
| DkeyModels.GotoText | gobotany/dkey/models.py:64-65 | The page id when it is set and not 0, else the number when it is set and not 0, else "" |
| DkeyModels.LeadStringParts | gobotany/dkey/models.py:63-65 | "id:letter." followed by the target: the id is read back before the first ":", and the letter follows |
| DkeyModels.LeadString | gobotany/dkey/models.py:63-65 | Lead.__str__: the id, ":", the letter, "." and the target. Its properties are stated by LeadStringParts |
| Figures.FinalComponentSuffix | gobotany/dkey/import_figures.py:23 | The final component is the text after the last "/" of the path |
| Figures.TrailingDigits | gobotany/dkey/import_figures.py:23 | The run of digits that ends the text is all digits and maximal: the character before it is not a digit |
| Figures.DigitRuns | gobotany/dkey/import_figures.py:23 | Every run that findall returns is a non-empty string of digits |
| Figures.ComponentNumber | gobotany/dkey/import_figures.py:25-26 | The number of a component is never negative |
| Figures.FigureNumber | gobotany/dkey/import_figures.py:18-26 | A number is never negative, and map and kept-page images have none |
| Figures.DigitRunsNone | gobotany/dkey/import_figures.py:23-25 | There are no digit runs exactly when there is no digit |
| Figures.FigureNumberNone | gobotany/dkey/import_figures.py:19-25 | None exactly for map and kept-page images and for final components without a digit |
| Figures.FigureNumberIsLastRun | gobotany/dkey/import_figures.py:23-26 | Otherwise the number is the value of the last maximal run of digits in the final component |
| Figures.LastOfDigitRuns | gobotany/dkey/import_figures.py:23-26 | The last run that findall returns is the last maximal run of digits |
| Figures.DirectoryIgnored | gobotany/dkey/import_figures.py:23 | Digits in directory names play no part |
| Figures.FigureNumberOfFile | gobotany/dkey/import_figures.py:18-26 | A file "stem<n>ext" without other digits, under any directory, is figure n |

## Left out

- Reading files and storage: the CSV and Excel readers, the S3 image
  listing, the Django ORM queries and `ContentType`. The rows, the
  listing and the database lookups (taxon, character, pile and value
  maps) are inputs.
- Logging and printing: logged errors become results or sets where the
  code acts on them, and are otherwise dropped.
- The `bulkup` library itself: `save`, `replace`, `map`, `manymap` and
  `delete_old`. Only get-or-create and set are modelled. The tables are
  maps, so the order rows are staged in is not modelled.
- Python `dict` and `set` iteration order. `row.items()`,
  `length_pairs.iteritems()`, the letters of the glossary pages and the
  final `list(set(...))` of the suggestions are taken in the order of
  their sequence or as sets.
- `slugify`, `float()` of the character values, the `re.split` of the
  search suggestions and the `<font>` regular expression of
  `_clean_up_html`: each is a function parameter. The model relies on
  nothing about them.
- Unicode: strings are sequences of ASCII-range characters. Case
  mapping, `isalpha` and `isdigit` are the ASCII ones, and the UTF-8
  decoding and encoding of `_strip_taxonomic_authority` is left out.
  Whitespace for `split()`, `strip()` and `int()` is the ASCII-range set
  that Python 2 uses for the decoded (unicode) fields: space, tab, line
  feed, carriage return, vertical tab, form feed and U+001C to U+001F.
  The non-ASCII Unicode spaces (U+0085, U+00A0, U+2000 to U+200A and
  the others) are not modelled.
- Characters.CharacterFields: the map from a pile suffix ("_ca") to a
  pile id is an input. The source builds it from `pile_suffixes`,
  `slugify` and the pile table, and that step is not modelled.
- Taxa.TaxonRow: a missing CSV column other than the state status
  columns and `variety_notes` is not modelled; the row is a record with
  every column.
- Partners.Reconcile: the duplicate partner rows that `ps[0].delete()`
  would leave are not modelled; a taxon has a partner row or not. The
  species are taken in the sorted order the caller gives.
- Partners: the printed counts of listed, known and unknown species are
  left out.
- Glossary: the page and term id lookups after `save()` are not modelled
  beyond the letters that have a page.
- Glossary.Letters: an empty glossary term already raises IndexError in
  the letters comprehension (line 1703), before any page is staged. The
  model skips it there and fails only in Glossary.LinksAsWritten, after
  the pages.
- Images.Outcomes: the listing lines are the paths already cut out of
  each line by `line.split(' s3://newfs/')[1].strip()`. A line without
  that marker, which raises IndexError, is not modelled.
- Text.ParseInt: follows Python 2's `int()`, the interpreter the importer
  is written for (`print >>` at importer.py:1735). That includes its
  digit scanner skipping whitespace a second time, after the sign, so
  "- 5" reads as -5. Python 3.6 and later also accept single underscores
  between digits ("1_000"); the model refuses such text, as Python 2
  does. A NUL character inside the text is not modelled; the csv reader
  that supplies these values refuses NUL.
- The asynchronous JavaScript runtime: the Dojo `JsonRestStore` fetches,
  `onItem` and `onComplete` callbacks and `dojo.hitch` are left out. The
  model takes the data they deliver as inputs and runs the callbacks
  directly.
- Filters.Filter: filters are values in a sequence, so two references to
  one filter object are not modelled. The `filter_callback` is a function
  of the item, because it is always called with its own filter.
- Filters.FilterManager.SetSelectedValue: the `String()` conversion is
  taken as done by the caller; the value is null or a string.
- `MultipleChoiceFilter.process_value` (which only pushes the value),
  `load_values`, `query_best_filters`, `query_filters`,
  `_load_incoming_filters` and `as_query_string`: these are store fetches
  and string formatting, with no decision logic.
- The `on_*` hooks of the filter manager: they are empty in the source.
- The DOM building of `display_results` (links, images, the plant preview
  popup, the "clearit" element) and `lazy_load_images`. Only the rows,
  slot classes and genus colours are modelled.
- `Lead.__str__` takes a page id and a number that are missing or
  integers. A lead's page is the model's input, not a database object.
- The CLI, transactions and the page and video builders of the importer,
  which hold no logic.

## Findings

| source | as written | input that shows it | evidently intended | confidence | as-written member | corrected member |
|---|---|---|---|---|---|---|
| gobotany/core/importer.py:1703-1730 | A page is made only for letters that start some term, yet every term is linked by `ghp_ids[term[0].lower()]`. A term whose first character is not a letter has no page, so the lookup at line 1727 raises KeyError. The pages were already saved at line 1716, but `multi.save()` at line 1730 is never reached, so no term is linked to any page | the glossary term "2-merous" | Terms that start with a letter are linked to their letter's page, and the other terms are left without a page, as the page loop already leaves them | not executed | Glossary.NonLetterTermFails | Glossary.TermLinksOnPages |
