# basesource in Dafny

A model of the core of basesource, an indexed in-memory store of static game
resources with an Excel converter.

- **Storage.** A `Storage` holds the records of one resource class. It keeps:
  - a map from identity to record;
  - unique indexes, from key to record;
  - list indexes, from key to a list of records.

  `initialize` builds the identity getter and the index getters from the class's declarations, then loads the records. `reload` reads the data file, clears the stores and puts every record back. A record that fails validation, has a null identity, repeats an identity or repeats a unique key aborts the reload, and the partial state stays behind. The lists of an index that declares an `orderBy` are then sorted.
- **StorageManager.** It registers one definition per class and creates storages lazily. It also reloads a class when its watched file changes.
- **GetterBuilder, FieldSortComparator, FieldSortType and StringComparator.** These build:
  - the `^`-joined index keys;
  - the identity rule (exactly one `@Id`, a field before a method);
  - the grouping of `@Index`/`@Indexes` declarations into single-field and composite getters;
  - the sort comparators.
- **The converter.** `SheetUtils` and `ExcelReader` scan sheets row by row: a `SERVER` row starts the data and an `END` row ends it. `ConvertTask` is the resumable run over the input files, with stop, reset and resume. `TaskManager` owns the one current task. `ClassScanner` finds the resource classes and fixes the class loader's base path.

Each module is one file and has the name of the Java class it models:

| file | models |
|---|---|
| `storage.dfy` | `Storage`: the stores as values (`Tables`), `put`'s and `reload`'s loops as functions, and `class Storage` over them |
| `storage_manager.dfy` | `class StorageManager` |
| `getter_builder.dfy` | `GetterBuilder` |
| `field_sort_comparator.dfy`, `field_sort_type.dfy`, `string_comparator.dfy` | the comparators |
| `resource_definition.dfy` | `ResourceDefinition` |
| `sheet_utils.dfy`, `excel_reader.dfy` | the sheet scanners |
| `convert_task.dfy`, `task_manager.dfy` | `class ConvertTask`, `class ProgressTable` and `class TaskManager` |
| `class_scanner.dfy` | `ClassScanner` |
| `values.dfy`, `declarations.dfy`, `java_strings.dfy`, `sorting.dfy`, `sequences.dfy`, `errors.dfy`, `wrappers.dfy` | shared definitions |

The shared definitions cover:
- records as maps from field or getter to value;
- class declarations as data in place of reflection;
- the Java string operations used (`split`, `lastIndexOf`, `replace`, `compareTo`, `isBlank`);
- `Collections.sort` as a stable insertion sort;
- the exceptions as an `Error` datatype.

Each method that loops is proved against a function that states what the loop computes. The lemmas state the properties of those functions.

A record whose unique key is already held replaces the earlier record in that index, because `Storage.put` calls `HashMap.put` first (`Storage.java:374`). Only then is the duplicate reported (`Storage.java:375-378`). `Storage.UniqueClashFiled` states this.

Two definitions are corrected forms of the Java code; each is listed under Findings, and the rest of the model uses the corrected form:
- the sort-key comparison of `FieldSortComparator.compare`, as `FieldSortComparator.Compare`. Every sorted list goes through it: `Storage.SortList`, `SortIndexes`, `SortLists`, `SortAll`, `Reloaded`, `Storage.Storage.SortIndexLists` and `Storage.Storage.Reload`;
- the base-path fix of `ClassScanner.defineClass`, as `ClassScanner.FixedBase`. `ClassScanner.Define`, `ClassScanner.ClassScanner.DefineClass`, `LoadFileClasses` and `ScanPath` use it.

## Model

| member | source | states |
|---|---|---|
| FieldSortType.Lookup | src/main/java/com/concur/basesource/storage/FieldSortType.java:27-31 | the loop over the constants yields one of them, or ASC when none has the keyword |
| FieldSortType.ValueFrom | src/main/java/com/concur/basesource/storage/FieldSortType.java:26-33 | the lookup is exact and case-sensitive: DESC exactly for "desc", ASC for every other string |
| FieldSortType.Of | src/main/java/com/concur/basesource/storage/FieldSortType.java:35-37 | ASC leaves a comparison unchanged, DESC negates it |
| FieldSortType.ValueFromTypeName | src/main/java/com/concur/basesource/storage/FieldSortType.java:22-33 | round trip: each constant is found again from its own keyword |
| FieldSortType.OfInvolution | src/main/java/com/concur/basesource/storage/FieldSortType.java:35-37 | scaling twice by the same direction gives the value back |
| FieldSortType.ValueFromFallback | src/main/java/com/concur/basesource/storage/FieldSortType.java:32 | "DESC", "Desc" and "" all mean ascending |
| StringComparator.CompareAntisymmetric | src/main/java/com/concur/basesource/contants/StringComparator.java:10-21 | swapping the arguments negates the result |
| StringComparator.CompareZero | src/main/java/com/concur/basesource/contants/StringComparator.java:11-20 | 0 exactly for equal arguments (both null included) or two non-null values with the same text |
| StringComparator.NullFirst | src/main/java/com/concur/basesource/contants/StringComparator.java:14-19 | null against non-null is -1, non-null against null is 1 |
| StringComparator.ComparesByText | src/main/java/com/concur/basesource/contants/StringComparator.java:20 | a non-null value whose text is a proper prefix of another's compares below it |
| StringComparator.ComparesAtFirstDifference | src/main/java/com/concur/basesource/contants/StringComparator.java:20 | non-null values whose texts first differ at a position compare as their characters there, so "12" sorts before "9" |
| FieldSortComparator.SortKey | src/main/java/com/concur/basesource/storage/FieldSortComparator.java:32-34 | an entry gives a (field, direction) pair exactly when it splits on a single space into two words |
| FieldSortComparator.SortInfosOf | src/main/java/com/concur/basesource/storage/FieldSortComparator.java:28-54 | the only failure is an undeclared field; every kept key names a declared field; at most one key per entry |
| FieldSortComparator.New | src/main/java/com/concur/basesource/storage/FieldSortComparator.java:26-56 | the constructor's loop builds exactly the comparator the declared entries describe |
| FieldSortComparator.SortInfosAppend | src/main/java/com/concur/basesource/storage/FieldSortComparator.java:31-47 | entries are handled one by one in declared order: the keys of a concatenation are the concatenated keys |
| FieldSortComparator.SortInfosSingle | src/main/java/com/concur/basesource/storage/FieldSortComparator.java:32-46 | a two-word entry gives one key, or fails when its field is undeclared; any other entry is skipped |
| FieldSortComparator.SortInfosOk | src/main/java/com/concur/basesource/storage/FieldSortComparator.java:37 | construction succeeds exactly when every two-word entry names a declared field (also lines 49-54) |
| FieldSortComparator.CompareKeysAntisymmetric | src/main/java/com/concur/basesource/storage/FieldSortComparator.java:63-83 | the corrected comparison is antisymmetric on every pair of records |
| FieldSortComparator.CompareAntisymmetric | src/main/java/com/concur/basesource/storage/FieldSortComparator.java:59-84 | the corrected comparator is antisymmetric, 0 with no sort keys |
| FieldSortComparator.CompareKeysZero | src/main/java/com/concur/basesource/storage/FieldSortComparator.java:63-83 | two records compare as 0 exactly when they agree on every sort key |
| FieldSortComparator.AsWrittenAgrees | src/main/java/com/concur/basesource/storage/FieldSortComparator.java:59-84 | wherever the code as written returns a value, it is the corrected comparator's value |
| FieldSortComparator.AsWrittenThrowsOnNullSecond | src/main/java/com/concur/basesource/storage/FieldSortComparator.java:73-79 | the code as written dereferences a null second value: a level of 1 against a missing level throws |
| FieldSortComparator.AsFunctionAntisymmetric | src/main/java/com/concur/basesource/storage/FieldSortComparator.java:59-84 | the comparator used for sorting satisfies the antisymmetry a stable sort relies on |
| GetterBuilder.Texts | src/main/java/com/concur/basesource/storage/GetterBuilder.java:109-115 | one text per value, in order, each the value's String.valueOf |
| GetterBuilder.BuildIndexKeyShape | src/main/java/com/concur/basesource/storage/GetterBuilder.java:109-115 | no values give "", one value its text, more values the texts joined with '^' in argument order |
| GetterBuilder.BuildIndexKeyInjective | src/main/java/com/concur/basesource/storage/GetterBuilder.java:109-115 | for values whose texts hold no '^', two keys are equal exactly when the value texts are |
| GetterBuilder.SwappedPartsChangeKey | src/main/java/com/concur/basesource/storage/GetterBuilder.java:109-115 | the key depends on argument order |
| GetterBuilder.IdFields | src/main/java/com/concur/basesource/storage/GetterBuilder.java:61 | the @Id fields, exactly those declared so, in order |
| GetterBuilder.IdMethods | src/main/java/com/concur/basesource/storage/GetterBuilder.java:72 | the @Id getter methods, exactly those declared so, in order |
| GetterBuilder.CreateIdGetter | src/main/java/com/concur/basesource/storage/GetterBuilder.java:60-107 | succeeds exactly with one @Id field, or none and one @Id method; the field wins; otherwise the duplicate or missing error |
| GetterBuilder.IdFieldTakesPrecedence | src/main/java/com/concur/basesource/storage/GetterBuilder.java:67-71 | a single @Id field is the identity whatever the methods declare |
| GetterBuilder.IdentityErrors | src/main/java/com/concur/basesource/storage/GetterBuilder.java:62-66 | two @Id fields, two @Id methods, or neither give their three distinct errors (also lines 73-77, 83-85) |
| GetterBuilder.Identity | src/main/java/com/concur/basesource/storage/GetterBuilder.java:38-48 | a method identity is the key text built from the method's result, never null |
| GetterBuilder.BuildIndexKeyOne | src/main/java/com/concur/basesource/storage/GetterBuilder.java:143-145 | a single-field key is the field value's text |
| GetterBuilder.CompareOrder | src/main/java/com/concur/basesource/storage/GetterBuilder.java:272-279 | -1, 0 or 1 by declared order alone, in both directions |
| GetterBuilder.FieldValues | src/main/java/com/concur/basesource/storage/GetterBuilder.java:227-241 | one value per part, read from the part's field, in part order |
| GetterBuilder.CompositeKey | src/main/java/com/concur/basesource/storage/GetterBuilder.java:222-244 | a null record has a null key and a present one a key |
| GetterBuilder.IndexKeyText | src/main/java/com/concur/basesource/storage/GetterBuilder.java:143-145 | every index key is one value's text, or the '^'-join of the parts' values in part order (also lines 222-244, 38-48) |
| GetterBuilder.OptionalComparator | src/main/java/com/concur/basesource/storage/GetterBuilder.java:134-139 | a comparator exactly when orderBy is non-empty; failing only on an undeclared sort field (also lines 300-305) |
| GetterBuilder.FieldIndexGetter | src/main/java/com/concur/basesource/storage/GetterBuilder.java:128-140 | name, unique flag and the field come from the declaration; a comparator exactly when orderBy is non-empty |
| GetterBuilder.MethodIndexGetter | src/main/java/com/concur/basesource/storage/GetterBuilder.java:294-306 | name, unique flag and the method come from the declaration; a comparator exactly when orderBy is non-empty |
| GetterBuilder.Infos | src/main/java/com/concur/basesource/storage/GetterBuilder.java:196 | one part per declaration, carrying its order and field, in declaration order |
| GetterBuilder.FirstOrdered | src/main/java/com/concur/basesource/storage/GetterBuilder.java:198 | the first declaration with a non-empty orderBy, none before it |
| GetterBuilder.FirstComparator | src/main/java/com/concur/basesource/storage/GetterBuilder.java:198-200 | the comparator comes from the first declaration with a non-empty orderBy, none when there is none |
| GetterBuilder.MultiScanSpec | src/main/java/com/concur/basesource/storage/GetterBuilder.java:185-201 | the loop succeeds exactly when all parts share one name and the comparator builds; the unique flag is the last part's |
| GetterBuilder.FirstComparatorStep | src/main/java/com/concur/basesource/storage/GetterBuilder.java:198-200 | a later declaration never replaces the comparator already chosen |
| GetterBuilder.SameNameStep | src/main/java/com/concur/basesource/storage/GetterBuilder.java:189-193 | the shared-name check extends one declaration at a time |
| GetterBuilder.NewMultiFieldIndexGetter | src/main/java/com/concur/basesource/storage/GetterBuilder.java:181-209 | the constructor's loop and sort build exactly the composite getter |
| GetterBuilder.MultiScanPrefixErr | src/main/java/com/concur/basesource/storage/GetterBuilder.java:189-192 | a failure part way through is the constructor's failure |
| GetterBuilder.MultiFieldIndexGetterSpec | src/main/java/com/concur/basesource/storage/GetterBuilder.java:181-209 | composite getter: the shared name, the last part's unique flag, the first comparator, the parts stably sorted; a name mismatch throws |
| GetterBuilder.CompareOrderAntisymmetric | src/main/java/com/concur/basesource/storage/GetterBuilder.java:272-279 | the part order is antisymmetric |
| GetterBuilder.WithOrderAppend | src/main/java/com/concur/basesource/storage/GetterBuilder.java:206 | the parts of one order grow by one appended part of that order |
| GetterBuilder.InsertWithOrder | src/main/java/com/concur/basesource/storage/GetterBuilder.java:206 | insertion keeps parts of equal order in sequence, the new one last |
| GetterBuilder.SortWithOrder | src/main/java/com/concur/basesource/storage/GetterBuilder.java:206 | the sort is stable: parts of equal order keep their declared relative order |
| GetterBuilder.SortedParts | src/main/java/com/concur/basesource/storage/GetterBuilder.java:206 | the parts are a permutation of the declared ones, ascending by order, stable |
| GetterBuilder.IndexesOf | src/main/java/com/concur/basesource/storage/GetterBuilder.java:386-387 | one declaration per @Index inside @Indexes, each with the field |
| GetterBuilder.FieldIndexesAnnosStep | src/main/java/com/concur/basesource/storage/GetterBuilder.java:385-396 | the @Indexes declarations are gathered field by field |
| GetterBuilder.NameSet | src/main/java/com/concur/basesource/storage/GetterBuilder.java:375 | every declaration's index name is among the names (also lines 388) |
| GetterBuilder.Named | src/main/java/com/concur/basesource/storage/GetterBuilder.java:376-381 | the declarations of one name, all carrying it; none exactly when the name is not declared |
| GetterBuilder.GroupAllSpec | src/main/java/com/concur/basesource/storage/GetterBuilder.java:370-399 | each declared name maps to exactly its declarations, in order, and no other name is present |
| GetterBuilder.FirstOccurrences | src/main/java/com/concur/basesource/storage/GetterBuilder.java:376-380 | the group names, each once, exactly the declared ones |
| GetterBuilder.GroupAllAppend | src/main/java/com/concur/basesource/storage/GetterBuilder.java:376-381 | one more declaration extends its own group, creating it when absent |
| GetterBuilder.AddAnno | src/main/java/com/concur/basesource/storage/GetterBuilder.java:376-381 | one computeIfAbsent-and-add step keeps the groups equal to the grouping of what was seen |
| GetterBuilder.AddAnnos | src/main/java/com/concur/basesource/storage/GetterBuilder.java:387-395 | the inner @Indexes loop keeps the same invariant |
| GetterBuilder.GroupIndexFields | src/main/java/com/concur/basesource/storage/GetterBuilder.java:373-382 | the @Index loop builds the grouping of the @Index declarations |
| GetterBuilder.GroupIndexesFields | src/main/java/com/concur/basesource/storage/GetterBuilder.java:384-396 | the @Indexes loop extends that grouping with the @Indexes declarations |
| GetterBuilder.GetIndexAnnoMap | src/main/java/com/concur/basesource/storage/GetterBuilder.java:370-399 | the map is the grouping of every index declaration: @Index fields first, then @Indexes |
| GetterBuilder.Groups | src/main/java/com/concur/basesource/storage/GetterBuilder.java:339 | one group per index name |
| GetterBuilder.IndexMethods | src/main/java/com/concur/basesource/storage/GetterBuilder.java:336 | the getter methods carrying @Index, exactly those |
| GetterBuilder.Names | src/main/java/com/concur/basesource/storage/GetterBuilder.java:355 | the getters' names, in getter order |
| GetterBuilder.FirstDuplicate | src/main/java/com/concur/basesource/storage/GetterBuilder.java:353-361 | no duplicate exactly when the names are distinct; a reported name does occur |
| GetterBuilder.FieldGetters | src/main/java/com/concur/basesource/storage/GetterBuilder.java:339-347 | one getter per group |
| GetterBuilder.FieldGettersNames | src/main/java/com/concur/basesource/storage/GetterBuilder.java:339-347 | the getter of each group carries the group's name |
| GetterBuilder.MethodGetters | src/main/java/com/concur/basesource/storage/GetterBuilder.java:348-351 | one getter per @Index method, carrying that method's index name |
| GetterBuilder.BuildFieldGetters | src/main/java/com/concur/basesource/storage/GetterBuilder.java:339-347 | the group loop builds exactly the field getters, or the first construction failure |
| GetterBuilder.BuildMethodGetters | src/main/java/com/concur/basesource/storage/GetterBuilder.java:348-351 | the method loop builds exactly the method getters |
| GetterBuilder.FindDuplicateName | src/main/java/com/concur/basesource/storage/GetterBuilder.java:353-361 | the name-map loop finds exactly the first repeated name |
| GetterBuilder.CreateIndexGetters | src/main/java/com/concur/basesource/storage/GetterBuilder.java:334-363 | the whole of createIndexGetters, loops included |
| GetterBuilder.DuplicatePrefix | src/main/java/com/concur/basesource/storage/GetterBuilder.java:354-360 | a duplicate found part way is the first duplicate of the whole list |
| GetterBuilder.IndexGettersOk | src/main/java/com/concur/basesource/storage/GetterBuilder.java:334-363 | a success is the field getters followed by the method getters, with distinct names |
| GetterBuilder.FieldGetterPosition | src/main/java/com/concur/basesource/storage/GetterBuilder.java:339-347 | every declared field index name has a getter among the field getters |
| GetterBuilder.MethodGetterPosition | src/main/java/com/concur/basesource/storage/GetterBuilder.java:348-351 | every @Index method has its getter among the method getters |
| GetterBuilder.IndexGettersSpec | src/main/java/com/concur/basesource/storage/GetterBuilder.java:334-363 | the getters carry distinct names, one per declared field index name and one per @Index method |
| GetterBuilder.FieldClashRefused | src/main/java/com/concur/basesource/storage/GetterBuilder.java:354-360 | an @Index method whose name a field index also declares makes createIndexGetters fail |
| GetterBuilder.MethodClashRefused | src/main/java/com/concur/basesource/storage/GetterBuilder.java:354-360 | two distinct @Index methods declaring one name make createIndexGetters fail |
| GetterBuilder.DuplicateNamesRefused | src/main/java/com/concur/basesource/storage/GetterBuilder.java:356-360 | a name used by two @Index methods, or by a method and a field index, is refused |
| GetterBuilder.GroupGetterName | src/main/java/com/concur/basesource/storage/GetterBuilder.java:341-345 | a group's single or composite getter carries the group's name |
| ResourceDefinition.InjectsOf | src/main/java/com/concur/basesource/storage/ResourceDefinition.java:24-29 | the inject definitions are exactly those of the @InjectBean fields (also lines 50-56) |
| ResourceDefinition.New | src/main/java/com/concur/basesource/storage/ResourceDefinition.java:41-57 | the format is the format's type; the location is the file when non-blank, else the format's location; injects as declared |
| ResourceDefinition.GetStaticInjects | src/main/java/com/concur/basesource/storage/ResourceDefinition.java:63-72 | a new set of exactly the static-field injects |
| ResourceDefinition.GetInjects | src/main/java/com/concur/basesource/storage/ResourceDefinition.java:78-87 | a new set of exactly the instance-field injects |
| ResourceDefinition.InjectsPartition | src/main/java/com/concur/basesource/storage/ResourceDefinition.java:63-87 | the two sets are disjoint and together hold every inject |
| ResourceDefinition.IsNeedValidate | src/main/java/com/concur/basesource/storage/ResourceDefinition.java:93-95 | every definition asks for validation, so `LoadRecords` validates every record of a definition (`Storage.java:247`) |
| SheetUtils.LastRowNum | src/main/java/com/concur/basesource/convertor/utils/SheetUtils.java:38 | the last present row, with none after it |
| SheetUtils.LastCellNum | src/main/java/com/concur/basesource/convertor/utils/SheetUtils.java:45 | one past the last present cell, -1 for a row with none (also lines 96) |
| SheetUtils.Present | src/main/java/com/concur/basesource/convertor/utils/SheetUtils.java:161 | the rows the iterator visits are exactly the present ones (also lines 207) |
| SheetUtils.FieldRowIndex | src/main/java/com/concur/basesource/convertor/utils/SheetUtils.java:160-172 | the first row marked SERVER, none before it; -1 when no row is |
| SheetUtils.GetFieldRow | src/main/java/com/concur/basesource/convertor/utils/SheetUtils.java:160-172 | the loop returns the first SERVER row, or null |
| SheetUtils.FieldRowIndexIs | src/main/java/com/concur/basesource/convertor/utils/SheetUtils.java:160-172 | the first marked row is unique: any index with the marker and none before it is that row |
| SheetUtils.ColumnsSpec | src/main/java/com/concur/basesource/convertor/utils/SheetUtils.java:96-111 | exactly the columns from 1 below the last cell whose header is present and not blank, ascending |
| SheetUtils.ColumnsOf | src/main/java/com/concur/basesource/convertor/utils/SheetUtils.java:95-112 | the column loop builds exactly those columns |
| SheetUtils.GetColumnInfo | src/main/java/com/concur/basesource/convertor/utils/SheetUtils.java:86-113 | refused without a SERVER row, otherwise that row's columns |
| SheetUtils.SheetKeySpec | src/main/java/com/concur/basesource/convertor/utils/SheetUtils.java:36-63 | a kept sheet has rows past 0, a row 0 with a non-blank name cell and a SERVER row; the others are skipped |
| SheetUtils.ListSheetsSpec | src/main/java/com/concur/basesource/convertor/utils/SheetUtils.java:65-72 | the map has exactly the names of kept sheets, each with its sheets in workbook order and the file |
| SheetUtils.KeyedMembers | src/main/java/com/concur/basesource/convertor/utils/SheetUtils.java:65-72 | a sheet is in the group of its own name and in no other |
| SheetUtils.ListSheetsOf | src/main/java/com/concur/basesource/convertor/utils/SheetUtils.java:32-79 | the workbook loop builds exactly that map |
| SheetUtils.AfterHeaderSpec | src/main/java/com/concur/basesource/convertor/utils/SheetUtils.java:211-225 | the rows up to and including the first SERVER row emit nothing |
| SheetUtils.UpToEndSpec | src/main/java/com/concur/basesource/convertor/utils/SheetUtils.java:240-253 | the data rows are a prefix of the rest: all of it without an END row, otherwise up to and including the first END |
| SheetUtils.ScanStep | src/main/java/com/concur/basesource/convertor/utils/SheetUtils.java:207-253 | one row of the start-flag loop keeps the scan invariant in each phase |
| SheetUtils.ScanDone | src/main/java/com/concur/basesource/convertor/utils/SheetUtils.java:207-265 | a loop that runs out of rows has taken exactly the data rows |
| SheetUtils.RowMap | src/main/java/com/concur/basesource/convertor/utils/SheetUtils.java:228-239 | a row's map holds exactly the columns with a non-empty cell, never an empty text |
| SheetUtils.RowMapCell | src/main/java/com/concur/basesource/convertor/utils/SheetUtils.java:230-238 | with distinct column names each entry is that column's cell |
| SheetUtils.RowObject | src/main/java/com/concur/basesource/convertor/utils/SheetUtils.java:228-239 | the column loop builds exactly the row's map |
| SheetUtils.RowMaps | src/main/java/com/concur/basesource/convertor/utils/SheetUtils.java:240 | one map per data row, in row order |
| SheetUtils.ReadRows | src/main/java/com/concur/basesource/convertor/utils/SheetUtils.java:207-265 | the row loop of one sheet yields one map per data row |
| SheetUtils.ReadSheetData | src/main/java/com/concur/basesource/convertor/utils/SheetUtils.java:193-277 | refused without a SERVER row in the first sheet; otherwise the maps of every sheet's data rows, by the first sheet's columns |
| SheetUtils.SheetDataRows | src/main/java/com/concur/basesource/convertor/utils/SheetUtils.java:200-265 | a sheet without a SERVER row contributes nothing; otherwise one map per row after it up to and including the first END |
| SheetUtils.SheetDataAppend | src/main/java/com/concur/basesource/convertor/utils/SheetUtils.java:200 | the sheets of a group are read one after another |
| ExcelReader.CellInfosSpec | src/main/java/com/concur/basesource/reader/ExcelReader.java:203-222 | exactly the columns from 1 whose non-blank header names a declared field, ascending, each with that field |
| ExcelReader.UndeclaredHeaderSkipped | src/main/java/com/concur/basesource/reader/ExcelReader.java:214-221 | a header naming no declared field is skipped |
| ExcelReader.CellInfosOf | src/main/java/com/concur/basesource/reader/ExcelReader.java:202-223 | the header loop builds exactly those cell infos |
| ExcelReader.SheetCellInfos | src/main/java/com/concur/basesource/reader/ExcelReader.java:192-199 | refused exactly when the sheet has no SERVER row |
| ExcelReader.GetCellInfos | src/main/java/com/concur/basesource/reader/ExcelReader.java:192-224 | the whole of getCellInfos |
| ExcelReader.NewInstance | src/main/java/com/concur/basesource/reader/ExcelReader.java:176-184 | a new instance holds every instance field, each at its type's default |
| ExcelReader.Inject | src/main/java/com/concur/basesource/reader/ExcelReader.java:152-168 | succeeds exactly when the text converts to the field's type, then sets that field alone; otherwise the conversion error |
| ExcelReader.FillFails | src/main/java/com/concur/basesource/reader/ExcelReader.java:100-110 | filling a row fails exactly when some non-empty cell does not convert to its field's type |
| ExcelReader.FillKeeps | src/main/java/com/concur/basesource/reader/ExcelReader.java:100-110 | a successful fill leaves every field without a non-empty cell at its default |
| ExcelReader.FillSets | src/main/java/com/concur/basesource/reader/ExcelReader.java:100-110 | a successful fill gives each filled field the converted text of the last non-empty cell naming it |
| ExcelReader.NewRowInstance | src/main/java/com/concur/basesource/reader/ExcelReader.java:99-111 | the cell loop builds exactly the row's instance |
| ExcelReader.FillPrefixErr | src/main/java/com/concur/basesource/reader/ExcelReader.java:100-110 | a failing cell aborts the whole row |
| ExcelReader.ReadSheetRows | src/main/java/com/concur/basesource/reader/ExcelReader.java:80-129 | the row loop gives one instance per data row, in order, or the first failure |
| ExcelReader.ReadWorkbook | src/main/java/com/concur/basesource/reader/ExcelReader.java:64-132 | the whole of read, sheet and row loops included |
| ExcelReader.ReadSheetsPrefixErr | src/main/java/com/concur/basesource/reader/ExcelReader.java:125-127 | a failing sheet fails the whole read |
| ExcelReader.ReadWithoutGroup | src/main/java/com/concur/basesource/reader/ExcelReader.java:71-74 | no sheet named after the class gives no instances |
| ExcelReader.KeyedEmpty | src/main/java/com/concur/basesource/reader/ExcelReader.java:71 | with no sheet of that name the group is empty |
| ExcelReader.ReadGroup | src/main/java/com/concur/basesource/reader/ExcelReader.java:67-77 | only the sheets named after the class's simple name are read, in workbook order |
| ExcelReader.ReadSheetRowCount | src/main/java/com/concur/basesource/reader/ExcelReader.java:84-124 | one instance per row after the SERVER row, up to and including the first END row |
| ExcelReader.ReadSheetsAppend | src/main/java/com/concur/basesource/reader/ExcelReader.java:76-131 | the instances of a group's sheets are concatenated in sheet order |
| Storage.IndexOneSpec | src/main/java/com/concur/basesource/storage/Storage.java:369-383 | one getter files the record: a unique index refuses a held key after replacing it, a list index appends, other indexes unchanged |
| Storage.DistinctFront | src/main/java/com/concur/basesource/storage/Storage.java:368 | distinct getter names stay distinct on a prefix |
| Storage.IndexAllFrame | src/main/java/com/concur/basesource/storage/Storage.java:368-384 | the getter loop leaves the identity map and every other index unchanged |
| Storage.IndexAllErr | src/main/java/com/concur/basesource/storage/Storage.java:368-384 | the loop fails exactly when a unique index already holds the key, and that index then holds the new record |
| Storage.IndexAllOk | src/main/java/com/concur/basesource/storage/Storage.java:368-384 | a completed loop appends the record to its key's list in every list index and maps its key in every unique one |
| Storage.PutSpec | src/main/java/com/concur/basesource/storage/Storage.java:356-387 | null identity refused; otherwise the record is under its identity and every index, and a replaced earlier record is reported |
| Storage.GetterNamed | src/main/java/com/concur/basesource/storage/Storage.java:287 | the getter of that name when there is one |
| Storage.GetterNamedDistinct | src/main/java/com/concur/basesource/storage/Storage.java:287 | with distinct names a getter is found by its own name |
| Storage.Reloaded | src/main/java/com/concur/basesource/storage/Storage.java:217-231 | refused before initialize; an unreadable or undecodable file leaves the stores unchanged (also lines 297-301) |
| Storage.Matching | src/main/java/com/concur/basesource/storage/Storage.java:381-382 | the records with a given key, in load order |
| Storage.AdmitStep | src/main/java/com/concur/basesource/storage/Storage.java:232-283 | validating and putting one more record keeps the stores consistent with the records loaded so far |
| Storage.LoadSpec | src/main/java/com/concur/basesource/storage/Storage.java:231-283 | a load that accepts every record leaves the stores holding exactly those records in every index |
| Storage.LoadFailure | src/main/java/com/concur/basesource/storage/Storage.java:232-283 | a failed load stopped at one record: those before it were accepted and the stores are what its step left |
| Storage.LoadPrefixErr | src/main/java/com/concur/basesource/storage/Storage.java:232-283 | a failure part way fails the whole load the same way |
| Storage.IndexAllPrefixErr | src/main/java/com/concur/basesource/storage/Storage.java:368-384 | a getter failing part way fails the whole getter loop |
| Storage.DuplicateIdentityFiled | src/main/java/com/concur/basesource/storage/Storage.java:276-282 | a duplicate identity is refused only after the record replaced the earlier one and was filed in every index (also lines 365-386) |
| Storage.UniqueClashFiled | src/main/java/com/concur/basesource/storage/Storage.java:372-379 | a unique-key clash is refused after the record replaced the earlier one in that index and in the identity map |
| Storage.SortIndexesSpec | src/main/java/com/concur/basesource/storage/Storage.java:285-293 | the sorting pass sorts each list by the getter of its index name, with the corrected comparator, and changes nothing else |
| Storage.SortListSpec | src/main/java/com/concur/basesource/storage/Storage.java:288-291 | each list stays a permutation; when there is a comparator, every record compares at most equal to every later one and records that agree on all sort keys keep their load order; untouched otherwise |
| Storage.ReloadSpec | src/main/java/com/concur/basesource/storage/Storage.java:217-296 | after a completed reload the stores hold exactly the decoded records, in every unique index by key and in every list index in load or comparator order; the values map holds only identity keys and a unique index only the keys of its records |
| Storage.KeyValues | src/main/java/com/concur/basesource/storage/Storage.java:172-211 | the lookup values of a record build the very key it was filed under |
| Storage.LookupAfterReload | src/main/java/com/concur/basesource/storage/Storage.java:172-211 | after a reload a record is found by getUnique and getIndex with its own key values |
| Storage.SortLists | src/main/java/com/concur/basesource/storage/Storage.java:289-291 | the inner sorting loop sorts each list of one index |
| Storage.SortAll | src/main/java/com/concur/basesource/storage/Storage.java:285-293 | the outer sorting loop builds the sorted indexes |
| Storage.Storage.constructor | src/main/java/com/concur/basesource/storage/Storage.java:99-103 | a new storage is uninitialized and empty |
| Storage.Storage.Initialize | src/main/java/com/concur/basesource/storage/Storage.java:50-78 | runs once; initialized before the getters are built, so a failing getter or first reload leaves it initialized |
| Storage.Storage.IsReady | src/main/java/com/concur/basesource/storage/Storage.java:339-345 | refused exactly while not initialized |
| Storage.Storage.Get | src/main/java/com/concur/basesource/storage/Storage.java:121-135 | refused before initialize; the record of the identity; an absent one is an error with the flag and null without |
| Storage.Storage.GetOrNull | src/main/java/com/concur/basesource/storage/Storage.java:111-113 | get without the flag: null for an absent identity |
| Storage.Storage.ContainsId | src/main/java/com/concur/basesource/storage/Storage.java:142-150 | true exactly when the identity is stored |
| Storage.Storage.GetAll | src/main/java/com/concur/basesource/storage/Storage.java:156-164 | exactly the stored records |
| Storage.Storage.GetUnique | src/main/java/com/concur/basesource/storage/Storage.java:172-185 | the record under the key built as put built it; null for an unknown index or key |
| Storage.Storage.GetIndex | src/main/java/com/concur/basesource/storage/Storage.java:194-211 | a copy of the list under the key; empty for an unknown index or key |
| Storage.Storage.Reload | src/main/java/com/concur/basesource/storage/Storage.java:217-315 | the stores become what Reloaded says; a completed reload notifies observers once; the configuration is unchanged |
| Storage.Storage.LoadRecords | src/main/java/com/concur/basesource/storage/Storage.java:232-283 | the record loop leaves what Load says, validating a record when its definition asks for it (`Storage.java:247`) |
| Storage.Storage.SortIndexLists | src/main/java/com/concur/basesource/storage/Storage.java:285-293 | the sorting pass in place |
| Storage.Storage.Clear | src/main/java/com/concur/basesource/storage/Storage.java:350-354 | all three stores emptied |
| Storage.Storage.Put | src/main/java/com/concur/basesource/storage/Storage.java:356-387 | the stores and the result are what PutOutcome says |
| Storage.Storage.FileUnder | src/main/java/com/concur/basesource/storage/Storage.java:369-383 | one pass of the getter loop in place |
| Storage.Storage.FileUnderAll | src/main/java/com/concur/basesource/storage/Storage.java:368-384 | the getter loop files the record under every getter in order, stopping at the first duplicate unique key, as IndexAll says |
| Storage.Storage.LoadList | src/main/java/com/concur/basesource/storage/Storage.java:389-398 | the list under the key, created empty when absent; nothing else changes |
| Storage.Storage.LoadListIndex | src/main/java/com/concur/basesource/storage/Storage.java:400-408 | the list index of the name, created empty when absent |
| Storage.Storage.LoadUniqueIndex | src/main/java/com/concur/basesource/storage/Storage.java:410-418 | the unique index of the name, created empty when absent |
| StorageManager.StorageManager.constructor | src/main/java/com/concur/basesource/storage/StorageManager.java:39 | empty registry |
| StorageManager.StorageManager.Initialize | src/main/java/com/concur/basesource/storage/StorageManager.java:49-58 | put-if-absent: a second definition is refused and the first stays; otherwise registered and its storage built, holding what Initialized says |
| StorageManager.StorageManager.InitializeStorage | src/main/java/com/concur/basesource/storage/StorageManager.java:150-165 | refused without a definition; an existing storage is returned unchanged; otherwise only the one published is initialized, and it holds what Initialized says |
| StorageManager.StorageManager.GetStorage | src/main/java/com/concur/basesource/storage/StorageManager.java:126-131 | an existing storage is returned without creating anything; a new one holds what Initialized says |
| StorageManager.StorageManager.Reload | src/main/java/com/concur/basesource/storage/StorageManager.java:64-75 | refused without a definition, changing nothing; a published storage holds what Reloaded says; a storage built for the call holds what its first load left; no other storage changes |
| StorageManager.StorageManager.ReloadPublished | src/main/java/com/concur/basesource/storage/StorageManager.java:73-74 | getStorage finds the published storage and its reload leaves what Reloaded says |
| StorageManager.StorageManager.ReloadBuilt | src/main/java/com/concur/basesource/storage/StorageManager.java:73-74 | getStorage builds and initializes a storage; reloading it again leaves what the first load left |
| StorageManager.StorageManager.ListStorages | src/main/java/com/concur/basesource/storage/StorageManager.java:137-143 | exactly the storages in the table |
| StorageManager.StorageManager.Clear | src/main/java/com/concur/basesource/storage/StorageManager.java:180-182 | storages emptied, definitions kept |
| StorageManager.StorageManager.SetResourceMap | src/main/java/com/concur/basesource/storage/StorageManager.java:188-190 | the watched files replaced, nothing else |
| StorageManager.StorageManager.OnFileChange | src/main/java/com/concur/basesource/storage/StorageManager.java:222-228 | a watched path reloads its class with everything Reload promises; any other path changes nothing |
| ConvertTask.SheetEvents | src/main/java/com/concur/basesource/convertor/task/ConvertTask.java:194-233 | one event per sheet |
| ConvertTask.SheetEvent | src/main/java/com/concur/basesource/convertor/task/ConvertTask.java:226-231 | a sheet's event is for the current row; it is a failure mark, under the sheet's name, exactly when the sheet was not converted, and otherwise a progress report that is not the final one |
| ConvertTask.SheetEventsAt | src/main/java/com/concur/basesource/convertor/task/ConvertTask.java:194-233 | the j-th event of a row is the event of its j-th sheet |
| ConvertTask.SheetEventsRows | src/main/java/com/concur/basesource/convertor/task/ConvertTask.java:194-233 | every sheet event carries the current row |
| ConvertTask.SubTaskEventsShape | src/main/java/com/concur/basesource/convertor/task/ConvertTask.java:185-237 | nothing when the workbook cannot be opened, and only then; a converted workbook adds one event per sheet plus two, ending with the final report |
| ConvertTask.SubTaskEventsRows | src/main/java/com/concur/basesource/convertor/task/ConvertTask.java:185-237 | a sub-task reports only for its own row |
| ConvertTask.AllEventsRows | src/main/java/com/concur/basesource/convertor/task/ConvertTask.java:100-113 | each file's events carry that file's row number |
| ConvertTask.AllEventsPrefix | src/main/java/com/concur/basesource/convertor/task/ConvertTask.java:100-113 | the events of the first j files are the first file's followed by those of the next j - 1 from the next row |
| ConvertTask.AllEventsSplit | src/main/java/com/concur/basesource/convertor/task/ConvertTask.java:100-113 | files handed out in two stretches add the same events as in one |
| ConvertTask.Opened | src/main/java/com/concur/basesource/convertor/task/ConvertTask.java:91-97 | a pending iterator is kept; otherwise a new one from row 0 and a cleared table |
| ConvertTask.Loop | src/main/java/com/concur/basesource/convertor/task/ConvertTask.java:100-113 | the loop drains the iterator, pauses keeping it when the status left STARTED, or crashes after a reset |
| ConvertTask.Run | src/main/java/com/concur/basesource/convertor/task/ConvertTask.java:91-124 | onComplete exactly when the loop drained with the status still STARTED, which becomes FINISHED; the iterator is dropped |
| ConvertTask.LoopStep | src/main/java/com/concur/basesource/convertor/task/ConvertTask.java:100-113 | a running loop that no control call reaches hands out its next file and goes on with the next step |
| ConvertTask.HandedEvents | src/main/java/com/concur/basesource/convertor/task/ConvertTask.java:104-112 | handing out the next file puts its events in front of those of the files after it |
| ConvertTask.LoopUninterrupted | src/main/java/com/concur/basesource/convertor/task/ConvertTask.java:100-113 | uninterrupted, every remaining file is handed out once, the index advancing by one each |
| ConvertTask.LoopStopped | src/main/java/com/concur/basesource/convertor/task/ConvertTask.java:101-102 | a stop before a file pauses the loop there, keeping the rest of the iterator |
| ConvertTask.StepEvents | src/main/java/com/concur/basesource/convertor/task/ConvertTask.java:104-112 | handing out files one at a time adds their events in order |
| ConvertTask.LoopReset | src/main/java/com/concur/basesource/convertor/task/ConvertTask.java:100-113 | a reset at any step leaves CANCEL, no iterator, row 0, a cleared table, and the loop throws (also lines 147-156) |
| ConvertTask.LoopStoppedAtEnd | src/main/java/com/concur/basesource/convertor/task/ConvertTask.java:100-124 | a stop after the last file: the loop drains but STOPED stays |
| ConvertTask.UninterruptedRun | src/main/java/com/concur/basesource/convertor/task/ConvertTask.java:91-124 | an uninterrupted run converts every row from 0, or the pending files, and finishes |
| ConvertTask.StoppedRun | src/main/java/com/concur/basesource/convertor/task/ConvertTask.java:91-124 | a stop before the j-th file of a fresh run pauses it with rows j onward pending and the rows before converted |
| ConvertTask.ResumedRun | src/main/java/com/concur/basesource/convertor/task/ConvertTask.java:91-124 | resuming a run paused before row j converts the pending rows and ends as one run over all rows |
| ConvertTask.StopThenResume | src/main/java/com/concur/basesource/convertor/task/ConvertTask.java:91-124 | stopping before the j-th file and starting again converts every row once, as a run never stopped |
| ConvertTask.ResetDuringRun | src/main/java/com/concur/basesource/convertor/task/ConvertTask.java:100-124 | a reset during a run cancels the current task and start throws (also lines 147-156) |
| ConvertTask.StopAfterLastFile | src/main/java/com/concur/basesource/convertor/task/ConvertTask.java:100-124 | a stop after the last file skips onComplete and drops the iterator, so the next start begins from row 0 |
| ConvertTask.FileType | src/main/java/com/concur/basesource/convertor/task/ConvertTask.java:274-275 | the text after the last '.', the whole name without one; the name is the rest, a '.', and the type |
| ConvertTask.FormatFor | src/main/java/com/concur/basesource/convertor/task/ConvertTask.java:278 | an Excel format at file: plus the path, whose suffix is the file type |
| ConvertTask.DefinitionFor | src/main/java/com/concur/basesource/convertor/task/ConvertTask.java:272-280 | the class's data is read as Excel from the converted file |
| ConvertTask.ProgressTable.constructor | src/main/java/com/concur/basesource/convertor/task/ConvertTask.java:67-71 | a table over the rows with no changes |
| ConvertTask.ProgressTable.ClearProgress | src/main/java/com/concur/basesource/convertor/task/ConvertTask.java:96 | the changes are cleared, the rows kept |
| ConvertTask.ProgressTable.Record | src/main/java/com/concur/basesource/convertor/task/ConvertTask.java:244 | one change appended (also lines 251) |
| ConvertTask.ConvertTask.constructor | src/main/java/com/concur/basesource/convertor/task/ConvertTask.java:67-71 | a new task is INIT with no iterator at row 0 |
| ConvertTask.ConvertTask.Stop | src/main/java/com/concur/basesource/convertor/task/ConvertTask.java:131-133 | the status becomes STOPED, nothing else changes |
| ConvertTask.ConvertTask.Reset | src/main/java/com/concur/basesource/convertor/task/ConvertTask.java:147-156 | CANCEL, row 0, no iterator, a cleared table |
| ConvertTask.ConvertTask.ChangeInputPath | src/main/java/com/concur/basesource/convertor/task/ConvertTask.java:172-178 | a reset to the new path |
| ConvertTask.ConvertTask.UpdateProgress | src/main/java/com/concur/basesource/convertor/task/ConvertTask.java:242-246 | reports the current row only while STARTED or STOPED |
| ConvertTask.ConvertTask.MarkAsFail | src/main/java/com/concur/basesource/convertor/task/ConvertTask.java:249-253 | marks the current row only while STARTED or STOPED |
| ConvertTask.ConvertTask.RunSubTask | src/main/java/com/concur/basesource/convertor/task/ConvertTask.java:185-237 | the sub-task adds exactly its events to the table |
| ConvertTask.ConvertTask.RecordSheets | src/main/java/com/concur/basesource/convertor/task/ConvertTask.java:194-233 | the sheet loop adds, in order, one event per sheet for the current row |
| ConvertTask.ConvertTask.Begin | src/main/java/com/concur/basesource/convertor/task/ConvertTask.java:78-85 | nothing while STARTED; otherwise STARTED and onStart |
| ConvertTask.ConvertTask.Continue | src/main/java/com/concur/basesource/convertor/task/ConvertTask.java:91-124 | the loop leaves the state Run describes |
| ConvertTask.ConvertTask.RunLoop | src/main/java/com/concur/basesource/convertor/task/ConvertTask.java:100-113 | the `while (cur.hasNext())` loop leaves exactly the state and exit Loop describes, interrupts included |
| ConvertTask.ConvertTask.Start | src/main/java/com/concur/basesource/convertor/task/ConvertTask.java:77-125 | a no-op while STARTED; otherwise the run Run describes |
| TaskManager.TaskManager.constructor | src/main/java/com/concur/basesource/convertor/model/TaskManager.java:43-57 | no task, empty storage manager |
| TaskManager.TaskManager.Status | src/main/java/com/concur/basesource/convertor/model/TaskManager.java:136-141 | INIT without a task, else the current task's status |
| TaskManager.TaskManager.IsStarted | src/main/java/com/concur/basesource/convertor/model/TaskManager.java:147-152 | true exactly when a task exists and is STARTED |
| TaskManager.TaskManager.Stop | src/main/java/com/concur/basesource/convertor/model/TaskManager.java:109-115 | false without a task; otherwise the current task is stopped and true |
| TaskManager.TaskManager.Cancel | src/main/java/com/concur/basesource/convertor/model/TaskManager.java:122-129 | false without a task; otherwise the current task is reset, dropped, and true |
| TaskManager.TaskManager.ChangeInputPath | src/main/java/com/concur/basesource/convertor/model/TaskManager.java:158-162 | a no-op without a task; otherwise the current task is reset to the path |
| TaskManager.TaskManager.Run | src/main/java/com/concur/basesource/convertor/model/TaskManager.java:73-102 | a task is created only when none exists; a task already started is left alone; otherwise onStart clears the storages first, the run ends as `ConvertTask.Run` says, every storage held afterwards was created during the run, no definition is dropped or replaced, and onComplete drops the current task |
| ClassScanner.FiltersNested | src/main/java/com/concur/basesource/convertor/utils/ClassScanner.java:95-101 | the nested filter takes directories and class files; the top-level one also jars (also lines 174-179) |
| ClassScanner.JarClassName | src/main/java/com/concur/basesource/convertor/utils/ClassScanner.java:141-145 | '/' becomes '.' and the 6-character .class suffix is dropped |
| ClassScanner.JarClassNameRoundTrip | src/main/java/com/concur/basesource/convertor/utils/ClassScanner.java:141-145 | a class stored under its package path comes back out under its name |
| ClassScanner.JarClassesOf | src/main/java/com/concur/basesource/convertor/utils/ClassScanner.java:133-151 | exactly the classes of the entries taken |
| ClassScanner.JarClasses | src/main/java/com/concur/basesource/convertor/utils/ClassScanner.java:123-155 | nothing for an unreadable jar; otherwise exactly the loadable non-directory .class entries |
| ClassScanner.LoadJarClasses | src/main/java/com/concur/basesource/convertor/utils/ClassScanner.java:123-155 | the entry loop adds exactly those classes |
| ClassScanner.ParentDirectory | src/main/java/com/concur/basesource/convertor/utils/ClassScanner.java:206 | the text before the last separator, none without one |
| ClassScanner.PackageDirectoryAsWritten | src/main/java/com/concur/basesource/convertor/utils/ClassScanner.java:206-208 | as written, the package directory throws exactly when the class name has no package |
| ClassScanner.FixedBaseAsWritten | src/main/java/com/concur/basesource/convertor/utils/ClassScanner.java:204-219 | as written, the base path fix throws for a default-package class |
| ClassScanner.DefaultPackageThrows | src/main/java/com/concur/basesource/convertor/utils/ClassScanner.java:208 | Item in /res/Item.class makes the fix throw |
| ClassScanner.PackageDirectory | src/main/java/com/concur/basesource/convertor/utils/ClassScanner.java:206-208 | corrected: the package as a directory path, empty for the default package |
| ClassScanner.FixedBase | src/main/java/com/concur/basesource/convertor/utils/ClassScanner.java:204-217 | the parent directory cut at the last occurrence of the package directory, unchanged when absent; agrees with the code where it does not throw |
| ClassScanner.DefaultPackageBase | src/main/java/com/concur/basesource/convertor/utils/ClassScanner.java:206-217 | for a default-package class the base path is the file's directory |
| ClassScanner.Define | src/main/java/com/concur/basesource/convertor/utils/ClassScanner.java:196-221 | the class is added and the base path fixed; once fixed it is never recomputed, with the corrected base-path fix |
| ClassScanner.Scanned | src/main/java/com/concur/basesource/convertor/utils/ClassScanner.java:87-92 | a missing path or plain file gives no classes |
| ClassScanner.LoadFilesKeepsFixed | src/main/java/com/concur/basesource/convertor/utils/ClassScanner.java:164-188 | once fixed the base path stays as it is through a walk (also lines 204) |
| ClassScanner.WalkKeepsFixed | src/main/java/com/concur/basesource/convertor/utils/ClassScanner.java:180-187 | the same for a directory listing (also lines 204) |
| ClassScanner.LoadFilesNeverThrows | src/main/java/com/concur/basesource/convertor/utils/ClassScanner.java:164-188 | with the corrected fix a walk never throws |
| ClassScanner.WalkNeverThrows | src/main/java/com/concur/basesource/convertor/utils/ClassScanner.java:180-187 | the same for a directory listing |
| ClassScanner.TopNeverThrows | src/main/java/com/concur/basesource/convertor/utils/ClassScanner.java:104-112 | and so for the top-level loop of scanPath |
| ClassScanner.ClassScanner.constructor | src/main/java/com/concur/basesource/convertor/utils/ClassScanner.java:79-86 | a new scanner has not fixed its base path |
| ClassScanner.ClassScanner.DefineClass | src/main/java/com/concur/basesource/convertor/utils/ClassScanner.java:196-221 | defineClass in place, as Define says, with the corrected base-path fix |
| ClassScanner.ClassScanner.LoadFileClasses | src/main/java/com/concur/basesource/convertor/utils/ClassScanner.java:164-188 | loadFileClasses in place, as LoadFiles says, with the corrected base-path fix |
| ClassScanner.ClassScanner.ScanPath | src/main/java/com/concur/basesource/convertor/utils/ClassScanner.java:79-115 | scanPath in place, as Scanned says, with the corrected base-path fix |
| Declarations.IndexNamed | src/main/java/com/concur/basesource/anno/Index.java:17-27 | an index declared by name alone has order 0, is not unique and has no orderBy |
| Declarations.FieldNamed | src/main/java/com/concur/basesource/reader/ExcelReader.java:215 | the declared field of that name, when the class has one |
| Values.Default | src/main/java/com/concur/basesource/reader/ExcelReader.java:176-184 | a new instance's field holds a value of the field's type |
| Values.CompareToAntisymmetric | src/main/java/com/concur/basesource/storage/FieldSortComparator.java:79 | the field values' compareTo is antisymmetric and 0 only on equal values |
| Sorting.Sort | src/main/java/com/concur/basesource/storage/Storage.java:290 | Collections.sort keeps the list's length and elements |
| Sorting.SortSorted | src/main/java/com/concur/basesource/storage/Storage.java:290 | with an antisymmetric comparator the sorted list is in order; with a transitive one every element compares at most equal to every later one, and equal elements keep their relative order |
| Sorting.SortedPairwise | src/main/java/com/concur/basesource/storage/Storage.java:290 | with a transitive comparator, order between neighbours is order between any two elements |
| Sorting.InsertStable | src/main/java/com/concur/basesource/storage/Storage.java:290 | inserting places the new element after the elements equal to it |
| Sorting.SortStable | src/main/java/com/concur/basesource/storage/Storage.java:290 | Collections.sort is stable: elements equal to any p keep their relative order |
| JavaStrings.CompareToTransitive | src/main/java/com/concur/basesource/storage/FieldSortComparator.java:79 | String.compareTo is transitive |
| JavaStrings.CompareToFirstDifference | src/main/java/com/concur/basesource/storage/FieldSortComparator.java:79 | String.compareTo of texts that agree up to position `k` and differ there is the difference of their characters at `k` |
| Values.CompareToTransitive | src/main/java/com/concur/basesource/storage/FieldSortComparator.java:79 | the field values' compareTo is transitive, so it orders non-null values totally |
| FieldSortComparator.KeyCompareAntisymmetric | src/main/java/com/concur/basesource/storage/FieldSortComparator.java:67-79 | one key's null-first comparison is antisymmetric and 0 only on equal values |
| FieldSortComparator.KeyCompareTransitive | src/main/java/com/concur/basesource/storage/FieldSortComparator.java:67-79 | one key's null-first comparison is transitive |
| FieldSortComparator.CompareKeysStep | src/main/java/com/concur/basesource/storage/FieldSortComparator.java:63-83 | the first key on which two records differ decides, scaled by its direction |
| FieldSortComparator.CompareKeysTransitive | src/main/java/com/concur/basesource/storage/FieldSortComparator.java:63-83 | the corrected comparison is transitive on every three records |
| FieldSortComparator.AsFunctionTransitive | src/main/java/com/concur/basesource/storage/FieldSortComparator.java:59-84 | the comparator used for sorting is transitive, so with antisymmetry it is a total preorder |
| Storage.Initialized | src/main/java/com/concur/basesource/storage/Storage.java:50-78 | a failure to build the identity or index getters keeps the stores; otherwise the first reload runs |
| Storage.ReloadedAgain | src/main/java/com/concur/basesource/storage/Storage.java:217-296 | reloading the same file after a completed reload leaves the stores as they are |
| Storage.ReloadAfterInitialized | src/main/java/com/concur/basesource/storage/StorageManager.java:73-74 | a reload right after an initialize that completed leaves the stores as the first load did |
| Sorting.SortKeepsSorted | src/main/java/com/concur/basesource/storage/Storage.java:290 | a list already in order is left as it is |

## Left out

- Concurrency is left out: the read/write lock of `Storage`, the atomicity of `putIfAbsent`, `volatile` fields and the thread pool of `TaskManager`. A `stop` or `cancel` landing while `start` runs is an `interrupts` map. It says which call lands before which step of the loop.
- Reflection, annotations and Spring are left out. Classes are `Declarations.ResourceClass` values, records are maps, and a getter method's result is the value stored under its `MethodMember`. The bean lookups of `InjectDefinition` and injecting values into records are not modelled. Static injection in `Storage.initialize` is not modelled either.
- File I/O and decoding are parameters, not modelled. The file at a location, decoded by its reader, is the `files` map. A missing location is the `IOException` raised before `clear()`. Spring's `ConvertUtils` conversion is the `Converter` parameter of `ExcelReader`, and `javax.validation` is the `Validator` parameter of `Storage`.
- POI workbook handling is left out: `getWorkbook` and cell-type coercion. A sheet is a sequence of optional rows of optional cell texts.
- `ClassMetaVisitor` (reading a class file's name), class loading and directory listing are left out. A file's class name, a jar's entries and whether a class loads are parameters. `ClassScanner.ClassScanner.DefineClass` takes `loadClass(className, bytes)` (`ClassScanner.java:201`) to succeed; a class defined twice by the same loader would be refused in Java.
- `ClassScanner.scanPackage` (class path resources) is not modelled.
- Progress percentages are floats and are not modelled. `updateProgress` is a `Progress(row, done)` event. The intermediate progress calls of `readSheetData` are not modelled.
- `ConvertTask.RunSubTask`: what converting a file did comes from the `outcomes` parameter. This covers opening the workbook, listing its sheets, and whether each sheet converted, through the storage manager or `readSheetData`. `writeFile` and its JSON output are not modelled.
- `ConvertTask.ConvertTask.Start`: `loadCodeSource` (`ConvertTask.java:288-301`) is not modelled inside `start`. `ClassScanner` is modelled on its own, and the scanner's exception for a default-package class is listed under Findings.
- `TaskManager.TaskManager.Run`: the thread pool is left out; the runnable runs inline. `UserConfig` (the input path) is a parameter.
- TaskManager.TaskManager.Run, ConvertTask.ConvertTask.RunSubTask: the definitions and storages that a converted sheet registers (`ConvertTask.java:204-209`, through `StorageManager.initialize` and `getStorage`) are not modelled, so the model's manager ends a run with no storage. Run promises only that every storage held afterwards is new and that no earlier definition is dropped or replaced. In Java the definitions are keyed by `Class` objects, and each run loads its classes through a new class loader, so they are new keys.
- TaskManager.TaskManager.Run: only `stop` and `cancel` are interleaved with a run. A `changeInputPath` landing during a run (`TaskManager.java:158-163`) also resets the task, so that `start` throws, but it keeps `curTask`; the model drops `curTask` after any reset.
- JavaStrings.CompareTo: strings are sequences of Unicode scalar values, not UTF-16 code units. Two texts that differ first at a character above U+FFFF and one in U+E000..U+FFFF compare the other way round in Java: U+1F600 (surrogate U+D83D) sorts before U+FF01 there, after it here. This carries over to `StringComparator` and to sorting by `String` keys.
- ExcelReader.NewInstance: field initializers and the no-argument constructor are not run; every field starts at its type's default. A class that `newInstance` cannot instantiate (`ExcelReader.java:176-183` rethrows it as `RuntimeException`) is not modelled.
- `StorageManager.startListeningPath`, `getResource` and the other file observer callbacks are left out. `getResource` is `getStorage` then `get(key, false)`. Those callbacks do nothing, or only set up the monitor.
- The `ClassCastException` raised when two sort-key values have different kinds is left out. `Values.CompareTo` orders integers before texts so that the order is total.
- `Storage.SortIndexes`: an index whose name has no getter is treated as unsorted. In Java it would throw `NullPointerException` at `Storage.java:288`. Every index name comes from a getter, so that case does not arise.
- The callbacks `onStart`/`onComplete` are reported as a boolean or a `Notice`. Logging and the `Observable` notification are a counter.
- `HashMap` and `HashSet` iteration orders are fixed orders. Getters are visited in group order, then method order. `listSheets` groups keep workbook order. Where a failure leaves partial state, that state depends on this order.
- Storage.SortList, Storage.SortIndexes, Storage.SortIndexesSpec, Storage.SortListSpec, Storage.SortLists, Storage.SortAll, Storage.Reloaded, Storage.ReloadSpec, Storage.Storage.SortIndexLists and Storage.Storage.Reload sort with the corrected comparator (see Findings). A reload whose sort would compare a record with a sort-key value against one without it, in that order, throws `NullPointerException` in Java after the stores were filled and notifies nobody; the model completes that reload, sorts the list, and notifies.
- ClassScanner.Define, ClassScanner.ClassScanner.DefineClass, ClassScanner.ClassScanner.LoadFileClasses and ClassScanner.ClassScanner.ScanPath fix the base path with the corrected `FixedBase` (see Findings). In Java, a default-package class defined while the path is not yet fixed throws `StringIndexOutOfBoundsException`, which aborts the scan; the model takes the file's directory as the base path.
- `SheetUtils.ReadSheetData`: requires at least one sheet. `listSheets` only builds groups that hold a sheet; Java would throw on `get(0)` of an empty group.

## Findings

| source | as written | input that shows it | evidently intended | confidence | as-written member | corrected member |
|---|---|---|---|---|---|---|
| src/main/java/com/concur/basesource/storage/FieldSortComparator.java:76 | the second null test checks `field1` again, so a null second value reaches `field1.compareTo(null)` | sort key `level asc`, first record level 1, second record without a level: `NullPointerException`. In a list index ordered by `level asc` that loads a record without a level before one with level 1, `Collections.sort` at `Storage.java:290` makes that call; the catch at `Storage.java:297-305` takes only `IOException` and `ClassCastException`, so `reload` throws after the stores were filled and notifies no observer | `if (field2 == null) return sortType.of(1);` so that the comparator is antisymmetric | high (not executed) | FieldSortComparator.AsWrittenThrowsOnNullSecond | FieldSortComparator.CompareKeysAntisymmetric |
| src/main/java/com/concur/basesource/convertor/utils/ClassScanner.java:208 | for a class in the default package, `classDirectory.substring(0, classDirectory.lastIndexOf(File.separator))` is `substring(0, -1)` | class `Item` in `/res/Item.class` as the first class defined: `StringIndexOutOfBoundsException`, which aborts `scanPath` and so `start` (left `STARTED`) | an empty package directory, so the base path is the file's directory | high (not executed) | ClassScanner.DefaultPackageThrows | ClassScanner.DefaultPackageBase |
