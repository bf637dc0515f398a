# desktop-organizer, modelled in Dafny

This project models desktop-organizer, which is two small scripts that work on the user's `Desktop` folder.

- `organize_desktop.py` sorts the top-level files of the desktop into category folders with Korean names:
  - images `이미지`, documents `문서`, videos `동영상`, music `음악`, archives `압축파일`, executables `실행파일`, code `코드`, CAD `CAD`;
  - everything else goes to `기타` ("other").
- `list_files.py` prints the same classification without touching anything:
  - it uses English category names and has an extra `shortcuts` category;
  - the fallback is `etc`;
  - categories and the names under them are printed in sorted order.

Both scripts classify a file by the lower-cased pathlib suffix of its name. They look that suffix up in `EXT_TO_CATEGORY`, which is the inverse of the ordered `CATEGORY_MAP`. Files are grouped in a `defaultdict(list)` in the order `iterdir()` yields them.

The organiser does three extra things:
- It skips `desktop.ini` and `thumbs.db` in any letter case, and files whose suffix is exactly `.lnk` or `.url`.
- It asks for confirmation. Only an answer that is `y` after `strip().lower()` goes ahead.
- It then moves each file into `<desktop>/<category>`, creating the folder if needed. It skips a file when the folder already has an entry of that name. It counts moves, skips and moves per category.

Modules, one per concern:

- `Extensions` (`extensions.dfy`): the extension sets of the category tables. It also holds one lemma per pair of sets, stating that the two sets share no extension.
- `PathNames` (`path_names.dfy`): pathlib's `suffix`, `str.lower()` and `str.strip()`.
- `CategoryTable` (`category_table.dfy`):
  - a category table;
  - the module-level loop that builds `EXT_TO_CATEGORY` from it, with last-write-wins semantics;
  - `dict.get` with a fallback.
- `NameOrder` (`name_order.dfy`): Python's string order and `sorted()`.
- `Grouping` (`grouping.dfy`): the `defaultdict(list)` as an ordered list of keys with their lists, and the scanner loop's grouping.
- `OrganizeDesktop` (`organize_desktop.dfy`): the organiser's table, its filters and `scan_desktop`.
- `Mover` (`mover.dfy`): the desktop as a `Desktop` object whose folders change in place, and `move_files`.
- `OrganizeMain` (`organize_main.dfy`): the organiser's `main`.
- `ListFiles` (`list_files.dfy`): the lister's table and `categorize_files`.

The environment enters the methods as parameters:
- whether the desktop folder exists;
- the order in which `iterdir()` yields the entries, as a sequence of (name, is-regular-file) pairs;
- the line the user types.

## Model

| member | source | states |
|---|---|---|
| PathNames.Suffix | organize_desktop.py:39-42 | A non-empty suffix starts with a dot, has at least one more character, contains no other dot, is shorter than the name and is its tail. |
| PathNames.SuffixAt | organize_desktop.py:42 | A dot that is neither the first nor the last character, with no dot after it, starts the suffix. |
| PathNames.SuffixExamples | list_files.py:38 | Only the last dot counts. A leading dot alone, a trailing dot or no dot gives the empty suffix. |
| PathNames.LastDot | organize_desktop.py:39 | The position of the last dot, or -1: the character there is a dot and no later character is. |
| PathNames.Lower | organize_desktop.py:37 | Defines ASCII `str.lower()`. It keeps the length; `PathNames.LowerAt`, `PathNames.LowerIdempotent` and `PathNames.LowerIsY` state its other properties. |
| PathNames.LowerChar | organize_desktop.py:37 | Defines `str.lower()` on one character, restricted to 'A'..'Z'; `PathNames.LowerAt` lifts it to strings. |
| PathNames.LowerAt | organize_desktop.py:37 | Lower-casing maps each character to its ASCII lower-case form, position by position. |
| PathNames.LowerIdempotent | organize_desktop.py:42 | Lower-casing twice is lower-casing once. |
| PathNames.LowerIsY | organize_desktop.py:113-114 | Exactly "y" and "Y" lower-case to "y". |
| PathNames.Whitespace | organize_desktop.py:113 | Defines the 29 code points for which Python's `str.isspace()` holds, which `strip()` with no argument removes. |
| PathNames.StripChars | organize_desktop.py:113 | Defines `str.strip(chars)`: the longest leading run, then the longest trailing run, of `cs` removed. `PathNames.StripParts`, `PathNames.StripEnds` and `PathNames.StripToOne` state its properties. |
| PathNames.LeadingRun | organize_desktop.py:113 | The longest prefix made of strip characters: all of it is strip characters and the next character is not. |
| PathNames.TrailingRun | organize_desktop.py:113 | The longest suffix made of strip characters: all of it is strip characters and the character before it is not. |
| PathNames.Strip | organize_desktop.py:113 | Defines `str.strip()` with Python's whitespace set. `PathNames.StripShape`, `PathNames.StripEnds` and `PathNames.StripToOne` state its properties. |
| PathNames.StripEnds | organize_desktop.py:113 | What strip keeps neither starts nor ends with a strip character, so the runs it removes are the longest ones. |
| PathNames.StripParts | organize_desktop.py:113 | Returns the two runs strip removes: both are made of strip characters, and the input is the first run, the stripped text and the second run. |
| PathNames.StripShape | organize_desktop.py:113 | The stripped string is the original with a run of strip characters removed from each end. |
| PathNames.StripPadded | organize_desktop.py:113 | One character outside the strip set, padded with strip characters, strips to itself. |
| PathNames.StripToOne | organize_desktop.py:113 | Stripping leaves exactly `[c]` if and only if the string is `c` padded on both sides with strip characters. |
| CategoryTable.BuildExtToCategory | organize_desktop.py:25-28 | The nested loop builds exactly the inverse of the table, whatever order each set yields its extensions in. |
| CategoryTable.Inverse | organize_desktop.py:25-28 | Defines `EXT_TO_CATEGORY` as the nested loop leaves it, row after row in table order. `CategoryTable.InverseAt` and `CategoryTable.BuildExtToCategory` state its properties. |
| CategoryTable.LastListing | organize_desktop.py:26-28 | The last row that lists an extension, or -1: that row lists it and no later row does. |
| CategoryTable.InverseAt | list_files.py:22-25 | An extension is a key of the inverse if and only if some row lists it. Its value is the name of the last row that lists it (last write wins). |
| CategoryTable.InverseLastWins | organize_desktop.py:26-28 | An extension listed by row `i` and by no later row maps to row `i`'s name. |
| CategoryTable.InverseOfDisjoint | organize_desktop.py:25-28 | In a table without shared extensions, every listed extension maps to its own row. |
| CategoryTable.Get | organize_desktop.py:43 | Defines `dict.get(key, default)`. It has no contract of its own; `CategoryTable.ClassifyIn` states what it gives on the inverse of a table. |
| CategoryTable.ClassifyIn | list_files.py:39 | Classification gives the name of the last row listing the extension, or the fallback when no row lists it. So the result is always the fallback or a row's name. |
| CategoryTable.ClassifyListed | organize_desktop.py:43 | In a table without shared extensions, a listed extension is classified into its own row. |
| CategoryTable.ClassifyUnlisted | list_files.py:39 | An extension that no row lists falls back. |
| NameOrder.Leq | list_files.py:51-52 | Defines `a <= b` on Python strings, code point by code point, a proper prefix first. `NameOrder.LeqAntisymmetric`, `NameOrder.LeqTransitive` and `NameOrder.LeqTotal` make it a total order. |
| NameOrder.Sort | list_files.py:51-52 | Defines `sorted()` as an insertion sort. `NameOrder.SortPermutes`, `NameOrder.SortSorted` and `NameOrder.SortIsSorted` show it is the one ascending permutation. |
| NameOrder.LeqAntisymmetric | list_files.py:51 | Python's string order is antisymmetric. |
| NameOrder.LeqTransitive | list_files.py:51 | Python's string order is transitive. |
| NameOrder.LeqTotal | list_files.py:51 | Python's string order is total. |
| NameOrder.SortPermutes | list_files.py:52 | `sorted` returns a permutation of its argument. |
| NameOrder.SortSorted | list_files.py:52 | `sorted` returns an ascending list. |
| NameOrder.SortedUnique | list_files.py:51-52 | Two ascending permutations of the same names are equal. |
| NameOrder.SortIsSorted | list_files.py:51-52 | `Sort` is the only ascending permutation of its argument, so it agrees with Python's `sorted`. |
| NameOrder.SortNoDup | list_files.py:51 | Sorting distinct names gives distinct names. |
| Grouping.IndexOf | organize_desktop.py:44 | The position of key `c`, or -1: the group there has key `c`, and when there is none no group has it. |
| Grouping.IsKey | organize_desktop.py:44 | Defines `c in grouped`. `Grouping.AppendLookup`, `Grouping.GroupAllCategories` and `Grouping.KeysAreKeys` state when it holds. |
| Grouping.Lookup | list_files.py:52 | Defines `grouped.get(c, [])`; `Grouping.GroupAllLookup` states what it gives on a scanned grouping. |
| Grouping.Total | organize_desktop.py:50 | Defines `sum(len(files) for files in grouped.values())`; `Grouping.GroupedShape` and `Grouping.KeyedTotalOfKeys` state its value. |
| Grouping.Append | organize_desktop.py:44 | Defines `grouped[c].append(f)` on a `defaultdict(list)`; `Grouping.AppendLookup` and `Grouping.AppendShape` state its effect. |
| Grouping.AppendLookup | organize_desktop.py:44 | `grouped[c].append(f)` extends the list under `c` by `f`. It leaves every other list alone and adds no key other than `c`. |
| Grouping.AppendShape | list_files.py:40 | Appending adds one entry, keeps the keys unique and keeps every list non-empty. |
| Grouping.GroupAll | organize_desktop.py:32-46 | Defines the grouping the scanner loop builds, one append per item. `Grouping.GroupAllLookup`, `Grouping.GroupAllShape` and `Grouping.GroupAllCategories` characterise it. |
| Grouping.Select | organize_desktop.py:44 | The names of the items classified into `c`, in iteration order. This is the independent reference for each list, and it is never longer than the items. |
| Grouping.GroupAllLookup | organize_desktop.py:32-46 | After the loop, each category's list is exactly the names classified into it, in iteration order. |
| Grouping.GroupAllShape | organize_desktop.py:32-46 | The grouping has unique keys and no empty list, and its total is the number of items appended. |
| Grouping.GroupAllCategories | organize_desktop.py:32-46 | A category is a key if and only if some item was classified into it. |
| Grouping.SelectMember | organize_desktop.py:44 | A name is in a category's list if and only if some item with that name was classified into that category. |
| Grouping.ExactlyOneGroup | organize_desktop.py:44 | When names are distinct, each item is in the list of its own category and in no other list. |
| Grouping.GroupAllDistinct | organize_desktop.py:34-44 | Names from one directory are grouped without repeats: no list repeats a name and no name is in two lists. |
| Grouping.GroupAllItemsStep | organize_desktop.py:34-44 | One more directory entry appends to the grouping when the filters keep the entry, and otherwise changes nothing. |
| Grouping.Keys | list_files.py:51 | The keys of the grouping, in insertion order. |
| Grouping.KeysAreKeys | list_files.py:51 | The key list holds exactly the keys, and each of them once. |
| Grouping.Items | organize_desktop.py:34-44 | Defines the kept entries with their categories, in iteration order. `Grouping.ItemsMember`, `Grouping.ItemsLength` and `Grouping.ItemsDistinct` state its properties. |
| Grouping.ItemsMember | organize_desktop.py:34-44 | An item is a kept entry tagged with the category of its name. |
| Grouping.ItemsDistinct | organize_desktop.py:34-44 | Distinct directory entries give items with distinct names. |
| Grouping.ItemsLength | organize_desktop.py:34-44 | The loop appends once per kept entry. |
| Grouping.GroupedMember | list_files.py:35-40 | A name is in a category's list if and only if a kept entry has that name and the category is the one its name maps to. |
| Grouping.NoneKept | organize_desktop.py:107 | When no entry is kept, nothing is appended. |
| Grouping.GroupedShape | organize_desktop.py:32-46 | The grouping has unique keys, no empty list and a total equal to the number of kept entries. It is empty if and only if no entry is kept. |
| Grouping.KeyedTotalConcat | list_files.py:46 | Counting the entries under the keys of a concatenation adds the two counts. |
| Grouping.KeyedTotalPermutation | list_files.py:46 | Counting the entries key by key does not depend on the order of the keys. |
| Grouping.KeyedTotalOfKeys | list_files.py:46 | With unique keys, counting over all keys gives `sum(len(files) for files in grouped.values())`. |
| OrganizeDesktop.SkipFiles | organize_desktop.py:23 | Defines `SKIP_FILES`, "desktop.ini" and "thumbs.db". `OrganizeDesktop.ScanSkipsSkipFiles` states its effect. |
| OrganizeDesktop.Other | organize_desktop.py:43 | Defines the fallback category "기타". `OrganizeDesktop.ClassifiedAsOther` states when it is used. |
| OrganizeDesktop.CategoryMap | organize_desktop.py:12-21 | Defines the organiser's `CATEGORY_MAP` in dict order; `OrganizeDesktop.TableDisjoint` states that its sets share nothing. |
| OrganizeDesktop.ExtToCategory | organize_desktop.py:25-28 | Defines the organiser's `EXT_TO_CATEGORY` as the inverse of its table; `OrganizeDesktop.TableInverted` states its entries. |
| OrganizeDesktop.Classify | organize_desktop.py:43 | Defines `EXT_TO_CATEGORY.get(ext, "기타")`. `OrganizeDesktop.TableInverted` and `OrganizeDesktop.ClassifiedAsOther` state what it gives. |
| OrganizeDesktop.TableDisjoint | organize_desktop.py:12-21 | No extension appears under two categories of the organiser's table. |
| OrganizeDesktop.TableInverted | organize_desktop.py:12-28 | Every extension of the table is a key of `EXT_TO_CATEGORY`, mapped to its own category and classified into it. |
| OrganizeDesktop.ClassifiedAsOther | organize_desktop.py:42-43 | An extension the table does not list, the empty one included, is classified as "기타". |
| OrganizeDesktop.CategoryOf | organize_desktop.py:42-43 | Defines the category of a name: its suffix, lower-cased, classified. `OrganizeDesktop.UpperCaseShortcutKept` is an instance. |
| OrganizeDesktop.Kept | organize_desktop.py:35-40 | Defines the three filters: a regular file, not a skip name after lower-casing, and a suffix that is not exactly ".lnk" or ".url". The `OrganizeDesktop.ScanSkips*` lemmas state their effect. |
| OrganizeDesktop.ScanItems | organize_desktop.py:34-44 | Defines the kept entries of a listing with their categories; `OrganizeDesktop.ScanGroupMember` states which are grouped. |
| OrganizeDesktop.ScanDesktop | organize_desktop.py:31-46 | The loop over the entries builds the grouping of the kept entries, each under the category of its lower-cased suffix. |
| OrganizeDesktop.ScanGroupMember | organize_desktop.py:34-44 | A name is grouped under `c` if and only if a kept entry has that name and its category is `c`. |
| OrganizeDesktop.ScanSkipsNonFiles | organize_desktop.py:35-36 | Directories and other entries that are not regular files are never grouped. |
| OrganizeDesktop.ScanSkipsSkipFiles | organize_desktop.py:23-38 | "desktop.ini" and "thumbs.db", in any letter case, are never grouped. |
| OrganizeDesktop.ScanSkipsShortcuts | organize_desktop.py:39-40 | Files whose suffix is exactly ".lnk" or ".url" are never grouped. |
| OrganizeDesktop.ScanShape | organize_desktop.py:32-50 | The grouping has unique keys and no empty list. Its total, the number `preview` prints, is the number of kept entries. It is empty, so that `main` stops, if and only if no entry is kept. |
| OrganizeDesktop.ScanExactlyOneGroup | organize_desktop.py:42-44 | A kept file is in the group of its category and in no other group. |
| OrganizeDesktop.ScanDistinct | organize_desktop.py:34-44 | A directory listing with distinct names groups each name once. |
| OrganizeDesktop.LowerDotLnk | organize_desktop.py:42 | ".LNK" lower-cases to ".lnk". |
| OrganizeDesktop.UpperCaseShortcutKept | organize_desktop.py:39-43 | The shortcut filter does not lower-case: "X.LNK" is kept, and it is classified as "기타". |
| OrganizeDesktop.UpperCaseSkipFileSkipped | organize_desktop.py:37-38 | The skip filter does lower-case: "DESKTOP.INI" is not kept. |
| Mover.Desktop.constructor | organize_desktop.py:10 | A desktop with the given top-level files and folders. |
| Mover.Desktop.MakeDir | organize_desktop.py:73 | `mkdir(exist_ok=True)` creates an empty folder when it is missing and keeps an existing one as it is. |
| Mover.Desktop.Move | organize_desktop.py:82 | `shutil.move` takes the name off the top level and puts it into the category folder. Nothing else changes. |
| Mover.Desktop.Has | organize_desktop.py:76-77 | Defines `(desktop / c / name).exists()` on the desktop object: folder `c` holds `name`. `Mover.MoveFiles` branches on it. |
| Mover.Count | organize_desktop.py:69-85 | Defines `stats[c]` on a `defaultdict(int)`: 0 for a missing key. `Mover.MapSumUpdate` and `Mover.MoveFilesCounters` state what the counts add up to. |
| Mover.Start | organize_desktop.py:67-69 | Defines the state at the call: the desktop as it is, both counters at zero and `stats` empty. |
| Mover.MkDir | organize_desktop.py:73 | Defines `mkdir(exist_ok=True)` on the run state, as `Mover.Desktop.MakeDir` performs it. |
| Mover.MoveOne | organize_desktop.py:76-85 | Defines one pass of the inner loop: skip and count when the folder has the name, otherwise move and count. `Mover.MoveOneStats` states its effect on the counters. |
| Mover.MoveGroup | organize_desktop.py:75-85 | Defines the inner loop over one category's files. `Mover.MoveGroupCounts`, `Mover.MoveGroupStats` and `Mover.MoveGroupEffect` state its effect. |
| Mover.MoveAll | organize_desktop.py:71-85 | Defines the outer loop over the categories in dict order. `Mover.MoveAllCounts`, `Mover.MoveAllStats` and `Mover.MoveAllEffect` state its effect. |
| Mover.MoveFiles | organize_desktop.py:66-85 | The nested loops leave the desktop and the three counters exactly as the fold `MoveAll` over the grouping describes. |
| Mover.MoveGroupCounts | organize_desktop.py:75-85 | Each file of a category is counted once, as moved or as skipped. |
| Mover.MoveAllCounts | organize_desktop.py:67-85 | `moved + skipped` grows by exactly the number of files in the grouping. |
| Mover.MapSumRemove | organize_desktop.py:85 | The sum of a map's values does not depend on which key is taken first. |
| Mover.MapSumUpdate | organize_desktop.py:85 | Setting one key of `stats` changes the sum by the difference between its new and old values. |
| Mover.MoveOneStats | organize_desktop.py:84-85 | One move keeps `sum(stats.values()) == moved` and `stats` free of zero counts, and adds no key but its own category. |
| Mover.MoveGroupStats | organize_desktop.py:75-85 | The inner loop keeps the same agreement. |
| Mover.MoveAllStats | organize_desktop.py:71-85 | The outer loop keeps the agreement and counts only categories of the grouping. |
| Mover.MoveFilesCounters | organize_desktop.py:67-85 | `moved + skipped` is the number of files in the grouping. The per-category counts add up to `moved`. Every category in `stats` is a key of the grouping with at least one move. |
| Mover.MoveGroupEffect | organize_desktop.py:75-82 | After one category: its folder holds its old names plus the category's files, and exactly the files it lacked left the top level. |
| Mover.MoveAllEffect | organize_desktop.py:71-82 | After the run: each folder holds its old names plus the files listed under it. The folders are the old ones plus the grouping's keys. A top-level file remains if and only if its category folder already had its name. |
| Mover.MoveFilesKeeps | organize_desktop.py:73-82 | Every name a category folder had before the run is still there, and every listed file's name is there afterwards. |
| Mover.SkippedStaysAtSource | organize_desktop.py:77-80 | A file whose name its category folder already has is skipped and stays at the top level. |
| Mover.MovedLeavesSource | organize_desktop.py:76-84 | A file whose category folder lacks its name leaves the top level and lands in that folder. |
| Mover.MoveGroupAllPresent | organize_desktop.py:77-80 | When the folder already has every name of the category, the inner loop only counts skips. |
| Mover.MoveAllAllPresent | organize_desktop.py:71-80 | When every folder already has every name listed under it, the run only counts skips. |
| Mover.MoveTwice | organize_desktop.py:71-85 | Running `move_files` again with the same grouping moves nothing: every file is skipped, `stats` stays empty and the desktop is unchanged. |
| OrganizeMain.Confirmed | organize_desktop.py:113-114 | Defines `answer.strip().lower() == "y"`; `OrganizeMain.ConfirmedIff` says exactly which answers pass. |
| OrganizeMain.ConfirmedIff | organize_desktop.py:113-114 | The answers that confirm are exactly "y" or "Y" with any run of whitespace before and after. |
| OrganizeMain.ConfirmedPaddedY | organize_desktop.py:113-114 | " Y\n" confirms. |
| OrganizeMain.NotConfirmedYes | organize_desktop.py:113-114 | "yes" does not confirm. |
| OrganizeMain.Outcome | organize_desktop.py:100-118 | Defines how `main` ends: missing folder, nothing to move, cancelled with the grouping, or finished with the grouping and the three counters. `OrganizeMain.Organize` states which end is reached. |
| OrganizeMain.Organize | organize_desktop.py:100-118 | A missing folder stops first, then an empty grouping stops. Otherwise an unconfirmed answer cancels. The desktop changes only on a confirmed run with something to move, and then exactly as `move_files` changes it. |
| OrganizeMain.OrganizeEffect | organize_desktop.py:105-116 | A confirmed run counts each kept file once, as moved or skipped. A top-level file remains if and only if it was not kept, or its category folder already had its name. |
| ListFiles.Etc | list_files.py:39 | Defines the fallback category "etc". `ListFiles.ClassifiedAsEtc` states when it is used. |
| ListFiles.CategoryMap | list_files.py:10-20 | Defines the lister's `CATEGORY_MAP` in dict order; `ListFiles.TableDisjoint` states that its sets share nothing. |
| ListFiles.ExtToCategory | list_files.py:22-25 | Defines the lister's `EXT_TO_CATEGORY` as the inverse of its table; `ListFiles.TableInverted` states its entries. |
| ListFiles.Classify | list_files.py:39 | Defines `EXT_TO_CATEGORY.get(ext, "etc")`. `ListFiles.TableInverted`, `ListFiles.ShortcutsClassified` and `ListFiles.ClassifiedAsEtc` state what it gives. |
| ListFiles.CategoryOf | list_files.py:38-39 | Defines the category of a name: its suffix, lower-cased, classified. `ListFiles.DesktopIniIsEtc` is an instance. |
| ListFiles.IsFile | list_files.py:36-37 | Defines the only filter: a regular file. |
| ListFiles.FileItems | list_files.py:35-40 | Defines the regular files of a listing with their categories. |
| ListFiles.TableDisjoint | list_files.py:10-20 | No extension appears under two categories of the lister's table. |
| ListFiles.TableInverted | list_files.py:10-25 | Every extension of the table is a key of `EXT_TO_CATEGORY`, mapped to its own category and classified into it. |
| ListFiles.ShortcutsClassified | list_files.py:18 | ".lnk" and ".url" are classified as "shortcuts". |
| ListFiles.ClassifiedAsEtc | list_files.py:38-39 | An extension the table does not list, the empty one included, is classified as "etc". |
| ListFiles.Section | list_files.py:51-56 | Defines one printed block: the category, the count in its heading and its names in printed order. |
| ListFiles.Listing | list_files.py:28-56 | Defines what `categorize_files` prints: missing folder, no files, or the total with the blocks. `ListFiles.Categorize` builds it. |
| ListFiles.SectionOf | list_files.py:52-53 | Defines one printed block: the category, `sorted(grouped[c])` and its length. |
| ListFiles.Sections | list_files.py:51-56 | Defines the blocks for the given keys, in that order. |
| ListFiles.Categorize | list_files.py:28-56 | Defines what `categorize_files` prints. `ListFiles.CategorizeStops`, `ListFiles.ReportTotal`, `ListFiles.ReportCategories`, `ListFiles.ReportSection` and `ListFiles.ReportCountsAddUp` state its properties. |
| ListFiles.GroupFiles | list_files.py:33-40 | The loop groups every regular file, in iteration order, under its category. |
| ListFiles.PrintSections | list_files.py:51-56 | For each key in the given order, the loop produces that key's sorted names and their count. |
| ListFiles.CategorizeFiles | list_files.py:28-56 | `categorize_files` reports a missing folder, or "no files", or the total and the sections in sorted key order. |
| ListFiles.CategorizeStops | list_files.py:29-44 | It reports a missing folder if and only if the folder is absent. It reports "no files" if and only if the folder exists and has no regular file. |
| ListFiles.ReportTotal | list_files.py:46-48 | The printed total is the number of regular files. |
| ListFiles.SortedKeys | list_files.py:51 | `sorted(grouped)` is ascending, has no repeats and holds exactly the keys. |
| ListFiles.SectionsByKey | list_files.py:51 | The sections come in strictly ascending category order, one per key. |
| ListFiles.FileCategory | list_files.py:35-40 | A category is a key if and only if some regular file has it. |
| ListFiles.ReportCategories | list_files.py:51-53 | The printed categories are strictly ascending and are exactly the categories of the regular files. |
| ListFiles.ReportSection | list_files.py:52-56 | Each section's names are ascending and its count is their number. A name is printed there if and only if a regular file has it and it belongs to that category. When the entries are distinct, no name is printed twice in a section. |
| ListFiles.ReportNameOnce | list_files.py:51-56 | No name is printed under two categories. |
| ListFiles.SectionsCount | list_files.py:52-53 | The section counts add up to the number of names under their keys. |
| ListFiles.SumCounts | list_files.py:53 | Defines the sum of the counts in the block headings. |
| ListFiles.ReportCountsAddUp | list_files.py:46-53 | The counts in the section headings add up to the printed total. |
| ListFiles.IniUnlisted | list_files.py:10-39 | ".ini" is listed nowhere, so it is classified as "etc". |
| ListFiles.DesktopIniIsEtc | list_files.py:35-40 | The lister has no skip list: "desktop.ini" is a regular file printed under "etc". |

## Left out

- Printing, in both scripts:
  - the `preview` display (organize_desktop.py:49-63);
  - the per-file messages and the statistics block of `move_files`;
  - every heading of `categorize_files`.
- The model computes what is printed: the grouping, the counters and `stats`, and the sections with their counts and sorted names. It does not model the text layout, the `category.upper()` heading, or the order in which `preview` sorts and prints.
- `sys.stdout.reconfigure`/`sys.stdin.reconfigure` and `Path.home()`: the desktop is an abstract folder.
- Parameters instead of the environment:
  - whether the folder exists;
  - the `iterdir()` order;
  - the answer typed at `input()`.
- PathNames.Lower: does not model Unicode case mapping. Only 'A'..'Z' are lower-cased. Suffixes and the skip names are ASCII in the tables, but a name with non-ASCII capitals lower-cases differently in Python.
- `PathNames.Suffix`: models pathlib's `suffix` before Python 3.14. From 3.14, a trailing dot ("notes.") gives the suffix "." instead of "".
- `CategoryTable.BuildExtToCategory`: the order in which a Python `set` yields its elements is an arbitrary choice. The result does not depend on it.
- `Mover.Desktop`:
  - it holds names only, not file contents;
  - it does not model a top-level file and a folder sharing a name;
  - it does not model `mkdir` failing because a file has the category's name;
  - it does not model a file vanishing between the scan and the move, after which `shutil.move` raises;
  - it does not model moves across devices, interrupted runs or permission errors.
- Mover.Desktop.Has: compares names exactly. On a case-insensitive file system, such as the Windows desktops the skip names and `.lnk` point to, `dest.exists()` also finds a name that differs only in letter case. There the program skips `A.PNG` when `이미지/a.png` exists, and the model moves it.
- OrganizeMain.Organize: `listing` and `desk` are independent parameters. Nothing ties the regular files of the listing to `desk.files`, so the model also describes a run whose grouping names a file the desktop does not have, and counts it as moved.
- Mover.MoveFilesKeeps: folders hold names, not file contents, so the model cannot tell a move onto an existing name from a fresh one. The no-overwrite guarantee is stated instead by the third clause of `Mover.MoveAllEffect` and by `Mover.SkippedStaysAtSource`: a file whose name the folder already has stays at the top level, so it was not moved.
- Mover.Desktop.Move: the folder must already exist in the model. In the source, the `mkdir` before the inner loop guarantees it.
- Mover.MoveFiles: the three counters are returned rather than printed, because in the source they are local variables of `move_files`.
- `ListFiles.PrintSections` and `ListFiles.GroupFiles`: the two loops of `categorize_files` are written as two methods that `CategorizeFiles` calls in order.
- Sizes: the listing script prints names only, so the model has no file sizes.
