# Folder comparison, modelled in Dafny

This project models the logic of `compare/compare_folders.py`. The script compares two directory trees, a base tree (`dir1`) and a compare tree (`dir2`). Its report has three parts:

- the sub-directories added or deleted near the first point where the trees diverge;
- how many of those changes survive pruning;
- the sorted list of files that exist in both trees but whose contents differ.

All filesystem access becomes input to the model:

- The two `os.walk` structure scans are `map<string, set<string>>` values (`FolderDiff.Structure`). Each maps a relative path (`"."` for the root) to the names of its immediate sub-directories. A tree that does not exist is the empty map.
- The `os.listdir` lookups of an added or deleted directory's own sub-directories are listing functions (`FolderDiff.Listing`). Each gives, for the parent key and the name, the listing found under that root. The listing is empty when the path does not exist.
- The walk over the first tree's files becomes a sequence of `FolderDiff.FileRecord`s, in walk order. Each record holds the relative directory, the file name, whether `os.path.exists` found the counterpart in the second tree, and the outcome of `filecmp.cmp`: equal, unequal, or raised.

Modules:

- `Json` (`json.dfy`): the JSON-like value the script assembles (dict, list, `None`, scalars), Python truthiness, and `clean_empty_dicts` as `Clean`.
- `PathOrder` (`path_order.dfy`): Python's `<` on `str` as `Less`, proved a strict total order, and the two `sorted(...)` calls. `SortPaths` sorts a set of paths. `SortStrings` sorts the list of differing files. Each walked file gives a different relative path, so that list has no repeats, but `SortStrings` is stated for lists with repeats too.
- `FolderDiff` (`folder_diff.dfy`): the body of `compare_folders`, made of these steps:
  - the anchor search, a loop with `break`;
  - the neighbourhood filter;
  - the change loop and its inner loops over the added and deleted names;
  - the deep-prune and the `total_changes` sum;
  - the differing-file loop with its normalisation and the `"没有"` sentinel;
  - `CompareFolders`, which assembles the `"differences"` record.

The imperative parts of the source are methods with loops. Each method is proved against a specification function:

- `FindAnchor` against `Anchor`, the unique least differing path;
- `CollectChanges` against `ChangeMap`;
- `TotalChanges` against `SumCounts`;
- `DifferentFiles` against `ReportedPaths`.

The lemmas then state what those functions promise.

Points where the code does something other than what its comments or names suggest. The model follows the code:

- Eligibility near the anchor. The comment at `compare/compare_folders.py:74` says only the anchor and its direct sub-directories are processed. The test at lines 76-80 is a *string* prefix test (`startswith`) plus a count of literal backslashes: at most one more than the anchor has. So with anchor `"a"` the sibling `"ab"`, and any other extension of the anchor without a backslash, is admitted (`SiblingPassesPrefixTest`). With the root anchor `"."` only paths that start with a dot pass, such as `"."`, `".git"` and `".git\hooks"` (`RootAnchorAdmitsOnlyDotPaths`). A path without backslashes is never excluded by the depth test (`DepthTestVacuousWithoutBackslashes`).
- The filter is guarded by `if base_path:`. It is therefore off both when there is no anchor and when the anchor is the empty string. `os.path.relpath` never yields `""`, but the model keeps the guard as written.
- Pruning of added or deleted names. An added or deleted directory with no sub-directories is stored with an empty list (lines 102-118). The prune at line 142 turns that list into `None` and drops it. An entry whose names all prune away disappears. Neither adds to `total_changes` (`CleanEntryCount`, `PrunedTotal`).
- Key collision. The root `"."` is recorded under the key `""`. If a path `""` also had an entry, the later write wins. `""` sorts before `"."`, so the root's entry is the one kept (`SourceOf`, `SourcesStep`).

## Model

| member | source | states |
|---|---|---|
| `Json.Truthy` | compare/compare_folders.py:14-18 | Encodes Python's truth test (used again at lines 89, 136, 141 and 143): empty dicts and lists, `None`, `False`, `0` and `""` are falsy. |
| `Json.Clean` | compare/compare_folders.py:8-19 | Cleaning keeps a dict a dict and every other value a non-dict. A cleaned dict's keys are a subset of the input's keys, and every value it keeps is truthy. An empty list becomes `None`. A non-empty list is returned unchanged, without recursing into it. Any scalar is returned unchanged. |
| `Json.CleanDictEntries` | compare/compare_folders.py:10-16 | A key survives cleaning exactly when its recursively cleaned value is truthy, and then it holds that cleaned value. |
| `Json.CleanLeavesNoFalsyMembers` | compare/compare_folders.py:10-16 | The prune is deep through dicts: no dict reachable from the result through dicts alone holds an empty dict, `None`, an empty list, `0`, `False` or `""`. A dict inside a kept list is not cleaned. |
| `Json.CleanIdempotent` | compare/compare_folders.py:8-19 | Cleaning an already cleaned value changes nothing. |
| `Json.CleanDictTruthy` | compare/compare_folders.py:10-16 | A cleaned dict is truthy (the `if cleaned_changes:` test) exactly when some input value cleans to a truthy value. |
| `PathOrder.Less` | compare/compare_folders.py:65 | Encodes Python's `<` on `str`, which `sorted` uses here and at lines 73 and 137: code point by code point, a proper prefix first. |
| `PathOrder.LessIrreflexive` | compare/compare_folders.py:65 | No string sorts before itself. |
| `PathOrder.LessTransitive` | compare/compare_folders.py:65 | The string order is transitive. |
| `PathOrder.LessTrichotomy` | compare/compare_folders.py:65 | Of two different strings, exactly one sorts first, so `sorted` over a set of paths is well defined. |
| `PathOrder.StrictlySortedIndexOrder` | compare/compare_folders.py:65 | In the sorted path list, a smaller path sits at a smaller index. |
| `PathOrder.Least` | compare/compare_folders.py:65 | Returns a member of the non-empty set that sorts before every other member. |
| `PathOrder.SortPaths` | compare/compare_folders.py:61-65 | `sorted(all_paths)` holds exactly the set's paths, in strictly increasing order. |
| `PathOrder.Insert` | compare/compare_folders.py:137 | Inserting a path adds exactly one copy of it to the list's multiset. |
| `PathOrder.InsertMember` | compare/compare_folders.py:137 | Every element of the list after an insertion is the inserted path or was already in the list. |
| `PathOrder.InsertSorted` | compare/compare_folders.py:137 | Inserting into a sorted list keeps it sorted. |
| `PathOrder.SortStrings` | compare/compare_folders.py:137 | `sorted(different_files)` is in non-decreasing order and is a permutation of its input. |
| `FolderDiff.AllPaths` | compare/compare_folders.py:61 | Encodes the union of the two structures' keys. |
| `FolderDiff.Children` | compare/compare_folders.py:66-67 | Encodes `structure.get(rel_path, set())` (also at lines 83-84): a path missing from a tree has no children. |
| `FolderDiff.Differs` | compare/compare_folders.py:68 | Encodes `dir1_dirs != dir2_dirs`: the two child sets of a path differ. |
| `FolderDiff.IsAnchor` | compare/compare_folders.py:63-70 | Encodes what the anchor search looks for: a path of the union whose child sets differ, such that every path that sorts before it has equal child sets. |
| `FolderDiff.Anchor` | compare/compare_folders.py:63-70 | Encodes `base_path` after the search: the path `IsAnchor` describes when one exists, and `None` otherwise. |
| `FolderDiff.AnchorUnique` | compare/compare_folders.py:63-70 | At most one path is the first differing path in sorted order. |
| `FolderDiff.FindAnchor` | compare/compare_folders.py:61-70 | The loop over the sorted union of both trees' paths returns the least path whose child sets differ, reading a missing key as the empty set. Every earlier path has equal child sets. The result is `None` exactly when no path differs. |
| `FolderDiff.LeastDiffering` | compare/compare_folders.py:64-70 | Whenever some path differs, an anchor exists. |
| `FolderDiff.NoAnchorNoChanges` | compare/compare_folders.py:64-100 | With no anchor, no path differs and the change map stays empty. |
| `FolderDiff.Backslashes` | compare/compare_folders.py:80 | Encodes `.count('\\')`: the number of backslash characters in a path. |
| `FolderDiff.Eligible` | compare/compare_folders.py:75-81 | Encodes the filter as written: with no anchor or an empty anchor every path passes. Otherwise a path passes when the anchor is a string prefix of it and it has at most one more backslash than the anchor. |
| `FolderDiff.AnchorIsEligible` | compare/compare_folders.py:75-81 | The anchor always passes its own prefix and depth test. |
| `FolderDiff.RootAnchorAdmitsOnlyDotPaths` | compare/compare_folders.py:75-77 | With anchor `"."`, only paths that start with a dot pass the prefix test. |
| `FolderDiff.DepthTestVacuousWithoutBackslashes` | compare/compare_folders.py:78-81 | For a path without backslashes, eligibility is the prefix test alone. |
| `FolderDiff.SiblingPassesPrefixTest` | compare/compare_folders.py:76-80 | The prefix test is on characters, not path components: under any non-empty anchor, the anchor followed by any text without a backslash passes, so `"ab"` passes under `"a"`. |
| `FolderDiff.NewNames` | compare/compare_folders.py:86 | Encodes `dir2_dirs - dir1_dirs`. |
| `FolderDiff.DeletedNames` | compare/compare_folders.py:87 | Encodes `dir1_dirs - dir2_dirs`. |
| `FolderDiff.HasChange` | compare/compare_folders.py:89 | Encodes `new_dirs or deleted_dirs`: one of the two differences is non-empty. |
| `FolderDiff.HasChangeIffDiffers` | compare/compare_folders.py:83-89 | A path has a new or a deleted name exactly when its two child sets differ. |
| `FolderDiff.EntryNames` | compare/compare_folders.py:83-118 | An entry's `new` names are exactly the second tree's children minus the first's. Its `deleted` names are the reverse difference. No name is both. |
| `FolderDiff.KeyOf` | compare/compare_folders.py:92-95 | The root `"."` is stored under the key `""`; every other path is stored under itself. |
| `FolderDiff.EntryOf` | compare/compare_folders.py:97-118 | Encodes the entry built for a changed path: `{"new": …, "deleted": …}`, each mapping an added or deleted name to its listing of sub-directories. |
| `FolderDiff.BuildNames` | compare/compare_folders.py:102-118 | The inner loop maps every added (or deleted) name to its sub-directory listing, and no other name. |
| `FolderDiff.VisitPath` | compare/compare_folders.py:73-118 | One pass of the change loop. It leaves the map unchanged when the path fails the prefix or depth test, or when nothing differs there. Otherwise it records the path's entry under `""` for `"."` and under the path itself elsewhere. |
| `FolderDiff.RecordedSource` | compare/compare_folders.py:89-97 | A key is recorded exactly when some visited path that passes the filter and has a change maps to it. The path its entry comes from is such a path. |
| `FolderDiff.RecordedStep` | compare/compare_folders.py:89-100 | Visiting a path can add only that path's key, with that path as its source, and leaves every other key's source unchanged. This assumes `""` is visited before `"."`. |
| `FolderDiff.SourcesStep` | compare/compare_folders.py:89-100 | Visiting one more path points its key at that path when the path qualifies, and leaves every other key as it was. |
| `FolderDiff.EntriesUpdate` | compare/compare_folders.py:97-100 | Pointing a key at a path stores that path's `{"new", "deleted"}` entry under the key and changes no other entry. |
| `FolderDiff.ChangeMap` | compare/compare_folders.py:72-118 | Encodes `changes_dict` after the change loop: for each key, the entry of the path written last under it, among the paths of the union that pass the filter and have a change. |
| `FolderDiff.CollectChanges` | compare/compare_folders.py:72-118 | The change loop over the sorted paths builds exactly `ChangeMap`: one entry per qualifying key, and the root's entry under `""`. |
| `FolderDiff.ChangeKeysNearAnchor` | compare/compare_folders.py:75-100 | Every recorded key comes from a changed path of the union and holds that path's entry. When the filter is on, that path has the anchor as a string prefix and at most one more backslash than the anchor. |
| `FolderDiff.AnchorHasEntry` | compare/compare_folders.py:64-100 | The anchor always produces an entry. |
| `FolderDiff.Len` | compare/compare_folders.py:146 | Encodes `len` on a dict, a list or a string. |
| `FolderDiff.SumCounts` | compare/compare_folders.py:145-148 | Encodes the `sum(...)` of the per-entry counts over a map, taking the entries in any order. |
| `FolderDiff.SumCountsRemove` | compare/compare_folders.py:145-148 | The sum of the per-entry counts does not depend on the order in which the entries are taken. |
| `FolderDiff.PruneAndCount` | compare/compare_folders.py:141-148 | The stored changes are the pruned change map, and the count is the sum over them. Both are empty or 0 when nothing survives. |
| `FolderDiff.TotalChanges` | compare/compare_folders.py:145-148 | The `sum(...)` over the cleaned entries equals `SumCounts` of the cleaned map. |
| `FolderDiff.CleanNamesValue` | compare/compare_folders.py:105-118 | Pruning a `{name: [sub-directories]}` map keeps exactly the names whose listing is non-empty. Its length is their number. |
| `FolderDiff.CleanEntryCount` | compare/compare_folders.py:141-148 | After pruning, an entry's `len(new) + len(deleted)` counts the added names and the deleted names, each only when it has sub-directories. The entry survives exactly when that count is positive. |
| `FolderDiff.EntryCount` | compare/compare_folders.py:146 | Encodes one entry's `len(new) + len(deleted)`, with a missing key counting 0. |
| `FolderDiff.FalsyCountsNothing` | compare/compare_folders.py:145-147 | A falsy (pruned) value contributes nothing to the count. |
| `FolderDiff.SumCountsTruthyPart` | compare/compare_folders.py:141-148 | Dropping the falsy values of a map leaves its count sum unchanged. |
| `FolderDiff.PrunedTotal` | compare/compare_folders.py:141-148 | `total_changes` over the surviving entries equals the sum over every entry's cleaned value, pruned or not. |
| `FolderDiff.SameContents` | compare/compare_folders.py:21-26 | The contents count as the same exactly when `filecmp.cmp` returned true. A comparison that returned false or raised means "different". |
| `FolderDiff.ReportedPaths` | compare/compare_folders.py:122-133 | Encodes `different_files` after the file loop: the contributions of the files, in walk order. |
| `FolderDiff.DifferentFiles` | compare/compare_folders.py:121-133 | The file loop appends, in walk order, the normalised path of every file that exists in the second tree and does not compare equal. |
| `FolderDiff.JoinPath` | compare/compare_folders.py:130 | `os.path.join(rel_path, file)` on Windows: after a non-empty directory that does not end in a separator it inserts exactly one backslash before the name; after an empty directory or one ending in `\` or `/` it appends the name directly. |
| `FolderDiff.ForwardSlashes` | compare/compare_folders.py:130 | `.replace('\\', '/')` keeps the length, turns each backslash into `/`, keeps every other character in place, and leaves no backslash. |
| `FolderDiff.ForwardSlashesKeeps` | compare/compare_folders.py:130 | A path without backslashes is left unchanged. |
| `FolderDiff.Normalize` | compare/compare_folders.py:130-132 | Encodes the normalisation: backslashes become `/`, then one leading `./` is removed. |
| `FolderDiff.Reported` | compare/compare_folders.py:128-129 | A file is reported exactly when it exists in the second tree and its comparison did not return equal. |
| `FolderDiff.ReportPath` | compare/compare_folders.py:130-132 | Encodes the path a reported file is listed under: the normalised join of its directory and name. |
| `FolderDiff.Contribution` | compare/compare_folders.py:129-133 | Encodes what one file appends: its path when it is reported, nothing otherwise. |
| `FolderDiff.NormalizeNoBackslash` | compare/compare_folders.py:130-132 | A reported path contains no backslash. |
| `FolderDiff.ForwardSlashesJoin` | compare/compare_folders.py:130 | Replacing backslashes in `dir\name` replaces them in each part and turns the separator into `/`. |
| `FolderDiff.NestedFileReportedWithSlash` | compare/compare_folders.py:130-132 | A file in a sub-directory other than the root is reported as the directory, `/`, and the name, with backslashes turned into `/`: `b.txt` in `a` is reported as `a/b.txt`. |
| `FolderDiff.RootFileReportedByName` | compare/compare_folders.py:123-132 | A file directly under the root is reported by its bare name, with the `./` stripped. |
| `FolderDiff.ReportedPathsAppend` | compare/compare_folders.py:121-133 | Walking two parts of the file list in turn reports the first part's paths followed by the second's. |
| `FolderDiff.ReportedPathsSnoc` | compare/compare_folders.py:128-133 | Walking one more file appends exactly what that file contributes. |
| `FolderDiff.ContributionsMembers` | compare/compare_folders.py:128-133 | A path is reported exactly when some file of the list contributes it. |
| `FolderDiff.ReportedPathsMembers` | compare/compare_folders.py:128-133 | A path is reported exactly when some file that exists in both trees and does not compare equal normalises to it. |
| `FolderDiff.UnreportedFileIgnored` | compare/compare_folders.py:128-129 | A file missing from the second tree, or one that compares equal, leaves the reported list as if it were not there. |
| `FolderDiff.DropUnreported` | compare/compare_folders.py:128-129 | An unreported file anywhere in the file list can be removed without changing the reported list. |
| `FolderDiff.CompareFolders` | compare/compare_folders.py:28-148 | `changes` is the pruned change map around the anchor, and `total_changes` is the sum of its per-entry counts. That sum is 0 when nothing survives pruning. `different_files` is `FilesField` of the file walk. |
| `FolderDiff.IdenticalStructuresNoChanges` | compare/compare_folders.py:57-148 | Two trees with the same structure have no anchor, no change entries and a zero count. |
| `FolderDiff.FilesField` | compare/compare_folders.py:121-139 | The field is the sentinel exactly when no file exists in the second tree with contents that do not compare equal. Otherwise it is a sorted permutation of the reported paths. |
| `FolderDiff.FilesJson` | compare/compare_folders.py:136-139 | Encodes the field value written: the list of paths, or the string `"没有"`. |
| `FolderDiff.NothingReportedIffEmpty` | compare/compare_folders.py:128-136 | The reported list is empty exactly when no file exists in the second tree with contents that do not compare equal. |
| `FolderDiff.NothingDifferentIsSentinel` | compare/compare_folders.py:128-139 | The written field is the string `"没有"` exactly when no file exists in the second tree with contents that do not compare equal. It is a JSON list exactly when some such file exists. |

## Left out

- `os.walk`, `os.listdir`, `os.path.exists`, `os.path.isdir`, `os.path.relpath`, `os.path.abspath`: filesystem I/O. They are replaced by the structure maps, the listing functions and the file records described above. The order in which `os.walk` visits directories is taken as the order of the file records.
- The abort path of `os.listdir` at lines 107 and 116: it can raise (for a directory that cannot be read), which ends the whole run. The listing functions always return a value, so that path is not modelled.
- `processed_paths` (lines 59 and 90): filled with every changed path but never read, so it is not modelled.
- `filecmp.cmp`: a library call over file contents. Its outcome is an input (`Comparison`), including the case where it raised.
- `os.path.join`: only the join of a relative directory with a file name is modelled (`JoinPath`), with the Windows separator that the script's `replace('\\', '/')` targets. Drive letters and absolute components are not modelled.
- `Len`: Python's `len` raises on `None` and numbers. The model returns 0 there. Only dicts reach it from the change map, so this case never arises.
- The comparison metadata (`base_folder`, `compare_folder`, and the `datetime.now()` timestamp), the `json.dump` encoding and indentation, the `input()` prompts, the fixed `D:\differences.json` destination and the completion message: I/O and environment.
- The insertion order of dicts, which fixes the key order in the JSON output. The model uses `map`, so it states which keys and values appear, not in which order they are written.
- The unused `difflib` import.
