# image-dup core, modelled in Dafny

image-dup is a small local web tool for reviewing likely-duplicate photos, such as
`IMG1234.jpg` and `IMG1234 (2).jpg`. It walks a photo folder and groups files whose
names differ only by a trailing ` (n)` copy suffix, within the same directory. It
pairs each group's base file with the other members whose aspect ratio matches,
and serves those pairs page by page. A file picked for deletion is moved to a
trash folder or removed.

This project models the part of `app.py` that does this once the HTTP server and
the file system are cut away. It proves that model against specifications.

- **wrappers.dfy** (`Wrappers`): the `Option` type.
- **bytes.dfy** (`Bytes`): bytes, Python's short reads and clamped slices, and `struct.unpack` of 16/32-bit values. A slice of the wrong length makes the unpack fail.
- **header_formats.dfy** (`HeaderFormats`): what `get_image_dimensions` returns for PNG, JPEG, GIF, BMP, WebP and TIFF, as functions of the file's bytes.
- **header_sniffer.dfy** (`HeaderSniffer`): the sniffer as it is written, with a file position, the JPEG marker loops and the TIFF entry loop. Each method is proved equal to its function.
- **header_facts.dfy** (`HeaderFacts`): per-format properties of the sniffer:
  - fixed offsets;
  - the short-head BMP failure;
  - the WebP bounds;
  - that a JPEG result is read from an SOF segment;
  - the TIFF "first complete entry" rule.
- **path_keys.dfy** (`PathKeys`): the name keys.
  - ASCII lower-casing, and `pathlib`'s suffix and stem.
  - The copy-suffix regex of app.py:30 as an explicit matcher, with its iff-characterisation.
  - `normalize_key` and `folder_rel_key` over path segments.
- **ordering.dfy** (`Ordering`): Python's ordering of strings and tuples of strings, and a stable insertion sort proved sorted and a permutation.
- **index_spec.dfy** (`IndexSpec`): what `build_index` computes:
  - which files are indexed, and their ids in lower-case name order;
  - the per-file records;
  - the grouping dictionary, as buckets in insertion order;
  - the base choice and the aspect filter;
  - the final sorts.
- **index_facts.dfy** (`IndexFacts`): the properties of the index:
  - exactly which pairs and groups exist;
  - no pair crosses folders;
  - the unknown-base quirk;
  - ordering;
  - the integer aspect test equals the ratio test over the reals.
- **index_builder.dfy** (`IndexBuilder`): `build_index` as the loops it is, proved to compute `IndexSpec.BuildIndex`.
- **paging.dfy** (`Paging`): the clamping, the live pairs of a cursor range, the group cursor, and `list.remove`.
- **trash.dfy** (`Trash`): the trash name that avoids existing files.
- **duplicate_state.dfy** (`DuplicateStore`): the `DuplicateState` class. Its fields are:
  - `paths` and `info` (maps from id);
  - `pairs`;
  - `groups`;
  - `groupIdx`.
  
  Its methods are `build_index`, `pairs_page`, the legacy group cursor and `delete_id`.

The file system enters only as inputs:
- The directory walk is a sequence of `FileEntry` values in walk order. Each holds:
  - the directory segments below the root;
  - the name;
  - the size;
  - the formatted modification time;
  - the file's bytes.
- In `delete_id`:
  - the outcome of the move or unlink is a boolean `moved`;
  - the set of paths that already exist is a parameter `existing`.

When the base's dimensions are unknown, every other member of the group is paired
with it, because the aspect guard at app.py:276 runs only when the base's ratio
exists (`IndexFacts.UnknownBasePairsAll`). The test at test_app.py:14-35 relies on
this: its one-byte files have no dimensions and still yield two pairs.

## Model

| member | source | states |
|---|---|---|
| Bytes.Read | app.py:39-40 | a read after a seek returns the bytes from that position, at most n of them and fewer near the end of the file |
| Bytes.Slice | app.py:80 | a Python slice of the head with both ends clamped to its length: the length and the bytes of the clamped slice |
| Bytes.UnpackU16 | app.py:71 | `struct.unpack` of an unsigned 16-bit value succeeds exactly on 2 bytes, giving a value below 2^16 |
| Bytes.UnpackU32 | app.py:114 | `struct.unpack` of an unsigned 32-bit value succeeds exactly on 4 bytes, giving a value below 2^32 |
| Bytes.Signed32 | app.py:85 | format letter `i` reads a 32-bit pattern as the signed value congruent to it modulo 2^32 |
| Bytes.UnpackI32PairLE | app.py:85 | `'<ii'` succeeds exactly on 8 bytes |
| HeaderFormats.FindFF | app.py:57-59 | the scan for a marker prefix stops at a 0xFF at or after its start |
| HeaderFormats.SkipFill | app.py:62-64 | skipping fill bytes stops at a byte other than 0xFF |
| HeaderFormats.NextSegment | app.py:56-71 | a found segment follows `FF`, fill, marker and two length bytes, and its size is the big-endian length minus 2 |
| HeaderSniffer.GetImageDimensions | app.py:33-132 | the sniffer with its file position returns exactly `HeaderFormats.Dimensions` of the bytes, never an error |
| HeaderSniffer.ScanJpeg | app.py:50-76 | the nested marker loops return exactly the SOF-walk result `JpegDims` |
| HeaderSniffer.FindSof | app.py:52-71 | the outer marker loop stops at a Start-Of-Frame marker whose segment gives `JpegDims`, and fails only where `JpegDims` is None |
| HeaderSniffer.ReadMarker | app.py:56-71 | one loop iteration finds a marker segment exactly when `NextSegment` does, with the same marker, position and size |
| HeaderSniffer.ReadUntilFF | app.py:57-61 | the byte-by-byte read ends on the first 0xFF, or reads nothing exactly when there is none |
| HeaderSniffer.ReadPastFill | app.py:62-66 | the fill-skipping read ends on the first byte other than 0xFF, or reads nothing exactly when there is none |
| HeaderSniffer.ScanTiff | app.py:110-129 | reading the directory offset and entry count and then the entries returns exactly `TiffDims` |
| HeaderSniffer.ScanTiffEntries | app.py:117-129 | the `for` loop over directory entries with its break and early return equals the entry walk `TiffEntries` from width and height unset |
| HeaderFacts.ShortInputUnknown | app.py:38-42 | a file shorter than 24 bytes has no known dimensions |
| HeaderFacts.PngFixedOffsets | app.py:44-48 | PNG gives the big-endian u32s at offsets 16 and 20 |
| HeaderFacts.GifFixedOffsets | app.py:78-81 | GIF87a/GIF89a gives the little-endian u16s at offsets 6 and 8 |
| HeaderFacts.BmpAlwaysUnknown | app.py:83-86 | every `BM` file yields None: the 24-byte head leaves 6 bytes for an 8-byte unpack |
| HeaderFacts.WebpDispatch | app.py:88-108 | a RIFF/WEBP file is decoded by its first chunk's tag, and an unknown tag yields None |
| HeaderFacts.WebpVp8Bounds | app.py:90-95 | VP8 is known exactly when the file reaches offset 30; the sides are the 14-bit fields at 26 and 28, each at most 0x3fff |
| HeaderFacts.WebpVp8lBounds | app.py:96-102 | VP8L is known exactly when the file reaches offset 25; each side lies in [1, 16384] |
| HeaderFacts.WebpVp8xBounds | app.py:103-108 | VP8X is known exactly when the file reaches offset 30; each side lies in [1, 2^24] |
| HeaderFacts.WebpOtherChunkUnknown | app.py:88-132 | a WebP chunk other than VP8/VP8L/VP8X yields None |
| HeaderFacts.TiffByteOrder | app.py:110-112 | `II` selects little-endian and `MM` big-endian reads for the TIFF header and entries |
| HeaderFacts.FindFFIsFirst | app.py:57-61 | the marker scan finds the first 0xFF from its start, and fails exactly when there is none |
| HeaderFacts.SkipFillIsFirst | app.py:62-66 | the fill skip finds the first non-0xFF byte, and fails exactly when all the rest is 0xFF |
| HeaderFacts.JpegWithoutMarkerUnknown | app.py:55-61 | a JPEG with no 0xFF after its SOI yields None |
| HeaderFacts.JpegWalkSound | app.py:55-76 | a walk result is read at an SOF segment at least 4 bytes on |
| HeaderFacts.JpegResultFromSof | app.py:50-76 | every JPEG result is (width, height) read after the precision byte of an SOF segment at or after offset 6 |
| HeaderFacts.JpegLeadingSof | app.py:50-76 | an SOF segment right after SOI, with length of at least 7, gives width at 9..11 and height at 7..9 |
| HeaderFacts.TiffFirstComplete | app.py:118-129 | the entry loop returns d exactly when, within the tag count and before any short entry, d is the first (width, height) with both non-zero; later duplicate tags overwrite |
| HeaderFacts.TiffDimsFirstComplete | app.py:110-129 | TIFF dimensions are the first complete pair of the first IFD, whose offset and count are read in the file's byte order |
| PathKeys.LowerConcat | app.py:140 | lower-casing distributes over concatenation |
| PathKeys.StemSuffixSplit | app.py:136 | stem and suffix split the name; a non-empty suffix is a dot and at least one non-dot, after a non-empty stem |
| PathKeys.SplitOfExtension | app.py:136 | a name `stem + ext`, where ext is a dot followed by non-dots, has exactly that stem and suffix |
| PathKeys.DigitsBefore | app.py:30 | the length of the run of digits ending at a position |
| PathKeys.DupSuffixMatches | app.py:30 | the regex matches a stem with group 1 = p exactly when the stem is p, a space, "(", one or more digits, ")" (and an optional final newline), with p free of newlines |
| PathKeys.NormalizeWithoutSuffix | app.py:135-140 | a stem without a copy suffix maps to its lower-case form |
| PathKeys.NormalizeStripsOneSuffix | app.py:135-140 | `p (digits).ext` normalizes to lower(p): exactly one suffix is stripped |
| PathKeys.NormalizeExampleCopy | app.py:135-140 | "IMG (2).jpg" normalizes to "img" |
| PathKeys.NormalizeTwoSuffixes | app.py:135-140 | of two trailing duplicate suffixes only the last is stripped: `p (m) (n).ext` normalizes to lower(`p (m)`) |
| PathKeys.FolderKeyIsDotForRoot | app.py:143-155 | the folder key is "." exactly when the file lies directly in the root |
| PathKeys.JoinInjective | app.py:154 | joining slash-free non-empty segments with "/" loses nothing |
| PathKeys.FolderKeySameParent | app.py:143-155 | two files have the same folder key exactly when they have the same parent directory |
| Ordering.StrLeTotal | app.py:223 | Python string comparison is total |
| Ordering.StrLeAntisymmetric | app.py:223 | and antisymmetric |
| Ordering.StrLeTransitive | app.py:223 | and transitive |
| Ordering.KeyLeTotal | app.py:290 | Python tuple-of-strings comparison is total |
| Ordering.KeyLeAntisymmetric | app.py:290 | and antisymmetric |
| Ordering.KeyLeTransitive | app.py:290 | and transitive |
| Ordering.InsertPermutes | app.py:223 | inserting adds exactly one element |
| Ordering.InsertSorted | app.py:223 | inserting into a sorted list keeps it sorted |
| Ordering.SortByPermutes | app.py:223 | `list.sort(key=…)` is a permutation |
| Ordering.SortBySorted | app.py:223 | `list.sort(key=…)` leaves the list sorted by the key |
| Ordering.SortBySortedIdentity | app.py:252 | sorting an already-sorted list does not change it |
| IndexSpec.FindBucket | app.py:245 | a dictionary lookup finds a bucket with that key |
| IndexSpec.IdsWithKeyFacts | app.py:244-245 | the ids with a key are exactly the ids below n holding it, ascending |
| IndexSpec.BucketsCorrect | app.py:243-245 | after `setdefault(key, []).append(i)` for every id, each bucket holds exactly the ids with its key, ascending; keys are distinct and every id's key has a bucket |
| IndexSpec.GroupPairsMembers | app.py:271-287 | a group's pairs are exactly (base, o) for each other member o that the aspect filter accepts |
| IndexSpec.FirstPlain | app.py:259-263 | the loop's `break` target is a member of the group |
| IndexSpec.BaseOf | app.py:258-263 | the base is a member of the group |
| IndexFacts.CollectMembers | app.py:208-221 | the walk keeps exactly the indexable files |
| IndexFacts.IndexedFilesFacts | app.py:208-224 | the ids number exactly the indexable files, as a permutation of walk order, sorted by lower-case name |
| IndexFacts.HiddenNeverIndexed | app.py:211-218 | no file under a hidden directory or the trash directory below the scan root, and no hidden file, is in the index |
| IndexFacts.BaseChoice | app.py:256-263 | the base is the first member (in name order) whose stem lower-cases to the key and carries no copy suffix, else the first member |
| IndexFacts.FirstPlainFirst | app.py:259-263 | the loop finds no base candidate exactly when no member is one |
| IndexFacts.PlainInGroup | app.py:261 | a member is a base candidate exactly when its stem has no copy-suffix form |
| IndexFacts.Members | app.py:243-245 | a key's members are ascending ids of indexed files |
| IndexFacts.GroupBase | app.py:258-263 | a non-empty group's base is one of its members |
| IndexFacts.MembersInNameOrder | app.py:252 | sorting a bucket by lower-case name changes nothing, since ids are already in name order |
| IndexFacts.GroupStepFacts | app.py:249-287 | one bucket contributes its group and exactly the pairs of its key, and nothing when it has fewer than two members |
| IndexFacts.StepsPairs | app.py:249-287 | the pair list is the union of the buckets' pairs |
| IndexFacts.StepsGroups | app.py:249-254 | the group list is the union of the buckets' groups |
| IndexFacts.PairMembership | app.py:243-290 | a pair is in the index exactly when its right id's key has two or more members, its left is that group's base, right ≠ left, the aspect filter accepts it, and its key is the group key |
| IndexFacts.PairsSound | app.py:243-290 | every pair joins two distinct files with the same (folder, name) key in a group of two or more; for well-formed paths these are in the same directory |
| IndexFacts.UnknownBasePairsAll | app.py:265-287 | when the base's ratio is unknown, every other member is paired with it |
| IndexFacts.KnownBaseFiltersByAspect | app.py:265-287 | when the base's ratio is known, a member is paired exactly when its ratio is known and within 0.1% |
| IndexFacts.IndexOrdered | app.py:289-290 | groups are sorted by key, and pairs by (group key, lower base name, lower other name) |
| IndexFacts.GroupsSound | app.py:243-289 | every group is a key shared by two or more files, holding all of them in name order |
| IndexFacts.GroupFromStep | app.py:249-254 | every group some bucket contributes is the group of one of its files |
| IndexFacts.GroupsComplete | app.py:243-289 | every key shared by two or more files has that group in the index |
| IndexFacts.AspectCloseIsRatioTest | app.py:268-282 | the integer test `1000·|bw·oh − ow·bh| ≤ bw·oh` equals `|b − o| / b ≤ 0.001` over exact ratios |
| IndexBuilder.CollectFiles | app.py:208-221 | the walk loop with its pruning and filters collects `Collect` |
| IndexBuilder.ComputeInfos | app.py:226-239 | the record loop builds the map from every id to its record, with the sniffed dimensions |
| IndexBuilder.BucketFiles | app.py:243-245 | the `setdefault` loop builds `Buckets` |
| IndexBuilder.ChooseBase | app.py:256-263 | the loop with `break` picks `BaseOf` |
| IndexBuilder.PairGroup | app.py:265-287 | the loop with its `continue`s appends exactly `GroupPairs` |
| IndexBuilder.FlattenSnoc | app.py:254-287 | appending one more bucket's list extends the concatenation by it |
| IndexBuilder.StepsSnoc | app.py:249-287 | each bucket processed extends `grouped` and `pairs` by its own contribution |
| IndexBuilder.PairAll | app.py:247-287 | the group loop produces exactly `AllGroups` and `AllPairs` |
| IndexBuilder.Build | app.py:203-297 | the whole build produces the path and record maps of the indexed files and the sorted groups and pairs of `IndexSpec.BuildIndex` |
| IndexBuilder.MapsShareIds | app.py:224-239 | the path and record maps have the same ids, exactly 0..n−1, and every path is non-empty |
| Paging.ClampLimit | app.py:308 | limit is clamped into [1, 200] and otherwise kept |
| Paging.ClampCursor | app.py:309 | cursor is clamped to be non-negative and otherwise kept |
| Paging.LiveIds | app.py:313-319 | the live pair indices of a range are in the range, live, strictly increasing, and no more than the range is long |
| Paging.LiveIdsComplete | app.py:313-319 | every live index of the range is among them |
| Paging.DeletedIdSkipped | app.py:399-401 | after an id leaves the paths, the live indices are exactly the earlier ones whose pair does not mention it |
| Paging.NextValidGroup | app.py:337-339 | the next group at or after k with two or more members, or the end, skipping only smaller groups |
| Paging.FirstIndex | app.py:372 | `list.remove` deletes at the first position holding the id: it holds it and no earlier one does |
| Paging.RemoveFirstFacts | app.py:372 | `list.remove` takes one copy of the id out of the multiset, and on a duplicate-free list leaves the id absent |
| Paging.NoDupAfterCut | app.py:372 | removing a position from a duplicate-free list leaves it duplicate-free and without that element |
| Trash.NatToString | app.py:388 | the decimal rendering of n is a non-empty string of digits |
| Trash.ParseNatToString | app.py:388 | the decimal rendering of n reads back as n |
| Trash.CandidateInjective | app.py:388 | different n give different candidate names |
| Trash.FreeCandidate | app.py:386-392 | the loop returns the smallest n ≥ 2 whose candidate name is not an existing path |
| Trash.TrashPath | app.py:379-392 | the destination is trash/relpath, or, when that exists, the first free ` (n)` variant of it |
| DuplicateStore.BuiltGroupsWellFormed | app.py:249-254 | groups of a built index list distinct ids of indexed files |
| DuplicateStore.DuplicateState.constructor | app.py:174-190 | a fresh state is empty with the cursor at 0, and keeps its flags |
| DuplicateStore.DuplicateState.BuildIndex | app.py:203-297 | the fields become the maps, groups and pairs of `IndexSpec.BuildIndex`, the cursor 0, and the state is valid |
| DuplicateStore.DuplicateState.PairsPage | app.py:302-335 | the page is the first `limit` live pairs from `cursor`, in order, with the stopping index; done ⇔ at the end; not done ⇒ exactly a full page; the total is the pair count |
| DuplicateStore.DuplicateState.AdvanceToValidGroup | app.py:337-339 | the cursor moves to `NextValidGroup` |
| DuplicateStore.DuplicateState.CurrentPair | app.py:341-356 | the cursor moves to the next valid group, whose first two members are shown, or done |
| DuplicateStore.DuplicateState.SkipGroup | app.py:358-361 | the cursor moves to the next valid group after the current one |
| DuplicateStore.DuplicateState.DeleteId | app.py:363-404 | an unknown id (including a negative one) changes nothing; otherwise the id leaves every group; on success it leaves paths and records, and the file moves to the trash name or is removed; the pair list and cursor never change |

### Specification functions

The functions below model app.py's functions directly. They have no contract of
their own; the members named after each one characterise them.

- `HeaderFormats.Dimensions` (`get_image_dimensions`, app.py:33-132): `HeaderSniffer.GetImageDimensions`, `HeaderFacts.ShortInputUnknown`, `HeaderFacts.WebpDispatch`.
- `HeaderFormats.PngDims` (app.py:44-48): `HeaderFacts.PngFixedOffsets`.
- `HeaderFormats.GifDims` (app.py:78-81): `HeaderFacts.GifFixedOffsets`.
- `HeaderFormats.BmpDims` (app.py:83-86): `HeaderFacts.BmpAlwaysUnknown`.
- `HeaderFormats.WebpDims` (app.py:88-108): `HeaderFacts.WebpVp8Bounds`, `HeaderFacts.WebpVp8lBounds`, `HeaderFacts.WebpVp8xBounds`, `HeaderFacts.WebpOtherChunkUnknown`.
- `HeaderFormats.JpegWalk`, `HeaderFormats.JpegDims` and `HeaderFormats.SofDims` (app.py:50-76): `HeaderSniffer.ScanJpeg`, `HeaderSniffer.FindSof`, `HeaderFormats.JpegWalkStep`, `HeaderFacts.JpegWalkSound`, `HeaderFacts.JpegResultFromSof`, `HeaderFacts.JpegLeadingSof`.
- `HeaderFormats.TiffStep`, `HeaderFormats.TiffEntries` and `HeaderFormats.TiffDims` (app.py:110-129): `HeaderSniffer.ScanTiff`, `HeaderSniffer.ScanTiffEntries`, `HeaderFacts.TiffFirstComplete`, `HeaderFacts.TiffDimsFirstComplete`.
- `PathKeys.Lower` (`str.lower`, app.py:140): `PathKeys.LowerConcat`.
- `PathKeys.Stem` and `PathKeys.Suffix` (`Path.stem`, `Path.suffix`, app.py:136 and app.py:220): `PathKeys.StemSuffixSplit`, `PathKeys.SplitOfExtension`.
- `PathKeys.DupSuffixPrefix` (the match of app.py:30 at app.py:137-139): `PathKeys.DupSuffixMatches`.
- `PathKeys.NormalizeKey` (`normalize_key`, app.py:135-140): `PathKeys.NormalizeWithoutSuffix`, `PathKeys.NormalizeStripsOneSuffix`, `PathKeys.NormalizeTwoSuffixes`, `PathKeys.NormalizeExampleCopy`.
- `PathKeys.FolderKey` (`folder_rel_key`, app.py:143-155): `PathKeys.FolderKeyIsDotForRoot`, `PathKeys.FolderKeySameParent`.
- `IndexSpec.Indexable` and `IndexSpec.Collect` (the walk and its filters, app.py:208-221): `IndexBuilder.CollectFiles`, `IndexFacts.CollectMembers`, `IndexFacts.HiddenNeverIndexed`.
- `IndexSpec.IndexedFiles` (the sort by lower-case name, app.py:223-224): `IndexFacts.IndexedFilesFacts`.
- `IndexSpec.MakeInfo` (the per-file record, app.py:226-239): `IndexBuilder.ComputeInfos`.
- `IndexSpec.SetDefaultAppend` and `IndexSpec.Buckets` (app.py:243-245): `IndexSpec.BucketsCorrect`, `IndexBuilder.BucketFiles`.
- `IndexSpec.AspectClose`, `IndexSpec.Accept` and `IndexSpec.GroupPairs` (app.py:265-287): `IndexFacts.AspectCloseIsRatioTest`, `IndexSpec.GroupPairsMembers`, `IndexBuilder.PairGroup`, `IndexFacts.UnknownBasePairsAll`, `IndexFacts.KnownBaseFiltersByAspect`.
- `IndexSpec.BuildIndex` (`build_index`, app.py:203-297): `IndexBuilder.Build`, `IndexFacts.PairMembership`, `IndexFacts.GroupsSound`, `IndexFacts.GroupsComplete`, `IndexFacts.IndexOrdered`.
- `Ordering.SortBy` (`list.sort`, app.py:223 and app.py:252 and app.py:289-290): `Ordering.SortByPermutes`, `Ordering.SortBySorted`, `Ordering.SortBySortedIdentity`.
- `Paging.RemoveFirst` and `Paging.WithoutId` (`ids.remove(fid)`, app.py:370-373): `Paging.FirstIndex`, `Paging.RemoveFirstFacts`, `DuplicateStore.DuplicateState.DeleteId`.
- `Trash.TrashBase`, `Trash.Candidate` and `Trash.IsTrashDest` (app.py:379-392): `Trash.FreeCandidate`, `Trash.TrashPath`, `Trash.CandidateInjective`.
- `DuplicateStore.DuplicateState.EntryOf` (one page entry, app.py:321-328): `DuplicateStore.DuplicateState.PairsPage`.
- `DuplicateStore.DuplicateState.CurrentView` (the reply of `current_pair`, app.py:344-356): `DuplicateStore.DuplicateState.CurrentPair`, `DuplicateStore.DuplicateState.SkipGroup`.

## Left out

- The HTTP handler, JSON bodies, static files and `main`/argparse (app.py:411-526): transport and CLI plumbing.
- `list_subfolders` (app.py:192-201): it only lists a directory. Its name filter is `IndexSpec.VisibleDir`.
- `open_path_for_id` (app.py:406-408): a map lookup used only by the HTTP layer.
- The file system:
  - `os.walk` is replaced by its output, a sequence of `FileEntry` in walk order. Equal lower-case names keep that order through the stable sort.
  - `stat` and `iso_mtime` (app.py:158-159, 228) become the size and time fields.
  - Opening the file becomes its bytes.
  - A file that cannot be opened is not modelled.
- In `delete_id`:
  - `unlink`, `mkdir`, `rename`, `copy2` and `exists` are replaced by the parameters `moved` and `existing`.
  - The `FileNotFoundError` for an unknown id and an `OSError` from the move or unlink become the outcomes `UnknownId` and `MoveFailed`.
  - `MoveFailed` leaves the groups edited and the id in the index, as the code does.
- `threading.Lock`: every method is atomic. The unlocked gap between the two halves of `skip_group` is not modelled.
- The float aspect test (app.py:268-282) is replaced by exact rational arithmetic (the integer form). It can differ from IEEE division exactly at the 0.1% boundary.
- `str.lower` is limited to ASCII, and `re.IGNORECASE` has no effect on this pattern.
- Paths are lists of segments:
  - `folder_rel_key`'s `except` branch (app.py:151-153) never applies to indexed files, so it is not modelled;
  - `relpath` is the segments joined with "/".
- `int(limit)` and `int(cursor)` on non-integer input: the parameters are integers.
- Ordering.SortBySorted: states sortedness and, with `Ordering.SortByPermutes`, permutation. It does not state the stability that `list.sort` promises. `Ordering.SortBy` is stable by construction, and only the already-sorted case is stated (`Ordering.SortBySortedIdentity`).
- DuplicateStore.DuplicateState.DeleteId: "moved to the trash" is stated as choosing the destination name; the resulting file system is not modelled.
- IndexBuilder.BucketFiles: computes the key of every file before the bucketing loop, where the code computes each key inside it. Keys are pure functions of the file, so the buckets are the same.
