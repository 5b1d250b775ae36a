# FileWhisperer, modelled in Dafny

FileWhisperer walks a directory tree and wraps each file it finds in a `CleanFile` record.
A record holds a current and an original name and path, plus the metadata read from the file:
audio tags through taglib, EXIF fields through PIL.
The caller may rename a record or replace its metadata. Saving a record then renames the file on
disk (refusing to overwrite an existing file) and writes the audio tags back.

This project models that bookkeeping in Dafny. It proves:

- the name setter keeps the file's extension, and, for a new name without a separator, its directory;
- saving refuses to overwrite an existing file, and after a rename the original fields catch up;
- the audio tag write replaces exactly the keys that carry a value;
- the audio reader's four-key defaults table;
- the extension dispatch (audio before image, case-sensitive suffix match);
- the string rewriting of `_clean_path`;
- `clean_files` mirrors the listing's shape, and `save_clean_files` saves every record, depth first
  and in order.

Modules, one per concern of `FileWhisperer/FileWhisperer.py`:

- `Paths` (paths.dfy): POSIX-style `basename`, `dirname`, two-argument `join`, and the extension
  that `splitext` reports. Leading dots of a file name never start an extension.
- `Formats` (formats.dfy): the two extension lists and the audio / image / other classification.
- `PathCleaning` (path_cleaning.dfy): `_clean_path`. `os.path.normpath` is a function parameter.
- `Metadata` (metadata.dfy): the metadata dictionary, the taglib tag map, the tag write loop, the
  defaults table, and the text of the `Metadata` property.
- `Whisperer` (clean_file.dfy): the `CleanFile` class, the save step and the two dispatchers.
- `Tree` (tree.dfy): `clean_files`, `get_directory_contents` and `save_clean_files`.

How the outside world appears in the model:

- The disk is a map from every existing path to what taglib can read there: `Some(tags)`, or
  `None` for a file it cannot open. `os.path.exists` is membership in the map. `os.rename` moves an
  entry to a new key.
- A Python dict is its items in insertion order, and `None` is `Option.None`.
- Raised and caught exceptions become `false` or `None` results.
- `normpath`, the formatted modification time and the EXIF reader are fields of a `Probe` value
  that the readers take as a parameter.

The code and its own docstrings differ in three places, and the model follows the code:

- The docstring of `Save` (FileWhisperer/FileWhisperer.py:141) says the file is renamed if its name
  has changed. The code compares the current path with the original path
  (FileWhisperer/FileWhisperer.py:151).
- The docstring of `_clean_path` (FileWhisperer/FileWhisperer.py:434-435) promises to remove any
  leading or trailing quotes and to replace double quotes. The code removes one matching pair of
  quotes at both ends and replaces each `''` with `'` (FileWhisperer/FileWhisperer.py:450-454).
- The docstring of `get_audio_metadata` (FileWhisperer/FileWhisperer.py:287-288) says it retrieves
  the date of last modification. The code reads the DATE tag and uses the modification time only
  when that tag is missing (FileWhisperer/FileWhisperer.py:316).

## Model

| member | source | states |
|---|---|---|
| Paths.Basename | FileWhisperer/FileWhisperer.py:486 | the result is a separator-free suffix of the path, preceded by a separator unless it is the whole path |
| Paths.Dirname | FileWhisperer/FileWhisperer.py:118 | the result is a prefix of the path, empty exactly when the path has no separator, and only separators lie between it and the basename |
| Paths.Join | FileWhisperer/FileWhisperer.py:119 | the result ends with the second part; an absolute second part replaces the first; otherwise one `/` is inserted exactly when the first part is non-empty and does not end in `/`, and the parts are simply concatenated otherwise |
| Paths.Ext | FileWhisperer/FileWhisperer.py:113 | the extension `splitext` reports is empty or starts with a dot and ends the path; when non-empty it is shorter than the last component and the stem before it holds a character other than a dot |
| Paths.ExtOfDottedName | FileWhisperer/FileWhisperer.py:113 | in a separator-free name, a suffix that is one dot followed by non-dots, after a stem that is not all dots, is exactly the extension |
| Paths.NoExtWithLeadingDotsOnly | FileWhisperer/FileWhisperer.py:113 | a last component whose every dot has only dots before it (`.bashrc`, `...`, `name`) has no extension |
| Paths.ExtOfJoin | FileWhisperer/FileWhisperer.py:113-119 | the extension of `join(d, n)` is that of the separator-free name `n` |
| Paths.ExtFacts | FileWhisperer/FileWhisperer.py:113 | a non-empty extension holds one dot and no separator, and it is a proper suffix of the basename |
| Paths.JoinDirname | FileWhisperer/FileWhisperer.py:118-119 | joining a separator-free name under a directory part gives back that directory and that name |
| Paths.ExtUnderDir | FileWhisperer/FileWhisperer.py:113 | the extension of a path depends only on its last component |
| Formats.AnyEndsWith | FileWhisperer/FileWhisperer.py:176 | true exactly when the path ends with some listed format |
| Formats.KindOf | FileWhisperer/FileWhisperer.py:176-182 | audio exactly when an audio format ends the path; image exactly when no audio format and some image format does; otherwise unsupported |
| Formats.FormatsAreDotted | FileWhisperer/FileWhisperer.py:15-58 | every listed format is a dot followed by at least one character and no further dot |
| Formats.FormatListsDisjoint | FileWhisperer/FileWhisperer.py:15-58 | no format is in both lists |
| Formats.AudioFirstUnobservable | FileWhisperer/FileWhisperer.py:176-179 | no path ends with both an audio and an image format, so testing audio first never changes the outcome |
| Formats.KindByDotSuffix | FileWhisperer/FileWhisperer.py:176-182 | the classification is the exact list membership of the text from the path's last dot |
| Formats.CaseSensitive | FileWhisperer/FileWhisperer.py:176 | `song.MP3` is unsupported: the suffix test is case-sensitive |
| PathCleaning.CollapseDoubled | FileWhisperer/FileWhisperer.py:453-454 | the replace leaves the text unchanged exactly when it has no `''`, never lengthens it, and keeps every character other than `'` |
| PathCleaning.PreClean | FileWhisperer/FileWhisperer.py:447-454 | a path with no leading `& `, no matching quotes and no `''` passes unchanged; only quotes are lost after the first two steps |
| PathCleaning.GuardIsNoOp | FileWhisperer/FileWhisperer.py:453-454 | the `"''" in path` guard only skips a replace that would change nothing |
| PathCleaning.PlainPathUnchanged | FileWhisperer/FileWhisperer.py:447-456 | such a plain path reaches `normpath` unchanged, whatever `normpath` is |
| PathCleaning.OneCallOperatorRemoved | FileWhisperer/FileWhisperer.py:447-448 | exactly one leading `& ` is removed |
| PathCleaning.OneQuotePairRemoved | FileWhisperer/FileWhisperer.py:450-451 | one pair of matching quotes is removed, and a lone quote becomes empty |
| PathCleaning.CollapseNotIdempotent | FileWhisperer/FileWhisperer.py:453-454 | three quotes become two, which still hold `''` |
| PathCleaning.CollapseUndoesDoubling | FileWhisperer/FileWhisperer.py:453-454 | for every text, writing each quote twice and then applying the replace gives the text back: each `''` becomes exactly one `'` |
| PathCleaning.CleanPath | FileWhisperer/FileWhisperer.py:447-456 | `_clean_path` always equals `normpath` of the three rewrites with an unguarded replace, and a path with none of the three patterns reaches `normpath` unchanged |
| Metadata.Written | FileWhisperer/FileWhisperer.py:198-201 | a key is written exactly when some item of it has a value; the last value of a key is the one kept, as a one-element list |
| Metadata.WrittenDistinct | FileWhisperer/FileWhisperer.py:198-201 | in a dict with distinct keys, every key with a value is written with that value |
| Metadata.ApplyMetadata | FileWhisperer/FileWhisperer.py:198-201 | the new tag map has the old tags plus the written keys; written keys hold `[value]`; a tag whose items are all None or absent keeps its old list |
| Metadata.NothingWrittenWithoutValues | FileWhisperer/FileWhisperer.py:198-201 | an empty dict, or one whose values are all None, changes no tag |
| Metadata.NoMetadataWritesNothing | FileWhisperer/FileWhisperer.py:198-201 | a record without metadata (the getter's empty dict) changes no tag, and one with metadata writes exactly that dict |
| Metadata.WriteTags | FileWhisperer/FileWhisperer.py:198-201 | the loop leaves exactly the tag map `ApplyMetadata` describes |
| Metadata.AudioItems | FileWhisperer/FileWhisperer.py:312-317 | four items in the order TITLE, ARTIST, ALBUM, DATE, with distinct keys, each the tag's first element or its default |
| Metadata.AudioMetadata | FileWhisperer/FileWhisperer.py:306-326 | None exactly when taglib cannot open the file or one of the four tags is an empty list (the `[0]` of `tags.get` raises); otherwise four distinct keys TITLE, ARTIST, ALBUM, DATE, each holding its first tag value or its default (basename, "Unknown", "Unknown", mtime text) |
| Metadata.SplitJoinLines | FileWhisperer/FileWhisperer.py:128 | splitting the newline-joined lines at newlines gives them back when none holds a newline |
| Metadata.DescribeSplits | FileWhisperer/FileWhisperer.py:125-130 | the text of non-empty metadata splits back at newlines into exactly one line per item, line `i` being `key: value` of item `i` |
| Whisperer.GetMetadataOmni | FileWhisperer/FileWhisperer.py:378-385 | on the cleaned path: unsupported files give None; audio files give the four-key table exactly when taglib opens the file (`Open`: the path is on disk with readable tags) and no tag is an empty list, each key holding its first tag value or its default (basename, "Unknown", "Unknown", mtime text); image files give what the EXIF reader gives |
| Whisperer.RenamedName | FileWhisperer/FileWhisperer.py:113-116 | the stored name ends with the old extension; the value is kept when it already ends with it, and the extension is appended otherwise |
| Whisperer.RenamedPath | FileWhisperer/FileWhisperer.py:118-119 | for a name without a separator, the new path has the old path's directory and its last component is the stored name |
| Whisperer.RenameStaysInDirectory | FileWhisperer/FileWhisperer.py:113-119 | for a name without a separator, the new path (`RenamedPath`) has the old directory, its last component is the stored name, and it ends with the old extension |
| Whisperer.RenameKeepsExtension | FileWhisperer/FileWhisperer.py:113-119 | after the rename, `splitext` reports the old extension again, unless the new stem is only dots |
| Whisperer.RenameIdempotent | FileWhisperer/FileWhisperer.py:113-119 | setting the same name twice gives the same name and path as setting it once |
| Whisperer.Rename | FileWhisperer/FileWhisperer.py:156 | the old path leaves the disk and the new one holds what the old one held; every other entry is unchanged and the number of files is the same |
| Whisperer.SaveAudioSpec | FileWhisperer/FileWhisperer.py:190-212 | succeeds exactly when taglib opens the file (`Open`); then that file's tags become the written tag map; on failure the disk is unchanged; no other file and no path changes |
| Whisperer.SaveOmniSpec | FileWhisperer/FileWhisperer.py:172-187 | audio files are written; image files always fail; other files succeed untouched; no path is added or removed |
| Whisperer.SaveSpec | FileWhisperer/FileWhisperer.py:148-170 | only the original fields can change, and only to the current name and path; no file is created or lost |
| Whisperer.SaveCases | FileWhisperer/FileWhisperer.py:151-165 | refuses, changing nothing, when the new path exists or the old file is gone; a rename moves the file and the originals catch up; a renamed audio file that saves keeps its old tags with the record's metadata written over them; no rename when the path is unchanged; success leaves the record in step with the disk |
| Whisperer.SaveTouchesOnlyItsPaths | FileWhisperer/FileWhisperer.py:148-165 | no path other than the record's old and new ones is added, removed or changed |
| Whisperer.SaveAgainRenamesNothing | FileWhisperer/FileWhisperer.py:151-159 | after a successful save, saving again renames nothing and keeps the same set of files |
| Whisperer.CleanFile.constructor | FileWhisperer/FileWhisperer.py:88-93 | original name and path equal the current ones, and the metadata is what `get_metadata_omni` reads for the path |
| Whisperer.CleanFile.SetName | FileWhisperer/FileWhisperer.py:101-119 | only the name and path change, to the extension-keeping name and the old directory part joined with it; for a name without a separator the path stays in the same directory (`RenameStaysInDirectory`), while an absolute name replaces the directory |
| Whisperer.CleanFile.MetadataText | FileWhisperer/FileWhisperer.py:125-130 | a record without metadata reads `<name> has no metadata`; otherwise, when no key or value holds a newline, the text splits at newlines into one `key: value` line per item, in order |
| Whisperer.CleanFile.SetMetadataDict | FileWhisperer/FileWhisperer.py:132-137 | only the metadata changes, and the `Metadata_dict` getter then gives back the dict that was set |
| Whisperer.CleanFile.Save | FileWhisperer/FileWhisperer.py:139-144 | the record and the disk end as the save step says |
| Whisperer.SaveAudioMetadata | FileWhisperer/FileWhisperer.py:190-212 | the result and the disk are those of `SaveAudioSpec` |
| Whisperer.SaveMetadataOmni | FileWhisperer/FileWhisperer.py:172-187 | the result and the disk are those of `SaveOmniSpec` |
| Whisperer.SaveMetadata | FileWhisperer/FileWhisperer.py:148-170 | the result, the record's fields and the disk are those of `SaveSpec` |
| Whisperer.RenameFile | FileWhisperer/FileWhisperer.py:458-463 | returns the same record, renamed as the name setter does |
| Whisperer.GetOneFile | FileWhisperer/FileWhisperer.py:484-487 | a new record at the cleaned path, named after its last component, with original fields equal to the current ones |
| Tree.Expected | FileWhisperer/FileWhisperer.py:269-280 | succeeds exactly when every element is a name or a non-empty dict whose first value succeeds; the output has the input's length |
| Tree.ExpectedItem | FileWhisperer/FileWhisperer.py:270-278 | succeeds exactly for a file name or a non-empty dict whose first value is accepted |
| Tree.ExpectedAt | FileWhisperer/FileWhisperer.py:269-280 | element `i` of the output is element `i` of the input, cleaned: the order is kept |
| Tree.ListedFile | FileWhisperer/FileWhisperer.py:271-272 | a file name `f` becomes a record named `f` at `join(base, f)` |
| Tree.ListedDir | FileWhisperer/FileWhisperer.py:274-276 | a dict becomes a directory with its first key, holding its first value cleaned under `join(base, key)` |
| Tree.WellFormedAt | FileWhisperer/FileWhisperer.py:270-278 | a listing is accepted exactly when each of its elements is |
| Tree.CleanFiles | FileWhisperer/FileWhisperer.py:246-280 | fails exactly on a listing that raises; otherwise the records' names and paths form the expected tree, and every record is new, distinct from the others, and as its constructor leaves it |
| Tree.CleanItem | FileWhisperer/FileWhisperer.py:270-278 | one element, cleaned as `ExpectedItem` says, into new distinct records |
| Tree.GetDirectoryContents | FileWhisperer/FileWhisperer.py:224-244 | the listing is cleaned under the path as typed, not the cleaned path, into fresh, distinct, pristine records, so its result can be saved by `Tree.SaveCleanFiles` |
| Tree.SaveAll | FileWhisperer/FileWhisperer.py:468-473 | one new state per record: the records are saved one after another on the changing disk |
| Tree.SaveAllAppend | FileWhisperer/FileWhisperer.py:468-473 | saving a list is saving its first part, then the rest on the disk the first part left |
| Tree.SaveAllLikeRecords | FileWhisperer/FileWhisperer.py:469-470 | any step that agrees with the record save step saves a whole list the same way |
| Tree.SaveAllKeepsFields | FileWhisperer/FileWhisperer.py:468-473 | a step that keeps each record's name, path and metadata keeps them for every record of a list |
| Tree.SaveAllKeepsCount | FileWhisperer/FileWhisperer.py:468-473 | a step that creates and loses no file does so over a whole list |
| Tree.SaveCleanFilesKeeps | FileWhisperer/FileWhisperer.py:465-481 | saving a tree keeps every record's name, path and metadata, and creates or loses no file |
| Tree.SaveCleanFiles | FileWhisperer/FileWhisperer.py:465-481 | answers true; the records' new fields and the disk are those of applying `SaveSpec` to every record, depth first, in order |
| Tree.SaveEntry | FileWhisperer/FileWhisperer.py:469-473 | a record saves itself; a directory saves its tree, in order |
| Tree.SaveEntryAmong | FileWhisperer/FileWhisperer.py:469-473 | saving one entry leaves the records before and after it in the list unchanged |
| Tree.SaveSlice | FileWhisperer/FileWhisperer.py:468-473 | the saved prefix of the tree's records grows by one entry's records, saved on the disk the earlier ones left |
| Tree.SaveRecord | FileWhisperer/FileWhisperer.py:469-470 | one record's save is one step of the walk |

## Left out

- File system effects: `os.path.exists`, `os.rename` and `os.path.getmtime` are not performed. The disk is a map from paths to readable tags, and the modification time text is an input of `Probe`.
- Whisperer.SaveSpec: `os.rename` fails in the model only when the old file is no longer on disk. Other failures are not modelled: a target directory that does not exist (a new name holding a separator), permissions, a different device. Each of them raises inside the try block and gives False with the record unchanged (FileWhisperer/FileWhisperer.py:156, 167-170).
- Whisperer.SaveSpec: a path string is a file's identity in the model, so the refuse-to-overwrite check does not see two spellings of one file. For example, after the name of a record at `m//a.mp3` is set to `a.mp3`, the source finds `m/a.mp3` existing and refuses (FileWhisperer/FileWhisperer.py:152-154), while the model renames `m//a.mp3` to `m/a.mp3`. A case-only rename on a case-insensitive file system is lost the same way.
- The taglib and PIL internals are left out. Opening, `audio.save()` and EXIF decoding are reduced to the map lookup and the `Probe.exif` reader. A failure of `audio.save()` itself is not modelled.
- Whisperer.SaveAudioSpec: does not model taglib refusing a value that is not a string, because metadata values are strings here. EXIF values of other Python types are not modelled either.
- Metadata.AudioMetadata: does not model a failure of `os.path.getmtime`, which the source evaluates even when a DATE tag exists, because the modification time is an input of `Probe`.
- `_save_image_metadata` (FileWhisperer/FileWhisperer.py:214-215) calls the save step again. That recursion ends only when Python's recursion limit raises, and the error is turned into False. The model states the outcome, always False, instead of the recursion.
- `os.path.normpath` is a function parameter with no semantics.
- `opr.enumerate_directory` is external. Its nested-list output is the `listing` input of `Tree.GetDirectoryContents` and `Tree.CleanFiles`. Its `depth` argument is therefore not modelled.
- Tree.SaveCleanFiles: requires the records of the tree to be distinct objects, which `Tree.CleanFiles` guarantees. A tree that holds one record twice is not modelled. The empty dict, which raises inside the loop, cannot occur in an `Entry` tree.
- Logging and printing (`opr.print_from`, `display_files`), `__str__`, the command-line block and the deprecated `_get_all_metadata` are not modelled.
- The `Name` and `Path` getters are plain field reads of the class.
- setup.py is packaging metadata and is not part of this model.
