/**
 * The `CleanFile` record, the name setter that keeps the extension, the save step that
 * renames a file on disk and then writes its tags, and the two metadata dispatchers.
 *
 * The disk is a map from every existing path to what taglib can read there: `Some(tags)`
 * for a file it opens, `None` for any other file. Renaming moves an entry to a new key.
 */
module Whisperer {
  import opened Wrappers
  import opened Paths
  import opened Formats
  import opened PathCleaning
  import opened Metadata

  type FileSystem = map<string, Option<TagMap>>

  /**
   * What the readers consult besides the disk, left opaque: `os.path.normpath`, the
   * formatted modification time of a path, and the EXIF dictionary PIL yields for a path
   * (None when there is none or reading fails).
   */
  datatype Probe = Probe(normpath: string -> string, mtime: string -> string, exif: string -> Option<Dict>)

  /** `taglib.File(path)`: the tags of a file taglib can open, None when it raises. */
  function Open(fs: FileSystem, path: string): Option<TagMap>
  {
    if path in fs then fs[path] else None
  }

  /** `get_metadata_omni`: clean the path, then read audio tags, EXIF data or nothing. */
  function GetMetadataOmni(path: string, fs: FileSystem, probe: Probe): (r: Option<Dict>)
    ensures var p := CleanPath(path, probe.normpath);
      && (r.Some? ==> KindOf(p) != Unsupported)
      && (KindOf(p) == Audio ==>
            (r.Some? <==> Open(fs, p).Some? && forall i :: 0 <= i < |AudioKeys| && AudioKeys[i] in Open(fs, p).value ==> Open(fs, p).value[AudioKeys[i]] != [])
            && (r.Some? ==>
                  |r.value| == |AudioKeys|
                  && forall i :: 0 <= i < |AudioKeys| ==>
                    r.value[i].0 == AudioKeys[i]
                    && r.value[i].1 == Some(if AudioKeys[i] in Open(fs, p).value then Open(fs, p).value[AudioKeys[i]][0]
                                            else AudioDefaults(p, probe.mtime(p))[i])))
      && (KindOf(p) == Image ==> r == probe.exif(p))
  {
    var p := CleanPath(path, probe.normpath);
    match KindOf(p)
    case Audio => AudioMetadata(p, Open(fs, p), probe.mtime(p))
    case Image => probe.exif(p)
    case Unsupported => None
  }

  /** The fields of a record, as a value. */
  datatype FileState = FileState(name: string, path: string, originalName: string, originalPath: string, metadata: Option<Dict>)

  /** The name the `Name` setter stores: `value`, with the current extension appended if missing. */
  function RenamedName(path: string, value: string): (r: string)
    ensures EndsWith(r, Ext(path))
    ensures EndsWith(value, Ext(path)) ==> r == value
    ensures !EndsWith(value, Ext(path)) ==> r == value + Ext(path)
  {
    var ext := Ext(path);
    if EndsWith(value, ext) then value
    else
      assert (value + ext)[|value + ext| - |ext|..] == ext;
      value + ext
  }

  /**
   * The path the `Name` setter stores: the new name joined to the old directory. A name
   * without a separator keeps the file in that directory, as the final component.
   */
  function RenamedPath(path: string, value: string): (r: string)
    ensures Sep !in value ==> Dirname(r) == Dirname(path) && Basename(r) == RenamedName(path, value)
  {
    var r := Join(Dirname(path), RenamedName(path, value));
    if Sep in value then r
    else
      NoSepInRenamedName(path, value);
      JoinDirname(Dirname(path), RenamedName(path, value));
      r
  }

  lemma NoSepInRenamedName(path: string, value: string)
    requires Sep !in value
    ensures Sep !in RenamedName(path, value)
  {
    var n := RenamedName(path, value);
    var e := Ext(path);
    forall i | 0 <= i < |n| ensures n[i] != Sep {
      if i >= |value| { assert n[i] == e[i - |value|]; } else { assert n[i] == value[i]; }
    }
  }

  /**
   * A new name without a separator keeps the file in its directory: the directory part is
   * unchanged and the final component is the stored name, which ends with the old extension.
   */
  lemma RenameStaysInDirectory(path: string, value: string)
    requires Sep !in value
    ensures Dirname(RenamedPath(path, value)) == Dirname(path)
    ensures Basename(RenamedPath(path, value)) == RenamedName(path, value)
    ensures EndsWith(RenamedPath(path, value), Ext(path))
  {
    NoSepInRenamedName(path, value);
    JoinDirname(Dirname(path), RenamedName(path, value));
    var n := RenamedName(path, value);
    var p := RenamedPath(path, value);
    SuffixOfSuffix(p, n, Ext(path));
  }

  /** The part of the stored name before the kept extension has a character other than a dot. */
  predicate StemVisible(path: string, value: string)
  {
    var e := Ext(path);
    var n := RenamedName(path, value);
    HasNonDot(n, 0, |n| - |e|)
  }

  /**
   * Once renamed, the file still reports the old extension, provided there was one and the
   * new stem is not made of dots only (splitext treats leading dots as part of the name).
   */
  lemma RenameKeepsExtension(path: string, value: string)
    requires Sep !in value && Ext(path) != [] && StemVisible(path, value)
    ensures Ext(RenamedPath(path, value)) == Ext(path)
  {
    NoSepInRenamedName(path, value);
    var n := RenamedName(path, value);
    ExtOfJoin(Dirname(path), n);
    ExtOfDottedName(n, Ext(path));
  }

  /** Setting the same name twice gives what setting it once gives. */
  lemma RenameIdempotent(path: string, value: string)
    requires Sep !in value && (Ext(path) != [] ==> StemVisible(path, value))
    ensures RenamedName(RenamedPath(path, value), value) == RenamedName(path, value)
    ensures RenamedPath(RenamedPath(path, value), value) == RenamedPath(path, value)
  {
    var p2 := RenamedPath(path, value);
    RenameStaysInDirectory(path, value);
    var n := RenamedName(path, value);
    if Ext(path) != [] {
      RenameKeepsExtension(path, value);
      assert RenamedName(p2, value) == n;
    } else {
      assert n == value;
      ExtOfJoin(Dirname(path), value);
      assert EndsWith(value, Ext(p2));
      assert RenamedName(p2, value) == n;
    }
    assert Dirname(p2) == Dirname(path);
  }

  /** `os.rename(from, to)`: the entry at `from` moves to `to`. */
  function Rename(fs: FileSystem, from: string, to: string): (r: FileSystem)
    requires from in fs && to !in fs
    ensures r.Keys == fs.Keys - {from} + {to}
    ensures |r| == |fs|
    ensures r[to] == fs[from]
    ensures forall q :: q in fs && q != from ==> r[q] == fs[q]
  {
    var rest := fs - {from};
    assert |rest.Keys| == |fs.Keys - {from}| == |fs.Keys| - 1;
    rest[to := fs[from]]
  }

  /** `_save_audio_metadata`: open, write the dictionary's tags, save; False if taglib cannot open it. */
  function SaveAudioSpec(path: string, md: Option<Dict>, fs: FileSystem): (r: (bool, FileSystem))
    ensures r.0 <==> Open(fs, path).Some?
    ensures !r.0 ==> r.1 == fs
    ensures r.0 ==> path in r.1 && r.1[path] == Some(ApplyMetadata(Open(fs, path).value, OrEmpty(md)))
    ensures r.1.Keys == fs.Keys
    ensures forall q :: q in fs && q != path ==> r.1[q] == fs[q]
  {
    match Open(fs, path)
    case None => (false, fs)
    case Some(tags) => (true, fs[path := Some(ApplyMetadata(tags, OrEmpty(md)))])
  }

  /**
   * `_save_metadata_omni`: audio files get their tags written; image files always fail
   * (their writer calls the save step again, which recurses until Python's recursion limit
   * raises and the error is turned into False); any other file succeeds untouched.
   */
  function SaveOmniSpec(path: string, md: Option<Dict>, fs: FileSystem): (r: (bool, FileSystem))
    ensures KindOf(path) == Audio ==> r == SaveAudioSpec(path, md, fs)
    ensures KindOf(path) == Image ==> r == (false, fs)
    ensures KindOf(path) == Unsupported ==> r == (true, fs)
    ensures r.1.Keys == fs.Keys
    ensures forall q :: q in fs && q != path ==> r.1[q] == fs[q]
  {
    match KindOf(path)
    case Audio => SaveAudioSpec(path, md, fs)
    case Image => (false, fs)
    case Unsupported => (true, fs)
  }

  datatype SaveOutcome = SaveOutcome(ok: bool, state: FileState, fs: FileSystem)

  /**
   * `_save_metadata`: if the name changed, refuse when the new path exists, otherwise rename
   * on disk and let the original fields catch up; then write the metadata.
   */
  function SaveSpec(st: FileState, fs: FileSystem): (o: SaveOutcome)
    // Only the original fields can change, and only to the current ones.
    ensures o.state == st || o.state == st.(originalName := st.name, originalPath := st.path)
    // No file is created or lost.
    ensures |o.fs| == |fs|
  {
    if st.originalPath != st.path && st.path in fs then SaveOutcome(false, st, fs)
    else if st.originalPath != st.path && st.originalPath !in fs then SaveOutcome(false, st, fs)
    else
      var renaming := st.originalPath != st.path;
      var st1 := if renaming then st.(originalName := st.name, originalPath := st.path) else st;
      var fs1 := if renaming then Rename(fs, st.originalPath, st.path) else fs;
      var (ok, fs2) := SaveOmniSpec(st1.path, st1.metadata, fs1);
      assert fs2.Keys == fs1.Keys;
      SaveOutcome(ok, st1, fs2)
  }

  /** The cases of the save step, and what it leaves alone. */
  lemma SaveCases(st: FileState, fs: FileSystem)
    ensures var o := SaveSpec(st, fs);
      // Refuse to overwrite: nothing happens.
      && (st.path != st.originalPath && st.path in fs ==> !o.ok && o.state == st && o.fs == fs)
      // The rename itself fails when the old file is gone: nothing happens.
      && (st.path != st.originalPath && st.originalPath !in fs ==> !o.ok && o.state == st && o.fs == fs)
      // A rename moves the file and the originals catch up.
      && (st.path != st.originalPath && st.path !in fs && st.originalPath in fs ==>
            o.state == st.(originalName := st.name, originalPath := st.path)
            && st.path in o.fs && st.originalPath !in o.fs)
      // No rename is attempted when the path is unchanged.
      && (st.path == st.originalPath ==> o.state == st && o.fs.Keys == fs.Keys)
      // A successful save leaves the record in step with the disk.
      && (o.ok ==> o.state.originalPath == o.state.path && KindOf(st.path) != Image)
      && (o.ok && KindOf(st.path) == Audio ==> st.path in o.fs)
      // A renamed audio file keeps its tags, with the record's metadata written over them.
      && (st.path != st.originalPath && st.path !in fs && st.originalPath in fs && o.ok && KindOf(st.path) == Audio ==>
            fs[st.originalPath].Some?
            && o.fs[st.path] == Some(ApplyMetadata(fs[st.originalPath].value, OrEmpty(st.metadata))))
  {
  }

  /** The save step touches no path but the record's old and new ones. */
  lemma SaveTouchesOnlyItsPaths(st: FileState, fs: FileSystem, q: string)
    requires q != st.originalPath && q != st.path
    ensures var o := SaveSpec(st, fs); (q in o.fs <==> q in fs) && (q in fs ==> o.fs[q] == fs[q])
  {
  }

  /** After a save that succeeded, saving again renames nothing and keeps the same files. */
  lemma SaveAgainRenamesNothing(st: FileState, fs: FileSystem)
    requires SaveSpec(st, fs).ok
    ensures var o := SaveSpec(st, fs); var o2 := SaveSpec(o.state, o.fs);
      o2.state == o.state && o2.fs.Keys == o.fs.Keys
  {
  }

  class CleanFile {
    var name: string
    var originalName: string
    var path: string
    var originalPath: string
    var metadata: Option<Dict>

    function State(): FileState
      reads this
    {
      FileState(name, path, originalName, originalPath, metadata)
    }

    /** A record for `path`, named `name`, in step with the disk, with its metadata read. */
    constructor (name: string, path: string, fs: FileSystem, probe: Probe)
      ensures State() == FileState(name, path, name, path, GetMetadataOmni(path, fs, probe))
    {
      this.name := name;
      originalName := name;
      this.path := path;
      originalPath := path;
      metadata := GetMetadataOmni(path, fs, probe);
    }

    /** The `Name` setter: keep the extension, rebuild the path in the same directory. */
    method SetName(value: string)
      modifies this
      ensures State() == old(State()).(name := RenamedName(old(path), value), path := RenamedPath(old(path), value))
    {
      name, path := RenamedName(path, value), RenamedPath(path, value);
    }

    /**
     * The `Metadata` property: a notice when there is no metadata; otherwise one
     * `key: value` line per item, which splitting at newlines gives back when no key or
     * value holds a newline.
     */
    function MetadataText(): (r: string)
      reads this
      ensures metadata.None? || metadata.value == [] ==> r == name + " has no metadata"
      ensures metadata.Some? && metadata.value != [] && (forall i :: 0 <= i < |metadata.value| ==> '\n' !in Line(metadata.value[i])) ==>
        var d := metadata.value;
        |SplitLines(r)| == |d| && forall i :: 0 <= i < |d| ==> SplitLines(r)[i] == d[i].0 + ": " + ValueText(d[i].1)
    {
      if metadata.Some? && metadata.value != [] && (forall i :: 0 <= i < |metadata.value| ==> '\n' !in Line(metadata.value[i])) then
        DescribeSplits(name, metadata.value);
        Describe(name, metadata)
      else
        Describe(name, metadata)
    }

    /** The `Metadata_dict` getter. */
    function MetadataDict(): Dict
      reads this
    {
      OrEmpty(metadata)
    }

    /** The `Metadata_dict` setter; the getter then gives back the dictionary set. */
    method SetMetadataDict(value: Dict)
      modifies this
      ensures State() == old(State()).(metadata := Some(value))
      ensures MetadataDict() == value
    {
      metadata := Some(value);
    }

    /** `Save`: the save step, its result discarded. */
    method Save(fs: FileSystem) returns (fs': FileSystem)
      modifies this
      ensures State() == SaveSpec(old(State()), fs).state
      ensures fs' == SaveSpec(old(State()), fs).fs
    {
      var _, fs1 := SaveMetadata(this, fs);
      fs' := fs1;
    }
  }

  /** `_save_audio_metadata`. */
  method SaveAudioMetadata(file: CleanFile, fs: FileSystem) returns (ok: bool, fs': FileSystem)
    ensures (ok, fs') == SaveAudioSpec(file.path, file.metadata, fs)
  {
    var path := file.path;
    var audio := Open(fs, path);
    if audio.None? {
      return false, fs;
    }
    var tags := audio.value;
    if file.metadata.Some? && file.metadata.value != [] {
      tags := WriteTags(tags, file.MetadataDict());
    } else {
      NothingWrittenWithoutValues(tags, file.MetadataDict());
    }
    ok, fs' := true, fs[path := Some(tags)];
  }

  /** `_save_metadata_omni`. */
  method SaveMetadataOmni(file: CleanFile, fs: FileSystem) returns (ok: bool, fs': FileSystem)
    ensures (ok, fs') == SaveOmniSpec(file.path, file.metadata, fs)
  {
    if AnyEndsWith(file.path, AudioFormats) {
      ok, fs' := SaveAudioMetadata(file, fs);
    } else if AnyEndsWith(file.path, ImageFormats) {
      ok, fs' := false, fs;
    } else {
      ok, fs' := true, fs;
    }
  }

  /** `_save_metadata`. */
  method SaveMetadata(file: CleanFile, fs: FileSystem) returns (ok: bool, fs': FileSystem)
    modifies file
    ensures SaveOutcome(ok, file.State(), fs') == SaveSpec(old(file.State()), fs)
  {
    fs' := fs;
    if file.originalPath != file.path {
      if file.path in fs' {
        return false, fs;
      }
      if file.originalPath !in fs' {
        return false, fs;
      }
      fs' := Rename(fs', file.originalPath, file.path);
      file.originalName := file.name;
      file.originalPath := file.path;
    }
    ok, fs' := SaveMetadataOmni(file, fs');
  }

  /** `rename_file`: set the name and hand back the same record. */
  method RenameFile(file: CleanFile, newName: string) returns (r: CleanFile)
    modifies file
    ensures r == file
    ensures file.State() == old(file.State()).(name := RenamedName(old(file.path), newName),
                                               path := RenamedPath(old(file.path), newName))
  {
    file.SetName(newName);
    r := file;
  }

  /** `get_one_file`: a record for the cleaned path, named after its final component. */
  method GetOneFile(path: string, fs: FileSystem, probe: Probe) returns (file: CleanFile)
    ensures fresh(file)
    ensures var p := CleanPath(path, probe.normpath);
      file.State() == FileState(Basename(p), p, Basename(p), p, GetMetadataOmni(p, fs, probe))
  {
    var p := CleanPath(path, probe.normpath);
    file := new CleanFile(Basename(p), p, fs, probe);
  }
}
